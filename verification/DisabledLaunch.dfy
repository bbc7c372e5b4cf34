/** The build without guest launch: entering and exiting settles down. */
module DisabledLaunch {
  import opened Bytes
  import opened Emulator
  import opened EntryTranslation
  import opened ExitTranslation
  import opened Launches
  import opened Resume
  import opened RoundTrip
  import opened SegmentRights
  import opened ShadowVmcs
  import opened Vmcb
  import opened Vmx
  import opened WorldSwitch

  /** The page after a launch that does not enter the guest. */
  ghost function MarkedPage(st: Emu): Page
    requires st.page.Some?
  {
    Set(EntryPage(st), ExitCode, VMEXIT_INVALID)
  }

  lemma MarkedSlots(st: Emu)
    requires st.page.Some?
    ensures forall s: Slot :: Get(MarkedPage(st), s)
                              == if s == ExitCode then VMEXIT_INVALID
                                 else if s == Rax then st.rax
                                 else EntrySlot(st.store, st.page.value, s)
    ensures forall k: nat :: k < PAGE_SIZE && !Covered(k) ==> MarkedPage(st)[k] == st.page.value[k]
  {
    hide Get, EntryPage, EntryValue, Covered;
    EntryPageSlots(st);
    GetSet(EntryPage(st), ExitCode, VMEXIT_INVALID);
    assert Fit(ExitCode, VMEXIT_INVALID) == VMEXIT_INVALID;
  }

  /** The launch does not depend on the guest it does not enter. */
  lemma DisabledResult(st: Emu, guest: Guest)
    requires st.page.Some? && !st.launchBuilt
    ensures LaunchResume(st, guest) ==
      st.(store := Exit(st.store, MarkedPage(st), st.features), launched := true, rax := st.rax,
          page := Some(MarkedPage(st)))
  {
    hide Get, Set, Exit, EntryPage, EntryValue, Covered;
    MarkedSlots(st);
  }

  /** A launch is possible in such a build; the shadow may be full. */
  ghost predicate Ready(st: Emu) {
    st.page.Some? && !st.launchBuilt && |st.store| <= MAX_FIELDS
  }

  /** The state after a launch. */
  ghost function After(st: Emu): Emu
    requires st.page.Some?
  {
    st.(store := Exit(st.store, MarkedPage(st), st.features), launched := true, page := Some(MarkedPage(st)))
  }

  /** A slot at the second launch: what came out of the first, put back in, where the shadow kept it. */
  lemma SecondSlot(st: Emu, s: Slot)
    requires Ready(st)
    ensures Get(MarkedPage(After(st)), s) ==
            if WrittenBack(s) && SlotStored(st.store, s) then Fit(s, IntoSlot(s, FromSlot(s, Get(MarkedPage(st), s))))
            else Get(MarkedPage(st), s)
  {
    hide Get, MarkedPage, Exit, EntryValue, IntoSlot, FromSlot, WrittenBack, Lookup, GuestField, SlotStored, Fit;
    var q := MarkedPage(st);
    MarkedSlots(st);
    MarkedSlots(After(st));
    if WrittenBack(s) {
      ReportedAgain(st, s);
    } else {
      UnreportedEntry(st.store, q, st.features, s);
    }
  }

  lemma ReportedAgain(st: Emu, s: Slot)
    requires Ready(st) && WrittenBack(s)
    ensures s != Rax && s != ExitCode
    ensures EntryValue(After(st).store, s)
            == if SlotStored(st.store, s) then Some(IntoSlot(s, FromSlot(s, Get(MarkedPage(st), s)))) else EntryValue(st.store, s)
    ensures EntryValue(st.store, s).Some?
  {
    hide Get, MarkedPage, Exit, EntryValue, IntoSlot, FromSlot, Lookup, GuestField, SlotStored;
    ReportedEntry(st.store, s);
    ReportedEntry(After(st).store, s);
    SlotReadsExactly(st.store, MarkedPage(st), st.features, s);
  }

  /** What the exit makes of a slot is the same after the second launch. */
  lemma SameReport(st: Emu, s: Slot)
    requires Ready(st) && WrittenBack(s)
    ensures FromSlot(s, Get(MarkedPage(After(st)), s)) == FromSlot(s, Get(MarkedPage(st), s))
  {
    hide Get, MarkedPage, IntoSlot, FromSlot, WrittenBack, Fit, SlotStored;
    SecondSlot(st, s);
    GetFits(MarkedPage(st), s);
    SlotStable(s, Get(MarkedPage(st), s));
  }

  lemma MarkedReason(st: Emu)
    requires st.page.Some?
    ensures SvmExitToVmxReason(Get(MarkedPage(st), ExitCode), Get(MarkedPage(st), ExitInfo1)) == EXIT_UNKNOWN
  {
    hide Get, MarkedPage;
    MarkedSlots(st);
  }

  lemma SameReason(st: Emu)
    requires Ready(st)
    ensures ReasonValue(MarkedPage(After(st))) == ReasonValue(MarkedPage(st)) == Wide32(EXIT_UNKNOWN)
  {
    hide Get, MarkedPage, Wide32, SvmExitToVmxReason;
    MarkedReason(st);
    MarkedReason(After(st));
  }

  lemma SameLength(st: Emu)
    requires Ready(st)
    ensures InstrLen(MarkedPage(After(st)), st.features) == InstrLen(MarkedPage(st), st.features)
  {
    hide Get, MarkedPage, LengthBetween;
    SecondSlot(st, Nrip);
    assert WrittenBack(Rip);
    SameReport(st, Rip);
  }

  /** The second exit makes the writes of the first. */
  lemma SameWrites(st: Emu)
    requires Ready(st)
    ensures WriteBack(MarkedPage(After(st)), st.features) == WriteBack(MarkedPage(st), st.features)
  {
    hide Get, MarkedPage, FromSlot, WrittenBack, WriteBack, GuestField, InstrLen, ReasonValue, SlotAt;
    var q, q', f := MarkedPage(st), MarkedPage(After(st)), st.features;
    SameReason(st);
    SameLength(st);
    ExitInfoAt(q, f);
    ExitInfoAt(q', f);
    forall i | 0 <= i < |WriteBack(q, f)|
      ensures WriteBack(q', f)[i] == WriteBack(q, f)[i]
    {
      WriteBackElement(q, f, i);
      WriteBackElement(q', f, i);
      if i < SLOT_WRITES {
        SameReport(st, SlotAt(i));
      }
    }
  }

  /** So the shadow does not change at the second launch, dropped writes being dropped again. */
  lemma SameStore(st: Emu)
    requires Ready(st)
    ensures Exit(After(st).store, MarkedPage(After(st)), st.features) == After(st).store
  {
    hide MarkedPage, WriteBack, EncodingAt;
    var ws := WriteBack(MarkedPage(st), st.features);
    SameWrites(st);
    forall i, j | 0 <= i < j < |ws|
      ensures ws[i].enc != ws[j].enc
    {
      WriteBackEncodingAt(MarkedPage(st), st.features, i);
      WriteBackEncodingAt(MarkedPage(st), st.features, j);
      EncodingsDiffer(i, j);
    }
    ReplayAgain(st.store, ws);
  }

  /** The rights of all eight segments were kept by the first launch. */
  predicate AllRightsKept(m: Store) {
    forall seg: Seg | !seg.GDTR? && !seg.IDTR? :: RightsKept(Low32(Lookup(m, SegEncoding(seg, Attrib).value)))
  }

  lemma SlotSettles(st: Emu, s: Slot)
    requires Ready(st)
    ensures Get(MarkedPage(After(st)), s) == Get(MarkedPage(st), s)
            <==> (s.Segment? && s.part.Attrib? && WrittenBack(s) ==>
                    RightsKept(Low32(Lookup(st.store, SegEncoding(s.seg, Attrib).value))))
  {
    hide Get, MarkedPage, EntryValue, IntoSlot, FromSlot, Lookup, Fit, RightsKept, Low32, SlotStored;
    SecondSlot(st, s);
    if WrittenBack(s) {
      MarkedSlots(st);
      ReportedEntry(st.store, s);
      GetFits(MarkedPage(st), s);
      SlotReturns(s, Lookup(st.store, GuestField(s).value), Get(MarkedPage(st), s));
      SlotReadsExactly(st.store, MarkedPage(st), st.features, s);
      NoRightsKept();
    }
  }

  /** A missing access-rights field has nothing to lose. */
  lemma NoRightsKept()
    ensures RightsKept(Low32(0))
  {
  }

  lemma UncoveredSettles(st: Emu)
    requires Ready(st)
    ensures forall k: nat :: k < PAGE_SIZE && !Covered(k) ==> MarkedPage(After(st))[k] == MarkedPage(st)[k]
  {
    hide MarkedPage, Covered;
    MarkedSlots(After(st));
  }

  /** The page is the same at the second launch exactly when every segment was unusable, present, or
      had no rights to lose. */
  lemma PageSettles(st: Emu)
    requires Ready(st)
    ensures MarkedPage(After(st)) == MarkedPage(st) <==> AllRightsKept(st.store)
  {
    hide Get, MarkedPage, RightsKept, Low32, Lookup, Covered;
    forall s: Slot
      ensures AllRightsKept(st.store) ==> Get(MarkedPage(After(st)), s) == Get(MarkedPage(st), s)
    {
      SlotSettles(st, s);
    }
    if AllRightsKept(st.store) {
      UncoveredSettles(st);
      PagesEqual(MarkedPage(After(st)), MarkedPage(st));
    }
    if MarkedPage(After(st)) == MarkedPage(st) {
      forall seg: Seg | !seg.GDTR? && !seg.IDTR?
        ensures RightsKept(Low32(Lookup(st.store, SegEncoding(seg, Attrib).value)))
      {
        assert WrittenBack(Segment(seg, Attrib));
        SlotSettles(st, Segment(seg, Attrib));
      }
    }
  }

  lemma StoreAfter(st: Emu)
    requires Ready(st)
    ensures |After(st).store| <= MAX_FIELDS
  {
    hide MarkedPage, WriteBack;
    ReplayCount(st.store, WriteBack(MarkedPage(st), st.features));
  }

  /** The second launch changes at most the page. */
  lemma SecondLaunch(st: Emu)
    requires Ready(st)
    ensures Ready(After(st))
    ensures After(After(st)) == After(st).(page := Some(MarkedPage(After(st))))
  {
    hide MarkedPage, Exit;
    SameStore(st);
    StoreAfter(st);
  }

  /** The rights in the shadow after the first launch are kept by the second. */
  lemma RightsSettle(st: Emu)
    requires Ready(st)
    ensures AllRightsKept(After(st).store)
  {
    hide Get, MarkedPage, Exit, Lookup, RightsKept, Low32, Wide32, Low16, SvmAttribToVmxAr, SlotStored;
    NoRightsKept();
    forall seg: Seg | !seg.GDTR? && !seg.IDTR?
      ensures RightsKept(Low32(Lookup(After(st).store, SegEncoding(seg, Attrib).value)))
    {
      var s := Segment(seg, Attrib);
      assert WrittenBack(s);
      SlotReadsExactly(st.store, MarkedPage(st), st.features, s);
      LowOfWide(SvmAttribToVmxAr(Low16(Get(MarkedPage(st), s))));
      ConvertedRightsKept(Low16(Get(MarkedPage(st), s)));
    }
  }

  lemma ConvertedRightsKept(attrib: bv16)
    ensures RightsKept(SvmAttribToVmxAr(attrib))
  {
  }

  /** Launching again and again, over any shadow and with the guests that are not entered left open: the
      second launch leaves the shadow, the guest RAX, the registers and the reported reason as the first
      did; the page too, exactly when all segment rights were kept; and the third changes nothing at all.
      The reason is that of a failed entry, unless the shadow had no place for it. */
  lemma FixedPoint(st: Emu, g1: Guest, g2: Guest, g3: Guest)
    requires Ready(st)
    ensures var st1 := LaunchResume(st, g1); var st2 := LaunchResume(st1, g2);
      && st2 == st1.(page := st2.page)
      && (st2 == st1 <==> AllRightsKept(st.store))
      && LaunchResume(st2, g3) == st2
      && LaunchReason(st, g1) == LaunchReason(st1, g2)
         == (if Stored(st.store, SLOT_WRITES) then EXIT_UNKNOWN else EXIT_EXCEPTION_NMI)
  {
    hide MarkedPage, Exit, LaunchResume, AllRightsKept, Lookup, Stored, LaunchReason;
    DisabledResult(st, g1);
    DisabledResult(After(st), g2);
    DisabledResult(After(After(st)), g3);
    SecondLaunch(st);
    SecondLaunch(After(st));
    PageSettles(st);
    RightsSettle(st);
    PageSettles(After(st));
    SettledReason(st, g1);
    SettledReasonAgain(st, g1, g2);
  }

  lemma SettledReason(st: Emu, guest: Guest)
    requires Ready(st)
    ensures LaunchReason(st, guest) == if Stored(st.store, SLOT_WRITES) then EXIT_UNKNOWN else EXIT_EXCEPTION_NMI
  {
    hide Get, Set, EntryPage, LaunchReason, Stored, LaunchResume;
    ReasonVisible(st, guest);
    MarkedReason(st);
  }

  /** The reason is read from the shadow, which the second launch leaves alone. */
  lemma SettledReasonAgain(st: Emu, g1: Guest, g2: Guest)
    requires Ready(st)
    ensures LaunchReason(LaunchResume(st, g1), g2) == LaunchReason(st, g1)
  {
    hide MarkedPage, Exit, LaunchResume, Lookup, Low32;
    DisabledResult(st, g1);
    DisabledResult(After(st), g2);
    SecondLaunch(st);
  }
}
