/** What a guest finds when it is entered again: its own state, or what the shadow says. */
module Resume {
  import opened Bytes
  import opened Emulator
  import opened EntryTranslation
  import opened EventInjection
  import opened ExitTranslation
  import opened Launches
  import opened RoundTrip
  import opened SegmentRights
  import opened ShadowVmcs
  import opened Vmcb
  import opened Vmx
  import opened WorldSwitch

  // ----- the slots that an exit reports, and the others -----

  lemma WrittenBackIsGuest(s: Slot)
    requires WrittenBack(s)
    ensures GuestField(s).Some?
  {
  }

  lemma UnreportedField(s: Slot)
    requires GuestField(s).Some? && !WrittenBack(s)
    ensures !ExitEncoding(GuestField(s).value)
  {
    hide GuestField, WrittenBack;
    GuestFieldsDistinct(s, s);
    forall t: Slot | WrittenBack(t)
      ensures GuestField(t) != GuestField(s)
    {
      WrittenBackIsGuest(t);
      GuestFieldsDistinct(s, t);
    }
  }

  /** The slots that an exit does not report get the same value from the next entry. */
  lemma UnreportedEntry(m: Store, q: Page, f: bv32, s: Slot)
    requires !WrittenBack(s)
    ensures EntryValue(Exit(m, q, f), s) == EntryValue(m, s)
  {
    hide Exit, Lookup, IntoSlot, WrittenBack, GuestField, EntryValue;
    var m' := Exit(m, q, f);
    if GuestField(s).Some? {
      UnreportedField(s);
      ExitKeeps(m, q, f, GuestField(s).value);
      GuestEntry(m, s);
      GuestEntry(m', s);
    } else {
      forall e: Encoding | e in CONTROLS
        ensures Lookup(m', e) == Lookup(m, e)
      {
        NotExitEncoding(e);
        ExitKeeps(m, q, f, e);
      }
      SameControls(m, m', s);
    }
  }

  const CONTROLS: set<Encoding> := {
    PIN_EXEC_CONTROL, CPU_EXEC_CONTROL, SECONDARY_EXEC_CTL, EXCEPTION_BITMAP,
    EPT_POINTER, VIRTUAL_PROCESSOR_ID, VM_ENTRY_INTR_INFO, VM_ENTRY_EXCEPTION_ERROR}

  /** What is not a guest field depends on the control fields alone. */
  lemma SameControls(m: Store, m': Store, s: Slot)
    requires GuestField(s).None? && forall e :: e in CONTROLS ==> Lookup(m', e) == Lookup(m, e)
    ensures EntryValue(m', s) == EntryValue(m, s)
  {
    hide Lookup, Low32, Has, PageBase, Eventinj, AsidFor;
  }

  lemma ReportedEntry(m: Store, s: Slot)
    requires WrittenBack(s)
    ensures EntryValue(m, s) == Some(IntoSlot(s, Lookup(m, GuestField(s).value)))
    ensures s != Rax && s != ExitCode && s != Nrip
  {
    hide IntoSlot, Lookup;
    GuestEntry(m, s);
  }

  // ----- the next entry -----

  /** The value that the next entry gives to a slot which the guest left at v and the exit reported. */
  function Returned(m: Store, s: Slot, v: bv64): bv64 {
    Fit(s, IntoSlot(s, if SlotStored(m, s) then FromSlot(s, v) else 0))
  }

  /** Every slot of the page with which the guest is entered again, whatever it did, room in the shadow or
      not: what it left if the exit reports the slot, the first entry's value if only entries write it, and
      otherwise again what the guest left. */
  lemma ResumedSlot(st: Emu, guest: Guest, s: Slot)
    requires st.page.Some? && |st.store| <= MAX_FIELDS
    ensures var q := AfterGuest(st, guest).0;
            Get(EntryPage(LaunchResume(st, guest)), s)
            == if WrittenBack(s) then Returned(st.store, s, Get(q, s))
               else if EntryValue(st.store, s).Some? then Get(EntryPage(st), s)
               else Get(q, s)
  {
    hide Get, EntryPage, AfterGuest, Exit, EntryValue, IntoSlot, FromSlot, WrittenBack, Lookup, GuestField, SlotStored, Fit;
    var q, st' := AfterGuest(st, guest).0, LaunchResume(st, guest);
    EntryPageSlots(st);
    EntryPageSlots(st');
    RaxUnwritten(st.store);
    if WrittenBack(s) {
      ReportedEntry(st'.store, s);
      SlotReadsExactly(st.store, q, st.features, s);
    } else {
      UnreportedEntry(st.store, q, st.features, s);
    }
  }

  lemma RaxUnwritten(m: Store)
    ensures EntryValue(m, Rax).None? && !WrittenBack(Rax)
  {
  }

  /** No byte outside the slots is lost. */
  lemma ResumedBytes(st: Emu, guest: Guest)
    requires st.page.Some?
    ensures forall k: nat :: k < PAGE_SIZE && !Covered(k) ==>
      EntryPage(LaunchResume(st, guest))[k] == AfterGuest(st, guest).0[k]
  {
    hide Get, EntryPage, AfterGuest, Exit, Covered;
    EntryPageSlots(LaunchResume(st, guest));
  }

  // ----- when that is what the guest left -----

  predicate AttribSettled(attrib: bv16) {
    attrib == 0 || (attrib & 0x80 != 0 && attrib & 0xF000 == 0)
  }

  /** A slot value that comes through the shadow unchanged: attributes of present segments without bits
      above the twelve, or none at all; EFER with SVME. */
  predicate Returns(s: Slot, v: bv64) {
    match s
    case Segment(_, Attrib) => AttribSettled(Low16(v))
    case Efer => SvmeSet(v)
    case _ => true
  }

  lemma AttribReturned(v: bv64)
    requires Keep(2, v) == v
    ensures Keep(2, Wide16(VmxArToSvmAttrib(Low32(ArOfAttrib(v))))) == v <==> AttribSettled(Low16(v))
  {
    hide VmxArToSvmAttrib, SvmAttribToVmxAr, Low32, Keep, Wide16, Wide32, Low16, AttribSettled;
    var a := Low16(v);
    LowOfWide(SvmAttribToVmxAr(a));
    AttribThereAndBack(a);
    WideAttrib(v, a, VmxArToSvmAttrib(SvmAttribToVmxAr(a)));
    AttribUnchanged(a);
  }

  lemma WideAttrib(v: bv64, a: bv16, b: bv16)
    requires Keep(2, v) == v && a == Low16(v)
    ensures Keep(2, Wide16(b)) == v <==> b == a
  {
    hide Keep, Wide16, Low16;
    AttribFits(b);
    LowWide(v);
    if Wide16(b) == Wide16(a) {
      WideInjective(a, b);
    }
  }

  lemma LowWide(v: bv64)
    ensures Wide16(Low16(v)) == Keep(2, v)
  {
  }

  lemma AttribUnchanged(a: bv16)
    ensures (if a & 0x80 != 0 then a & 0xFFF else 0) == a <==> AttribSettled(a)
  {
  }

  lemma SvmeReturned(v: bv64)
    ensures WithSvme(WithoutSvme(v)) == v <==> SvmeSet(v)
  {
  }

  lemma ReturnsExactly(s: Slot, v: bv64)
    requires WrittenBack(s) && Fit(s, v) == v
    ensures Fit(s, IntoSlot(s, FromSlot(s, v))) == v <==> Returns(s, v)
  {
    hide ArOfAttrib, VmxArToSvmAttrib, Low32, Low16, Wide16, WithSvme, WithoutSvme, SvmeSet, AttribSettled, Keep;
    match s
    case Segment(_, Attrib) => AttribReturned(v);
    case Efer =>
      SvmeReturned(v);
      KeepAll(WithSvme(WithoutSvme(v)));
    case _ =>
  }

  /** Exactly when a slot is entered as the guest left it: a reported one when it was stored and comes
      through the shadow unchanged, or was not and had what a missing field gives; one that only entries
      write when the guest had not changed it; any other always. */
  lemma ResumesAsLeft(st: Emu, guest: Guest, s: Slot)
    requires st.page.Some? && |st.store| <= MAX_FIELDS
    ensures var q := AfterGuest(st, guest).0;
            Get(EntryPage(LaunchResume(st, guest)), s) == Get(q, s)
            <==> if WrittenBack(s) then
                   (if SlotStored(st.store, s) then Returns(s, Get(q, s)) else Get(q, s) == Fit(s, IntoSlot(s, 0)))
                 else EntryValue(st.store, s).Some? ==> Get(q, s) == Get(EntryPage(st), s)
  {
    hide Get, EntryPage, AfterGuest, LaunchResume, EntryValue, IntoSlot, FromSlot, WrittenBack, SlotStored, Fit, Returns;
    ResumedSlot(st, guest, s);
    if WrittenBack(s) {
      GetFits(AfterGuest(st, guest).0, s);
      ReturnsExactly(s, Get(AfterGuest(st, guest).0, s));
    }
  }

  /** The guest state that entries write and exits do not report. */
  predicate OnlyEntered(s: Slot) {
    s == Gpat || (s.Segment? && (s.seg.GDTR? || s.seg.IDTR?) && (s.part.Base? || s.part.Limit?))
  }

  /** So a guest never keeps a change to its descriptor tables or its PAT: at the next entry they are again
      what the kernel last wrote to the shadow. */
  lemma TablesReset(st: Emu, guest: Guest, s: Slot)
    requires st.page.Some? && |st.store| <= MAX_FIELDS && OnlyEntered(s)
    ensures GuestField(s).Some?
    ensures Get(EntryPage(LaunchResume(st, guest)), s) == Get(EntryPage(st), s)
            == Fit(s, Lookup(st.store, GuestField(s).value))
  {
    hide Get, EntryPage, AfterGuest, LaunchResume, EntryValue, Lookup, IntoSlot, WrittenBack, GuestField, Fit, OnlyEntered;
    TableSlot(s);
    ResumedSlot(st, guest, s);
    EntryPageSlots(st);
    GuestEntry(st.store, s);
  }

  lemma TableSlot(s: Slot)
    requires OnlyEntered(s)
    ensures !WrittenBack(s) && GuestField(s).Some? && s != Rax && forall v: bv64 :: IntoSlot(s, v) == v
  {
  }
}
