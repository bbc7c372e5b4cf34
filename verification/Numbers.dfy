/** The two translations by field number, slot and bit alone: what VMRUN finds, what an exit writes, and what
    one launch does to the emulator. */
module Numbers {
  import opened Bytes
  import opened Emulator
  import opened EntryTranslation
  import opened ExitTranslation
  import opened Launches
  import opened SegmentRights
  import opened ShadowVmcs
  import opened Vmcb
  import opened Vmx
  import opened WorldSwitch

  /** The segment registers in the order of Intel SDM Vol. 3C, appendix B. */
  const VMX_SEGMENTS: seq<Seg> := [ES, CS, SS, DS, FS, GS, LDTR, TR, GDTR, IDTR]

  // ----- what VMRUN finds -----

  /** A guest field on its way into the page. */
  lemma EnteredField(st: Emu, s: Slot, e: Encoding)
    requires st.page.Some? && GuestField(s) == Some(e)
    ensures Get(EntryPage(st), s) == Fit(s, IntoSlot(s, Lookup(st.store, e)))
  {
    hide Get, EntryPage, Lookup, Fit, IntoSlot, EntryValue, GuestField;
    EntryPageSlots(st);
    GuestEntry(st.store, s);
    GuestSlotsNotRax();
  }

  lemma GuestSlotsNotRax()
    ensures GuestField(Rax).None?
  {
  }

  /** A 64-bit slot that is copied as it is, and its field. */
  predicate Copied(s: Slot, e: Encoding) {
    GuestField(s) == Some(e) && !s.Segment? && !s.Efer?
  }

  lemma CopiedRegisters()
    ensures Copied(Cr0, 0x6800) && Copied(Cr3, 0x6802) && Copied(Cr4, 0x6804) && Copied(Cr2, 0x6822)
    ensures Copied(Rsp, 0x681C) && Copied(Rip, 0x681E) && Copied(Rflags, 0x6820) && Copied(Gpat, 0x2804)
  {
    hide Copied;
    CopiedControl();
    CopiedGeneral();
  }

  lemma CopiedControl()
    ensures Copied(Cr0, 0x6800) && Copied(Cr3, 0x6802) && Copied(Cr4, 0x6804) && Copied(Cr2, 0x6822)
  {
  }

  lemma CopiedGeneral()
    ensures Copied(Rsp, 0x681C) && Copied(Rip, 0x681E) && Copied(Rflags, 0x6820) && Copied(Gpat, 0x2804)
  {
  }

  lemma CopiedAsIs(s: Slot, e: Encoding, v: bv64)
    requires Copied(s, e)
    ensures Fit(s, IntoSlot(s, v)) == v && FromSlot(s, v) == v && (s != Gpat ==> WrittenBack(s))
  {
  }

  lemma EnteredCopy(st: Emu, s: Slot, e: Encoding)
    requires st.page.Some? && Copied(s, e)
    ensures Get(EntryPage(st), s) == Lookup(st.store, e)
  {
    hide Get, EntryPage, Lookup, Fit, IntoSlot;
    EnteredField(st, s, e);
    CopiedAsIs(s, e, Lookup(st.store, e));
  }

  /** Control registers, instruction and stack pointer, flags and PAT, each from its own field. */
  lemma EntryRegisters(st: Emu)
    requires st.page.Some?
    ensures var q, m := EntryPage(st), st.store;
      && Get(q, Cr0) == Lookup(m, 0x6800) && Get(q, Cr3) == Lookup(m, 0x6802) && Get(q, Cr4) == Lookup(m, 0x6804)
      && Get(q, Rsp) == Lookup(m, 0x681C) && Get(q, Rip) == Lookup(m, 0x681E) && Get(q, Rflags) == Lookup(m, 0x6820)
      && Get(q, Cr2) == Lookup(m, 0x6822) && Get(q, Gpat) == Lookup(m, 0x2804)
  {
    hide Get, EntryPage, Lookup, Copied;
    CopiedRegisters();
    EnteredCopy(st, Cr0, 0x6800);
    EnteredCopy(st, Cr3, 0x6802);
    EnteredCopy(st, Cr4, 0x6804);
    EnteredCopy(st, Cr2, 0x6822);
    EnteredCopy(st, Rsp, 0x681C);
    EnteredCopy(st, Rip, 0x681E);
    EnteredCopy(st, Rflags, 0x6820);
    EnteredCopy(st, Gpat, 0x2804);
  }

  /** EFER is the field's with the SVM enable bit, and all its other bits. */
  lemma EntryEfer(st: Emu)
    requires st.page.Some?
    ensures Get(EntryPage(st), Efer) == Lookup(st.store, 0x2806) | 0x1000
  {
    hide Get, EntryPage, Lookup;
    EnteredField(st, Efer, 0x2806);
  }

  lemma SegmentNumbers(n: nat)
    requires n < |VMX_SEGMENTS|
    ensures SegEncoding(VMX_SEGMENTS[n], Limit) == Some(0x4800 + 2 * n)
    ensures SegEncoding(VMX_SEGMENTS[n], Base) == Some(0x6806 + 2 * n)
    ensures n < 8 ==> SegEncoding(VMX_SEGMENTS[n], Selector) == Some(0x0800 + 2 * n)
    ensures n < 8 ==> SegEncoding(VMX_SEGMENTS[n], Attrib) == Some(0x4814 + 2 * n)
  {
  }

  /** Limits and bases of all ten segments. */
  lemma EntryTables(st: Emu, n: nat)
    requires st.page.Some? && n < 10
    ensures var q, m, seg := EntryPage(st), st.store, VMX_SEGMENTS[n];
      && Get(q, Segment(seg, Limit)) == Lookup(m, 0x4800 + 2 * n) & 0xFFFF_FFFF
      && Get(q, Segment(seg, Base)) == Lookup(m, 0x6806 + 2 * n)
  {
    hide Get, EntryPage, Lookup, SegEncoding;
    SegmentNumbers(n);
    EnteredField(st, Segment(VMX_SEGMENTS[n], Limit), 0x4800 + 2 * n);
    EnteredField(st, Segment(VMX_SEGMENTS[n], Base), 0x6806 + 2 * n);
  }

  /** Selectors and rights of the eight that have them. */
  lemma EntrySegments(st: Emu, n: nat)
    requires st.page.Some? && n < 8
    ensures var q, m, seg := EntryPage(st), st.store, VMX_SEGMENTS[n];
            var state := VmxState(Low32(Lookup(m, 0x4814 + 2 * n)));
      && Get(q, Segment(seg, Selector)) == Lookup(m, 0x0800 + 2 * n) & 0xFFFF
      && SvmState(Low16(Get(q, Segment(seg, Attrib)))) == (if state.Unusable? then NotPresent(NO_RIGHTS) else state)
      && Low16(Get(q, Segment(seg, Attrib))) & 0xF000 == 0
  {
    hide Get, EntryPage, Lookup, SegEncoding, VmxState, SvmState, Low32, Low16, VmxArToSvmAttrib, Wide16;
    var ar := Low32(Lookup(st.store, 0x4814 + 2 * n));
    SegmentNumbers(n);
    EnteredField(st, Segment(VMX_SEGMENTS[n], Selector), 0x0800 + 2 * n);
    EnteredField(st, Segment(VMX_SEGMENTS[n], Attrib), 0x4814 + 2 * n);
    AttribEntered(VmxArToSvmAttrib(ar));
    RightsPreserved(ar, 0);
  }

  lemma AttribEntered(a: bv16)
    ensures Low16(Keep(2, Wide16(a))) == a
  {
  }

  /** The three intercept words. */
  lemma EntryIntercepts(st: Emu)
    requires st.page.Some?
    ensures var q, m := EntryPage(st), st.store;
      && Get(q, Intercept1) == (if Lookup(m, 0x4000) & 0x1 != 0 then 0x1 else 0)
                               | (if Lookup(m, 0x4002) & 0x80 != 0 then 0x0100_0000 else 0)
      && Get(q, Intercept2) == 0x1
      && Get(q, InterceptExceptions) == Lookup(m, 0x4004) & 0xFFFF_FFFF
  {
    hide Get, EntryPage, Lookup;
    InterceptSlots(st);
    FirstInterceptIs(Lookup(st.store, 0x4000), Lookup(st.store, 0x4002));
  }

  lemma InterceptSlots(st: Emu)
    requires st.page.Some?
    ensures Get(EntryPage(st), Intercept1) == FirstIntercept(Lookup(st.store, 0x4000), Lookup(st.store, 0x4002))
    ensures Get(EntryPage(st), Intercept2) == Keep(4, INTERCEPT2_VMRUN)
    ensures Get(EntryPage(st), InterceptExceptions) == Keep(4, Lookup(st.store, 0x4004))
  {
    hide Get, EntryPage, Lookup, Has, Low32, Keep, Intercept1Word;
    EntryPageSlots(st);
    InterceptEntry(st.store);
  }

  function FirstIntercept(pin: bv64, cpu: bv64): bv64 {
    Keep(4, Intercept1Word(Has(Low32(pin), PIN_CTL_EXT_INTR_EXITING), Has(Low32(cpu), CPU_CTL_HLT_EXITING)))
  }

  lemma FirstInterceptIs(pin: bv64, cpu: bv64)
    ensures FirstIntercept(pin, cpu) == (if pin & 0x1 != 0 then 0x1 else 0) | (if cpu & 0x80 != 0 then 0x0100_0000 else 0)
  {
  }

  // ----- what an exit writes, in order -----

  lemma ExitRegisterWrites(p: Page, features: bv32)
    ensures var ws := WriteBack(p, features);
      && ws[0] == Field(0x6800, Get(p, Cr0)) && ws[1] == Field(0x6802, Get(p, Cr3))
      && ws[2] == Field(0x6804, Get(p, Cr4)) && ws[3] == Field(0x6822, Get(p, Cr2))
      && ws[4] == Field(0x681E, Get(p, Rip)) && ws[5] == Field(0x681C, Get(p, Rsp))
      && ws[6] == Field(0x6820, Get(p, Rflags))
  {
    hide WriteBack, Get, Copied, SlotField;
    RegistersAt(p, features);
    CopiedRegisters();
    CopiedWrite(p, Cr0, 0x6800);
    CopiedWrite(p, Cr3, 0x6802);
    CopiedWrite(p, Cr4, 0x6804);
    CopiedWrite(p, Cr2, 0x6822);
    CopiedWrite(p, Rip, 0x681E);
    CopiedWrite(p, Rsp, 0x681C);
    CopiedWrite(p, Rflags, 0x6820);
  }

  lemma CopiedWrite(p: Page, s: Slot, e: Encoding)
    requires Copied(s, e)
    ensures SlotField(p, s) == Field(e, Get(p, s))
  {
    hide Get, FromSlot;
    CopiedAsIs(s, e, Get(p, s));
  }

  lemma ExitEferWrite(p: Page, features: bv32)
    ensures WriteBack(p, features)[7] == Field(0x2806, Get(p, Efer) & 0xFFFF_FFFF_FFFF_EFFF)
  {
    hide WriteBack, Get, SlotField;
    RegistersAt(p, features);
    EferWrite(p);
  }

  lemma EferWrite(p: Page)
    ensures SlotField(p, Efer) == Field(0x2806, Get(p, Efer) & 0xFFFF_FFFF_FFFF_EFFF)
  {
    hide Get;
  }

  lemma ExitSegmentWrites(p: Page, features: bv32, n: nat)
    requires n < 8
    ensures var ws, j, seg := WriteBack(p, features), 8 + 4 * n, VMX_SEGMENTS[n];
      && ws[j] == Field(0x0800 + 2 * n, Get(p, Segment(seg, Selector)))
      && ws[j + 1] == Field(0x4800 + 2 * n, Get(p, Segment(seg, Limit)))
      && ws[j + 2] == Field(0x6806 + 2 * n, Get(p, Segment(seg, Base)))
      && ws[j + 3] == Field(0x4814 + 2 * n, Wide32(SvmAttribToVmxAr(Low16(Get(p, Segment(seg, Attrib))))))
  {
    hide WriteBack, Get, SegEncoding, SvmAttribToVmxAr, Low16, Wide32;
    SegmentFieldsAt(p, features, n);
    SegmentNumbers(n);
    assert SEGS[n] == VMX_SEGMENTS[n];
  }

  lemma ExitInfoWrites(p: Page, features: bv32)
    ensures var ws := WriteBack(p, features);
      && |ws| == (if features & 0x8 != 0 && Get(p, Nrip) > Get(p, Rip) then 42 else 41)
      && ws[40] == Field(0x4402, Wide32(SvmExitToVmxReason(Get(p, ExitCode), Get(p, ExitInfo1))))
      && (|ws| == 42 ==> ws[41] == Field(0x440C, Get(p, Nrip) - Get(p, Rip)))
  {
    hide WriteBack, Get, SvmExitToVmxReason, Wide32;
    ExitInfoAt(p, features);
    LengthMeaning(features, Get(p, Rip), Get(p, Nrip));
  }

  lemma LengthMeaning(features: bv32, rip: bv64, nrip: bv64)
    ensures LengthBetween(features, rip, nrip) == if features & 0x8 != 0 && nrip > rip then Some(nrip - rip) else None
  {
  }

  // ----- what the kernel reads after the exit -----

  /** The registers as the guest left them. */
  lemma ExitRegisters(st: Emu, guest: Guest)
    requires CanReport(st, guest)
    ensures var m, q := LaunchResume(st, guest).store, AfterGuest(st, guest).0;
      && Lookup(m, 0x6800) == Get(q, Cr0) && Lookup(m, 0x6802) == Get(q, Cr3) && Lookup(m, 0x6804) == Get(q, Cr4)
      && Lookup(m, 0x681C) == Get(q, Rsp) && Lookup(m, 0x681E) == Get(q, Rip) && Lookup(m, 0x6820) == Get(q, Rflags)
      && Lookup(m, 0x6822) == Get(q, Cr2)
  {
    hide Get, LaunchResume, AfterGuest, Lookup, Room, LaunchWrites, Copied;
    CopiedRegisters();
    ReportedCopy(st, guest, Cr0, 0x6800);
    ReportedCopy(st, guest, Cr3, 0x6802);
    ReportedCopy(st, guest, Cr4, 0x6804);
    ReportedCopy(st, guest, Rsp, 0x681C);
    ReportedCopy(st, guest, Rip, 0x681E);
    ReportedCopy(st, guest, Rflags, 0x6820);
    ReportedCopy(st, guest, Cr2, 0x6822);
  }

  /** EFER is the guest's but for the SVM enable bit, which is hidden. */
  lemma ExitEfer(st: Emu, guest: Guest)
    requires CanReport(st, guest)
    ensures Lookup(LaunchResume(st, guest).store, 0x2806) == Get(AfterGuest(st, guest).0, Efer) & 0xFFFF_FFFF_FFFF_EFFF
  {
    hide Get, LaunchResume, AfterGuest, Lookup, Room, LaunchWrites;
    ReportedField(st, guest, Efer, 0x2806);
  }

  lemma ReportedField(st: Emu, guest: Guest, s: Slot, e: Encoding)
    requires CanReport(st, guest) && WrittenBack(s) && GuestField(s) == Some(e)
    ensures Lookup(LaunchResume(st, guest).store, e) == FromSlot(s, Get(AfterGuest(st, guest).0, s))
  {
    hide Get, LaunchResume, AfterGuest, Lookup, Room, LaunchWrites, FromSlot;
    GuestStateVisible(st, guest);
  }

  lemma ReportedCopy(st: Emu, guest: Guest, s: Slot, e: Encoding)
    requires CanReport(st, guest) && Copied(s, e) && s != Gpat
    ensures Lookup(LaunchResume(st, guest).store, e) == Get(AfterGuest(st, guest).0, s)
  {
    hide Get, LaunchResume, AfterGuest, Lookup, Room, LaunchWrites, FromSlot, WrittenBack;
    CopiedAsIs(s, e, Get(AfterGuest(st, guest).0, s));
    ReportedField(st, guest, s, e);
  }

  /** The eight segments that are reported; one that is not present shows as unusable. */
  lemma ExitSegments(st: Emu, guest: Guest, n: nat)
    requires CanReport(st, guest) && n < 8
    ensures var m, q, seg := LaunchResume(st, guest).store, AfterGuest(st, guest).0, VMX_SEGMENTS[n];
            var state := SvmState(Low16(Get(q, Segment(seg, Attrib))));
      && Lookup(m, 0x0800 + 2 * n) == Get(q, Segment(seg, Selector))
      && Lookup(m, 0x4800 + 2 * n) == Get(q, Segment(seg, Limit))
      && Lookup(m, 0x6806 + 2 * n) == Get(q, Segment(seg, Base))
      && VmxState(Low32(Lookup(m, 0x4814 + 2 * n))) == (if state.NotPresent? then Unusable else state)
  {
    hide Get, LaunchResume, AfterGuest, Lookup, Room, LaunchWrites, SegEncoding, VmxState, SvmState, Low16, Low32;
    var seg := VMX_SEGMENTS[n];
    SegmentNumbers(n);
    ReportedField(st, guest, Segment(seg, Selector), 0x0800 + 2 * n);
    ReportedField(st, guest, Segment(seg, Limit), 0x4800 + 2 * n);
    ReportedField(st, guest, Segment(seg, Base), 0x6806 + 2 * n);
    RightsVisible(st, guest, seg);
  }

  // ----- what one launch does -----

  /** The guest runs once, on the entry page and the saved registers, and what it leaves is what the emulator
      keeps and translates back. */
  lemma GuestRunsOnce(st: Emu, guest: Guest)
    requires st.page.Some? && st.launchBuilt
    ensures var (q, g) := guest(EntryPage(st), st.gprs);
      LaunchResume(st, guest)
      == st.(store := PutAll(st.store, WriteBack(q, st.features)), launched := true, gprs := g, rax := Get(q, Rax),
             page := Some(q))
  {
    hide Get, EntryPage, WriteBack, PutAll;
  }

  /** In a build without guest launch it does not run: the entry page comes back marked as a failed entry. */
  lemma GuestNotRun(st: Emu, guest: Guest)
    requires st.page.Some? && !st.launchBuilt
    ensures var st' := LaunchResume(st, guest);
      && st'.page.Some?
      && (forall s: Slot :: Get(st'.page.value, s)
                            == if s == ExitCode then 0xFFFF_FFFF_FFFF_FFFF else Get(EntryPage(st), s))
      && (forall k: nat :: k < PAGE_SIZE && !Covered(k) ==> st'.page.value[k] == EntryPage(st)[k])
      && st' == st.(store := PutAll(st.store, WriteBack(st'.page.value, st.features)), launched := true, page := st'.page)
  {
    hide Get, Set, EntryPage, WriteBack, PutAll, Covered;
    GetSet(EntryPage(st), ExitCode, VMEXIT_INVALID);
    EntryRax(st);
    assert Fit(ExitCode, VMEXIT_INVALID) == VMEXIT_INVALID;
  }

  lemma EntryRax(st: Emu)
    requires st.page.Some?
    ensures Get(EntryPage(st), Rax) == st.rax
  {
    hide Get, EntryPage;
    EntryPageSlots(st);
  }

  /** Without a page nothing happens, and the reason says so. */
  lemma NoPage(st: Emu, guest: Guest)
    requires st.page.None?
    ensures LaunchResume(st, guest) == st && LaunchReason(st, guest) == 0xFFFF_FFFF
  {
  }
}
