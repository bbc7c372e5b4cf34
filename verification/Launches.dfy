/** What one VMLAUNCH or VMRESUME guarantees, in any state that earlier traps and guests may have left. */
module Launches {
  import opened Bytes
  import opened Emulator
  import opened EntryTranslation
  import opened EventInjection
  import opened ExitTranslation
  import N = NestedPaging
  import Rights = SegmentRights
  import opened ShadowVmcs
  import opened Vmcb
  import opened Vmx
  import opened WorldSwitch

  // ----- what VMRUN finds -----

  /** The entry page slot by slot: the translation of the shadow, and the guest's RAX. */
  lemma EntryPageSlots(st: Emu)
    requires st.page.Some?
    ensures forall s: Slot :: Get(EntryPage(st), s)
                              == if s == Rax then st.rax else EntrySlot(st.store, st.page.value, s)
    ensures forall k: nat :: k < PAGE_SIZE && !Covered(k) ==> EntryPage(st)[k] == st.page.value[k]
  {
    hide Get, Set, Enter, EntryValue, Covered;
    var q := Enter(st.store, st.page.value);
    EnterIsEntered(st.store, st.page.value);
    GetSet(q, Rax, st.rax);
    assert Fit(Rax, st.rax) == st.rax;
  }

  predicate SvmeSet(efer: bv64) {
    efer & 0x1000 != 0
  }

  lemma SvmeIsSet(v: bv64)
    ensures SvmeSet(WithSvme(v))
  {
  }

  lemma AsidNonZero(vpid: bv32)
    ensures Keep(4, AsidFor(vpid)) != 0
  {
  }

  /** The VMRUN consistency checks that the translation takes on (AMD64 APM Vol. 2, section 15.5). They
      hold at every entry of every run, since st is any state at all. */
  lemma EntrySafety(st: Emu)
    requires st.page.Some?
    ensures var q := EntryPage(st);
      Get(q, Efer) & 0x1000 != 0 && Get(q, Intercept2) == 1 && Get(q, GuestAsid) != 0 && Get(q, Rax) == st.rax
  {
    hide Get, EntryPage, WithSvme, AsidFor, Lookup, SvmeSet, Vpid;
    EntryPageSlots(st);
    ControlEntry(st.store);
    GuestEntry(st.store, Efer);
    SvmeIsSet(Lookup(st.store, GUEST_IA32_EFER));
    AsidNonZero(Vpid(st.store));
  }

  /** Nested paging is on iff the secondary controls are active, bit 31 of the primary ones, and enable
      EPT, their bit 1; and its root is then the page of the EPT pointer. */
  lemma EntryPaging(st: Emu)
    requires st.page.Some?
    ensures var q := EntryPage(st);
            var on := Lookup(st.store, 0x4002) & 0x8000_0000 != 0 && Lookup(st.store, 0x401E) & 0x2 != 0;
      && Get(q, NpEnable) == (if on then 1 else 0)
      && Get(q, NestedCr3) == (if on then Lookup(st.store, 0x201A) & 0xFFFF_FFFF_FFFF_F000 else 0)
  {
    hide Get, EntryPage, PageBase, Lookup, EptEnabled;
    SecondaryIs(st.store);
    RootIs(st);
    PageBaseIs(Lookup(st.store, EPT_POINTER));
    EptEnabledIs(st.store);
  }

  lemma EptEnabledIs(m: Store)
    ensures EptEnabled(m) == Has(SecondaryControls(m), SEC_CTL_ENABLE_EPT)
  {
  }

  lemma PageBaseIs(v: bv64)
    ensures PageBase(v) == v & 0xFFFF_FFFF_FFFF_F000
  {
  }

  lemma RootIs(st: Emu)
    requires st.page.Some?
    ensures Get(EntryPage(st), NpEnable) == if EptEnabled(st.store) then 1 else 0
    ensures Get(EntryPage(st), NestedCr3) == if EptEnabled(st.store) then PageBase(Lookup(st.store, EPT_POINTER)) else 0
  {
    hide Get, EntryPage, PageBase, Lookup, EptEnabled;
    EntryPageSlots(st);
    PagingEntry(st.store);
  }

  /** The tables behind that root are the EPT itself. Where the EPT maps a page, VMRUN's nested walk gives
      the raw walk's result: the page when it is readable at every level and bit 8 of the root entry is
      clear, and otherwise a fault. */
  lemma EntryWalk(st: Emu, t: N.Tables, gpa: bv64)
    requires st.page.Some? && EptEnabled(st.store)
    requires N.EptWalk(t, PageBase(Lookup(st.store, EPT_POINTER)), 4, gpa, true, true, true).EptPage?
    ensures var root := PageBase(Lookup(st.store, EPT_POINTER));
            N.NptWalk(t, Get(EntryPage(st), NestedCr3), 4, gpa, true, true, true)
            == if N.RootFaults(t(root, N.Index(gpa, 4)), 4) then N.NptFault
               else N.AsRaw(N.EptWalk(t, root, 4, gpa, true, true, true), !N.OnPath(t, root, 4, gpa, e => N.Bit63(e)))
  {
    hide Get, EntryPage, PageBase, Lookup, EptEnabled, N.NptWalk, N.EptWalk, N.AsRaw, N.OnPath, N.RootFaults, N.Index;
    RootIs(st);
    N.RawWalk(t, PageBase(Lookup(st.store, EPT_POINTER)), 4, gpa, true, true, true);
  }

  /** A kernel's VMWRITE of the pending debug exceptions lands in the guest's CR2, and the field then reads
      back as the CR2 of the exit. */
  lemma PendingDebugBecomesCr2(st: Emu, val: bv64, guest: Guest)
    requires st.page.Some? && Accepts(st.store, GUEST_PENDING_DEBUG_EXCEPTIONS)
    ensures var st' := st.(store := Put(st.store, GUEST_PENDING_DEBUG_EXCEPTIONS, val));
      && Get(EntryPage(st'), Cr2) == val
      && (CanReport(st', guest) ==>
            Lookup(LaunchResume(st', guest).store, GUEST_PENDING_DEBUG_EXCEPTIONS) == Get(AfterGuest(st', guest).0, Cr2))
  {
    hide Get, EntryPage, AfterGuest, Exit, Room, WriteBack;
    var st' := st.(store := Put(st.store, GUEST_PENDING_DEBUG_EXCEPTIONS, val));
    EntryPageSlots(st');
    GuestEntry(st'.store, Cr2);
    assert WrittenBack(Cr2);
    if CanReport(st', guest) {
      GuestStateVisible(st', guest);
    }
  }

  /** The ASID is the VPID when the secondary controls are active and enable a non-zero one, their bit 5,
      and otherwise 1. */
  lemma EntryAsid(st: Emu)
    requires st.page.Some?
    ensures var on := Lookup(st.store, 0x4002) & 0x8000_0000 != 0 && Lookup(st.store, 0x401E) & 0x20 != 0;
            var vpid := Lookup(st.store, 0x0000) & 0xFFFF_FFFF;
      Get(EntryPage(st), GuestAsid) == if on && vpid != 0 then vpid else 1
  {
    hide Get, EntryPage, Lookup;
    AsidRead(st);
  }

  predicate AsidMeans(cpu: bv64, sec: bv64, vpid: bv64, asid: bv64) {
    var on := cpu & 0x8000_0000 != 0 && sec & 0x20 != 0;
    asid == if on && vpid & 0xFFFF_FFFF != 0 then vpid & 0xFFFF_FFFF else 1
  }

  lemma AsidRead(st: Emu)
    requires st.page.Some?
    ensures AsidMeans(Lookup(st.store, 0x4002), Lookup(st.store, 0x401E), Lookup(st.store, 0x0000),
                      Get(EntryPage(st), GuestAsid))
  {
    hide Get, EntryPage, AsidFor, Lookup, Low32, Has, SecondaryControls, Keep, AsidMeans;
    EntryPageSlots(st);
    AsidEntry(st.store);
    AsidFrom(st.store);
  }

  lemma AsidFrom(m: Store)
    ensures AsidMeans(Lookup(m, 0x4002), Lookup(m, 0x401E), Lookup(m, 0x0000), Keep(4, AsidFor(Vpid(m))))
  {
    hide Keep, AsidFor, Low32, Lookup, Has, AsidMeans;
    AsidOf(Lookup(m, CPU_EXEC_CONTROL), Lookup(m, SECONDARY_EXEC_CTL), Lookup(m, VIRTUAL_PROCESSOR_ID));
  }

  lemma AsidOf(cpu: bv64, sec: bv64, vpid: bv64)
    ensures var controls := if Has(Low32(cpu), CPU_CTL_SECONDARY_CTLS) then Low32(sec) else 0;
      AsidMeans(cpu, sec, vpid, Keep(4, AsidFor(if Has(controls, SEC_CTL_ENABLE_VPID) then Low32(vpid) else 0)))
  {
  }

  /** Exactly these slots keep what they held, besides the bytes outside all slots: of the control area,
      what the kernel's controls have no say in; of the save area, CPL, the debug and system-call
      registers, and the selectors and attributes of GDTR and IDTR. */
  lemma UntouchedSlots(m: Store, s: Slot)
    ensures EntryValue(m, s).None? <==>
            s in {InterceptCr, InterceptDr, PauseThresh, PauseCount, IopmBase, MsrpmBase, TscOffset, TlbControl, VIntr,
                  InterruptShadow, ExitCode, ExitInfo1, ExitInfo2, ExitIntInfo, Nrip, Cpl, Dr6, Dr7, Rax,
                  Star, Lstar, Cstar, Sfmask, KgsBase, SysentCs, SysentEsp, SysentEip,
                  Segment(GDTR, Selector), Segment(GDTR, Attrib), Segment(IDTR, Selector), Segment(IDTR, Attrib)}
  {
  }

  // ----- what the kernel sees after the exit -----

  lemma SvmeIsClear(v: bv64)
    ensures !SvmeSet(WithoutSvme(v))
  {
  }

  /** There is a page to enter with, and the shadow has room for the exit's writes. */
  ghost predicate CanReport(st: Emu, guest: Guest) {
    st.page.Some? && |st.store| <= MAX_FIELDS && Room(st.store, LaunchWrites(st, guest))
  }

  /** After an exit with any page q, every reported guest field is q's, converted, and the guest RAX is
      q's RAX slot. */
  lemma GuestStateVisible(st: Emu, guest: Guest)
    requires CanReport(st, guest)
    ensures LaunchResume(st, guest).page == Some(AfterGuest(st, guest).0)
    ensures LaunchResume(st, guest).rax == Get(AfterGuest(st, guest).0, Rax)
    ensures LaunchResume(st, guest).gprs == AfterGuest(st, guest).1
    ensures forall s: Slot :: WrittenBack(s) ==>
      Lookup(LaunchResume(st, guest).store, GuestField(s).value) == FromSlot(s, Get(AfterGuest(st, guest).0, s))
  {
    hide Get, AfterGuest, Exit, Lookup, Room, WriteBack, GuestField, FromSlot;
    ExitReads(st.store, AfterGuest(st, guest).0, st.features);
  }

  /** The access rights mean the same to VMX as they did to SVM, but that a segment which is not present
      shows as unusable; and SVME never shows. */
  lemma RightsVisible(st: Emu, guest: Guest, seg: Seg)
    requires CanReport(st, guest) && !seg.GDTR? && !seg.IDTR?
    ensures var state := Rights.SvmState(Low16(Get(AfterGuest(st, guest).0, Segment(seg, Attrib))));
            Rights.VmxState(Low32(Lookup(LaunchResume(st, guest).store, SegEncoding(seg, Attrib).value)))
            == if state.NotPresent? then Rights.Unusable else state
    ensures !SvmeSet(Lookup(LaunchResume(st, guest).store, GUEST_IA32_EFER))
  {
    hide Get, LaunchResume, AfterGuest, Lookup, Room, LaunchWrites, SvmeSet, WithoutSvme;
    hide Low32, Wide32, Low16, Rights.VmxState, Rights.SvmState, Rights.SvmAttribToVmxAr;
    var q := AfterGuest(st, guest).0;
    var s := Segment(seg, Attrib);
    GuestStateVisible(st, guest);
    assert WrittenBack(s) && WrittenBack(Efer);
    assert Lookup(LaunchResume(st, guest).store, GUEST_IA32_EFER) == FromSlot(Efer, Get(q, Efer));
    SvmeIsClear(Get(q, Efer));
    LowOfWide(Rights.SvmAttribToVmxAr(Low16(Get(q, s))));
    Rights.RightsPreserved(0, Low16(Get(q, s)));
  }

  /** The returned reason is what a VMREAD of the reason gives. It is the mapped one iff the shadow keeps
      the reason, which it does when it has that field or, with the forty slot encodings, less than 256,
      or else the mapped reason is 0, which is what a missing field reads as. */
  lemma ReasonVisible(st: Emu, guest: Guest)
    requires st.page.Some? && |st.store| <= MAX_FIELDS
    ensures Lookup(LaunchResume(st, guest).store, 0x4402) == Wide32(LaunchReason(st, guest))
    ensures var q := AfterGuest(st, guest).0;
            var mapped := SvmExitToVmxReason(Get(q, ExitCode), Get(q, ExitInfo1));
      && LaunchReason(st, guest) == (if Stored(st.store, SLOT_WRITES) then mapped else 0)
      && (LaunchReason(st, guest) == mapped <==> Stored(st.store, SLOT_WRITES) || mapped == 0)
  {
    hide Get, AfterGuest, Exit, Lookup, SvmExitToVmxReason, WriteBack, Low32, Wide32, Stored;
    var q := AfterGuest(st, guest).0;
    ExitInfoAt(q, st.features);
    ExitReadsExactly(st.store, q, st.features, SLOT_WRITES);
    LowOfWide(SvmExitToVmxReason(Get(q, ExitCode), Get(q, ExitInfo1)));
    LowOfWide(0);
    WideZero();
  }

  lemma WideZero()
    ensures Wide32(0) == 0
  {
  }

  /** In particular, once the shadow is full without a reason field, every exit, a HLT or a CPUID as well,
      is returned as an exception or NMI. */
  lemma FullShadowHidesReason(st: Emu, guest: Guest)
    requires st.page.Some? && |st.store| == MAX_FIELDS && VM_EXIT_REASON !in st.store
    ensures LaunchReason(st, guest) == EXIT_EXCEPTION_NMI
  {
    hide Get, LaunchReason, AfterGuest, FirstEncodings;
    ReasonVisible(st, guest);
    assert |st.store.Keys| == |st.store|;
    SubsetSize(st.store.Keys, st.store.Keys + FirstEncodings(SLOT_WRITES));
  }

  /** When the processor records next RIPs, feature bit 3, and has recorded one beyond RIP, the instruction
      length leads from the one to the other; otherwise it keeps its previous value. */
  lemma LengthVisible(st: Emu, guest: Guest)
    requires CanReport(st, guest)
    ensures var q := AfterGuest(st, guest).0;
            var length := Lookup(LaunchResume(st, guest).store, 0x440C);
      if st.features & 0x8 != 0 && Get(q, Nrip) > Get(q, Rip) then length == Get(q, Nrip) - Get(q, Rip)
      else length == Lookup(st.store, 0x440C)
  {
    hide Get, AfterGuest, LaunchResume, Lookup, CanReport;
    LengthRead(st, guest);
  }

  predicate LengthMeans(features: bv32, rip: bv64, nrip: bv64, previous: bv64, length: bv64) {
    if features & 0x8 != 0 && nrip > rip then length == nrip - rip else length == previous
  }

  lemma LengthRead(st: Emu, guest: Guest)
    requires CanReport(st, guest)
    ensures st.page.Some?
    ensures LengthMeans(st.features, Get(AfterGuest(st, guest).0, Rip), Get(AfterGuest(st, guest).0, Nrip),
                        Lookup(st.store, 0x440C), Lookup(LaunchResume(st, guest).store, 0x440C))
  {
    hide Get, AfterGuest, Exit, Lookup, Room, WriteBack, LengthBetween, LengthMeans;
    var q := AfterGuest(st, guest).0;
    ExitReads(st.store, q, st.features);
    LengthFrom(st.features, Get(q, Rip), Get(q, Nrip), Lookup(st.store, 0x440C),
               Lookup(LaunchResume(st, guest).store, 0x440C));
  }

  lemma LengthFrom(features: bv32, rip: bv64, nrip: bv64, previous: bv64, length: bv64)
    requires length == match LengthBetween(features, rip, nrip) case Some(n) => n case None => previous
    ensures LengthMeans(features, rip, nrip, previous, length)
  {
  }

  /** The event to inject is not consumed by an entry: unless the kernel rewrites the interruption
      information, the next entry injects it again. */
  lemma InjectedAgain(st: Emu, guest: Guest)
    requires st.page.Some?
    ensures Get(EntryPage(LaunchResume(st, guest)), EventInj) == Get(EntryPage(st), EventInj)
  {
    hide Get, EntryPage, AfterGuest, Lookup, Eventinj, Exit, Low32;
    var q := AfterGuest(st, guest).0;
    EntryPageSlots(st);
    EntryPageSlots(LaunchResume(st, guest));
    ControlEntry(st.store);
    ControlEntry(LaunchResume(st, guest).store);
    NotExitEncoding(VM_ENTRY_INTR_INFO);
    NotExitEncoding(VM_ENTRY_EXCEPTION_ERROR);
    ExitKeeps(st.store, q, st.features, VM_ENTRY_INTR_INFO);
    ExitKeeps(st.store, q, st.features, VM_ENTRY_EXCEPTION_ERROR);
  }

  /** With valid information an event is injected, the one that the shadow asks for, by this entry and by
      the next; with any other, by neither. */
  lemma SameEventAgain(st: Emu, guest: Guest)
    requires st.page.Some?
    ensures var info, errCode := Low32(Lookup(st.store, 0x4016)), Low32(Lookup(st.store, 0x4018));
            var event := SvmEvent(Get(EntryPage(st), EventInj));
      && event == AsSvm(VmxEvent(info, errCode))
      && SvmEvent(Get(EntryPage(LaunchResume(st, guest)), EventInj)) == event
      && (event != NoEvent <==> InfoValid(info))
  {
    hide Get, EntryPage, LaunchResume, Lookup, Low32, Eventinj, InfoValid, SvmEvent, AsSvm, VmxEvent;
    var info, errCode := Low32(Lookup(st.store, VM_ENTRY_INTR_INFO)), Low32(Lookup(st.store, VM_ENTRY_EXCEPTION_ERROR));
    EntryPageSlots(st);
    AsidEntry(st.store);
    InjectedAgain(st, guest);
    InjectionPreserved(info, errCode);
    EventOrNone(info, errCode);
  }

  lemma EventOrNone(info: bv32, errCode: bv32)
    ensures AsSvm(VmxEvent(info, errCode)) != NoEvent <==> InfoValid(info)
  {
    hide InfoValid, InfoVector, InfoType, InfoDeliversError;
  }

  /** Exits never write control fields. */
  lemma NotExitEncoding(e: Encoding)
    requires e in {PIN_EXEC_CONTROL, CPU_EXEC_CONTROL, SECONDARY_EXEC_CTL, EXCEPTION_BITMAP, EPT_POINTER,
                   VIRTUAL_PROCESSOR_ID, VM_ENTRY_INTR_INFO, VM_ENTRY_EXCEPTION_ERROR}
    ensures !ExitEncoding(e)
  {
    forall s: Slot | WrittenBack(s)
      ensures GuestField(s) != Some(e)
    {
      GuestFieldsDistinct(s, s);
    }
  }
}
