/** VMCS to VMCB, before VMRUN. */
module EntryTranslation {
  import opened Bytes
  import opened EventInjection
  import opened SegmentRights
  import opened ShadowVmcs
  import opened Vmcb
  import opened Vmx

  const INTERCEPT_INTR: bv64 := 0x0000_0001
  const INTERCEPT_HLT: bv64 := 0x0100_0000
  const INTERCEPT2_VMRUN: bv64 := 0x0000_0001

  /** The segments of the translation table, in its order. */
  const SEGS: seq<Seg> := [ES, CS, SS, DS, FS, GS, LDTR, TR]

  // ----- controls read from the shadow -----

  function Lookup32(m: Store, enc: Encoding): bv32 {
    Low32(Lookup(m, enc))
  }

  /** A control bit of a control word is set. */
  predicate Has(word: bv32, bit: bv32) {
    word & bit != 0
  }

  /** A control bit of the low word is a bit of the whole. */
  lemma PinBits(v: bv64)
    ensures Has(Low32(v), PIN_CTL_EXT_INTR_EXITING) == (v & 0x1 != 0)
  {
  }

  lemma CpuBits(v: bv64)
    ensures Has(Low32(v), CPU_CTL_HLT_EXITING) == (v & 0x80 != 0)
    ensures Has(Low32(v), CPU_CTL_SECONDARY_CTLS) == (v & 0x8000_0000 != 0)
  {
  }

  lemma SecondaryBits(v: bv64)
    ensures Has(Low32(v), SEC_CTL_ENABLE_EPT) == (v & 0x2 != 0)
    ensures Has(Low32(v), SEC_CTL_ENABLE_VPID) == (v & 0x20 != 0)
    ensures !Has(0, SEC_CTL_ENABLE_EPT) && !Has(0, SEC_CTL_ENABLE_VPID)
  {
  }

  /** The secondary controls count only when bit 31 of the primary ones is set. */
  lemma SecondaryIs(m: Store)
    ensures Has(SecondaryControls(m), SEC_CTL_ENABLE_EPT)
            == (Lookup(m, 0x4002) & 0x8000_0000 != 0 && Lookup(m, 0x401E) & 0x2 != 0)
    ensures Has(SecondaryControls(m), SEC_CTL_ENABLE_VPID)
            == (Lookup(m, 0x4002) & 0x8000_0000 != 0 && Lookup(m, 0x401E) & 0x20 != 0)
  {
    hide Lookup, Low32, Has;
    CpuBits(Lookup(m, CPU_EXEC_CONTROL));
    SecondaryBits(Lookup(m, SECONDARY_EXEC_CTL));
  }

  function SecondaryControls(m: Store): bv32 {
    if Has(Lookup32(m, CPU_EXEC_CONTROL), CPU_CTL_SECONDARY_CTLS) then Lookup32(m, SECONDARY_EXEC_CTL) else 0
  }

  predicate EptEnabled(m: Store) {
    Has(SecondaryControls(m), SEC_CTL_ENABLE_EPT)
  }

  /** EFER with the SVM enable bit, bit 12, set. */
  function WithSvme(efer: bv64): bv64 {
    efer | 0x1000
  }

  function PageBase(pointer: bv64): bv64 {
    pointer & !0xFFF
  }

  function BuildNptFromEpt(eptp: bv64): bv64 {
    0
  }

  function Vpid(m: Store): bv32 {
    if Has(SecondaryControls(m), SEC_CTL_ENABLE_VPID) then Lookup32(m, VIRTUAL_PROCESSOR_ID) else 0
  }

  function AsidFor(vpid: bv32): bv64 {
    if vpid != 0 then Wide32(vpid) else 1
  }

  function Intercept1Word(intr: bool, hlt: bool): bv64 {
    (if intr then INTERCEPT_INTR else 0) | (if hlt then INTERCEPT_HLT else 0)
  }

  function Intercept1Value(m: Store): bv64 {
    Intercept1Word(Has(Lookup32(m, PIN_EXEC_CONTROL), PIN_CTL_EXT_INTR_EXITING),
                   Has(Lookup32(m, CPU_EXEC_CONTROL), CPU_CTL_HLT_EXITING))
  }

  /** How a guest field is converted on its way into its slot. */
  function IntoSlot(s: Slot, v: bv64): bv64 {
    match s
    case Segment(_, Attrib) => Wide16(VmxArToSvmAttrib(Low32(v)))
    case Efer => WithSvme(v)
    case _ => v
  }

  /** The value that an entry gives to a slot; None for the slots it leaves alone. */
  function EntryValue(m: Store, s: Slot): Option<bv64> {
    match s
    case Intercept1 => Some(Intercept1Value(m))
    case Intercept2 => Some(INTERCEPT2_VMRUN)
    case InterceptExceptions => Some(Lookup(m, EXCEPTION_BITMAP))
    case NpEnable => Some(if EptEnabled(m) then 1 else 0)
    case NestedCr3 => Some(if EptEnabled(m) then PageBase(Lookup(m, EPT_POINTER)) else 0)
    case GuestAsid => Some(AsidFor(Vpid(m)))
    case EventInj => Some(Eventinj(Lookup32(m, VM_ENTRY_INTR_INFO), Lookup32(m, VM_ENTRY_EXCEPTION_ERROR)))
    case _ => if GuestField(s).Some? then Some(IntoSlot(s, Lookup(m, GuestField(s).value))) else None
  }

  /** What slot s holds after an entry from shadow m over page p. */
  function EntrySlot(m: Store, p: Page, s: Slot): bv64 {
    match EntryValue(m, s)
    case Some(v) => Fit(s, v)
    case None => Get(p, s)
  }

  /** q is p after an entry: every slot has its value at once, and no other byte has moved. */
  ghost predicate Entered(m: Store, p: Page, q: Page) {
    && (forall s: Slot :: Get(q, s) == EntrySlot(m, p, s))
    && (forall k: nat :: k < PAGE_SIZE && !Covered(k) ==> q[k] == p[k])
  }

  /** Each byte of the page comes from the slot it lies in, if the entry writes that slot. */
  ghost function EnteredByte(m: Store, p: Page, k: nat): bv8
    requires k < PAGE_SIZE
  {
    if s: Slot :| Inside(k, s) && EntryValue(m, s).Some? then
      LeBytes(EntryValue(m, s).value, Width(s))[k - Offset(s)]
    else p[k]
  }

  /** The page after an entry. */
  ghost function Enter(m: Store, p: Page): Page {
    seq(PAGE_SIZE, k requires 0 <= k < PAGE_SIZE => EnteredByte(m, p, k))
  }

  lemma EnteredByteOf(m: Store, p: Page, s: Slot, k: nat)
    requires Inside(k, s)
    ensures k < PAGE_SIZE
    ensures EnteredByte(m, p, k) ==
            match EntryValue(m, s)
            case Some(v) => LeBytes(v, Width(s))[k - Offset(s)]
            case None => p[k]
  {
    hide EntryValue, Offset, Width;
    SlotInPage(s);
    forall t: Slot | Inside(k, t)
      ensures t == s
    {
      if t != s {
        SlotsDisjoint(s, t);
      }
    }
  }

  /** The bytes of one slot after an entry. */
  ghost function SlotBytes(m: Store, p: Page, s: Slot): (bytes: seq<bv8>)
    ensures |bytes| == Width(s)
  {
    SlotInPage(s);
    match EntryValue(m, s)
    case Some(v) => LeBytes(v, Width(s))
    case None => p[Offset(s)..Offset(s) + Width(s)]
  }

  lemma SlotLoaded(m: Store, p: Page, s: Slot)
    ensures Get(Enter(m, p), s) == LeValue(SlotBytes(m, p, s))
  {
    hide EnteredByte, EntryValue, Fit, LeValue, LeBytes, Offset, Width, GetAt;
    SlotInPage(s);
    var q, off, bytes := Enter(m, p), Offset(s), SlotBytes(m, p, s);
    forall k: nat | off <= k < off + |bytes|
      ensures q[k] == bytes[k - off]
    {
      assert Inside(k, s);
      EnteredByteOf(m, p, s, k);
    }
    LoadIs(q, off, bytes);
  }

  lemma EnterSlot(m: Store, p: Page, s: Slot)
    ensures Get(Enter(m, p), s) == EntrySlot(m, p, s)
  {
    hide EnteredByte, Enter, EntryValue, Fit, LeValue, LeBytes, Offset, Width, Mask;
    SlotLoaded(m, p, s);
    SlotInPage(s);
    match EntryValue(m, s)
    case Some(v) =>
      ValueOfBytes(v, Width(s));
      FitIsMask(s, v);
    case None =>
  }

  /** Enter is an entry, and the only one. */
  lemma EnterIsEntered(m: Store, p: Page)
    ensures Entered(m, p, Enter(m, p))
    ensures forall q: Page :: Entered(m, p, q) ==> q == Enter(m, p)
  {
    forall s: Slot
      ensures Get(Enter(m, p), s) == EntrySlot(m, p, s)
    {
      EnterSlot(m, p, s);
    }
    forall k: nat | k < PAGE_SIZE && !Covered(k)
      ensures Enter(m, p)[k] == p[k]
    {
      assert forall s: Slot :: !Inside(k, s);
    }
    forall q: Page | Entered(m, p, q)
      ensures q == Enter(m, p)
    {
      PagesEqual(q, Enter(m, p));
    }
  }

  // ----- the entry translation, slot by slot -----

  /** The position of a slot in the order of the writes; -1 for a slot that is not written. */
  function Order(s: Slot): int {
    match s
    case Segment(seg, part) =>
      if seg.GDTR? || seg.IDTR? then
        var first := if seg.GDTR? then 32 else 34;
        if part.Base? then first else if part.Limit? then first + 1 else -1
      else
        4 * SegNumber(seg) + (match part case Selector => 0 case Limit => 1 case Base => 2 case Attrib => 3)
    case Cr0 => 36
    case Cr3 => 37
    case Cr4 => 38
    case Cr2 => 39
    case Rip => 40
    case Rsp => 41
    case Rflags => 42
    case Gpat => 43
    case Efer => 44
    case Intercept1 => 45
    case Intercept2 => 46
    case InterceptExceptions => 47
    case NpEnable => 48
    case NestedCr3 => 49
    case GuestAsid => 50
    case EventInj => 51
    case _ => -1
  }

  lemma OrderInjective(s: Slot, t: Slot)
    requires Order(s) == Order(t) >= 0
    ensures s == t
  {
  }

  lemma OrderWritten(m: Store, s: Slot)
    ensures Order(s) < 52
    ensures EntryValue(m, s).Some? <==> 0 <= Order(s)
  {
    hide Order, EntryValue, GuestField;
    GuestOrder(s);
    if GuestField(s).Some? {
      GuestEntry(m, s);
    } else {
      OtherOrder(m, s);
    }
  }

  lemma GuestOrder(s: Slot)
    ensures GuestField(s).Some? <==> 0 <= Order(s) < 45
  {
  }

  lemma OtherOrder(m: Store, s: Slot)
    requires GuestField(s).None?
    ensures Order(s) < 52
    ensures EntryValue(m, s).Some? <==> 45 <= Order(s)
  {
    hide Lookup, Intercept1Value, AsidFor, Vpid, Eventinj, EptEnabled, Lookup32, IntoSlot, PageBase;
  }

  /** Part-way through an entry: the first n slots have their new value, the others their old one. */
  ghost predicate Progress(m: Store, p: Page, q: Page, n: nat) {
    && (forall s: Slot :: Get(q, s) == if 0 <= Order(s) < n then EntrySlot(m, p, s) else Get(p, s))
    && (forall k: nat :: k < PAGE_SIZE && !Covered(k) ==> q[k] == p[k])
  }

  method StoreEntry(ghost vmcs: ShadowVMCS, page: array<bv8>, s: Slot, v: bv64,
                    ghost m: Store, ghost p: Page, ghost n: nat)
    requires vmcs.Valid() && vmcs.Contents() == m && page.Length == PAGE_SIZE
    requires EntryValue(m, s) == Some(v)
    requires Progress(m, p, page[..], n) && Order(s) == n
    modifies page
    ensures vmcs.Valid() && vmcs.Contents() == m
    ensures Progress(m, p, page[..], n + 1)
  {
    hide EntryValue, Get, Set, Fit, Covered, Order;
    WriteSlot(page, s, v);
    forall t: Slot | Order(t) == n
      ensures t == s
    {
      OrderInjective(s, t);
    }
  }

  lemma GuestEntry(m: Store, s: Slot)
    requires GuestField(s).Some?
    ensures EntryValue(m, s) == Some(IntoSlot(s, Lookup(m, GuestField(s).value)))
  {
  }

  lemma SegmentOrder(i: nat)
    requires i < |SEGS|
    ensures Order(Segment(SEGS[i], Selector)) == 4 * i && Order(Segment(SEGS[i], Limit)) == 4 * i + 1
    ensures Order(Segment(SEGS[i], Base)) == 4 * i + 2 && Order(Segment(SEGS[i], Attrib)) == 4 * i + 3
  {
  }

  lemma TableOrder()
    ensures Order(Segment(GDTR, Base)) == 32 && Order(Segment(GDTR, Limit)) == 33
    ensures Order(Segment(IDTR, Base)) == 34 && Order(Segment(IDTR, Limit)) == 35
  {
  }

  lemma RegisterOrder()
    ensures Order(Cr0) == 36 && Order(Cr3) == 37 && Order(Cr4) == 38 && Order(Cr2) == 39
    ensures Order(Rip) == 40
  {
  }

  lemma LaterRegisterOrder()
    ensures Order(Rsp) == 41 && Order(Rflags) == 42 && Order(Gpat) == 43 && Order(Efer) == 44
  {
  }

  lemma ControlOrder()
    ensures Order(Intercept1) == 45 && Order(Intercept2) == 46 && Order(InterceptExceptions) == 47
    ensures Order(NpEnable) == 48 && Order(NestedCr3) == 49 && Order(GuestAsid) == 50 && Order(EventInj) == 51
  {
  }

  lemma ControlEntry(m: Store)
    ensures EntryValue(m, Intercept1) == Some(Intercept1Value(m))
    ensures EntryValue(m, Intercept2) == Some(INTERCEPT2_VMRUN)
    ensures EntryValue(m, InterceptExceptions) == Some(Lookup(m, EXCEPTION_BITMAP))
    ensures EntryValue(m, NpEnable) == Some(if EptEnabled(m) then 1 else 0)
    ensures EntryValue(m, NestedCr3) == Some(if EptEnabled(m) then PageBase(Lookup(m, EPT_POINTER)) else 0)
    ensures EntryValue(m, GuestAsid) == Some(AsidFor(Vpid(m)))
    ensures EntryValue(m, EventInj) ==
            Some(Eventinj(Lookup32(m, VM_ENTRY_INTR_INFO), Lookup32(m, VM_ENTRY_EXCEPTION_ERROR)))
  {
    hide EntryValue, Lookup, Intercept1Value, AsidFor, Vpid, Eventinj, EptEnabled, Lookup32, PageBase;
    InterceptEntry(m);
    PagingEntry(m);
    AsidEntry(m);
  }

  lemma InterceptEntry(m: Store)
    ensures EntryValue(m, Intercept1) == Some(Intercept1Value(m))
    ensures EntryValue(m, Intercept2) == Some(INTERCEPT2_VMRUN)
    ensures EntryValue(m, InterceptExceptions) == Some(Lookup(m, EXCEPTION_BITMAP))
  {
    hide Lookup, Intercept1Value, AsidFor, Vpid, Eventinj, EptEnabled, Lookup32, WithSvme, PageBase, GuestField;
  }

  lemma PagingEntry(m: Store)
    ensures EntryValue(m, NpEnable) == Some(if EptEnabled(m) then 1 else 0)
    ensures EntryValue(m, NestedCr3) == Some(if EptEnabled(m) then PageBase(Lookup(m, EPT_POINTER)) else 0)
  {
    hide Lookup, Intercept1Value, AsidFor, Vpid, Eventinj, EptEnabled, Lookup32, WithSvme, PageBase, GuestField;
  }

  lemma AsidEntry(m: Store)
    ensures EntryValue(m, GuestAsid) == Some(AsidFor(Vpid(m)))
    ensures EntryValue(m, EventInj) ==
            Some(Eventinj(Lookup32(m, VM_ENTRY_INTR_INFO), Lookup32(m, VM_ENTRY_EXCEPTION_ERROR)))
  {
    hide Lookup, Intercept1Value, AsidFor, Vpid, Eventinj, EptEnabled, Lookup32, WithSvme, PageBase, GuestField;
  }

  /** Reads a guest field and stores it, converted, in its slot. */
  method StoreGuest(vmcs: ShadowVMCS, page: array<bv8>, s: Slot, ghost m: Store, ghost p: Page, ghost n: nat)
    requires vmcs.Valid() && vmcs.Contents() == m && page.Length == PAGE_SIZE
    requires Progress(m, p, page[..], n) && Order(s) == n && n < 45
    modifies page
    ensures vmcs.Valid() && vmcs.Contents() == m
    ensures Progress(m, p, page[..], n + 1)
  {
    hide ShadowVMCS.Contents, ShadowVMCS.Valid, EntryValue, IntoSlot, GuestField, Progress, Order, Lookup;
    GuestOrder(s);
    GuestEntry(m, s);
    var v := vmcs.Read(GuestField(s).value);
    StoreEntry(vmcs, page, s, IntoSlot(s, v), m, p, n);
  }

  /** Segments: the eight of the table in full, GDTR and IDTR by base and limit only. */
  method TranslateSegments(vmcs: ShadowVMCS, page: array<bv8>, ghost p: Page)
    requires vmcs.Valid() && page.Length == PAGE_SIZE && page[..] == p
    modifies page
    ensures vmcs.Valid() && vmcs.Contents() == old(vmcs.Contents())
    ensures Progress(vmcs.Contents(), p, page[..], 36)
  {
    ghost var m := vmcs.Contents();
    assert Progress(m, p, page[..], 0);
    hide ShadowVMCS.Contents, ShadowVMCS.Valid, Progress, Order;
    for i := 0 to |SEGS|
      invariant vmcs.Valid() && vmcs.Contents() == m
      invariant Progress(m, p, page[..], 4 * i)
    {
      var seg := SEGS[i];
      SegmentOrder(i);
      StoreGuest(vmcs, page, Segment(seg, Selector), m, p, 4 * i);
      StoreGuest(vmcs, page, Segment(seg, Limit), m, p, 4 * i + 1);
      StoreGuest(vmcs, page, Segment(seg, Base), m, p, 4 * i + 2);
      StoreGuest(vmcs, page, Segment(seg, Attrib), m, p, 4 * i + 3);
    }
    TableOrder();
    StoreGuest(vmcs, page, Segment(GDTR, Base), m, p, 32);
    StoreGuest(vmcs, page, Segment(GDTR, Limit), m, p, 33);
    StoreGuest(vmcs, page, Segment(IDTR, Base), m, p, 34);
    StoreGuest(vmcs, page, Segment(IDTR, Limit), m, p, 35);
  }

  /** Control and general registers; EFER gains SVME, which VMRUN insists on. */
  method TranslateRegisters(vmcs: ShadowVMCS, page: array<bv8>, ghost p: Page)
    requires vmcs.Valid() && page.Length == PAGE_SIZE && Progress(vmcs.Contents(), p, page[..], 36)
    modifies page
    ensures vmcs.Valid() && vmcs.Contents() == old(vmcs.Contents())
    ensures Progress(vmcs.Contents(), p, page[..], 45)
  {
    hide ShadowVMCS.Contents, ShadowVMCS.Valid, Progress, Order;
    ghost var m := vmcs.Contents();
    RegisterOrder();
    LaterRegisterOrder();
    StoreGuest(vmcs, page, Cr0, m, p, 36);
    StoreGuest(vmcs, page, Cr3, m, p, 37);
    StoreGuest(vmcs, page, Cr4, m, p, 38);
    StoreGuest(vmcs, page, Cr2, m, p, 39);
    StoreGuest(vmcs, page, Rip, m, p, 40);
    StoreGuest(vmcs, page, Rsp, m, p, 41);
    StoreGuest(vmcs, page, Rflags, m, p, 42);
    StoreGuest(vmcs, page, Gpat, m, p, 43);
    StoreGuest(vmcs, page, Efer, m, p, 44);
  }

  method ComposeIntercepts(pin: bv32, cpu: bv32) returns (word: bv64)
    ensures word == Intercept1Word(Has(pin, PIN_CTL_EXT_INTR_EXITING), Has(cpu, CPU_CTL_HLT_EXITING))
  {
    hide Has;
    word := 0;
    if Has(pin, PIN_CTL_EXT_INTR_EXITING) {
      word := word | INTERCEPT_INTR;
    }
    if Has(cpu, CPU_CTL_HLT_EXITING) {
      word := word | INTERCEPT_HLT;
    }
  }

  /** Intercepts; also returns the secondary controls, which are zero unless activated. */
  method TranslateIntercepts(vmcs: ShadowVMCS, page: array<bv8>, ghost p: Page) returns (sec: bv32)
    requires vmcs.Valid() && page.Length == PAGE_SIZE && Progress(vmcs.Contents(), p, page[..], 45)
    modifies page
    ensures vmcs.Valid() && vmcs.Contents() == old(vmcs.Contents())
    ensures Progress(vmcs.Contents(), p, page[..], 48)
    ensures sec == SecondaryControls(vmcs.Contents())
  {
    hide ShadowVMCS.Contents, ShadowVMCS.Valid, Progress, Lookup, Low32, EntryValue, Order, Has, Intercept1Word;
    ghost var m := vmcs.Contents();
    ControlOrder();
    InterceptEntry(m);
    var pinWord := vmcs.Read(PIN_EXEC_CONTROL);
    var cpuWord := vmcs.Read(CPU_EXEC_CONTROL);
    var pin, cpu := Low32(pinWord), Low32(cpuWord);
    sec := 0;
    if Has(cpu, CPU_CTL_SECONDARY_CTLS) {
      var secWord := vmcs.Read(SECONDARY_EXEC_CTL);
      sec := Low32(secWord);
    }
    var intercept1 := ComposeIntercepts(pin, cpu);
    StoreEntry(vmcs, page, Intercept1, intercept1, m, p, 45);
    StoreEntry(vmcs, page, Intercept2, INTERCEPT2_VMRUN, m, p, 46);
    var exceptions := vmcs.Read(EXCEPTION_BITMAP);
    StoreEntry(vmcs, page, InterceptExceptions, exceptions, m, p, 47);
  }

  /** Nested paging. No nested table is ever built, so the EPT root goes in unchanged. */
  method TranslatePaging(vmcs: ShadowVMCS, page: array<bv8>, sec: bv32, ghost p: Page)
    requires vmcs.Valid() && page.Length == PAGE_SIZE && Progress(vmcs.Contents(), p, page[..], 48)
    requires sec == SecondaryControls(vmcs.Contents())
    modifies page
    ensures vmcs.Valid() && vmcs.Contents() == old(vmcs.Contents())
    ensures Progress(vmcs.Contents(), p, page[..], 50)
  {
    hide ShadowVMCS.Contents, ShadowVMCS.Valid, Progress, Lookup, EntryValue, Order, Has;
    hide SecondaryControls, PageBase;
    ghost var m := vmcs.Contents();
    ControlOrder();
    PagingEntry(m);
    if Has(sec, SEC_CTL_ENABLE_EPT) {
      StoreEntry(vmcs, page, NpEnable, 1, m, p, 48);
      var eptp := vmcs.Read(EPT_POINTER);
      var npt := BuildNptFromEpt(eptp);
      StoreEntry(vmcs, page, NestedCr3, if npt != 0 then npt else PageBase(eptp), m, p, 49);
    } else {
      StoreEntry(vmcs, page, NpEnable, 0, m, p, 48);
      StoreEntry(vmcs, page, NestedCr3, 0, m, p, 49);
    }
  }

  method TranslateAsid(vmcs: ShadowVMCS, page: array<bv8>, sec: bv32, ghost p: Page)
    requires vmcs.Valid() && page.Length == PAGE_SIZE && Progress(vmcs.Contents(), p, page[..], 50)
    requires sec == SecondaryControls(vmcs.Contents())
    modifies page
    ensures vmcs.Valid() && vmcs.Contents() == old(vmcs.Contents())
    ensures Progress(vmcs.Contents(), p, page[..], 51)
  {
    hide ShadowVMCS.Contents, ShadowVMCS.Valid, Progress, Lookup, Low32, EntryValue, Order, Has;
    hide SecondaryControls, AsidFor;
    ghost var m := vmcs.Contents();
    ControlOrder();
    AsidEntry(m);
    var vpid: bv32 := 0;
    if Has(sec, SEC_CTL_ENABLE_VPID) {
      var vpidWord := vmcs.Read(VIRTUAL_PROCESSOR_ID);
      vpid := Low32(vpidWord);
    }
    StoreEntry(vmcs, page, GuestAsid, AsidFor(vpid), m, p, 50);
  }

  method TranslateEvent(vmcs: ShadowVMCS, page: array<bv8>, ghost p: Page)
    requires vmcs.Valid() && page.Length == PAGE_SIZE && Progress(vmcs.Contents(), p, page[..], 51)
    modifies page
    ensures vmcs.Valid() && vmcs.Contents() == old(vmcs.Contents())
    ensures Progress(vmcs.Contents(), p, page[..], 52)
  {
    hide ShadowVMCS.Contents, ShadowVMCS.Valid, Progress, Lookup, Low32, EntryValue, Order;
    hide EventinjMake, EntryVector, EntryType, EntryValid, EntryDeliversError, SvmType;
    ghost var m := vmcs.Contents();
    ControlOrder();
    ControlEntry(m);
    var infoWord := vmcs.Read(VM_ENTRY_INTR_INFO);
    var info := Low32(infoWord);
    if EntryValid(info) {
      var errWord := vmcs.Read(VM_ENTRY_EXCEPTION_ERROR);
      var inject := EventinjMake(EntryVector(info), SvmType(EntryType(info)), EntryDeliversError(info), Low32(errWord));
      StoreEntry(vmcs, page, EventInj, inject, m, p, 51);
    } else {
      StoreEntry(vmcs, page, EventInj, 0, m, p, 51);
    }
  }

  /** Fills the page from the shadow. */
  method TranslateVmcsToVmcb(vmcs: ShadowVMCS, page: array<bv8>)
    requires vmcs.Valid() && page.Length == PAGE_SIZE
    modifies page
    ensures vmcs.Valid() && vmcs.Contents() == old(vmcs.Contents())
    ensures Entered(vmcs.Contents(), old(page[..]), page[..])
    ensures page[..] == Enter(vmcs.Contents(), old(page[..]))
  {
    hide EntryValue, Get, Fit, Covered, Enter, Order;
    hide ShadowVMCS.Contents, ShadowVMCS.Valid;
    ghost var m, p := vmcs.Contents(), page[..];
    TranslateSegments(vmcs, page, p);
    TranslateRegisters(vmcs, page, p);
    var sec := TranslateIntercepts(vmcs, page, p);
    TranslatePaging(vmcs, page, sec, p);
    TranslateAsid(vmcs, page, sec, p);
    TranslateEvent(vmcs, page, p);
    forall s: Slot
      ensures Get(page[..], s) == EntrySlot(m, p, s)
    {
      OrderWritten(m, s);
    }
    EnterIsEntered(m, p);
  }
}
