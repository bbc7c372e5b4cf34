/** VMCB to VMCS, after the exit. */
module ExitTranslation {
  import opened Bytes
  import opened EntryTranslation
  import opened SegmentRights
  import opened ShadowVmcs
  import opened Vmcb
  import opened Vmx

  const SVM_FEATURE_NRIPS: bv32 := 0x8

  const VMEXIT_EXCP_BASE: bv64 := 0x040
  const VMEXIT_EXCP_LAST: bv64 := 0x05F
  const VMEXIT_INTR: bv64 := 0x060
  const VMEXIT_NMI: bv64 := 0x061
  const VMEXIT_CPUID: bv64 := 0x072
  const VMEXIT_HLT: bv64 := 0x078
  const VMEXIT_IOIO: bv64 := 0x07B
  const VMEXIT_MSR: bv64 := 0x07C
  const VMEXIT_VMMCALL: bv64 := 0x081
  const VMEXIT_NPF: bv64 := 0x400
  const VMEXIT_INVALID: bv64 := 0xFFFF_FFFF_FFFF_FFFF

  function SvmExitToVmxReason(code: bv64, info1: bv64): bv32 {
    if code == VMEXIT_CPUID then EXIT_CPUID
    else if code == VMEXIT_HLT then EXIT_HLT
    else if code == VMEXIT_VMMCALL then EXIT_VMCALL
    else if code == VMEXIT_IOIO then EXIT_IO_INSTRUCTION
    else if code == VMEXIT_MSR then (if info1 & 1 != 0 then EXIT_WRMSR else EXIT_RDMSR)
    else if code == VMEXIT_INTR then EXIT_EXTERNAL_INTERRUPT
    else if code == VMEXIT_NMI then EXIT_EXCEPTION_NMI
    else if code == VMEXIT_NPF then EXIT_EPT_VIOLATION
    else if VMEXIT_EXCP_BASE <= code <= VMEXIT_EXCP_LAST then EXIT_EXCEPTION_NMI
    else EXIT_UNKNOWN
  }

  /** The slots that an exit reports: every mirrored guest field but GDTR, IDTR and the PAT. */
  predicate WrittenBack(s: Slot) {
    GuestField(s).Some? && s != Gpat && !(s.Segment? && (s.seg.GDTR? || s.seg.IDTR?))
  }

  function WithoutSvme(efer: bv64): bv64 {
    efer & 0xFFFF_FFFF_FFFF_EFFF
  }

  function ArOfAttrib(attrib: bv64): bv64 {
    Wide32(SvmAttribToVmxAr(Low16(attrib)))
  }

  /** How a slot is converted on its way back into its guest field. */
  function FromSlot(s: Slot, v: bv64): bv64 {
    match s
    case Segment(_, Attrib) => ArOfAttrib(v)
    case Efer => WithoutSvme(v)
    case _ => v
  }

  function ReasonValue(p: Page): bv64 {
    Wide32(SvmExitToVmxReason(Get(p, ExitCode), Get(p, ExitInfo1)))
  }

  /** The instruction length is known only when the processor records the next RIP. */
  function InstrLen(p: Page, features: bv32): Option<bv64> {
    LengthBetween(features, Get(p, Rip), Get(p, Nrip))
  }

  function LengthBetween(features: bv32, rip: bv64, nrip: bv64): Option<bv64> {
    if Has(features, SVM_FEATURE_NRIPS) && nrip > rip then Some(nrip - rip) else None
  }

  // ----- the writes of an exit, in order -----

  const REGISTERS: seq<Slot> := [Cr0, Cr3, Cr4, Cr2, Rip, Rsp, Rflags, Efer]

  const PARTS: seq<Part> := [Selector, Limit, Base, Attrib]

  const SLOT_WRITES: nat := 40

  /** The i-th slot to be written back. */
  function SlotAt(i: nat): Slot
    requires i < SLOT_WRITES
  {
    if i < 8 then REGISTERS[i] else Segment(SEGS[(i - 8) / 4], PARTS[(i - 8) % 4])
  }

  function SlotField(p: Page, s: Slot): Field {
    Field(if GuestField(s).Some? then GuestField(s).value else 0, FromSlot(s, Get(p, s)))
  }

  function WriteBack(p: Page, features: bv32): (ws: seq<Field>)
    ensures SLOT_WRITES < |ws| <= SLOT_WRITES + 2
  {
    seq(SLOT_WRITES, i requires 0 <= i < SLOT_WRITES => SlotField(p, SlotAt(i)))
    + [Field(VM_EXIT_REASON, ReasonValue(p))]
    + (match InstrLen(p, features) case Some(n) => [Field(VM_EXIT_INSTR_LEN, n)] case None => [])
  }

  /** The encodings that an exit may write. */
  ghost predicate ExitEncoding(e: Encoding) {
    e == VM_EXIT_REASON || e == VM_EXIT_INSTR_LEN || exists s: Slot :: WrittenBack(s) && GuestField(s) == Some(e)
  }

  function SlotIndex(s: Slot): nat {
    match s
    case Segment(seg, part) =>
      8 + 4 * SegNumber(seg) + (match part case Selector => 0 case Limit => 1 case Base => 2 case Attrib => 3)
    case Cr0 => 0
    case Cr3 => 1
    case Cr4 => 2
    case Cr2 => 3
    case Rip => 4
    case Rsp => 5
    case Rflags => 6
    case Efer => 7
    case _ => SLOT_WRITES
  }

  lemma SlotIndexIs(s: Slot)
    requires WrittenBack(s)
    ensures SlotIndex(s) < SLOT_WRITES && SlotAt(SlotIndex(s)) == s
  {
  }

  lemma SlotAtWrittenBack(i: nat)
    requires i < SLOT_WRITES
    ensures WrittenBack(SlotAt(i))
  {
  }

  /** Every element of the list is one of the exit's writes. */
  lemma WriteBackElement(p: Page, features: bv32, i: nat)
    requires i < |WriteBack(p, features)|
    ensures var f := WriteBack(p, features)[i];
      || (i < SLOT_WRITES && WrittenBack(SlotAt(i)) && f == SlotField(p, SlotAt(i)))
      || (i == SLOT_WRITES && f == Field(VM_EXIT_REASON, ReasonValue(p)))
      || (i == SLOT_WRITES + 1 && InstrLen(p, features).Some?
          && f == Field(VM_EXIT_INSTR_LEN, InstrLen(p, features).value))
  {
    hide SlotAt, SlotField, InstrLen, ReasonValue, WrittenBack;
    if i < SLOT_WRITES {
      SlotAtWrittenBack(i);
    }
  }

  /** Each slot that is written back is written once, with its own converted value. */
  lemma WriteBackOfSlot(p: Page, features: bv32, s: Slot)
    requires WrittenBack(s)
    ensures var ws := WriteBack(p, features); var e := GuestField(s).value;
      && e in Encodings(ws)
      && (forall i :: 0 <= i < |ws| && ws[i].enc == e ==> ws[i].val == FromSlot(s, Get(p, s)))
  {
    hide FromSlot, InstrLen, ReasonValue, SlotAt, GuestField, SlotIndex;
    var ws, e := WriteBack(p, features), GuestField(s).value;
    SlotIndexIs(s);
    WriteBackElement(p, features, SlotIndex(s));
    assert ws[SlotIndex(s)].enc == e;
    forall i | 0 <= i < |ws| && ws[i].enc == e
      ensures ws[i].val == FromSlot(s, Get(p, s))
    {
      WriteBackElement(p, features, i);
      GuestFieldsDistinct(s, if i < SLOT_WRITES then SlotAt(i) else s);
    }
  }

  lemma WriteBackOfExitInfo(p: Page, features: bv32)
    ensures var ws := WriteBack(p, features);
      && VM_EXIT_REASON in Encodings(ws)
      && (VM_EXIT_INSTR_LEN in Encodings(ws) <==> InstrLen(p, features).Some?)
      && (forall i :: 0 <= i < |ws| && ws[i].enc == VM_EXIT_REASON ==> ws[i].val == ReasonValue(p))
      && (forall i :: 0 <= i < |ws| && ws[i].enc == VM_EXIT_INSTR_LEN ==> Some(ws[i].val) == InstrLen(p, features))
  {
    hide FromSlot, InstrLen, ReasonValue, SlotAt, GuestField;
    var ws := WriteBack(p, features);
    assert ws[SLOT_WRITES].enc == VM_EXIT_REASON;
    if InstrLen(p, features).Some? {
      assert ws[SLOT_WRITES + 1].enc == VM_EXIT_INSTR_LEN;
    }
    forall i | 0 <= i < |ws|
      ensures ws[i].enc == VM_EXIT_REASON ==> ws[i].val == ReasonValue(p)
      ensures ws[i].enc == VM_EXIT_INSTR_LEN ==> Some(ws[i].val) == InstrLen(p, features)
    {
      WriteBackElement(p, features, i);
      if i < SLOT_WRITES {
        GuestFieldsDistinct(SlotAt(i), SlotAt(i));
      }
    }
  }

  /** An exit writes nothing but exit encodings, at most 42 of them. */
  lemma WriteBackEncodings(p: Page, features: bv32)
    ensures forall e :: e in Encodings(WriteBack(p, features)) ==> ExitEncoding(e)
    ensures |Encodings(WriteBack(p, features))| <= SLOT_WRITES + 2
  {
    hide FromSlot, InstrLen, ReasonValue, SlotAt, GuestField;
    var ws := WriteBack(p, features);
    EncodingsBound(ws);
    forall e | e in Encodings(ws)
      ensures ExitEncoding(e)
    {
      var i :| 0 <= i < |ws| && ws[i].enc == e;
      WriteBackElement(p, features, i);
    }
  }

  // ----- which of the writes a store has room for -----

  /** The encoding of the i-th write, the same for every page. */
  function EncodingAt(i: nat): Encoding
    requires i < SLOT_WRITES + 2
  {
    if i == SLOT_WRITES then VM_EXIT_REASON
    else if i == SLOT_WRITES + 1 then VM_EXIT_INSTR_LEN
    else if GuestField(SlotAt(i)).Some? then GuestField(SlotAt(i)).value else 0
  }

  /** The encodings of the first n writes. */
  function FirstEncodings(n: nat): set<Encoding>
    requires n <= SLOT_WRITES + 2
  {
    set i | 0 <= i < n :: EncodingAt(i)
  }

  lemma WriteBackEncodingAt(p: Page, features: bv32, i: nat)
    requires i < |WriteBack(p, features)|
    ensures WriteBack(p, features)[i].enc == EncodingAt(i)
  {
    hide FromSlot, InstrLen, ReasonValue, SlotAt, GuestField;
    WriteBackElement(p, features, i);
  }

  lemma SlotAtIndex(i: nat)
    requires i < SLOT_WRITES
    ensures SlotIndex(SlotAt(i)) == i
  {
  }

  lemma EncodingsDiffer(i: nat, j: nat)
    requires i < j < SLOT_WRITES + 2
    ensures EncodingAt(i) != EncodingAt(j)
  {
    hide SlotAt, GuestField, SlotIndex, WrittenBack;
    if i < SLOT_WRITES {
      SlotAtIndex(i);
      SlotAtGuest(i);
      var j' := if j < SLOT_WRITES then j else i;
      SlotAtIndex(j');
      SlotAtGuest(j');
      GuestFieldsDistinct(SlotAt(i), SlotAt(j'));
    }
  }

  lemma SlotAtGuest(i: nat)
    requires i < SLOT_WRITES
    ensures GuestField(SlotAt(i)).Some?
  {
    hide SlotAt, GuestField;
    SlotAtWrittenBack(i);
  }

  lemma {:induction false} FirstEncodingsSize(n: nat)
    requires n <= SLOT_WRITES + 2
    ensures |FirstEncodings(n)| == n
  {
    hide EncodingAt;
    if n == 0 {
      assert FirstEncodings(0) == {};
    } else {
      FirstEncodingsSize(n - 1);
      assert FirstEncodings(n) == FirstEncodings(n - 1) + {EncodingAt(n - 1)};
      forall i | 0 <= i < n - 1
        ensures EncodingAt(i) != EncodingAt(n - 1)
      {
        EncodingsDiffer(i, n - 1);
      }
    }
  }

  lemma FirstEncodingsOf(p: Page, features: bv32, n: nat)
    requires n <= |WriteBack(p, features)|
    ensures Encodings(WriteBack(p, features)[..n]) == FirstEncodings(n)
  {
    hide EncodingAt, WriteBack;
    var ws := WriteBack(p, features);
    forall i | 0 <= i < n
      ensures ws[..n][i].enc == EncodingAt(i)
    {
      WriteBackEncodingAt(p, features, i);
    }
  }

  /** The store m keeps the value of an exit's i-th write: it has the encoding already, or with the
      encodings written before it there are less than 256. */
  predicate Stored(m: Store, i: nat)
    requires i < SLOT_WRITES + 2
  {
    EncodingAt(i) in m || |m.Keys + FirstEncodings(i)| < MAX_FIELDS
  }

  /** What reads see after an exit, room or not: a written field has its new value iff it was stored,
      and is absent, and reads as 0, if it was not. */
  lemma ExitReadsExactly(m: Store, p: Page, features: bv32, i: nat)
    requires |m| <= MAX_FIELDS && i < |WriteBack(p, features)|
    ensures Lookup(Exit(m, p, features), EncodingAt(i)) == if Stored(m, i) then WriteBack(p, features)[i].val else 0
    ensures EncodingAt(i) in Exit(m, p, features) <==> Stored(m, i)
  {
    hide EncodingAt, WriteBack, Encodings, FirstEncodings;
    var ws, e := WriteBack(p, features), EncodingAt(i);
    FirstEncodingsOf(p, features, i);
    NotBefore(i);
    WriteBackEncodingAt(p, features, i);
    FirstWriteDecides(m, ws, i);
    if e in Exit(m, p, features) {
      StoredIsLast(m, ws, e);
      OnlyWrite(p, features, i);
      UniformLast(ws, e, ws[i].val, Lookup(m, e));
    }
  }

  /** The same of the slots that are written back. */
  predicate SlotStored(m: Store, s: Slot) {
    SlotIndex(s) < SLOT_WRITES && Stored(m, SlotIndex(s))
  }

  lemma SlotReadsExactly(m: Store, p: Page, features: bv32, s: Slot)
    requires |m| <= MAX_FIELDS && WrittenBack(s)
    ensures Lookup(Exit(m, p, features), GuestField(s).value) == if SlotStored(m, s) then FromSlot(s, Get(p, s)) else 0
    ensures !SlotStored(m, s) ==> Lookup(m, GuestField(s).value) == 0
  {
    hide WriteBack, Exit, FirstEncodings, SlotAt, SlotIndex, FromSlot, Get;
    SlotIndexIs(s);
    WriteBackElement(p, features, SlotIndex(s));
    WriteBackEncodingAt(p, features, SlotIndex(s));
    ExitReadsExactly(m, p, features, SlotIndex(s));
  }

  lemma NotBefore(i: nat)
    requires i < SLOT_WRITES + 2
    ensures EncodingAt(i) !in FirstEncodings(i)
  {
    hide EncodingAt;
    forall j | 0 <= j < i
      ensures EncodingAt(j) != EncodingAt(i)
    {
      EncodingsDiffer(j, i);
    }
  }

  lemma OnlyWrite(p: Page, features: bv32, i: nat)
    requires i < |WriteBack(p, features)|
    ensures EncodingAt(i) in Encodings(WriteBack(p, features))
    ensures var ws := WriteBack(p, features);
            forall j :: 0 <= j < |ws| && ws[j].enc == EncodingAt(i) ==> ws[j].val == ws[i].val
  {
    hide EncodingAt, WriteBack;
    var ws := WriteBack(p, features);
    WriteBackEncodingAt(p, features, i);
    forall j | 0 <= j < |ws| && ws[j].enc == EncodingAt(i)
      ensures j == i
    {
      WriteBackEncodingAt(p, features, j);
      if j < i {
        EncodingsDiffer(j, i);
      } else if i < j {
        EncodingsDiffer(i, j);
      }
    }
  }

  /** There is room for the whole exit iff each of its writes is stored. */
  lemma RoomIffStored(m: Store, p: Page, features: bv32)
    requires |m| <= MAX_FIELDS
    ensures Room(m, WriteBack(p, features)) <==> forall i :: 0 <= i < |WriteBack(p, features)| ==> Stored(m, i)
  {
    hide WriteBack, FirstEncodings, EncodingAt, Encodings;
    var ws := WriteBack(p, features);
    assert ws[..|ws|] == ws;
    FirstEncodingsOf(p, features, |ws|);
    if forall i :: 0 <= i < |ws| ==> Stored(m, i) {
      StoredFits(m, |ws|);
    }
    if Room(m, ws) {
      forall i | 0 <= i < |ws|
        ensures Stored(m, i)
      {
        FitsStored(m, i, |ws|);
      }
    }
  }

  lemma FitsStored(m: Store, i: nat, n: nat)
    requires i < n <= SLOT_WRITES + 2 && |m.Keys + FirstEncodings(n)| <= MAX_FIELDS
    ensures Stored(m, i)
  {
    hide EncodingAt, FirstEncodings;
    NotBefore(i);
    AddOne(m.Keys + FirstEncodings(i), EncodingAt(i));
    FirstEncodingsAmong(m.Keys, i, n);
    SubsetSize(m.Keys + FirstEncodings(i) + {EncodingAt(i)}, m.Keys + FirstEncodings(n));
  }

  lemma FirstEncodingsAmong(keys: set<Encoding>, i: nat, n: nat)
    requires i < n <= SLOT_WRITES + 2
    ensures keys + FirstEncodings(i) + {EncodingAt(i)} <= keys + FirstEncodings(n)
  {
    hide EncodingAt;
  }

  lemma {:induction false} StoredFits(m: Store, n: nat)
    requires |m| <= MAX_FIELDS && n <= SLOT_WRITES + 2 && forall i :: 0 <= i < n ==> Stored(m, i)
    ensures |m.Keys + FirstEncodings(n)| <= MAX_FIELDS
  {
    hide EncodingAt, FirstEncodings;
    FirstEncodingsStep(m.Keys, n);
    if n == 0 {
      assert |m.Keys| == |m|;
    } else {
      StoredFits(m, n - 1);
      assert Stored(m, n - 1);
      AddOne(m.Keys + FirstEncodings(n - 1), EncodingAt(n - 1));
    }
  }

  lemma FirstEncodingsStep(keys: set<Encoding>, n: nat)
    requires n <= SLOT_WRITES + 2
    ensures n == 0 ==> keys + FirstEncodings(n) == keys
    ensures n > 0 ==> keys + FirstEncodings(n) == keys + FirstEncodings(n - 1) + {EncodingAt(n - 1)}
  {
    hide EncodingAt;
  }

  /** A store of at most 214 fields has room for any exit. */
  lemma RoomForExit(m: Store, p: Page, features: bv32)
    requires |m| <= MAX_FIELDS - SLOT_WRITES - 2
    ensures Room(m, WriteBack(p, features))
  {
    hide Encodings, WriteBack;
    WriteBackEncodings(p, features);
    var es := Encodings(WriteBack(p, features));
    assert |m.Keys + es| <= |m.Keys| + |es|;
    assert |m.Keys| == |m|;
  }

  /** The shadow after an exit with page p. */
  function Exit(m: Store, p: Page, features: bv32): Store {
    PutAll(m, WriteBack(p, features))
  }

  /** What reads see after an exit, when the store has room for the exit's writes. */
  lemma ExitReads(m: Store, p: Page, features: bv32)
    requires |m| <= MAX_FIELDS && Room(m, WriteBack(p, features))
    ensures forall s: Slot :: WrittenBack(s) ==>
      Lookup(Exit(m, p, features), GuestField(s).value) == FromSlot(s, Get(p, s))
    ensures Lookup(Exit(m, p, features), VM_EXIT_REASON) == ReasonValue(p)
    ensures Lookup(Exit(m, p, features), VM_EXIT_INSTR_LEN) ==
      match InstrLen(p, features) case Some(n) => n case None => Lookup(m, VM_EXIT_INSTR_LEN)
  {
    hide FromSlot, InstrLen, ReasonValue, GuestField, WriteBack, Lookup, Room, Encodings;
    var ws := WriteBack(p, features);
    forall s: Slot | WrittenBack(s)
      ensures Lookup(Exit(m, p, features), GuestField(s).value) == FromSlot(s, Get(p, s))
    {
      var e := GuestField(s).value;
      WriteBackOfSlot(p, features, s);
      LosslessReads(m, ws, e);
      UniformLast(ws, e, FromSlot(s, Get(p, s)), Lookup(m, e));
    }
    WriteBackOfExitInfo(p, features);
    LosslessReads(m, ws, VM_EXIT_REASON);
    UniformLast(ws, VM_EXIT_REASON, ReasonValue(p), Lookup(m, VM_EXIT_REASON));
    LosslessReads(m, ws, VM_EXIT_INSTR_LEN);
    match InstrLen(p, features)
    case Some(n) => UniformLast(ws, VM_EXIT_INSTR_LEN, n, Lookup(m, VM_EXIT_INSTR_LEN));
    case None => NeverWritten(ws, VM_EXIT_INSTR_LEN, Lookup(m, VM_EXIT_INSTR_LEN));
  }

  /** Every other field is left alone, room or not. */
  lemma ExitKeeps(m: Store, p: Page, features: bv32, e: Encoding)
    requires !ExitEncoding(e)
    ensures Lookup(Exit(m, p, features), e) == Lookup(m, e)
    ensures e in Exit(m, p, features) <==> e in m
  {
    WriteBackEncodings(p, features);
    PutAllKeeps(m, WriteBack(p, features), e);
  }

  // ----- the exit translation, write by write -----

  /** Part-way through an exit: the first n writes have been made. */
  ghost predicate Written(vmcs: ShadowVMCS, m: Store, ws: seq<Field>, n: nat)
    reads vmcs, vmcs.fields
  {
    vmcs.Valid() && n <= |ws| && vmcs.Contents() == PutAll(m, ws[..n])
  }

  method WriteField(vmcs: ShadowVMCS, enc: Encoding, val: bv64, ghost m: Store, ghost ws: seq<Field>, ghost n: nat)
    requires Written(vmcs, m, ws, n) && n < |ws| && ws[n] == Field(enc, val)
    modifies vmcs`count, vmcs.fields
    ensures Written(vmcs, m, ws, n + 1)
  {
    hide ShadowVMCS.Contents, ShadowVMCS.Valid, Put;
    var stored := vmcs.Write(enc, val);
    assert ws[..n + 1][..n] == ws[..n];
  }

  /** The array holds page p, in memory of its own. */
  ghost predicate Holds(page: array<bv8>, p: Page, vmcs: ShadowVMCS)
    reads page
  {
    page.Length == PAGE_SIZE && page[..] == p && (page as object) != (vmcs.fields as object)
  }

  method WriteGuest(page: array<bv8>, vmcs: ShadowVMCS, s: Slot,
                    ghost m: Store, ghost p: Page, ghost ws: seq<Field>, ghost n: nat)
    requires Written(vmcs, m, ws, n) && Holds(page, p, vmcs)
    requires WrittenBack(s) && n < |ws| && ws[n] == SlotField(p, s)
    modifies vmcs`count, vmcs.fields
    ensures Written(vmcs, m, ws, n + 1) && Holds(page, p, vmcs)
  {
    hide Written, Get, FromSlot, GuestField;
    var v := ReadSlot(page, s);
    WriteField(vmcs, GuestField(s).value, FromSlot(s, v), m, ws, n);
  }

  lemma SegmentAt(i: nat)
    requires i < |SEGS|
    ensures SlotAt(8 + 4 * i) == Segment(SEGS[i], Selector) && SlotAt(9 + 4 * i) == Segment(SEGS[i], Limit)
    ensures SlotAt(10 + 4 * i) == Segment(SEGS[i], Base) && SlotAt(11 + 4 * i) == Segment(SEGS[i], Attrib)
  {
  }

  lemma SegmentFieldsAt(p: Page, features: bv32, i: nat)
    requires i < |SEGS|
    ensures var ws, j := WriteBack(p, features), 8 + 4 * i;
      && ws[j] == SlotField(p, Segment(SEGS[i], Selector)) && ws[j + 1] == SlotField(p, Segment(SEGS[i], Limit))
      && ws[j + 2] == SlotField(p, Segment(SEGS[i], Base)) && ws[j + 3] == SlotField(p, Segment(SEGS[i], Attrib))
    ensures forall part :: WrittenBack(Segment(SEGS[i], part))
  {
    hide SlotField, InstrLen, ReasonValue, SlotAt, WrittenBack;
    SegmentAt(i);
    SlotAtWrittenBack(8 + 4 * i);
    SlotAtWrittenBack(9 + 4 * i);
    SlotAtWrittenBack(10 + 4 * i);
    SlotAtWrittenBack(11 + 4 * i);
    forall part: Part
      ensures WrittenBack(Segment(SEGS[i], part))
    {
      match part
      case Selector =>
      case Limit =>
      case Base =>
      case Attrib =>
    }
  }

  lemma RegistersAt(p: Page, features: bv32)
    ensures var ws := WriteBack(p, features);
      && ws[0] == SlotField(p, Cr0) && ws[1] == SlotField(p, Cr3) && ws[2] == SlotField(p, Cr4)
      && ws[3] == SlotField(p, Cr2) && ws[4] == SlotField(p, Rip) && ws[5] == SlotField(p, Rsp)
      && ws[6] == SlotField(p, Rflags) && ws[7] == SlotField(p, Efer)
  {
    hide SlotField, InstrLen, ReasonValue;
  }

  lemma RegistersWrittenBack()
    ensures WrittenBack(Cr0) && WrittenBack(Cr3) && WrittenBack(Cr4) && WrittenBack(Cr2)
  {
  }

  lemma LaterRegistersWrittenBack()
    ensures WrittenBack(Rip) && WrittenBack(Rsp) && WrittenBack(Rflags) && WrittenBack(Efer)
  {
  }

  lemma ExitInfoAt(p: Page, features: bv32)
    ensures var ws := WriteBack(p, features);
      && ws[40] == Field(VM_EXIT_REASON, ReasonValue(p))
      && match InstrLen(p, features)
         case Some(n) => |ws| == 42 && ws[41] == Field(VM_EXIT_INSTR_LEN, n)
         case None => |ws| == 41
  {
    hide SlotField, InstrLen, ReasonValue;
  }

  /** Writes the guest state and the exit information back into the shadow. */
  method TranslateVmcbToVmcs(page: array<bv8>, vmcs: ShadowVMCS, features: bv32)
    requires vmcs.Valid() && page.Length == PAGE_SIZE && Holds(page, page[..], vmcs)
    modifies vmcs`count, vmcs.fields
    ensures page.Length == PAGE_SIZE && page[..] == old(page[..])
    ensures vmcs.Valid() && vmcs.Contents() == Exit(old(vmcs.Contents()), page[..], features)
  {
    ghost var m, p := vmcs.Contents(), page[..];
    assert Written(vmcs, m, WriteBack(p, features), 0);
    hide Written, WriteBack;
    WriteRegisters(page, vmcs, m, p, features);
    WriteSegments(page, vmcs, m, p, features);
    WriteExitInfo(page, vmcs, features, m, p);
  }

  method WriteRegisters(page: array<bv8>, vmcs: ShadowVMCS, ghost m: Store, ghost p: Page, ghost features: bv32)
    requires Written(vmcs, m, WriteBack(p, features), 0) && Holds(page, p, vmcs)
    modifies vmcs`count, vmcs.fields
    ensures Written(vmcs, m, WriteBack(p, features), 8) && Holds(page, p, vmcs)
  {
    hide Written, Holds, WriteBack, WrittenBack, SlotField;
    ghost var ws := WriteBack(p, features);
    RegistersAt(p, features);
    RegistersWrittenBack();
    LaterRegistersWrittenBack();
    WriteGuest(page, vmcs, Cr0, m, p, ws, 0);
    WriteGuest(page, vmcs, Cr3, m, p, ws, 1);
    WriteGuest(page, vmcs, Cr4, m, p, ws, 2);
    WriteGuest(page, vmcs, Cr2, m, p, ws, 3);
    WriteGuest(page, vmcs, Rip, m, p, ws, 4);
    WriteGuest(page, vmcs, Rsp, m, p, ws, 5);
    WriteGuest(page, vmcs, Rflags, m, p, ws, 6);
    WriteGuest(page, vmcs, Efer, m, p, ws, 7);
  }

  method WriteSegments(page: array<bv8>, vmcs: ShadowVMCS, ghost m: Store, ghost p: Page, ghost features: bv32)
    requires Written(vmcs, m, WriteBack(p, features), 8) && Holds(page, p, vmcs)
    modifies vmcs`count, vmcs.fields
    ensures Written(vmcs, m, WriteBack(p, features), SLOT_WRITES) && Holds(page, p, vmcs)
  {
    hide Written, Holds, WriteBack, WrittenBack, SlotField;
    ghost var ws := WriteBack(p, features);
    for i := 0 to |SEGS|
      invariant Written(vmcs, m, ws, 8 + 4 * i) && Holds(page, p, vmcs)
    {
      var seg := SEGS[i];
      SegmentFieldsAt(p, features, i);
      WriteGuest(page, vmcs, Segment(seg, Selector), m, p, ws, 8 + 4 * i);
      WriteGuest(page, vmcs, Segment(seg, Limit), m, p, ws, 9 + 4 * i);
      WriteGuest(page, vmcs, Segment(seg, Base), m, p, ws, 10 + 4 * i);
      WriteGuest(page, vmcs, Segment(seg, Attrib), m, p, ws, 11 + 4 * i);
    }
  }

  /** The exit reason, and the instruction length when the processor recorded the next RIP. */
  method WriteExitInfo(page: array<bv8>, vmcs: ShadowVMCS, features: bv32, ghost m: Store, ghost p: Page)
    requires Written(vmcs, m, WriteBack(p, features), 40) && Holds(page, p, vmcs)
    modifies vmcs`count, vmcs.fields
    ensures page[..] == p
    ensures vmcs.Valid() && vmcs.Contents() == Exit(m, p, features)
  {
    hide ShadowVMCS.Contents, ShadowVMCS.Valid, Get, PutAll, SvmExitToVmxReason, WriteBack, LengthBetween;
    ghost var ws := WriteBack(p, features);
    ExitInfoAt(p, features);
    var code := ReadSlot(page, ExitCode);
    var info1 := ReadSlot(page, ExitInfo1);
    var nrip := ReadSlot(page, Nrip);
    var rip := ReadSlot(page, Rip);
    var reason := SvmExitToVmxReason(code, info1);
    WriteField(vmcs, VM_EXIT_REASON, Wide32(reason), m, ws, 40);
    match LengthBetween(features, rip, nrip) {
      case Some(n) => WriteField(vmcs, VM_EXIT_INSTR_LEN, n, m, ws, 41);
      case None =>
    }
    assert ws[..|ws|] == ws;
  }
}
