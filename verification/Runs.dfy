/** What holds over whole runs of traps, with an arbitrary stay in the guest at every entry. */
module Runs {
  import opened Bytes
  import opened Emulator
  import opened ExitTranslation
  import opened ShadowVmcs
  import T = TrapFrame
  import opened Vmcb
  import opened Vmx
  import opened WorldSwitch

  /** A trap: its frame, the instruction that raised it, and the guest that an entry would meet. */
  datatype Trap = Trap(frame: T.Frame, insn: T.Hde, guest: Guest)

  ghost function Step(st: Emu, t: Trap): Outcome {
    TrapOutcome(st, t.frame, t.insn, t.guest)
  }

  ghost function Run(st: Emu, ts: seq<Trap>): Emu {
    if ts == [] then st else Step(Run(st, ts[..|ts| - 1]), ts[|ts| - 1]).emu
  }

  /** Every write the run asked the shadow to make, in order. */
  ghost function Log(st: Emu, ts: seq<Trap>): seq<Field> {
    if ts == [] then [] else Log(st, ts[..|ts| - 1]) + Step(Run(st, ts[..|ts| - 1]), ts[|ts| - 1]).writes
  }

  // ----- the trap frame -----

  lemma StatusBits(v: bv64)
    ensures ClearStatus(v) & 0x8D5 == 0
    ensures ClearStatus(v) & 0xFFFF_FFFF_FFFF_F72A == v & 0xFFFF_FFFF_FFFF_F72A
  {
  }

  /** The whole contract of a trap towards the interrupted code: a handled one advances RIP by the length of
      the instruction, clears the status flags, and delivers a VMREAD. */
  lemma TrapFrameContract(st: Emu, t: Trap)
    ensures var out := Step(st, t); var d := T.Decode(t.frame, t.insn);
      && (out.handled <==> d.Some?)
      && (!out.handled ==> out.emu == st && out.frame == t.frame && out.writes == [])
      && (out.handled ==>
            && out.frame[T.RIP] == t.frame[T.RIP] + (t.insn.len % 0x100) as bv64
            && out.frame[T.RFLAGS] == t.frame[T.RFLAGS] & 0xFFFF_FFFF_FFFF_F72A
            && (d.value.op == T.Vmread ==> out.frame[T.DataSlot(t.insn)] == Lookup(st.store, d.value.field))
            && (forall i :: 0 <= i < T.FRAME_WORDS && i !in {T.RIP, T.RFLAGS} ==>
                  (d.value.op == T.Vmread && i == T.DataSlot(t.insn)) || out.frame[i] == t.frame[i]))
      && T.DataSlot(t.insn) !in {T.RIP, T.RFLAGS, T.CS, T.SS, T.CR2}
  {
    hide Step, T.Decode, T.DataSlot, Lookup;
    TrapFrameWords(st, t);
  }

  lemma TrapFrameWords(st: Emu, t: Trap)
    ensures var out := Step(st, t); var d := T.Decode(t.frame, t.insn);
      && (out.handled <==> d.Some?)
      && (!out.handled ==> out.emu == st && out.frame == t.frame && out.writes == [])
      && (out.handled ==>
            && out.frame[T.RIP] == AddLength(t.frame[T.RIP], t.insn.len % 0x100)
            && out.frame[T.RFLAGS] == ClearStatus(t.frame[T.RFLAGS])
            && (d.value.op == T.Vmread ==> out.frame[T.DataSlot(t.insn)] == Lookup(st.store, d.value.field))
            && (forall i :: 0 <= i < T.FRAME_WORDS && i !in {T.RIP, T.RFLAGS} ==>
                  (d.value.op == T.Vmread && i == T.DataSlot(t.insn)) || out.frame[i] == t.frame[i]))
      && T.DataSlot(t.insn) !in {T.RIP, T.RFLAGS, T.CS, T.SS, T.CR2}
  {
    hide T.GprSlot, T.RegIndex, T.FieldOf, Execute, Writes, ClearStatus, AddLength, Lookup;
    T.GprSlotApart(T.RegIndex(t.insn.modrmRm, t.insn.rexB));
    if T.Decode(t.frame, t.insn).Some? {
      DecodedBounds(t.frame, t.insn);
    }
  }

  // ----- what each instruction does -----

  /** The state-changing instructions, from their encodings. A VMLAUNCH and a VMRESUME do the same, and ask
      the shadow for what the exit writes. */
  lemma InstructionEffects(st: Emu, t: Trap, op: T.Op)
    requires T.Encodes(t.insn, op) && t.insn.len != 0 && !t.insn.error
    requires op != T.Vmread && op != T.Vmwrite
    ensures Step(st, t).handled
    ensures var out := Step(st, t);
      match op
      case Vmxon => out.emu == st.(root := true) && out.writes == []
      case Vmxoff => out.emu == st.(root := false) && out.writes == []
      case Vmptrld => out.emu == st.(launched := false) && out.writes == []
      case Vmclear => out.emu == st.(launched := false) && out.writes == []
      case Vmlaunch => out.emu == LaunchResume(st, t.guest) && out.writes == LaunchWrites(st, t.guest)
      case Vmresume => out.emu == LaunchResume(st, t.guest) && out.writes == LaunchWrites(st, t.guest)
      case _ => out.emu == st && out.writes == []
  {
    hide T.Decode, T.Encodes, Retire, LaunchResume, LaunchWrites;
    T.DecodeComplete(t.frame, t.insn, op);
  }

  /** What a launch asks the shadow to write is what the exit makes of the page that it leaves. */
  lemma LaunchAsks(st: Emu, guest: Guest)
    ensures LaunchWrites(st, guest)
            == match LaunchResume(st, guest).page
               case None => []
               case Some(q) => WriteBack(q, st.features)
    ensures LaunchResume(st, guest).store == PutAll(st.store, LaunchWrites(st, guest))
  {
    hide WriteBack, Get, AfterGuest, Put;
  }

  /** A register-form VMWRITE stores the second register under the first one's low 32 bits, and changes
      nothing else of the emulator. */
  lemma VmwriteEffect(st: Emu, t: Trap, e: T.Register, d: T.Register)
    requires T.RegisterForm(t.insn, T.Vmwrite, e, d)
    ensures var out := Step(st, t); var field := T.FieldOf(T.Saved(t.frame, e));
      && out.handled && out.emu == st.(store := Put(st.store, field, T.Saved(t.frame, d)))
      && out.writes == [Field(field, T.Saved(t.frame, d))]
  {
    hide T.Decode, T.RegisterForm, T.Saved, Retire, Put;
    T.OperandsByName(t.frame, t.insn, T.Vmwrite, e, d);
  }

  /** A register-form VMREAD delivers to the second register what the shadow has under the first one's low
      32 bits, and changes nothing of the emulator. */
  lemma VmreadEffect(st: Emu, t: Trap, e: T.Register, d: T.Register)
    requires T.RegisterForm(t.insn, T.Vmread, e, d)
    ensures var out := Step(st, t); var field := T.FieldOf(T.Saved(t.frame, e));
      && out.handled && out.emu == st && out.writes == []
      && T.Saved(out.frame, d) == Lookup(st.store, field)
      && (forall r: T.Register :: r != d ==> T.Saved(out.frame, r) == T.Saved(t.frame, r))
  {
    hide T.Decode, T.RegisterForm, ClearStatus, AddLength, Lookup, T.IsAt;
    T.OperandsByName(t.frame, t.insn, T.Vmread, e, d);
    forall r: T.Register
      ensures T.MemberOf(T.General(r)) !in {T.RIP, T.RFLAGS}
      ensures r != d ==> T.MemberOf(T.General(r)) != T.MemberOf(T.General(d))
    {
      T.MembersApart(r, d);
    }
  }

  // ----- the shadow over a whole run -----

  lemma StepStore(st: Emu, t: Trap)
    ensures Step(st, t).emu.store == PutAll(st.store, Step(st, t).writes)
  {
    hide T.Decode, Retire, AfterGuest, WriteBack, Put;
    if T.Decode(t.frame, t.insn).Some? {
      var d := T.Decode(t.frame, t.insn).value;
      assert PutAll(st.store, []) == st.store;
      assert PutAll(st.store, [Field(d.field, d.srcValue)]) == Put(st.store, d.field, d.srcValue) by {
        assert [Field(d.field, d.srcValue)][..0] == [];
      }
    }
  }

  lemma {:induction false} RunStore(st: Emu, ts: seq<Trap>)
    ensures Run(st, ts).store == PutAll(st.store, Log(st, ts))
  {
    hide Step;
    if ts == [] {
      assert PutAll(st.store, []) == st.store;
    } else {
      var front := ts[..|ts| - 1];
      RunStore(st, front);
      StepStore(Run(st, front), ts[|ts| - 1]);
      PutAllConcat(st.store, Log(st, front), Step(Run(st, front), ts[|ts| - 1]).writes);
    }
  }

  /** No run overfills the shadow. */
  lemma RunKeepsBound(st: Emu, ts: seq<Trap>)
    requires |st.store| <= MAX_FIELDS
    ensures |Run(st, ts).store| <= MAX_FIELDS
  {
    hide Run, Log;
    RunStore(st, ts);
    ReplayCount(st.store, Log(st, ts));
  }

  /** Refinement of an unbounded store. From an empty shadow, a run drops no write iff it asked for at
      most 256 distinct encodings; and then, at every encoding, the shadow holds the last value that a
      VMWRITE or an exit wrote there, or 0. */
  lemma RunRefinesUnboundedStore(st: Emu, ts: seq<Trap>)
    requires st.store == map[]
    ensures NothingDropped(map[], Log(st, ts)) <==> |Encodings(Log(st, ts))| <= MAX_FIELDS
    ensures NothingDropped(map[], Log(st, ts)) ==>
      forall e :: Lookup(Run(st, ts).store, e) == LastWritten(Log(st, ts), e, 0)
  {
    hide Encodings, NothingDropped, Log, Run;
    var log := Log(st, ts);
    var empty: Store := map[];
    assert Known(empty, log) == Encodings(log);
    RunStore(st, ts);
    DropsNothingIff(empty, log);
    if Room(empty, log) {
      forall e
        ensures Lookup(Run(st, ts).store, e) == LastWritten(log, e, 0)
      {
        LosslessReads(empty, log, e);
      }
    }
  }

  /** Even when writes are dropped, whatever is stored is the last value written to its encoding,
      and the shadow holds min(256, distinct encodings asked for) of them. */
  lemma RunBeyondCapacity(st: Emu, ts: seq<Trap>)
    requires st.store == map[]
    ensures forall e :: e in Run(st, ts).store ==> Run(st, ts).store[e] == LastWritten(Log(st, ts), e, 0)
    ensures var n := |Encodings(Log(st, ts))|;
      |Run(st, ts).store| == if n <= MAX_FIELDS then n else MAX_FIELDS
  {
    hide Encodings, Log, Run;
    var log := Log(st, ts);
    var empty: Store := map[];
    assert Known(empty, log) == Encodings(log);
    RunStore(st, ts);
    ReplayCount(empty, log);
    forall e | e in Run(st, ts).store
      ensures Run(st, ts).store[e] == LastWritten(log, e, 0)
    {
      StoredIsLast(empty, log, e);
    }
  }

  /** A VMREAD after such a run delivers that last value to its destination register. */
  lemma VmreadSeesLastWrite(st: Emu, ts: seq<Trap>, t: Trap)
    requires st.store == map[] && |Encodings(Log(st, ts))| <= MAX_FIELDS
    requires T.Decode(t.frame, t.insn).Some? && T.Decode(t.frame, t.insn).value.op == T.Vmread
    ensures Step(Run(st, ts), t).frame[T.DataSlot(t.insn)]
            == LastWritten(Log(st, ts), T.Decode(t.frame, t.insn).value.field, 0)
  {
    hide Step, Run, Log, T.Decode, T.DataSlot, Encodings;
    RunRefinesUnboundedStore(st, ts);
    TrapFrameContract(Run(st, ts), t);
  }

  // ----- when a run stays within the capacity -----

  /** The encodings that the VMWRITEs of a run name. */
  ghost function VmWritten(ts: seq<Trap>): set<Encoding> {
    if ts == [] then {}
    else
      var t := ts[|ts| - 1];
      VmWritten(ts[..|ts| - 1]) +
      match T.Decode(t.frame, t.insn)
      case Some(d) => if d.op == T.Vmwrite then {d.field} else {}
      case None => {}
  }

  /** The 42 encodings that an exit may write. */
  ghost function ExitSet(): (s: set<Encoding>)
    ensures |s| == 42
  {
    FirstEncodingsSize(SLOT_WRITES + 2);
    FirstEncodings(SLOT_WRITES + 2)
  }

  lemma InExitSet(e: Encoding)
    requires ExitEncoding(e)
    ensures e in ExitSet()
  {
    hide SlotAt, SlotIndex, GuestField, WrittenBack;
    assert EncodingAt(40) == VM_EXIT_REASON && EncodingAt(41) == VM_EXIT_INSTR_LEN;
    if e != VM_EXIT_REASON && e != VM_EXIT_INSTR_LEN {
      var s: Slot :| WrittenBack(s) && GuestField(s) == Some(e);
      SlotIndexIs(s);
      assert EncodingAt(SlotIndex(s)) == e;
    }
  }

  lemma StepEncodings(st: Emu, t: Trap)
    ensures Encodings(Step(st, t).writes) <= VmWritten([t]) + ExitSet()
  {
    hide T.Decode, Retire, AfterGuest, WriteBack, Execute, ExitSet;
    assert [t][..0] == [];
    if T.Decode(t.frame, t.insn).Some? {
      var d := T.Decode(t.frame, t.insn).value;
      if d.op.Vmlaunch? || d.op.Vmresume? {
        if st.page.Some? {
          WriteBackEncodings(AfterGuest(st, t.guest).0, st.features);
          forall e | e in Encodings(LaunchWrites(st, t.guest))
            ensures e in ExitSet()
          {
            InExitSet(e);
          }
        }
      }
    }
  }

  lemma {:induction false} RunEncodings(st: Emu, ts: seq<Trap>)
    ensures Encodings(Log(st, ts)) <= VmWritten(ts) + ExitSet()
  {
    hide Step, Encodings, ExitSet;
    if ts == [] {
      assert Encodings([]) == {} by { EncodingsBound([]); }
    } else {
      var front, t := ts[..|ts| - 1], ts[|ts| - 1];
      RunEncodings(st, front);
      StepEncodings(Run(st, front), t);
      EncodingsConcat(Log(st, front), Step(Run(st, front), t).writes);
      assert [t][..0] == [];
    }
  }

  /** A caller-checkable capacity: the encodings the kernel VMWRITEs, with the at most 42 that exits
      write, number at most 256. In particular 214 VMWRITE encodings always fit. */
  lemma RunWithinCapacity(st: Emu, ts: seq<Trap>)
    requires st.store == map[]
    requires |VmWritten(ts) + ExitSet()| <= MAX_FIELDS || |VmWritten(ts)| <= 214
    ensures NothingDropped(map[], Log(st, ts))
    ensures forall e :: Lookup(Run(st, ts).store, e) == LastWritten(Log(st, ts), e, 0)
  {
    hide Encodings, NothingDropped, Log, Run, VmWritten, ExitSet;
    assert |VmWritten(ts) + ExitSet()| <= |VmWritten(ts)| + |ExitSet()|;
    RunEncodings(st, ts);
    SubsetSize(Encodings(Log(st, ts)), VmWritten(ts) + ExitSet());
    RunRefinesUnboundedStore(st, ts);
  }

  // ----- a run that asks for too much -----

  /** A word for each number below 512. */
  function Pack(b0: bool, b1: bool, b2: bool, b3: bool, b4: bool, b5: bool, b6: bool, b7: bool, b8: bool): bv64 {
    (if b0 then 1 else 0) | (if b1 then 2 else 0) | (if b2 then 4 else 0)
    | (if b3 then 8 else 0) | (if b4 then 0x10 else 0) | (if b5 then 0x20 else 0)
    | (if b6 then 0x40 else 0) | (if b7 then 0x80 else 0) | (if b8 then 0x100 else 0)
  }

  function Halved(i: nat, k: nat): nat {
    if k == 0 then i else Halved(i, k - 1) / 2
  }

  /** The k-th binary digit of i. */
  predicate Digit(i: nat, k: nat) {
    Halved(i, k) % 2 == 1
  }

  function NumberedWord(i: nat): bv64 {
    Pack(Digit(i, 0), Digit(i, 1), Digit(i, 2), Digit(i, 3), Digit(i, 4), Digit(i, 5), Digit(i, 6), Digit(i, 7), Digit(i, 8))
  }

  lemma PackBits(b0: bool, b1: bool, b2: bool, b3: bool, b4: bool, b5: bool, b6: bool, b7: bool, b8: bool)
    ensures var w := Low32(Pack(b0, b1, b2, b3, b4, b5, b6, b7, b8));
      && (w & 1 != 0) == b0 && (w & 2 != 0) == b1 && (w & 4 != 0) == b2
      && (w & 8 != 0) == b3 && (w & 0x10 != 0) == b4 && (w & 0x20 != 0) == b5
      && (w & 0x40 != 0) == b6 && (w & 0x80 != 0) == b7 && (w & 0x100 != 0) == b8
  {
  }

  lemma NumberedBits(i: nat)
    ensures var w := Low32(NumberedWord(i));
      && (w & 1 != 0) == Digit(i, 0) && (w & 2 != 0) == Digit(i, 1) && (w & 4 != 0) == Digit(i, 2)
      && (w & 8 != 0) == Digit(i, 3) && (w & 0x10 != 0) == Digit(i, 4) && (w & 0x20 != 0) == Digit(i, 5)
      && (w & 0x40 != 0) == Digit(i, 6) && (w & 0x80 != 0) == Digit(i, 7) && (w & 0x100 != 0) == Digit(i, 8)
  {
    hide Pack, Low32, Digit;
    PackBits(Digit(i, 0), Digit(i, 1), Digit(i, 2), Digit(i, 3), Digit(i, 4), Digit(i, 5), Digit(i, 6), Digit(i, 7), Digit(i, 8));
  }

  lemma FieldOfInjective(v: bv64, w: bv64)
    requires T.FieldOf(v) == T.FieldOf(w)
    ensures Low32(v) == Low32(w)
  {
    hide Low32;
    assert T.FieldOf(v) as bv32 == Low32(v);
    assert T.FieldOf(w) as bv32 == Low32(w);
  }

  lemma NumberedFields(i: nat, j: nat)
    requires i < j < 512
    ensures T.FieldOf(NumberedWord(i)) != T.FieldOf(NumberedWord(j))
  {
    hide NumberedWord, T.FieldOf, Low32, Digit, Halved;
    if T.FieldOf(NumberedWord(i)) == T.FieldOf(NumberedWord(j)) {
      FieldOfInjective(NumberedWord(i), NumberedWord(j));
      NumberedBits(i);
      NumberedBits(j);
      NineDigits(i);
      NineDigits(j);
      forall n: nat | n < 9
        ensures Digit(i, n) == Digit(j, n)
      {
      }
      SameDigits(i, j, 9);
    }
  }

  lemma NineDigits(i: nat)
    requires i < 512
    ensures Halved(i, 9) == 0
  {
    assert Halved(i, 1) < 256;
    assert Halved(i, 2) < 128;
    assert Halved(i, 3) < 64;
    assert Halved(i, 4) < 32;
    assert Halved(i, 5) < 16;
    assert Halved(i, 6) < 8;
    assert Halved(i, 7) < 4;
    assert Halved(i, 8) < 2;
  }

  lemma {:induction false} SameDigits(i: nat, j: nat, k: nat)
    requires Halved(i, k) == Halved(j, k) && forall n: nat :: n < k ==> Digit(i, n) == Digit(j, n)
    ensures i == j
  {
    if k > 0 {
      assert Digit(i, k - 1) == Digit(j, k - 1);
      SameDigits(i, j, k - 1);
    }
  }

  /** VMWRITE RAX, RAX with the i-th word in every register. */
  ghost function FillingTrap(i: nat, guest: Guest): Trap {
    Trap(seq(T.FRAME_WORDS, _ => NumberedWord(i)), T.Hde(3, false, 0x0F, 0x79, 0xC0, 3, 0, 0, false, false, 0, 0), guest)
  }

  ghost function Filling(n: nat, guest: Guest): seq<Trap> {
    seq(n, i requires 0 <= i < n => FillingTrap(i, guest))
  }

  lemma FillingStep(st: Emu, i: nat, guest: Guest)
    ensures Step(st, FillingTrap(i, guest)).writes == [Field(T.FieldOf(NumberedWord(i)), NumberedWord(i))]
  {
    hide NumberedWord, T.MemberOf, Step;
    var t := FillingTrap(i, guest);
    assert T.RegisterForm(t.insn, T.Vmwrite, T.Rax, T.Rax);
    VmwriteEffect(st, t, T.Rax, T.Rax);
  }

  lemma {:induction false} FillingLog(st: Emu, n: nat, guest: Guest)
    ensures |Log(st, Filling(n, guest))| == n
    ensures forall i :: 0 <= i < n ==> Log(st, Filling(n, guest))[i] == Field(T.FieldOf(NumberedWord(i)), NumberedWord(i))
  {
    hide NumberedWord, T.FieldOf, FillingTrap, Step;
    if n > 0 {
      var front := Filling(n - 1, guest);
      assert Filling(n, guest)[..n - 1] == front;
      FillingLog(st, n - 1, guest);
      FillingStep(Run(st, front), n - 1, guest);
    }
  }

  /** The bound is met: 257 VMWRITEs of different encodings drop a write, and the encoding of the last one
      reads as 0, not as the value written. */
  lemma CapacityExceeded(st: Emu, guest: Guest)
    requires st.store == map[]
    ensures var ts := Filling(257, guest); var log := Log(st, ts);
      && |log| == 257 && !NothingDropped(map[], log)
      && Lookup(Run(st, ts).store, log[256].enc) == 0 != LastWritten(log, log[256].enc, 0)
  {
    hide NumberedWord, T.FieldOf, Filling, Log, Run, Encodings, NothingDropped;
    var ts := Filling(257, guest);
    var log := Log(st, ts);
    var empty: Store := map[];
    FillingLog(st, 257, guest);
    forall i, j | 0 <= i < j < 257
      ensures log[i].enc != log[j].enc
    {
      NumberedFields(i, j);
    }
    DistinctEncodings(log);
    DistinctEncodings(log[..256]);
    NotAmong(log[..256], log[256].enc);
    RunRefinesUnboundedStore(st, ts);
    RunStore(st, ts);
    assert Known(empty, log[..256]) == Encodings(log[..256]);
    FirstWriteDecides(empty, log, 256);
    LastWord();
  }

  lemma LastWord()
    ensures NumberedWord(256) != 0
  {
    assert Halved(256, 4) == 16;
    assert Digit(256, 8);
  }

  // ----- a value written by one trap and read by another -----

  /** Whatever registers are named, a value that one trap VMWRITEs (and the shadow has room for) is what
      a later trap VMREADs from that encoding, if no trap in between writes it. */
  lemma WriteThenRead(st: Emu, w: Trap, between: seq<Trap>, r: Trap,
                      e: T.Register, d: T.Register, e': T.Register, d': T.Register)
    requires T.RegisterForm(w.insn, T.Vmwrite, e, d) && T.RegisterForm(r.insn, T.Vmread, e', d')
    requires T.FieldOf(T.Saved(r.frame, e')) == T.FieldOf(T.Saved(w.frame, e))
    requires Accepts(st.store, T.FieldOf(T.Saved(w.frame, e)))
    requires T.FieldOf(T.Saved(w.frame, e)) !in Encodings(Log(Step(st, w).emu, between))
    ensures T.Saved(Step(Run(Step(st, w).emu, between), r).frame, d') == T.Saved(w.frame, d)
  {
    hide Step, T.RegisterForm, T.FieldOf, Encodings, Log, Run, T.Saved;
    VmwriteEffect(st, w, e, d);
    var st1 := Step(st, w).emu;
    VmreadEffect(Run(st1, between), r, e', d');
    RunStore(st1, between);
    PutAllKeeps(st1.store, Log(st1, between), T.FieldOf(T.Saved(w.frame, e)));
  }
}
