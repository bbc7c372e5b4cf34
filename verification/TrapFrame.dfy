/** The saved state of a trap and the decoding of the instruction that raised it. */
module TrapFrame {
  import opened Bytes
  import opened ShadowVmcs

  // One index for each member of the saved state, in memory order.
  const RDI: nat := 0
  const RSI: nat := 1
  const RDX: nat := 2
  const R10: nat := 3
  const R8: nat := 4
  const R9: nat := 5
  const CR2: nat := 6
  const R15: nat := 7
  const R14: nat := 8
  const R13: nat := 9
  const R12: nat := 10
  const R11: nat := 11
  const RBP: nat := 12
  const RBX: nat := 13
  const RCX: nat := 14
  const RAX: nat := 15
  const GS: nat := 16
  const FS: nat := 17
  const ISF_PAD: nat := 18
  const TRAPNO: nat := 19
  const CPUFLAG: nat := 20
  const TRAP_PAD: nat := 21
  const TRAPFN: nat := 22
  const ERR: nat := 23
  const RIP: nat := 24
  const CS: nat := 25
  const RFLAGS: nat := 26
  const RSP: nat := 27
  const SS: nat := 28
  const FRAME_WORDS: nat := 29

  type Frame = f: seq<bv64> | |f| == FRAME_WORDS witness seq(FRAME_WORDS, _ => 0)

  /** Where the frame keeps the register with the given encoding. */
  function GprSlot(idx: bv8): (slot: nat)
    ensures slot < FRAME_WORDS
  {
    match idx & 0xF
    case 0 => RAX
    case 1 => RCX
    case 2 => RDX
    case 3 => RBX
    case 4 => RSP
    case 5 => RBP
    case 6 => RSI
    case 7 => RDI
    case 8 => R8
    case 9 => R9
    case 10 => R10
    case 11 => R11
    case 12 => R12
    case 13 => R13
    case 14 => R14
    case _ => R15
  }

  /** Two operands name the same slot iff their encodings agree in the low four bits: the sixteen registers
      have sixteen slots. */
  lemma GprSlotsDistinct(i: bv8, j: bv8)
    ensures GprSlot(i) == GprSlot(j) <==> i & 0xF == j & 0xF
  {
  }

  /** No register operand ever names the trap's RIP, flags, segments or CR2. */
  lemma GprSlotApart(idx: bv8)
    ensures GprSlot(idx) !in {RIP, RFLAGS, CS, SS, CR2, ERR, TRAPFN, TRAPNO, CPUFLAG}
  {
    var slot := GprSlot(idx);
    assert slot == RSP || slot <= RAX;
  }

  /** The disassembler's record of an instruction. */
  datatype Hde = Hde(len: nat, error: bool, opcode: bv8, opcode2: bv8, modrm: bv8, modrmMod: bv8,
                     modrmReg: bv8, modrmRm: bv8, rexR: bool, rexB: bool, pRep: bv8, p66: bv8)

  datatype Op = Vmread | Vmwrite | Vmptrld | Vmptrst | Vmclear | Vmxon | Vmlaunch | Vmresume | Vmxoff | Invept | Invvpid

  datatype Decoded = Decoded(op: Op, field: Encoding, srcValue: bv64, dstReg: Option<nat>, length: nat)

  function RegIndex(field: bv8, rex: bool): bv8 {
    field | (if rex then 8 else 0)
  }

  /** The encoding operand: the register's low 32 bits. */
  function FieldOf(v: bv64): Encoding {
    Low32(v) as nat
  }

  function OpOf(h: Hde): Option<Op> {
    match h.opcode2
    case 0x78 => Some(Vmread)
    case 0x79 => Some(Vmwrite)
    case 0x01 => (
      match h.modrm
      case 0xC2 => Some(Vmlaunch)
      case 0xC3 => Some(Vmresume)
      case 0xC4 => Some(Vmxoff)
      case _ => None)
    case 0xC7 =>
      if h.modrmReg == 6 then Some(if h.pRep == 0xF3 then Vmxon else if h.p66 == 0x66 then Vmclear else Vmptrld)
      else if h.modrmReg == 7 then Some(Vmptrst)
      else None
    case 0x38 =>
      if h.p66 == 0x66 && h.modrm == 0x80 then Some(Invept)
      else if h.p66 == 0x66 && h.modrm == 0x81 then Some(Invvpid)
      else None
    case _ => None
  }

  function EncodingSlot(h: Hde): nat {
    GprSlot(RegIndex(h.modrmReg, h.rexR))
  }

  function DataSlot(h: Hde): nat {
    GprSlot(RegIndex(h.modrmRm, h.rexB))
  }

  /** What a decoded trap asks for; None when the trap is not one of the emulated instructions. */
  function Decode(f: Frame, h: Hde): Option<Decoded> {
    if h.len == 0 || h.error || h.opcode != 0x0F then None
    else
      var length := h.len % 0x100;
      match OpOf(h)
      case None => None
      case Some(Vmread) =>
        if h.modrmMod != 3 then None
        else Some(Decoded(Vmread, FieldOf(f[EncodingSlot(h)]), 0, Some(DataSlot(h)), length))
      case Some(Vmwrite) =>
        if h.modrmMod != 3 then None
        else Some(Decoded(Vmwrite, FieldOf(f[EncodingSlot(h)]), f[DataSlot(h)], None, length))
      case Some(op) => Some(Decoded(op, 0, 0, None, length))
  }

  method DecodeVmx(frame: array<bv64>, h: Hde) returns (ok: bool, out: Decoded)
    requires frame.Length == FRAME_WORDS
    ensures ok <==> Decode(frame[..], h).Some?
    ensures ok ==> out == Decode(frame[..], h).value
  {
    hide GprSlot, RegIndex, FieldOf;
    out := Decoded(Vmread, 0, 0, None, 0);
    if h.len == 0 || h.error {
      return false, out;
    }
    out := out.(length := h.len % 0x100);
    if h.opcode != 0x0F {
      return false, out;
    }
    var op := OpOf(h);
    if op == None {
      return false, out;
    }
    out := out.(op := op.value);
    if out.op == Vmread || out.op == Vmwrite {
      if h.modrmMod != 3 {
        return false, out;
      }
      var regIdx := RegIndex(h.modrmReg, h.rexR);
      var rmIdx := RegIndex(h.modrmRm, h.rexB);
      out := out.(field := FieldOf(frame[GprSlot(regIdx)]));
      if out.op == Vmwrite {
        out := out.(srcValue := frame[GprSlot(rmIdx)]);
      } else {
        out := out.(dstReg := Some(GprSlot(rmIdx)));
      }
    }
    return true, out;
  }

  // ----- the encodings of Intel SDM Vol. 2, as a table of their own -----
  // The third opcode byte of INVEPT and INVVPID is read where the disassembler's record has it, in modrm.

  datatype Prefix = NoPrefix | Operand66 | RepF3 | RepF2

  /** The mandatory prefix: F3 and F2 take precedence over 66. */
  function MandatoryPrefix(h: Hde): Prefix {
    if h.pRep == 0xF3 then RepF3 else if h.pRep == 0xF2 then RepF2 else if h.p66 == 0x66 then Operand66 else NoPrefix
  }

  /** The record is an encoding of op. */
  predicate Encodes(h: Hde, op: Op) {
    h.opcode == 0x0F &&
    match op
    case Vmread => h.opcode2 == 0x78 && MandatoryPrefix(h) == NoPrefix
    case Vmwrite => h.opcode2 == 0x79 && MandatoryPrefix(h) == NoPrefix
    case Vmptrld => h.opcode2 == 0xC7 && h.modrmReg == 6 && h.modrmMod != 3 && MandatoryPrefix(h) == NoPrefix
    case Vmptrst => h.opcode2 == 0xC7 && h.modrmReg == 7 && h.modrmMod != 3 && MandatoryPrefix(h) == NoPrefix
    case Vmclear => h.opcode2 == 0xC7 && h.modrmReg == 6 && h.modrmMod != 3 && MandatoryPrefix(h) == Operand66
    case Vmxon => h.opcode2 == 0xC7 && h.modrmReg == 6 && h.modrmMod != 3 && MandatoryPrefix(h) == RepF3
    case Vmlaunch => h.opcode2 == 0x01 && h.modrm == 0xC2
    case Vmresume => h.opcode2 == 0x01 && h.modrm == 0xC3
    case Vmxoff => h.opcode2 == 0x01 && h.modrm == 0xC4
    case Invept => h.opcode2 == 0x38 && h.modrm == 0x80 && MandatoryPrefix(h) == Operand66
    case Invvpid => h.opcode2 == 0x38 && h.modrm == 0x81 && MandatoryPrefix(h) == Operand66
  }

  /** The prefix and ModRM.mod checks that the decoder leaves out. */
  predicate Unchecked(h: Hde) {
    match h.opcode2
    case 0x78 => MandatoryPrefix(h) != NoPrefix
    case 0x79 => MandatoryPrefix(h) != NoPrefix
    case 0xC7 =>
      h.modrmMod == 3 || MandatoryPrefix(h) == RepF2 || (h.modrmReg == 7 && MandatoryPrefix(h) != NoPrefix)
    case 0x38 => MandatoryPrefix(h) != Operand66
    case _ => false
  }

  /** Every emulated instruction is decoded as itself, apart from memory-operand VMREAD and VMWRITE. */
  lemma DecodeComplete(f: Frame, h: Hde, op: Op)
    requires Encodes(h, op) && h.len != 0 && !h.error
    requires (op == Vmread || op == Vmwrite) ==> h.modrmMod == 3
    ensures Decode(f, h).Some? && Decode(f, h).value.op == op
  {
    hide GprSlot, RegIndex, FieldOf;
  }

  /** What is decoded is what was encoded exactly when no left-out check would have fired. */
  lemma DecodeExact(f: Frame, h: Hde)
    requires Decode(f, h).Some?
    ensures Encodes(h, Decode(f, h).value.op) <==> !Unchecked(h)
  {
    hide GprSlot, RegIndex, FieldOf;
  }

  /** RDRAND RAX, 48 0F C7 F0, is taken for a VMPTRLD. */
  lemma RdrandIsMistaken(f: Frame)
    ensures var h := Hde(4, false, 0x0F, 0xC7, 0xF0, 3, 6, 0, false, false, 0, 0);
            Decode(f, h) == Some(Decoded(Vmptrld, 0, 0, None, 4)) && !Encodes(h, Vmptrld)
  {
  }

  // ----- the registers by name -----

  /** The registers in the order of their numbers in Intel SDM Vol. 2, ModRM bits extended by REX. */
  datatype Register = Rax | Rcx | Rdx | Rbx | Rsp | Rbp | Rsi | Rdi
                    | Reg8 | Reg9 | Reg10 | Reg11 | Reg12 | Reg13 | Reg14 | Reg15

  function Number(r: Register): bv8 {
    match r
    case Rax => 0
    case Rcx => 1
    case Rdx => 2
    case Rbx => 3
    case Rsp => 4
    case Rbp => 5
    case Rsi => 6
    case Rdi => 7
    case Reg8 => 8
    case Reg9 => 9
    case Reg10 => 10
    case Reg11 => 11
    case Reg12 => 12
    case Reg13 => 13
    case Reg14 => 14
    case Reg15 => 15
  }

  /** What a member of the saved state holds. */
  datatype Content = General(r: Register) | InstructionPointer | Flags | CodeSegment | StackSegment
                   | FaultAddress | GsSegment | FsSegment | FramePad
                   | TrapNumber | CpuNumber | TrapPad | TrapFunction | ErrorCode

  /** The members of amdv_saved_state64 in the order of their declaration, its interrupt frame last. */
  const MEMBERS: seq<Content> := [
    General(Rdi), General(Rsi), General(Rdx), General(Reg10), General(Reg8), General(Reg9), FaultAddress,
    General(Reg15), General(Reg14), General(Reg13), General(Reg12), General(Reg11),
    General(Rbp), General(Rbx), General(Rcx), General(Rax), GsSegment, FsSegment, FramePad,
    TrapNumber, CpuNumber, TrapPad, TrapFunction, ErrorCode,
    InstructionPointer, CodeSegment, Flags, General(Rsp), StackSegment]

  predicate IsAt(i: nat, c: Content) {
    i < |MEMBERS| && MEMBERS[i] == c
  }

  lemma MembersDiffer()
    ensures |MEMBERS| == FRAME_WORDS
    ensures forall i, j :: 0 <= i < j < |MEMBERS| ==> MEMBERS[i] != MEMBERS[j]
  {
  }

  lemma SpecialMembers()
    ensures IsAt(CR2, FaultAddress) && IsAt(GS, GsSegment) && IsAt(FS, FsSegment) && IsAt(ISF_PAD, FramePad)
    ensures IsAt(TRAPNO, TrapNumber) && IsAt(CPUFLAG, CpuNumber) && IsAt(TRAP_PAD, TrapPad)
    ensures IsAt(TRAPFN, TrapFunction) && IsAt(ERR, ErrorCode) && IsAt(RIP, InstructionPointer)
    ensures IsAt(CS, CodeSegment) && IsAt(RFLAGS, Flags) && IsAt(SS, StackSegment)
  {
  }

  lemma NumberSlot(r: Register)
    ensures IsAt(GprSlot(Number(r)), General(r))
  {
  }

  lemma OneMember(c: Content)
    ensures exists i: nat :: IsAt(i, c)
    ensures forall i: nat, j: nat :: IsAt(i, c) && IsAt(j, c) ==> i == j
    ensures forall i: nat :: IsAt(i, c) ==> i < FRAME_WORDS
  {
    hide GprSlot, Number;
    MembersDiffer();
    SpecialMembers();
    if c.General? {
      NumberSlot(c.r);
    }
  }

  /** The one member that holds something. */
  ghost function MemberOf(c: Content): (i: nat)
    ensures i < FRAME_WORDS && IsAt(i, c)
    ensures forall j: nat :: IsAt(j, c) ==> j == i
  {
    OneMember(c);
    var i: nat :| IsAt(i, c);
    i
  }

  lemma MembersApart(r: Register, r': Register)
    ensures MemberOf(General(r)) != RIP && MemberOf(General(r)) != RFLAGS
    ensures r != r' ==> MemberOf(General(r)) != MemberOf(General(r'))
  {
    SpecialMembers();
  }

  /** The saved value of a register. */
  ghost function Saved(f: Frame, r: Register): bv64 {
    f[MemberOf(General(r))]
  }

  /** The instruction is the register form of op with its encoding in register e and its data in register d. */
  predicate RegisterForm(h: Hde, op: Op, e: Register, d: Register) {
    && Encodes(h, op) && h.len != 0 && !h.error && h.modrmMod == 3
    && h.modrmReg == Number(e) & 7 && h.rexR == (Number(e) >= 8)
    && h.modrmRm == Number(d) & 7 && h.rexB == (Number(d) >= 8)
  }

  lemma MemberOfRegister(r: Register)
    ensures MemberOf(General(r)) == GprSlot(Number(r)) && Number(r) < 16
  {
    NumberSlot(r);
  }

  /** A register-form VMREAD or VMWRITE takes its encoding from the low 32 bits of the first register it
      names, and its data from, or to, the second. */
  lemma OperandsByName(f: Frame, h: Hde, op: Op, e: Register, d: Register)
    requires RegisterForm(h, op, e, d) && (op == Vmread || op == Vmwrite)
    ensures Decode(f, h) == Some(Decoded(op, (Saved(f, e) & 0xFFFF_FFFF) as bv32 as nat,
                                         if op == Vmwrite then Saved(f, d) else 0,
                                         if op == Vmread then Some(MemberOf(General(d))) else None,
                                         h.len % 0x100))
  {
    hide GprSlot, RegIndex, Number;
    MemberOfRegister(e);
    MemberOfRegister(d);
    RegisterOperands(h, Number(e), Number(d));
    DecodeComplete(f, h, op);
  }

  /** What the decoder looks at, with the checks that it leaves out. */
  predicate Accepted(h: Hde, op: Op) {
    h.opcode == 0x0F && h.len != 0 && !h.error &&
    match op
    case Vmread => h.opcode2 == 0x78 && h.modrmMod == 3
    case Vmwrite => h.opcode2 == 0x79 && h.modrmMod == 3
    case Vmptrld => h.opcode2 == 0xC7 && h.modrmReg == 6 && h.pRep != 0xF3 && h.p66 != 0x66
    case Vmptrst => h.opcode2 == 0xC7 && h.modrmReg == 7
    case Vmclear => h.opcode2 == 0xC7 && h.modrmReg == 6 && h.pRep != 0xF3 && h.p66 == 0x66
    case Vmxon => h.opcode2 == 0xC7 && h.modrmReg == 6 && h.pRep == 0xF3
    case Vmlaunch => h.opcode2 == 0x01 && h.modrm == 0xC2
    case Vmresume => h.opcode2 == 0x01 && h.modrm == 0xC3
    case Vmxoff => h.opcode2 == 0x01 && h.modrm == 0xC4
    case Invept => h.opcode2 == 0x38 && h.p66 == 0x66 && h.modrm == 0x80
    case Invvpid => h.opcode2 == 0x38 && h.p66 == 0x66 && h.modrm == 0x81
  }

  /** Exactly the accepted records are decoded, each as its one operation. */
  lemma DecodedAs(f: Frame, h: Hde, op: Op)
    ensures Decode(f, h).Some? && Decode(f, h).value.op == op <==> Accepted(h, op)
  {
    hide GprSlot, RegIndex, FieldOf;
  }

  lemma RegIndexBits(low: bv8, rex: bool, reg: bv8)
    requires reg < 16 && low == reg & 7 && rex == (reg >= 8)
    ensures RegIndex(low, rex) == reg
  {
  }

  /** Register operands come out as they were encoded: three ModRM bits, extended by REX. */
  lemma RegisterOperands(h: Hde, encReg: bv8, dataReg: bv8)
    requires encReg < 16 && h.modrmReg == encReg & 7 && h.rexR == (encReg >= 8)
    requires dataReg < 16 && h.modrmRm == dataReg & 7 && h.rexB == (dataReg >= 8)
    ensures EncodingSlot(h) == GprSlot(encReg) && DataSlot(h) == GprSlot(dataReg)
  {
    hide GprSlot, RegIndex;
    RegIndexBits(h.modrmReg, h.rexR, encReg);
    RegIndexBits(h.modrmRm, h.rexB, dataReg);
  }
}
