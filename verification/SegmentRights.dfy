/** Segment access rights: the 32-bit VMX layout and the packed 12-bit SVM layout. */
module SegmentRights {

  function VmxArToSvmAttrib(ar: bv32): bv16 {
    if ar & 0x1_0000 != 0 then 0
    else ((ar & 0xFF) | ((ar >> 4) & 0xF00)) as bv16
  }

  function SvmAttribToVmxAr(attrib: bv16): bv32 {
    if attrib & 0x80 == 0 then 0x1_0000
    else ((attrib & 0xFF) as bv32) | (((attrib & 0xF00) as bv32) << 4)
  }

  /** What either layout says about a segment, besides whether it is there. */
  datatype Rights = Rights(typ: bv8, s: bool, dpl: bv8, avl: bool, l: bool, db: bool, g: bool)

  const NO_RIGHTS: Rights := Rights(0, false, 0, false, false, false, false)

  datatype SegState = Unusable | NotPresent(rights: Rights) | Present(rights: Rights)

  /** Intel SDM Vol. 3C, section 24.4.1. */
  function VmxState(ar: bv32): SegState {
    var rights := Rights((ar & 0xF) as bv8, ar & 0x10 != 0, ((ar >> 5) & 3) as bv8,
                         ar & 0x1000 != 0, ar & 0x2000 != 0, ar & 0x4000 != 0, ar & 0x8000 != 0);
    if ar & 0x1_0000 != 0 then Unusable else if ar & 0x80 == 0 then NotPresent(rights) else Present(rights)
  }

  /** AMD64 APM Vol. 2, Appendix B, which has no unusable segments. */
  function SvmState(attrib: bv16): SegState {
    var rights := Rights((attrib & 0xF) as bv8, attrib & 0x10 != 0, ((attrib >> 5) & 3) as bv8,
                         attrib & 0x100 != 0, attrib & 0x200 != 0, attrib & 0x400 != 0, attrib & 0x800 != 0);
    if attrib & 0x80 == 0 then NotPresent(rights) else Present(rights)
  }

  /** On the way in, an unusable segment becomes one that is not present and has no rights; on the way
      back, any that is not present becomes unusable. Everything else is kept, and no reserved bit is set. */
  lemma RightsPreserved(ar: bv32, attrib: bv16)
    ensures SvmState(VmxArToSvmAttrib(ar)) == if VmxState(ar).Unusable? then NotPresent(NO_RIGHTS) else VmxState(ar)
    ensures VmxState(SvmAttribToVmxAr(attrib)) == if SvmState(attrib).NotPresent? then Unusable else SvmState(attrib)
    ensures VmxArToSvmAttrib(ar) & 0xF000 == 0 && SvmAttribToVmxAr(attrib) & 0xFFFE_0F00 == 0
  {
  }

  function Normal(ar: bv32): bv32 {
    SvmAttribToVmxAr(VmxArToSvmAttrib(ar))
  }

  /** There and back, a segment keeps its state iff it was not a usable one with the present bit clear. */
  lemma StateReturns(ar: bv32)
    ensures VmxState(Normal(ar)) == VmxState(ar) <==> !VmxState(ar).NotPresent?
    ensures VmxState(ar).NotPresent? ==> VmxState(Normal(ar)) == Unusable
  {
    hide VmxState, SvmState, VmxArToSvmAttrib, SvmAttribToVmxAr;
    RightsPreserved(ar, VmxArToSvmAttrib(ar));
  }

  lemma AttribNormal(attrib: bv16)
    ensures Normal(SvmAttribToVmxAr(attrib)) == SvmAttribToVmxAr(attrib)
  {
  }

  /** There and back is an idempotent normaliser. It is the identity exactly on the plain unusable
      word and on usable, present words whose reserved bits 11:8 and 31:17 are clear. */
  lemma NormalForm(ar: bv32)
    ensures Normal(Normal(ar)) == Normal(ar)
    ensures Normal(ar) == ar <==> ar == 0x1_0000 || ar & 0xFFFF_0F80 == 0x80
    ensures ar & 0x1_0000 == 0 && ar & 0x80 != 0 ==> Normal(ar) == ar & 0xF0FF
    ensures (ar & 0x1_0000 != 0 || ar & 0x80 == 0) ==> Normal(ar) == 0x1_0000
  {
  }

  /** The opposite composition keeps the 12 defined bits of a present segment and clears any other. */
  lemma AttribThereAndBack(attrib: bv16)
    ensures VmxArToSvmAttrib(SvmAttribToVmxAr(attrib)) == if attrib & 0x80 != 0 then attrib & 0xFFF else 0
  {
  }

  /** Unusable, or present, or without any bit that the packed layout would keep. */
  predicate RightsKept(ar: bv32) {
    ar & 0x1_0000 != 0 || ar & 0x80 != 0 || ar & 0xF07F == 0
  }

  /** The packed attribute survives a trip through the VMX layout exactly when the rights are kept. */
  lemma AttribKept(ar: bv32)
    ensures VmxArToSvmAttrib(Normal(ar)) == VmxArToSvmAttrib(ar) <==> RightsKept(ar)
  {
  }
}
