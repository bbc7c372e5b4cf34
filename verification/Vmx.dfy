/** The VMX side of kern_vmx.hpp: field encodings, control bits and exit reasons. */
module Vmx {
  import opened ShadowVmcs
  import opened Bytes
  import opened Vmcb

  const VIRTUAL_PROCESSOR_ID: Encoding := 0x0000
  const EPT_POINTER: Encoding := 0x201A
  const GUEST_IA32_PAT: Encoding := 0x2804
  const GUEST_IA32_EFER: Encoding := 0x2806
  const PIN_EXEC_CONTROL: Encoding := 0x4000
  const CPU_EXEC_CONTROL: Encoding := 0x4002
  const EXCEPTION_BITMAP: Encoding := 0x4004
  const VM_ENTRY_INTR_INFO: Encoding := 0x4016
  const VM_ENTRY_EXCEPTION_ERROR: Encoding := 0x4018
  const SECONDARY_EXEC_CTL: Encoding := 0x401E
  const VM_EXIT_REASON: Encoding := 0x4402
  const VM_EXIT_INSTR_LEN: Encoding := 0x440C
  const GUEST_CR0: Encoding := 0x6800
  const GUEST_CR3: Encoding := 0x6802
  const GUEST_CR4: Encoding := 0x6804
  const GUEST_RSP: Encoding := 0x681C
  const GUEST_RIP: Encoding := 0x681E
  const GUEST_RFLAGS: Encoding := 0x6820
  const GUEST_CR2: Encoding := 0x6822

  // Appendix B of the Intel SDM gives this number to the pending debug exceptions, and none to a guest CR2.
  const GUEST_PENDING_DEBUG_EXCEPTIONS: Encoding := 0x6822

  const PIN_CTL_EXT_INTR_EXITING: bv32 := 0x0000_0001
  const CPU_CTL_HLT_EXITING: bv32 := 0x0000_0080
  const CPU_CTL_SECONDARY_CTLS: bv32 := 0x8000_0000
  const SEC_CTL_ENABLE_EPT: bv32 := 0x0000_0002
  const SEC_CTL_ENABLE_VPID: bv32 := 0x0000_0020

  const EXIT_EXCEPTION_NMI: bv32 := 0
  const EXIT_EXTERNAL_INTERRUPT: bv32 := 1
  const EXIT_CPUID: bv32 := 10
  const EXIT_HLT: bv32 := 12
  const EXIT_VMCALL: bv32 := 18
  const EXIT_IO_INSTRUCTION: bv32 := 30
  const EXIT_RDMSR: bv32 := 31
  const EXIT_WRMSR: bv32 := 32
  const EXIT_EPT_VIOLATION: bv32 := 48
  const EXIT_UNKNOWN: bv32 := 0xFFFF_FFFF

  /** The encodings of one segment register's fields (GDTR and IDTR have only limit and base). */
  function SegEncoding(seg: Seg, part: Part): (e: Option<Encoding>) {
    match part
    case Selector => (
      match seg
      case ES => Some(0x0800)
      case CS => Some(0x0802)
      case SS => Some(0x0804)
      case DS => Some(0x0806)
      case FS => Some(0x0808)
      case GS => Some(0x080A)
      case LDTR => Some(0x080C)
      case TR => Some(0x080E)
      case _ => None)
    case Limit => (
      match seg
      case ES => Some(0x4800)
      case CS => Some(0x4802)
      case SS => Some(0x4804)
      case DS => Some(0x4806)
      case FS => Some(0x4808)
      case GS => Some(0x480A)
      case LDTR => Some(0x480C)
      case TR => Some(0x480E)
      case GDTR => Some(0x4810)
      case IDTR => Some(0x4812))
    case Attrib => (
      match seg
      case ES => Some(0x4814)
      case CS => Some(0x4816)
      case SS => Some(0x4818)
      case DS => Some(0x481A)
      case FS => Some(0x481C)
      case GS => Some(0x481E)
      case LDTR => Some(0x4820)
      case TR => Some(0x4822)
      case _ => None)
    case Base => (
      match seg
      case ES => Some(0x6806)
      case CS => Some(0x6808)
      case SS => Some(0x680A)
      case DS => Some(0x680C)
      case FS => Some(0x680E)
      case GS => Some(0x6810)
      case LDTR => Some(0x6812)
      case TR => Some(0x6814)
      case GDTR => Some(0x6816)
      case IDTR => Some(0x6818))
  }

  /** The guest-state field that a VMCB slot mirrors. */
  function GuestField(s: Slot): (e: Option<Encoding>) {
    match s
    case Segment(seg, part) => SegEncoding(seg, part)
    case Cr0 => Some(GUEST_CR0)
    case Cr2 => Some(GUEST_CR2)
    case Cr3 => Some(GUEST_CR3)
    case Cr4 => Some(GUEST_CR4)
    case Rip => Some(GUEST_RIP)
    case Rsp => Some(GUEST_RSP)
    case Rflags => Some(GUEST_RFLAGS)
    case Efer => Some(GUEST_IA32_EFER)
    case Gpat => Some(GUEST_IA32_PAT)
    case _ => None
  }

  lemma GuestFieldsApart(s: Slot, t: Slot)
    requires GuestField(s).Some? && GuestField(t).Some?
    ensures GuestField(s) == GuestField(t) ==> s == t
  {
  }

  /** No two slots mirror the same field, and none mirrors an exit-information or control field. */
  lemma GuestFieldsDistinct(s: Slot, t: Slot)
    requires GuestField(s).Some? && GuestField(t).Some?
    ensures GuestField(s) == GuestField(t) ==> s == t
    ensures GuestField(s).value !in {
      VM_EXIT_REASON, VM_EXIT_INSTR_LEN, PIN_EXEC_CONTROL, CPU_EXEC_CONTROL, SECONDARY_EXEC_CTL,
      EXCEPTION_BITMAP, EPT_POINTER, VIRTUAL_PROCESSOR_ID, VM_ENTRY_INTR_INFO, VM_ENTRY_EXCEPTION_ERROR}
  {
    hide SegEncoding;
    GuestFieldsApart(s, t);
    if s.Segment? {
      SegmentFieldsApart(s.seg, s.part);
    }
  }

  lemma SegmentFieldsApart(seg: Seg, part: Part)
    requires SegEncoding(seg, part).Some?
    ensures SegEncoding(seg, part).value !in {
      VM_EXIT_REASON, VM_EXIT_INSTR_LEN, PIN_EXEC_CONTROL, CPU_EXEC_CONTROL, SECONDARY_EXEC_CTL,
      EXCEPTION_BITMAP, EPT_POINTER, VIRTUAL_PROCESSOR_ID, VM_ENTRY_INTR_INFO, VM_ENTRY_EXCEPTION_ERROR}
  {
  }

  /** The width class that an encoding announces: 0 for 16-bit, 1 for 64-bit, 2 for 32-bit, 3 for
      natural-width fields. */
  function EncodingWidth(e: Encoding): nat {
    e / 0x2000 % 4
  }

  /** The type that an encoding announces: 0 control, 1 exit information, 2 guest state, 3 host state. */
  function EncodingType(e: Encoding): nat {
    e / 0x400 % 4
  }

  function EncodingIndex(e: Encoding): nat {
    e % 0x400 / 2
  }

  /** The same for the control and exit-information fields: width, type and index as in appendix B. */
  lemma ControlStructure()
    ensures HasStructure(VIRTUAL_PROCESSOR_ID, 0, 0, 0) && HasStructure(EPT_POINTER, 1, 0, 13)
    ensures HasStructure(PIN_EXEC_CONTROL, 2, 0, 0) && HasStructure(CPU_EXEC_CONTROL, 2, 0, 1)
    ensures HasStructure(EXCEPTION_BITMAP, 2, 0, 2) && HasStructure(VM_ENTRY_INTR_INFO, 2, 0, 11)
    ensures HasStructure(VM_ENTRY_EXCEPTION_ERROR, 2, 0, 12) && HasStructure(SECONDARY_EXEC_CTL, 2, 0, 15)
    ensures HasStructure(VM_EXIT_REASON, 2, 1, 1) && HasStructure(VM_EXIT_INSTR_LEN, 2, 1, 6)
  {
  }

  predicate HasStructure(e: Encoding, width: nat, typ: nat, index: nat) {
    e < 0x8000 && e % 2 == 0 && EncodingWidth(e) == width && EncodingType(e) == typ && EncodingIndex(e) == index
  }

  /** The place of a segment register in the encodings of Intel SDM Vol. 3C, appendix B. */
  function SegNumber(seg: Seg): nat {
    match seg
    case ES => 0
    case CS => 1
    case SS => 2
    case DS => 3
    case FS => 4
    case GS => 5
    case LDTR => 6
    case TR => 7
    case GDTR => 8
    case IDTR => 9
  }

  /** The encodings have the structure of appendix B: every mirrored field is guest state of the width
      that its slot needs, and has the index that the appendix lists. CR2 alone has the number of another
      field. */
  lemma EncodingStructure(s: Slot)
    requires GuestField(s).Some?
    ensures var e := GuestField(s).value;
      && EncodingType(e) == 2 && e % 2 == 0 && e < 0x8000
      && (e == GUEST_PENDING_DEBUG_EXCEPTIONS <==> s == Cr2)
      && EncodingWidth(e) == (match s
                              case Segment(_, Selector) => 0
                              case Segment(_, Limit) => 2
                              case Segment(_, Attrib) => 2
                              case Efer => 1
                              case Gpat => 1
                              case _ => 3)
      && EncodingIndex(e) == (match s
                              case Segment(seg, Selector) => SegNumber(seg)
                              case Segment(seg, Limit) => SegNumber(seg)
                              case Segment(seg, Attrib) => 10 + SegNumber(seg)
                              case Segment(seg, Base) => 3 + SegNumber(seg)
                              case Cr0 => 0
                              case Cr3 => 1
                              case Cr4 => 2
                              case Rsp => 14
                              case Rip => 15
                              case Rflags => 16
                              case Cr2 => 17
                              case Gpat => 2
                              case _ => 3)
  {
  }
}
