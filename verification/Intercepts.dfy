/** Do the translated intercepts make the same events exit, for the same reasons? */
module Intercepts {
  import opened Bytes
  import opened Emulator
  import opened EntryTranslation
  import opened ExitTranslation
  import opened Launches
  import opened ShadowVmcs
  import opened Vmcb
  import opened Vmx

  /** What can happen in the guest. Page faults are exceptions like the others, since the shadow's
      page-fault mask and match are taken as zero. */
  datatype GuestEvent = Hlt | ExternalInterrupt | Exception(vector: bv32) | Nmi | Cpuid | Vmcall

  predicate IsEvent(ev: GuestEvent) {
    ev.Exception? ==> ev.vector < 32 && ev.vector != 2
  }

  predicate Bit(v: bv64, mask: bv64) {
    v & mask != 0
  }

  function VectorBit(vector: bv32): bv64
    requires vector < 32
  {
    1 << vector
  }

  /** Intel SDM Vol. 3C, sections 24.6 and 25.1: the reason with which the event exits, if it does. */
  function VmxExit(m: Store, ev: GuestEvent): Option<bv32>
    requires IsEvent(ev)
  {
    match ev
    case Hlt => if Bit(Lookup(m, 0x4002), 0x80) then Some(12) else None
    case ExternalInterrupt => if Bit(Lookup(m, 0x4000), 0x1) then Some(1) else None
    case Exception(v) => if Bit(Lookup(m, 0x4004), VectorBit(v)) then Some(0) else None
    case Nmi => if Bit(Lookup(m, 0x4000), 0x8) then Some(0) else None
    case Cpuid => Some(10)
    case Vmcall => Some(18)
  }

  function ExceptionCode(vector: bv32): bv64 {
    0x40 + Wide32(vector)
  }

  /** AMD64 APM Vol. 2, sections 15.9 to 15.13: the exit code with which the event exits, if it does. */
  function SvmExit(q: Page, ev: GuestEvent): Option<bv64>
    requires IsEvent(ev)
  {
    match ev
    case Hlt => if Bit(Get(q, Intercept1), 0x0100_0000) then Some(0x78) else None
    case ExternalInterrupt => if Bit(Get(q, Intercept1), 0x1) then Some(0x60) else None
    case Exception(v) => if Bit(Get(q, InterceptExceptions), VectorBit(v)) then Some(ExceptionCode(v)) else None
    case Nmi => if Bit(Get(q, Intercept1), 0x2) then Some(0x61) else None
    case Cpuid => if Bit(Get(q, Intercept1), 0x4_0000) then Some(0x72) else None
    case Vmcall => if Bit(Get(q, Intercept2), 0x2) then Some(0x81) else None
  }

  /** The exit as the kernel is told of it. */
  function Reported(code: Option<bv64>, info1: bv64): Option<bv32> {
    match code
    case Some(c) => Some(SvmExitToVmxReason(c, info1))
    case None => None
  }

  // ----- the exit codes that have a VMX counterpart -----

  datatype Cause = CpuidCause | HltCause | VmmcallCause | IoCause | RdmsrCause | WrmsrCause
                 | IntrCause | NmiCause | NestedFaultCause | ExceptionCause(vector: bv32)

  /** AMD64 APM Vol. 2, appendix C. */
  function CodeOf(c: Cause): bv64 {
    match c
    case CpuidCause => 0x72
    case HltCause => 0x78
    case VmmcallCause => 0x81
    case IoCause => 0x7B
    case RdmsrCause => 0x7C
    case WrmsrCause => 0x7C
    case IntrCause => 0x60
    case NmiCause => 0x61
    case NestedFaultCause => 0x400
    case ExceptionCause(v) => ExceptionCode(v)
  }

  /** Intel SDM Vol. 3C, appendix C. */
  function ReasonOf(c: Cause): bv32 {
    match c
    case CpuidCause => 10
    case HltCause => 12
    case VmmcallCause => 18
    case IoCause => 30
    case RdmsrCause => 31
    case WrmsrCause => 32
    case IntrCause => 1
    case NmiCause => 0
    case NestedFaultCause => 48
    case ExceptionCause(_) => 0
  }

  /** The exit code and EXITINFO1 report the cause; EXITINFO1 says whether an MSR was written. */
  predicate Reports(code: bv64, info1: bv64, c: Cause) {
    && code == CodeOf(c)
    && (c.RdmsrCause? ==> info1 & 1 == 0) && (c.WrmsrCause? ==> info1 & 1 == 1)
    && (c.ExceptionCause? ==> c.vector < 32)
  }

  /** Every such cause is reported to VMX as itself. */
  lemma CauseMapped(code: bv64, info1: bv64, c: Cause)
    requires Reports(code, info1, c)
    ensures SvmExitToVmxReason(code, info1) == ReasonOf(c)
  {
    if c.ExceptionCause? {
      ExceptionReason(c.vector, info1);
    }
  }

  /** The cause that a known exit code reports. */
  lemma KnownCause(code: bv64, info1: bv64) returns (c: Cause)
    requires SvmExitToVmxReason(code, info1) != EXIT_UNKNOWN
    ensures Reports(code, info1, c)
  {
    if VMEXIT_EXCP_BASE <= code <= VMEXIT_EXCP_LAST {
      ExceptionVector(code);
      c := ExceptionCause(Low32(code - 0x40));
    } else if code == VMEXIT_MSR {
      MsrDirection(info1);
      c := if info1 & 1 == 0 then RdmsrCause else WrmsrCause;
    } else {
      c := if code == VMEXIT_CPUID then CpuidCause
           else if code == VMEXIT_HLT then HltCause
           else if code == VMEXIT_VMMCALL then VmmcallCause
           else if code == VMEXIT_IOIO then IoCause
           else if code == VMEXIT_INTR then IntrCause
           else if code == VMEXIT_NMI then NmiCause
           else NestedFaultCause;
    }
  }

  lemma MsrDirection(info1: bv64)
    ensures info1 & 1 == 0 || info1 & 1 == 1
  {
  }

  /** An exit is unknown to VMX exactly when no cause explains it. */
  lemma UnknownExactly(code: bv64, info1: bv64)
    ensures SvmExitToVmxReason(code, info1) == 0xFFFF_FFFF <==> forall c: Cause :: !Reports(code, info1, c)
  {
    hide Reports, SvmExitToVmxReason;
    if SvmExitToVmxReason(code, info1) != EXIT_UNKNOWN {
      var c := KnownCause(code, info1);
    }
    forall c: Cause | Reports(code, info1, c)
      ensures SvmExitToVmxReason(code, info1) != EXIT_UNKNOWN
    {
      CauseMapped(code, info1, c);
    }
  }

  lemma ExceptionVector(code: bv64)
    requires VMEXIT_EXCP_BASE <= code <= VMEXIT_EXCP_LAST
    ensures Low32(code - 0x40) < 32 && ExceptionCode(Low32(code - 0x40)) == code
  {
  }

  lemma FirstWord(intr: bool, hlt: bool)
    ensures var w := Keep(4, Intercept1Word(intr, hlt));
      Bit(w, 0x1) == intr && Bit(w, 0x0100_0000) == hlt && !Bit(w, 0x2) && !Bit(w, 0x4_0000)
  {
  }

  lemma ControlsAgree(pin: bv64, cpu: bv64)
    ensures Has(Low32(pin), PIN_CTL_EXT_INTR_EXITING) == Bit(pin, 0x1)
    ensures Has(Low32(cpu), CPU_CTL_HLT_EXITING) == Bit(cpu, 0x80)
  {
    hide Has, Low32;
    PinBits(pin);
    CpuBits(cpu);
  }

  lemma SecondWord()
    ensures !Bit(Keep(4, INTERCEPT2_VMRUN), 0x2)
  {
  }

  lemma VectorKept(v: bv64, vector: bv32)
    requires vector < 32
    ensures Bit(Keep(4, v), VectorBit(vector)) == Bit(v, VectorBit(vector))
  {
    assert VectorBit(vector) & 0xFFFF_FFFF == VectorBit(vector);
  }

  lemma ExceptionReason(vector: bv32, info1: bv64)
    requires vector < 32
    ensures SvmExitToVmxReason(ExceptionCode(vector), info1) == EXIT_EXCEPTION_NMI
  {
    var code := ExceptionCode(vector);
    assert 0x40 <= code <= 0x5F;
  }

  lemma FixedReasons(info1: bv64)
    ensures SvmExitToVmxReason(0x78, info1) == 12 && SvmExitToVmxReason(0x60, info1) == 1
  {
  }

  /** An event exits from the translated page, with a code that maps to VMX reason r, iff it exits with
      reason r under the shadow's controls. It fails exactly for CPUID and VMCALL, which always exit from
      VMX and never from this page, and for NMIs when the kernel asked them to exit. */
  lemma InterceptsPreserved(st: Emu, ev: GuestEvent, info1: bv64)
    requires st.page.Some? && IsEvent(ev)
    ensures Reported(SvmExit(EntryPage(st), ev), info1) == VmxExit(st.store, ev)
            <==> match ev
                 case Cpuid => false
                 case Vmcall => false
                 case Nmi => !Bit(Lookup(st.store, 0x4000), 0x8)
                 case _ => true
  {
    hide Get, EntryPage, Has, Low32, Lookup, Keep, Bit, SvmExitToVmxReason, ExceptionCode, VectorBit, Intercept1Word;
    var m := st.store;
    EntryPageSlots(st);
    ControlEntry(m);
    FirstWord(Has(Lookup32(m, PIN_EXEC_CONTROL), PIN_CTL_EXT_INTR_EXITING),
              Has(Lookup32(m, CPU_EXEC_CONTROL), CPU_CTL_HLT_EXITING));
    SecondWord();
    ControlsAgree(Lookup(m, 0x4000), Lookup(m, 0x4002));
    FixedReasons(info1);
    if ev.Exception? {
      VectorKept(Lookup(m, EXCEPTION_BITMAP), ev.vector);
      ExceptionReason(ev.vector, info1);
    }
  }
}
