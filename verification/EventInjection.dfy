/** VM-entry interruption information (Intel SDM Vol. 3C, section 24.8.3) to EVENTINJ
    (AMD64 APM Vol. 2, section 15.20). */
module EventInjection {
  import opened Bytes

  const VMX_VALID: bv32 := 0x8000_0000
  const VMX_DELIVER_EC: bv32 := 0x800
  const EVENTINJ_VALID: bv64 := 0x8000_0000
  const EVENTINJ_EV: bv64 := 0x800

  function EntryValid(info: bv32): bool {
    info & VMX_VALID != 0
  }

  function EntryVector(info: bv32): bv8 {
    (info & 0xFF) as bv8
  }

  function EntryType(info: bv32): bv32 {
    (info >> 8) & 7
  }

  function EntryDeliversError(info: bv32): bool {
    info & VMX_DELIVER_EC != 0
  }

  function SvmType(vmxType: bv32): bv64 {
    match vmxType
    case 0 => 0
    case 2 => 2
    case 4 => 4
    case _ => 3
  }

  function EventinjMake(vector: bv8, typ: bv64, errValid: bool, errCode: bv32): bv64 {
    var e := (vector as bv64) | (typ << 8) | EVENTINJ_VALID;
    if errValid then e | EVENTINJ_EV | ((errCode as bv64) << 32) else e
  }

  /** What the translation stores in EVENTINJ. */
  function Eventinj(info: bv32, errCode: bv32): bv64 {
    if !EntryValid(info) then 0
    else EventinjMake(EntryVector(info), SvmType(EntryType(info)), EntryDeliversError(info), errCode)
  }

  // ----- what the processor reads in EVENTINJ -----

  function InjValid(e: bv64): bool {
    (e >> 31) & 1 == 1
  }

  function InjVector(e: bv64): bv8 {
    (e & 0xFF) as bv8
  }

  function InjType(e: bv64): bv64 {
    (e >> 8) & 7
  }

  function InjDeliversError(e: bv64): bool {
    (e >> 11) & 1 == 1
  }

  function InjError(e: bv64): bv32 {
    (e >> 32) as bv32
  }

  function InjReserved(e: bv64): bv64 {
    e & 0x7FFF_F000
  }

  datatype Kind = ExternalInterrupt | Nmi | HardwareException | SoftwareInterrupt
                | PrivilegedSoftwareException | SoftwareException | OtherKind

  datatype Event = NoEvent | Inject(vector: bv8, kind: Kind, error: Option<bv32>)

  function VmxKind(typ: bv32): Kind {
    match typ
    case 0 => ExternalInterrupt
    case 2 => Nmi
    case 3 => HardwareException
    case 4 => SoftwareInterrupt
    case 5 => PrivilegedSoftwareException
    case 6 => SoftwareException
    case _ => OtherKind
  }

  function SvmKind(typ: bv64): Kind {
    match typ
    case 0 => ExternalInterrupt
    case 2 => Nmi
    case 3 => HardwareException
    case 4 => SoftwareInterrupt
    case _ => OtherKind
  }

  // The interruption information as section 24.8.3 lays it out: a vector of eight bits, a type of three,
  // the error-code bit, and the valid bit on top.

  function InfoValid(info: bv32): bool {
    info >= 0x8000_0000
  }

  function InfoVector(info: bv32): bv8 {
    ((info << 24) >> 24) as bv8
  }

  function InfoType(info: bv32): bv32 {
    (info << 21) >> 29
  }

  function InfoDeliversError(info: bv32): bool {
    (info << 20) >> 31 == 1
  }

  lemma InfoFields(info: bv32)
    ensures EntryValid(info) == InfoValid(info) && EntryVector(info) == InfoVector(info)
    ensures EntryType(info) == InfoType(info) && EntryDeliversError(info) == InfoDeliversError(info)
  {
  }

  /** The event that a VMX entry with this interruption information delivers. */
  function VmxEvent(info: bv32, errCode: bv32): Event {
    if !InfoValid(info) then NoEvent
    else Inject(InfoVector(info), VmxKind(InfoType(info)), if InfoDeliversError(info) then Some(errCode) else None)
  }

  /** The event that VMRUN with this EVENTINJ delivers. */
  function SvmEvent(e: bv64): Event {
    if !InjValid(e) then NoEvent
    else Inject(InjVector(e), SvmKind(InjType(e)), if InjDeliversError(e) then Some(InjError(e)) else None)
  }

  /** SVM has one type for all exceptions. */
  function AsSvm(ev: Event): Event {
    if ev.NoEvent? || ev.kind in {ExternalInterrupt, Nmi, SoftwareInterrupt} then ev
    else ev.(kind := HardwareException)
  }

  lemma PackedBits(e: bv64, vector: bv8, typ: bv64, ev: bv64, errCode: bv32)
    requires typ <= 7 && (ev == 0 || ev == 0x800)
    requires e == (vector as bv64) | (typ << 8) | 0x8000_0000 | (ev | ((errCode as bv64) << 32))
    ensures (e >> 31) & 1 == 1 && e & 0x7FFF_F000 == 0
    ensures (e & 0xFF) as bv8 == vector && (e >> 8) & 7 == typ
    ensures ((e >> 11) & 1 == 1) == (ev == 0x800)
    ensures (e >> 32) as bv32 == errCode
  {
  }

  lemma InjFields(e: bv64)
    ensures InjValid(e) == ((e >> 31) & 1 == 1)
    ensures InjReserved(e) == e & 0x7FFF_F000
    ensures InjVector(e) == (e & 0xFF) as bv8
    ensures InjType(e) == (e >> 8) & 7
    ensures InjDeliversError(e) == ((e >> 11) & 1 == 1)
    ensures InjError(e) == (e >> 32) as bv32
  {
  }

  lemma PackedFields(e: bv64, vector: bv8, typ: bv64, ev: bv64, errCode: bv32)
    requires typ <= 7 && (ev == 0 || ev == 0x800)
    requires e == (vector as bv64) | (typ << 8) | 0x8000_0000 | (ev | ((errCode as bv64) << 32))
    ensures InjValid(e) && InjReserved(e) == 0
    ensures InjVector(e) == vector && InjType(e) == typ
    ensures InjDeliversError(e) == (ev == 0x800)
    ensures InjError(e) == errCode
  {
    hide InjValid, InjReserved, InjVector, InjType, InjDeliversError, InjError;
    PackedBits(e, vector, typ, ev, errCode);
    InjFields(e);
  }

  lemma MakeShape(vector: bv8, typ: bv64, errCode: bv32)
    ensures EventinjMake(vector, typ, true, errCode) ==
            (vector as bv64) | (typ << 8) | 0x8000_0000 | (0x800 | ((errCode as bv64) << 32))
    ensures EventinjMake(vector, typ, false, errCode) ==
            (vector as bv64) | (typ << 8) | 0x8000_0000 | (0 | ((0 as bv32 as bv64) << 32))
  {
  }

  /** EVENTINJ reads back as it was made, with no reserved bit set. */
  lemma MakeFields(vector: bv8, typ: bv64, errValid: bool, errCode: bv32)
    requires typ <= 7
    ensures var e := EventinjMake(vector, typ, errValid, errCode);
            InjValid(e) && InjReserved(e) == 0 && InjVector(e) == vector && InjType(e) == typ
            && InjDeliversError(e) == errValid && InjError(e) == if errValid then errCode else 0
  {
    hide EventinjMake, InjValid, InjReserved, InjVector, InjType, InjDeliversError, InjError;
    MakeShape(vector, typ, errCode);
    if errValid {
      PackedFields(EventinjMake(vector, typ, true, errCode), vector, typ, 0x800, errCode);
    } else {
      PackedFields(EventinjMake(vector, typ, false, errCode), vector, typ, 0, 0);
    }
  }

  lemma ZeroInjectsNothing()
    ensures !InjValid(0) && InjReserved(0) == 0 && InjError(0) == 0
  {
  }

  /** The injected event decodes to the requested one, with every exception kind becoming a plain
      exception; the reserved bits 30:12 stay clear, and so does the error code unless delivered. */
  lemma InjectionPreserved(info: bv32, errCode: bv32)
    ensures var e := Eventinj(info, errCode);
            SvmEvent(e) == AsSvm(VmxEvent(info, errCode))
            && InjReserved(e) == 0
            && (!InfoValid(info) ==> e == 0)
            && (!(InfoValid(info) && InfoDeliversError(info)) ==> InjError(e) == 0)
  {
    hide EventinjMake, EntryValid, EntryVector, EntryType, EntryDeliversError;
    hide InfoValid, InfoVector, InfoType, InfoDeliversError;
    hide InjValid, InjReserved, InjVector, InjType, InjDeliversError, InjError;
    InfoFields(info);
    ZeroInjectsNothing();
    MakeFields(EntryVector(info), SvmType(EntryType(info)), EntryDeliversError(info), errCode);
  }

  /** Nothing is lost iff the requested kind is one that SVM can name. */
  lemma InjectionExact(info: bv32, errCode: bv32)
    ensures SvmEvent(Eventinj(info, errCode)) == VmxEvent(info, errCode)
            <==> !InfoValid(info) || InfoType(info) in {0, 2, 3, 4}
  {
    hide Eventinj, InfoValid, InfoVector, InfoType, InfoDeliversError, SvmEvent;
    InjectionPreserved(info, errCode);
  }
}
