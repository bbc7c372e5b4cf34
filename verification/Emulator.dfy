/** The VMX instruction emulator: trap by trap, over the shadow VMCS, the VMCB page and the trap frame. */
module Emulator {
  import opened Bytes
  import opened EntryTranslation
  import opened ExitTranslation
  import opened ShadowVmcs
  import T = TrapFrame
  import opened Vmcb
  import opened Vmx
  import opened WorldSwitch

  /** The emulator's state: all that one trap hands on to the next. */
  datatype Emu = Emu(store: Store, launched: bool, root: bool, gprs: Gprs, rax: bv64,
                     page: Option<Page>, features: bv32, launchBuilt: bool)

  // ----- VMLAUNCH and VMRESUME -----

  /** The page that VMRUN finds. */
  ghost function EntryPage(st: Emu): Page
    requires st.page.Some?
  {
    Set(Enter(st.store, st.page.value), Rax, st.rax)
  }

  /** The page and the registers after the stay in the guest, or after the marked non-entry of a build
      without guest launch. */
  ghost function AfterGuest(st: Emu, guest: Guest): (Page, Gprs)
    requires st.page.Some?
  {
    if st.launchBuilt then guest(EntryPage(st), st.gprs)
    else (Set(EntryPage(st), ExitCode, VMEXIT_INVALID), st.gprs)
  }

  /** The writes that a launch makes to the shadow. */
  ghost function LaunchWrites(st: Emu, guest: Guest): seq<Field> {
    if st.page.None? then [] else WriteBack(AfterGuest(st, guest).0, st.features)
  }

  ghost function LaunchResume(st: Emu, guest: Guest): Emu {
    if st.page.None? then st
    else
      var (q, g) := AfterGuest(st, guest);
      st.(store := Exit(st.store, q, st.features), launched := true, gprs := g, rax := Get(q, Rax), page := Some(q))
  }

  ghost function LaunchReason(st: Emu, guest: Guest): bv32 {
    if st.page.None? then EXIT_UNKNOWN else Low32(Lookup(LaunchResume(st, guest).store, VM_EXIT_REASON))
  }

  // ----- one trap -----

  /** VMsucceed (Intel SDM Vol. 3C, section 30.2): CF, PF, AF, ZF, SF and OF clear. */
  function ClearStatus(rflags: bv64): bv64 {
    rflags & 0xFFFF_FFFF_FFFF_F72A
  }

  function AddLength(rip: bv64, length: nat): bv64
    requires length < 0x100
  {
    rip + (length as bv64)
  }

  ghost function Execute(st: Emu, d: T.Decoded, guest: Guest): Emu {
    match d.op
    case Vmxon => st.(root := true)
    case Vmxoff => st.(root := false)
    case Vmptrld => st.(launched := false)
    case Vmclear => st.(launched := false)
    case Vmwrite => st.(store := Put(st.store, d.field, d.srcValue))
    case Vmlaunch => LaunchResume(st, guest)
    case Vmresume => LaunchResume(st, guest)
    case _ => st
  }

  /** The writes that an instruction makes to the shadow, dropped or not. */
  ghost function Writes(st: Emu, d: T.Decoded, guest: Guest): seq<Field> {
    match d.op
    case Vmwrite => [Field(d.field, d.srcValue)]
    case Vmlaunch => LaunchWrites(st, guest)
    case Vmresume => LaunchWrites(st, guest)
    case _ => []
  }

  /** The frame with the result of a VMREAD in its destination. */
  ghost function Delivered(st: Emu, f: T.Frame, d: T.Decoded): T.Frame
    requires d.dstReg.Some? ==> d.dstReg.value < T.FRAME_WORDS
  {
    if d.op == T.Vmread && d.dstReg.Some? then f[d.dstReg.value := Lookup(st.store, d.field)] else f
  }

  /** The frame after an instruction: the VMREAD destination, then RIP and the flags. */
  ghost function Retire(st: Emu, f: T.Frame, d: T.Decoded): T.Frame
    requires d.length < 0x100 && (d.dstReg.Some? ==> d.dstReg.value < T.FRAME_WORDS)
  {
    var f' := Delivered(st, f, d);
    f'[T.RIP := AddLength(f'[T.RIP], d.length)][T.RFLAGS := ClearStatus(f'[T.RFLAGS])]
  }

  datatype Outcome = Outcome(emu: Emu, frame: T.Frame, handled: bool, writes: seq<Field>)

  /** A decoded instruction fits in the frame, and names a destination iff it is a VMREAD. */
  lemma DecodedBounds(f: T.Frame, h: T.Hde)
    requires T.Decode(f, h).Some?
    ensures var d := T.Decode(f, h).value;
      && d.length < 0x100
      && (d.op == T.Vmread <==> d.dstReg.Some?)
      && (d.dstReg.Some? ==> d.dstReg.value == T.DataSlot(h) < T.FRAME_WORDS)
  {
    hide T.GprSlot, T.RegIndex, T.FieldOf;
  }

  ghost function TrapOutcome(st: Emu, f: T.Frame, h: T.Hde, guest: Guest): Outcome {
    match T.Decode(f, h)
    case None => Outcome(st, f, false, [])
    case Some(d) =>
      DecodedBounds(f, h);
      Outcome(Execute(st, d, guest), Retire(st, f, d), true, Writes(st, d, guest))
  }

  // ----- the emulator itself -----

  class VmxEmulator {
    const vmcs: ShadowVMCS
    const cpu: Cpu           // runs the world switch
    const gprsAt: Word       // where the guest registers are kept in its memory
    const guestLaunch: bool  // the build option that compiles the world switch in
    var guestRax: bv64
    var vmcb: array?<bv8>
    var vmcbPA: Word
    var svmFeatures: bv32
    var vmxRoot: bool

    ghost predicate Valid()
      reads this, vmcs, vmcs.fields, cpu
    {
      && vmcs.Valid() && cpu.Ready(gprsAt)
      && (vmcb != null ==> vmcb.Length == PAGE_SIZE && (vmcb as object) != (vmcs.fields as object))
    }

    ghost function State(): Emu
      reads this, vmcs, vmcs.fields, cpu, vmcb
      requires Valid()
    {
      Emu(vmcs.Contents(), vmcs.launched, vmxRoot, Block(cpu.mem, gprsAt), guestRax,
          if vmcb == null then None else Some(vmcb[..]), svmFeatures, guestLaunch)
    }

    constructor (cpu: Cpu, gprsAt: Word, guestLaunch: bool)
      requires cpu.Ready(gprsAt)
      ensures Valid() && fresh(vmcs) && fresh(vmcs.fields) && this.cpu == cpu
      ensures State() == Emu(map[], false, false, Block(cpu.mem, gprsAt), 0, None, 0, guestLaunch)
    {
      vmcs := new ShadowVMCS();
      this.cpu, this.gprsAt, this.guestLaunch := cpu, gprsAt, guestLaunch;
      guestRax, vmcb, vmcbPA, svmFeatures, vmxRoot := 0, null, 0, 0, false;
    }

    method Bind(vmcb: array<bv8>, vmcbPA: Word, svmFeatures: bv32)
      requires Valid() && vmcb.Length == PAGE_SIZE && (vmcb as object) != (vmcs.fields as object)
      modifies this
      ensures Valid() && State() == old(State()).(page := Some(vmcb[..]), features := svmFeatures)
      ensures this.vmcb == vmcb && this.vmcbPA == vmcbPA
    {
      this.vmcb, this.vmcbPA, this.svmFeatures := vmcb, vmcbPA, svmFeatures;
    }

    /** The stay in the guest: through the world switch, or the marked non-entry. */
    method EnterGuest(guest: Guest)
      requires Valid() && vmcb != null
      modifies cpu, vmcb
      ensures Valid() && vmcs.Contents() == old(vmcs.Contents())
      ensures guestLaunch ==>
        (vmcb[..], Block(cpu.mem, gprsAt)) == guest(old(vmcb[..]), Block(old(cpu.mem), gprsAt))
      ensures !guestLaunch ==>
        vmcb[..] == Set(old(vmcb[..]), ExitCode, VMEXIT_INVALID)
        && Block(cpu.mem, gprsAt) == Block(old(cpu.mem), gprsAt)
    {
      hide Set, Get, Block, StackMapped, BlockMapped;
      if guestLaunch {
        cpu.r := cpu.r.(rdi := vmcbPA, rsi := gprsAt);
        cpu.SvmWorldSwitch(vmcb, guest);
      } else {
        WriteSlot(vmcb, ExitCode, VMEXIT_INVALID);
      }
    }

    /** Translates, enters the guest, translates the exit back. */
    method VmlaunchResume(guest: Guest) returns (reason: bv32)
      requires Valid()
      modifies this`guestRax, vmcs, vmcs.fields, cpu, vmcb
      ensures Valid() && State() == LaunchResume(old(State()), guest)
      ensures reason == LaunchReason(old(State()), guest)
    {
      hide Set, Get, Block, Enter, Exit, Entered, Lookup, Low32, StackMapped, BlockMapped;
      if vmcb == null {
        return EXIT_UNKNOWN;
      }
      TranslateVmcsToVmcb(vmcs, vmcb);
      WriteSlot(vmcb, Rax, guestRax);
      EnterGuest(guest);
      guestRax := ReadSlot(vmcb, Rax);
      TranslateVmcbToVmcs(vmcb, vmcs, svmFeatures);
      vmcs.SetLaunched(true);
      var word := vmcs.Read(VM_EXIT_REASON);
      return Low32(word);
    }

    method Vmxon()
      requires Valid()
      modifies this`vmxRoot
      ensures Valid() && State() == old(State()).(root := true)
    {
      vmxRoot := true;
    }

    method Vmxoff()
      requires Valid()
      modifies this`vmxRoot
      ensures Valid() && State() == old(State()).(root := false)
    {
      vmxRoot := false;
    }

    method Vmptrld()
      requires Valid()
      modifies vmcs`launched
      ensures Valid() && State() == old(State()).(launched := false)
    {
      vmcs.SetLaunched(false);
    }

    method Vmclear()
      requires Valid()
      modifies vmcs`launched
      ensures Valid() && State() == old(State()).(launched := false)
    {
      vmcs.SetLaunched(false);
    }

    method Vmwrite(f: Encoding, v: bv64) returns (stored: bool)
      requires Valid()
      modifies vmcs`count, vmcs.fields
      ensures Valid() && State() == old(State()).(store := Put(old(State()).store, f, v))
      ensures stored == Accepts(old(State()).store, f)
    {
      hide Put, Accepts;
      stored := vmcs.Write(f, v);
    }

    method Vmread(f: Encoding) returns (v: bv64)
      requires Valid()
      ensures v == Lookup(State().store, f)
    {
      v := vmcs.Read(f);
    }

    /** Carries out a decoded instruction. */
    method Dispatch(d: T.Decoded, frame: array<bv64>, guest: Guest)
      requires Valid() && Separate(frame)
      requires d.dstReg.Some? ==> d.dstReg.value < T.FRAME_WORDS
      modifies this`guestRax, this`vmxRoot, vmcs, vmcs.fields, cpu, vmcb, frame
      ensures Valid() && State() == Execute(old(State()), d, guest)
      ensures frame[..] == Delivered(old(State()), old(frame[..]), d)
    {
      hide LaunchResume, Lookup, Put;
      match d.op {
        case Vmxon => Vmxon();
        case Vmxoff => Vmxoff();
        case Vmptrld => Vmptrld();
        case Vmclear => Vmclear();
        case Vmptrst =>
        case Vmwrite =>
          var stored := Vmwrite(d.field, d.srcValue);
        case Vmread =>
          if d.dstReg.Some? {
            frame[d.dstReg.value] := Vmread(d.field);
          }
        case Vmlaunch =>
          var reason := VmlaunchResume(guest);
        case Vmresume =>
          var reason := VmlaunchResume(guest);
        case Invept =>
        case Invvpid =>
      }
    }

    ghost predicate Separate(frame: array<bv64>)
      reads this
    {
      && frame.Length == T.FRAME_WORDS && (frame as object) != (vmcs.fields as object)
      && (vmcb != null ==> (frame as object) != (vmcb as object))
    }

    /** The invalid-opcode trap: true when it was an emulated instruction, which is then retired. */
    method HandleUD(frame: array<bv64>, h: T.Hde, guest: Guest) returns (handled: bool)
      requires Valid() && Separate(frame)
      modifies this`guestRax, this`vmxRoot, vmcs, vmcs.fields, cpu, vmcb, frame
      ensures Valid()
      ensures var out := TrapOutcome(old(State()), old(frame[..]), h, guest);
        State() == out.emu && frame[..] == out.frame && handled == out.handled
    {
      hide Execute, Delivered, T.Decode, ClearStatus, AddLength, Writes;
      var ok, d := T.DecodeVmx(frame, h);
      if !ok {
        return false;
      }
      DecodedBounds(frame[..], h);
      Dispatch(d, frame, guest);
      frame[T.RIP] := AddLength(frame[T.RIP], d.length);
      frame[T.RFLAGS] := ClearStatus(frame[T.RFLAGS]);
      return true;
    }
  }
}
