# VMX on SVM: a verified model

AMDV traps the VMX instructions that an AMD processor does not have and carries them out on SVM. A
trapped VMWRITE goes into a *shadow VMCS*; a trapped VMLAUNCH or VMRESUME translates the shadow into a
VMCB page, runs the guest, and translates the page back so that later VMREADs see the exit. This project
models that core and proves what it keeps, over single traps and over whole runs.

| file | models |
|---|---|
| `Bytes.dfy` | little-endian loads and stores on a 4-KiB page |
| `ShadowVmcs.dfy` | the 256-slot linear-scan store as a class, the map it stands for, and logs of writes |
| `Vmx.dfy` | VMCS encodings, control bits, exit reasons |
| `Vmcb.dfy` | the VMCB page: slots by offset, and the packed struct over the same bytes |
| `SegmentRights.dfy`, `EventInjection.dfy` | the two word-format conversions, with what each format means |
| `EntryTranslation.dfy`, `ExitTranslation.dfy` | VMCS to VMCB and back, as methods on the page and the store |
| `RoundTrip.dfy` | entry followed by exit |
| `Intercepts.dfy` | which guest events exit, on either side |
| `NestedPaging.dfy` | EPT entries to NPT entries, and the two page walks |
| `WorldSwitch.dfy` | the assembly switch on a register and memory machine |
| `TrapFrame.dfy` | the trap frame and the instruction decoder |
| `Emulator.dfy` | the emulator class: launch, dispatch, trap handler |
| `Runs.dfy`, `Launches.dfy` | results over runs and over one launch |
| `Numbers.dfy` | one launch by field number, slot and bit: what enters, what is written back, who runs |
| `Resume.dfy` | the state in which a guest is entered again |
| `DisabledLaunch.dfy` | repeated launches in the build that never enters the guest |

A stay in the guest is an arbitrary function on the VMCB page and the fourteen software-switched
registers, a fresh one at every entry; it cannot reach the host's stack or the register block in any
other way. The state that traps share is a class whose methods are proved against functions on values
(`Emu`, `Store`, `Page`), and the results over runs are lemmas about those functions.

VMCS encodings are numbers below 2^32, a subset type; every other machine word is a bit-vector of its
width, so that arithmetic wraps and stores truncate as in the source. Words of the world switch are
numbers below 2^64, because the switch only moves them and steps the stack pointer.

Each table of the code is proved against one written from the manuals: encodings from width, type and index
(`EncodingStructure`, `ControlStructure`), VMCB offsets from member sizes (`StructLayout`, `SaveAreaLayout`),
saved registers from the order of the trap frame (`OperandsByName`), control bits and reasons from their
positions and numbers (`EntryIntercepts`, `EntryPaging`, `CauseMapped`).

## Results that say where the code stops

- The shadow loses no write exactly when at most 256 distinct encodings were asked for
  (`RunRefinesUnboundedStore`), and 257 VMWRITEs do lose one (`CapacityExceeded`); beyond that, what is
  stored is still the last value (`RunBeyondCapacity`).
- The exit's own writes are lost in the same way. A launch over a full shadow without a reason field returns
  reason 0, an exception or NMI, for every exit (`FullShadowHidesReason`); `ReasonVisible` gives the exact
  condition for the reason and `ExitReadsExactly` that for every other field.
- CPUID and VMCALL never exit from a translated page although they always exit from VMX, and NMI exiting
  is not honoured (`InterceptsPreserved`).
- An entry's event is injected again by the next entry (`InjectedAgain`, `SameEventAgain`).
- A guest is not resumed quite as it was left: its changes to GDTR, IDTR and PAT are overwritten at every
  entry (`TablesReset`), and `ResumesAsLeft` says exactly when any slot is as the guest left it.
- The encoding used for guest CR2 is that of the pending debug exceptions, so a VMWRITE of those lands in
  CR2 (`EncodingStructure`, `PendingDebugBecomesCr2`).
- Software and privileged-software exceptions are injected as plain exceptions (`InjectionExact`).
- A usable segment with the present bit clear comes back unusable (`StateReturns`), which is the one thing
  that keeps a second launch from reproducing the page (`FixedPoint`). Over a full shadow, a missing
  access-rights field also comes back as 0, which is usable, and not as unusable (`TranslationRoundTrip`).
- A misconfigured EPT entry stops the guest under VMX. The NPT walk goes on past its translation, unless it
  is a large leaf with a stray address bit other than bit 12 (`NptWalkIsLax`, `WalkMeaning`); a write-only
  page becomes readable and writable (`WriteOnlyBecomesWritable`).
- NPT pages are always readable, so exactly the pages behind an execute-only entry gain read permission
  (`ReadPreserved`, `ExecuteOnlyBecomesReadable`), and only the UC and WB memory types survive
  (`MemTypePreserved`).
- An entry hands the raw EPT to VMRUN. The log line at src/kern_vmcs_vmcb.cpp:149-150 says that guest memory
  will then fault; in fact a page that is readable and executable at every level is found and may be used,
  unless bit 8 of the root entry is set, which EPT ignores (`EntryWalk`, `RawTablesCanMap`).
- The decoder leaves out some prefix and ModRM.mod checks (`DecodeExact`, `RdrandIsMistaken`).
- README.md:30 of the repository calls the decoder a stub that returns false; the code decodes, and the
  model follows the code.

## Model

| member | source | states |
|---|---|---|
| ShadowVmcs.ShadowVMCS.Read | src/kern_vmcs_vmcb.cpp:11-17 | The scan returns the value the abstract map has for the encoding, 0 if none. |
| ShadowVmcs.ShadowVMCS.Write | src/kern_vmcs_vmcb.cpp:19-35 | Fails exactly when the store is full and the encoding is new, changing nothing; otherwise the map gains exactly that pair, and count is the number of distinct encodings. |
| ShadowVmcs.ShadowVMCS.Reset | src/kern_vmx.hpp:191 | Empties the map and clears the launched flag. |
| ShadowVmcs.ReachableStore | src/kern_vmx.hpp:187-203 | After any reset, write and read sequence the store has min(256, distinct encodings since the last reset) fields, each holding the last value written since then. |
| ShadowVmcs.DropsNothingIff | src/kern_vmcs_vmcb.cpp:19-35 | A sequence of writes loses none of them iff the stored and the written encodings together number at most 256. |
| ShadowVmcs.StoredIsLast | src/kern_vmcs_vmcb.cpp:11-35 | Whatever is stored is the last value written to its encoding, even when other writes were dropped. |
| ShadowVmcs.LosslessReads | src/kern_vmcs_vmcb.cpp:11-35 | With room, every read returns the last value written, or what was there before. |
| ShadowVmcs.FirstWriteDecides | src/kern_vmcs_vmcb.cpp:19-35 | A written encoding ends up stored iff it was there before or fewer than 256 encodings came before its first write. |
| ShadowVmcs.ReplayAgain | src/kern_vmcs_vmcb.cpp:19-35 | Writes of different encodings change nothing the second time, even when some were dropped. |
| Bytes.ValueOfBytes | src/SVM.h:237-244 | Loading what was stored in w bytes gives the value truncated to w bytes. |
| Bytes.BytesOfValue | src/SVM.h:237-244 | Storing what was loaded restores the bytes. |
| Bytes.LittleEndian | src/SVM.h:237-244 | A stored value lies in memory with its least significant byte first. |
| Bytes.Conversions | src/kern_vmcs_vmcb.cpp:86-115 | Casts to 16 and 32 bits keep exactly the low bits, and widening adds none. |
| Vmcb.StructLayout | src/SVM.h:90-119 | The packed struct puts every named member exactly at its slot, EVENTINJ in the last reserved word before nested_cr3, NRIP in the tail, and fills one page. |
| Vmcb.SaveAreaLayout | src/SVM.h:179-199 | The save-area offsets are the running sums of the member sizes of AMD64 APM Vol. 2, appendix B. |
| Vmcb.SegmentLayout | src/SVM.h:168-177 | Segment slots are sixteen bytes each from 0x400 in the save area's order: selector, attributes, limit, base. |
| Vmcb.SlotLoads | src/SVM.h:237-256 | What a slot holds is its bytes on the page, least significant first. |
| Vmcb.SlotsDisjoint | src/SVM.h:90-203 | No two of the slots named by the struct or by an offset constant share a byte. |
| Vmcb.GetSet | src/SVM.h:237-256 | Writing a slot sets it to the truncated value and changes no other slot and no byte outside the slots. |
| Vmcb.PagesEqual | src/SVM.h:90-117 | The slots and the bytes outside them determine the page. |
| Vmcb.WriteSlot | src/SVM.h:241-244 | The in-place store is that slot write. |
| SegmentRights.RightsPreserved | src/kern_vmcs_vmcb.cpp:47-60 | Both conversions keep whether a segment is present, and its type, S, DPL, AVL, L, D/B and G, except that unusable becomes not present without rights on the way in, and not present becomes unusable on the way out. |
| SegmentRights.StateReturns | src/kern_vmcs_vmcb.cpp:47-60 | There and back, a segment keeps its state iff it was unusable or present; a usable one with the present bit clear comes back unusable. |
| SegmentRights.NormalForm | src/kern_vmcs_vmcb.cpp:47-60 | There and back is an idempotent normaliser, the identity exactly on the plain unusable word and on present usable words with bits 11:8 and 31:17 clear. |
| SegmentRights.AttribThereAndBack | src/kern_vmcs_vmcb.cpp:47-60 | Back and there keeps the low 12 bits of a present attribute and clears any other. |
| EventInjection.MakeFields | src/SVM.h:219-226 | EVENTINJ decodes to the vector, type, error flag and error code it was made from, with bits 30:12 clear. |
| EventInjection.InjectionPreserved | src/kern_vmcs_vmcb.cpp:162-183 | The event VMRUN delivers is the one the VMX entry asked for, with exception kinds merged; an invalid one injects nothing, and an undelivered error code is zero. |
| EventInjection.InjectionExact | src/kern_vmcs_vmcb.cpp:162-183 | Nothing of the event is lost iff it is invalid or of type 0, 2, 3 or 4. |
| Vmx.GuestFieldsDistinct | src/kern_vmx.hpp:24-105 | Distinct slots mirror distinct encodings, none of them a control or exit-information field. |
| Vmx.EncodingStructure | src/kern_vmx.hpp:24-105 | Every mirrored encoding has the structure and the index of Intel SDM Vol. 3C, appendix B: guest state, of its slot's width, each register and segment at its place; CR2 alone has the number of another field. |
| Vmx.ControlStructure | src/kern_vmx.hpp:24-72 | So do the control and exit-information encodings. |
| EntryTranslation.TranslateVmcsToVmcb | src/kern_vmcs_vmcb.cpp:86-188 | In place, every slot has its translated value at once and every other byte of the page is unchanged; the shadow is untouched. |
| EntryTranslation.EnterIsEntered | src/kern_vmcs_vmcb.cpp:86-188 | That description has exactly one page, the one given byte by byte by the owning slots. |
| Numbers.EntryRegisters | src/kern_vmcs_vmcb.cpp:103-110 | VMRUN finds CR0, CR3, CR4, RSP, RIP, RFLAGS, CR2 and the PAT as the shadow has them under 0x6800, 0x6802, 0x6804, 0x681C, 0x681E, 0x6820, 0x6822 and 0x2804. |
| Numbers.EntryEfer | src/kern_vmcs_vmcb.cpp:112-115 | EFER is field 0x2806 with bit 12 set and no other bit changed. |
| Numbers.EntryTables | src/kern_vmcs_vmcb.cpp:88-100 | The n-th segment has limit 0x4800 + 2n, cut to 32 bits, and base 0x6806 + 2n, GDTR and IDTR included. |
| Numbers.EntrySegments | src/kern_vmcs_vmcb.cpp:88-95 | It has selector 0x0800 + 2n, cut to 16 bits, and the rights of 0x4814 + 2n, unusable as not present. |
| Numbers.EntryIntercepts | src/kern_vmcs_vmcb.cpp:117-132 | The intercept words are exactly INTR from pin control 0, HLT from primary control 7, VMRUN, and the exception bitmap. |
| Launches.UntouchedSlots | src/kern_vmcs_vmcb.cpp:86-183 | Exactly the listed slots are not written: of the save area CPL, DR6, DR7, RAX, the system-call registers and the GDTR/IDTR selectors and attributes; of the control area all that the kernel's controls do not decide. |
| ExitTranslation.TranslateVmcbToVmcs | src/kern_vmcs_vmcb.cpp:193-233 | The store becomes the old one with the exit's writes made in order, dropped ones included; the page is unchanged. |
| Numbers.ExitRegisterWrites | src/kern_vmcs_vmcb.cpp:196-202 | The first seven writes of an exit are CR0, CR3, CR4, CR2, RIP, RSP and RFLAGS, each to its number. |
| Numbers.ExitEferWrite | src/kern_vmcs_vmcb.cpp:203 | The eighth is EFER without bit 12. |
| Numbers.ExitSegmentWrites | src/kern_vmcs_vmcb.cpp:205-211 | Then selector, limit, base and rights of the eight segments in order. |
| Numbers.ExitInfoWrites | src/kern_vmcs_vmcb.cpp:213-227 | Then the mapped reason to 0x4402 and, iff feature bit 3 is set and nRIP lies beyond RIP, nRIP - RIP to 0x440C; nothing else. |
| ExitTranslation.WriteBackEncodings | src/kern_vmcs_vmcb.cpp:193-227 | An exit writes only its own at most 42 encodings. |
| ExitTranslation.RoomForExit | src/kern_vmx.hpp:181-189 | A store of at most 214 fields has room for any exit. |
| ExitTranslation.ExitReads | src/kern_vmcs_vmcb.cpp:193-227 | With room, reads after an exit give every reported field from its own slot, the mapped reason, and the length or its previous value. |
| ExitTranslation.ExitReadsExactly | src/kern_vmcs_vmcb.cpp:193-227 | Room or not: each written field reads as its new value iff it was stored already or fewer than 256 encodings came before it, and is absent, reading 0, otherwise. |
| ExitTranslation.RoomIffStored | src/kern_vmcs_vmcb.cpp:19-35 | An exit has room for all its writes iff each one meets that condition. |
| ExitTranslation.ExitKeeps | src/kern_vmcs_vmcb.cpp:193-227 | Every other field, GDTR, IDTR and PAT among them, is left alone, room or not. |
| RoundTrip.ThroughSlot | src/kern_vmcs_vmcb.cpp:86-115 | Into a slot and out again gives the normal form of a field. |
| RoundTrip.TranslationRoundTrip | src/kern_vmcs_vmcb.cpp:86-211 | Entry then exit on an untouched page, over any shadow, leave control registers, RIP, RSP, RFLAGS and bases as they were, selectors mod 2^16, limits mod 2^32, EFER without SVME, rights normalised, and every other encoding untouched; except that an access-rights field fails to be normalised iff it was missing and had no place. |
| RoundTrip.SlotReturns | src/kern_vmcs_vmcb.cpp:47-60 | A slot survives going out and in again, except an attribute whose rights are not kept. |
| Intercepts.InterceptsPreserved | src/kern_vmcs_vmcb.cpp:117-132 | An event exits from the page with a code mapped to reason r iff it exits with r under the shadow; it fails exactly for CPUID, VMCALL, and NMIs that were to exit. |
| Intercepts.CauseMapped | src/kern_vmcs_vmcb.cpp:238-254 | Every cause with a VMX counterpart, MSR direction included, gets the reason of Intel SDM Vol. 3C, appendix C. |
| Intercepts.UnknownExactly | src/kern_vmcs_vmcb.cpp:249-252 | An exit is reported as unknown exactly when no such cause explains its code. |
| NestedPaging.EntryAddress | src/kern_vmcs_vmcb.cpp:279-285 | A present entry keeps its address. |
| NestedPaging.EntryRights | src/kern_vmcs_vmcb.cpp:279-290 | A present entry becomes present and user-accessible, with write and execute as before. |
| NestedPaging.EntryCaching | src/kern_vmcs_vmcb.cpp:292-302 | Bit 7 is copied on leaves only, and PWT and PCD are set iff the entry is a UC leaf. |
| NestedPaging.NptWalkIsLax | src/kern_vmcs_vmcb.cpp:279-304 | For every address, level and mirroring pair of tables, well-formed or not, the NPT walk is the EPT walk without its misconfiguration test. |
| NestedPaging.WalkMeaning | src/kern_vmcs_vmcb.cpp:279-304 | Over 4 levels, the NPT walk means what the EPT walk means iff the EPT walk is not misconfigured or that walk faults. |
| NestedPaging.WalkPreserved | src/kern_vmcs_vmcb.cpp:279-304 | So where the EPT walk finds a page, the NPT walk finds it at the same level and frame, with the same accumulated write and execute rights, US set, PCD and PWT iff UC; where the EPT walk ends at an absent entry, so does the NPT walk. |
| NestedPaging.WriteOnlyBecomesWritable | src/kern_vmcs_vmcb.cpp:279-288 | Mirroring tables with a write-without-read leaf: the EPT walk is misconfigured, the NPT walk finds a writable page. |
| NestedPaging.BuiltMirrors | src/kern_vmcs_vmcb.cpp:306-318 | Tables built in parallel, entry by entry with eptEntryToNpt, mirror the EPT, as the scaffold intends. |
| NestedPaging.MemTypePreserved | src/kern_vmcs_vmcb.cpp:295-300 | Of the pages that both walks find, exactly those of type UC and WB have the same memory type in the NPT walk. |
| NestedPaging.ReadPreserved | src/kern_vmcs_vmcb.cpp:281-285 | The NPT walk's page is always readable, which is what the EPT grants iff no entry on the way is execute-only. |
| NestedPaging.ExecuteOnlyBecomesReadable | src/kern_vmcs_vmcb.cpp:281-285 | An execute-only entry becomes readable. |
| NestedPaging.RawWalk | src/kern_vmcs_vmcb.cpp:145-151 | The EPT walked as NPT leads to a mapped page iff it is readable at every level and bit 8 of the root entry is clear, with the EPT's write right, user access where it grants execution, and execution where no entry has bit 63. |
| NestedPaging.RawTablesCanMap | src/kern_vmcs_vmcb.cpp:145-151 | Raw tables through which a user-accessible, writable, executable page is found. |
| WorldSwitch.Cpu.SvmWorldSwitch | src/svm_switch.S:23-85 | VMRUN runs once, on the right page with exactly the block's 14 registers; the block then holds exactly the guest's; rbp, rbx, r12-r15, rsp and every memory word wholly outside the block and the pushed 64 bytes are unchanged. |
| WorldSwitch.BlockStored | src/kern_vmx_emu.hpp:22-25 | Storing the fourteen registers in order makes the block hold exactly them. |
| TrapFrame.DecodeVmx | src/kern_vmx_emu.cpp:103-163 | The step-by-step decoder computes the decoding function. |
| TrapFrame.DecodeComplete | src/kern_vmx_emu.cpp:117-161 | Every encoding of an emulated instruction decodes as that instruction, memory-operand VMREAD and VMWRITE excepted. |
| TrapFrame.DecodeExact | src/kern_vmx_emu.cpp:117-146 | What is decoded is what was encoded exactly when none of the left-out prefix and mode checks would fire. |
| TrapFrame.RdrandIsMistaken | src/kern_vmx_emu.cpp:128-137 | RDRAND RAX decodes as VMPTRLD. |
| TrapFrame.OperandsByName | src/kern_vmx_emu.cpp:147-161 | A register-form VMREAD or VMWRITE that names two registers takes its encoding from the low 32 bits of the saved value of the first, and its data from, or to, the member that holds the second. |
| TrapFrame.DecodedAs | src/kern_vmx_emu.cpp:103-146 | A record is decoded as an operation iff it passes the checks that the decoder does make for it. |
| TrapFrame.GprSlotApart | src/kern_trap.hpp:45-65 | No register operand names RIP, the flags, CS, SS, CR2 or the trap metadata. |
| TrapFrame.GprSlotsDistinct | src/kern_trap.hpp:45-65 | Two operands name the same slot iff their encodings agree in the low four bits. |
| Emulator.VmxEmulator.VmlaunchResume | src/kern_vmx_emu.cpp:26-52 | In place, the whole emulator state becomes the launch function of the old one, through the world switch or the marked non-entry, and the reason is the one then readable; without a VMCB nothing changes. |
| Numbers.GuestRunsOnce | src/kern_vmx_emu.cpp:33-49 | With guest launch, the guest runs once, on the entry page and the saved registers; its page, registers and RAX are kept, the page is written back, and the VMCS is marked launched. |
| Numbers.GuestNotRun | src/kern_vmx_emu.cpp:40-49 | Without it, the entry page comes back with exit code -1 and is written back; the registers stay. |
| Numbers.NoPage | src/kern_vmx_emu.cpp:28-31 | With no VMCB bound nothing changes, and the reason is 0xFFFFFFFF. |
| Emulator.VmxEmulator.HandleUD | src/kern_vmx_emu.cpp:57-91 | In place, emulator and frame become those of the trap function, and the result says whether the trap was handled. |
| Emulator.VmxEmulator.Vmwrite | src/kern_vmx_emu.hpp:48 | Stores the field unless the shadow is full and the encoding new, and says which. |
| Runs.TrapFrameContract | src/kern_vmx_emu.cpp:57-91 | Unhandled changes nothing; handled adds the instruction length to RIP, clears exactly the status flags, delivers a VMREAD to its one destination, and changes no other frame word. |
| Runs.InstructionEffects | src/kern_vmx_emu.cpp:63-83 | From its encoding: VMXON and VMXOFF set and clear root mode, VMPTRLD and VMCLEAR clear the launched flag, VMLAUNCH and VMRESUME launch, VMPTRST, INVEPT and INVVPID change nothing. |
| Runs.VmwriteEffect | src/kern_vmx_emu.cpp:69 | VMWRITE of register d to the encoding in register e puts that value under that encoding and changes nothing else. |
| Runs.VmreadEffect | src/kern_vmx_emu.cpp:70-72 | VMREAD delivers the value under the encoding in register e to register d, and changes no other register. |
| Runs.LaunchAsks | src/kern_vmx_emu.cpp:46-49 | The writes that a launch asks for are those of its exit, and make its new shadow. |
| Runs.StatusBits | src/kern_vmx_emu.cpp:10-11 | Exactly CF, PF, AF, ZF, SF and OF are cleared. |
| Runs.RunKeepsBound | src/kern_vmx.hpp:189-201 | No run overfills the shadow. |
| Runs.RunRefinesUnboundedStore | src/kern_vmx_emu.cpp:26-91 | Over every run with arbitrary guests, no write is lost iff at most 256 distinct encodings were asked for, and then every encoding reads as the last value a VMWRITE or an exit wrote. |
| Runs.CapacityExceeded | src/kern_vmx_emu.cpp:57-91 | A run of 257 VMWRITE traps drops a write: the last encoding reads as 0, not as the value written. |
| Runs.RunBeyondCapacity | src/kern_vmx_emu.cpp:26-91 | Beyond that, the shadow holds 256 encodings, each still with its last value. |
| Runs.RunWithinCapacity | src/kern_vmx.hpp:181-189 | The condition follows from the VMWRITE encodings and the 42 exit encodings together numbering at most 256; 214 VMWRITE encodings always fit. |
| Runs.VmreadSeesLastWrite | src/kern_vmx_emu.cpp:70-72 | A VMREAD after such a run delivers that last value to its destination register. |
| Runs.WriteThenRead | src/kern_vmx_emu.cpp:57-91 | For any registers, coinciding ones and RSP included, what one trap VMWRITEs a later trap VMREADs, if no trap in between writes that encoding. |
| Launches.EntryPageSlots | src/kern_vmx_emu.cpp:33-35 | VMRUN finds the translated slots and the guest RAX, and otherwise the old page. |
| Launches.EntrySafety | src/kern_vmcs_vmcb.cpp:112-160 | At every entry, from any state, EFER.SVME and the VMRUN intercept are set and the ASID is not zero. |
| Launches.EntryPaging | src/kern_vmcs_vmcb.cpp:140-155 | Nested paging is on iff bit 31 of field 0x4002 and bit 1 of field 0x401E are set, and the root is then the page of field 0x201A. |
| Launches.EntryWalk | src/kern_vmcs_vmcb.cpp:140-151 | From the root that VMRUN finds, the nested walk over the EPT gives the raw walk's result wherever the EPT maps a page. |
| Launches.PendingDebugBecomesCr2 | src/kern_vmx.hpp:104 | A VMWRITE of encoding 0x6822 becomes the guest's CR2, and reads back as the exit's CR2. |
| Launches.EntryAsid | src/kern_vmcs_vmcb.cpp:157-160 | The ASID is the low half of field 0x0000 when bit 31 of 0x4002 and bit 5 of 0x401E are set and it is not zero, and otherwise 1. |
| Launches.GuestStateVisible | src/kern_vmx_emu.cpp:46-49 | After any exit with room, VMREADs of guest state give the page's slots, converted, and the guest RAX is the page's. |
| Numbers.ExitRegisters | src/kern_vmcs_vmcb.cpp:196-202 | With room, fields 0x6800, 0x6802, 0x6804, 0x681C, 0x681E, 0x6820 and 0x6822 read as the page's CR0, CR3, CR4, RSP, RIP, RFLAGS and CR2. |
| Numbers.ExitEfer | src/kern_vmcs_vmcb.cpp:203 | Field 0x2806 reads as the page's EFER without bit 12. |
| Numbers.ExitSegments | src/kern_vmcs_vmcb.cpp:205-211 | So do selector, limit, base and rights of the n-th segment under their numbers, not-present shown as unusable. |
| Launches.RightsVisible | src/kern_vmcs_vmcb.cpp:203-211 | The reported rights mean what the page's do, not-present shown as unusable, and SVME never shows. |
| Launches.ReasonVisible | src/kern_vmx_emu.cpp:51 | The returned reason is what a VMREAD gives; it is the mapped exit code iff the shadow has the reason field, or fewer than 256 fields counting the forty slot encodings, or the mapped reason is 0. |
| Launches.FullShadowHidesReason | src/kern_vmx_emu.cpp:51 | Over a full shadow without that field, every guest's exit is returned as reason 0. |
| Launches.LengthVisible | src/kern_vmcs_vmcb.cpp:222-227 | Field 0x440C reads as nRIP - RIP when feature bit 3 is set and nRIP lies beyond RIP, and otherwise keeps its previous value. |
| Launches.InjectedAgain | src/kern_vmx_emu.cpp:26-52 | The next entry carries the same EVENTINJ, whatever the guest did. |
| Launches.SameEventAgain | src/kern_vmx_emu.cpp:26-52 | Both entries inject the event that the shadow asks for, with exception kinds merged, and they inject one iff the information is valid. |
| Resume.ResumedSlot | src/kern_vmx_emu.cpp:26-52 | Whatever the guest did, the next entry gives each reported slot what the guest left, sent out and back in (or a missing field's value, if it had no place), each other slot that entries write its first value again, and every other slot what the guest left. |
| Resume.ResumedBytes | src/kern_vmx_emu.cpp:26-52 | No byte outside the slots is lost between an exit and the next entry. |
| Resume.ResumesAsLeft | src/kern_vmcs_vmcb.cpp:86-211 | A slot resumes as the guest left it iff: reported and stored, its attribute is zero or present within twelve bits, its EFER has SVME; reported and not stored, it had the missing field's value; only written by entries, it was not changed. |
| Resume.TablesReset | src/kern_vmcs_vmcb.cpp:96-110 | GDTR and IDTR base and limit and the PAT are at every re-entry what the shadow says, whatever the guest loaded. |
| DisabledLaunch.FixedPoint | src/kern_vmx_emu.cpp:37-52 | Without guest launch, over any shadow, a second launch repeats shadow, RAX, registers and reason; it repeats the page iff all segment rights were kept; a third changes nothing. The reason is that of an unknown exit, or 0 if it had no place. |
| DisabledLaunch.SecondSlot | src/kern_vmx_emu.cpp:33-48 | Each reported slot at the second launch is what came out of the first, put back in, if the shadow kept it; every other slot is the same again. |

## Left out

- HDE's disassembly is an input record; its ModRM fields are taken as given.
- The processor's VMRUN, VMLOAD and VMSAVE beyond the page and the fourteen registers: host FS, GS, TR and LDTR are not claimed to be restored, since the assembly has no host VMSAVE/VMLOAD pair.
- Emulator.VmxEmulator.VmlaunchResume: the physical address in `vmcbPA` is taken to be that of the bound page.
- Intercepts.InterceptsPreserved: takes the page-fault error-code mask and match as zero, since the code never reads them; events other than its six are not compared.
- Launches.LengthVisible: gives the length as the wrapping difference nRIP - RIP, which is the positive distance because nRIP is greater.
- NestedPaging.WalkMeaning: the code never builds an NPT, so the result is about tables that mirror the EPT; physical-address width and dirty or accessed bits are not modelled.
- Runs.TrapFrameContract: the 16- and 32-bit members of the frame are modelled as whole words, which no trap changes.
- The read accessors of the emulator and the 8-bit VMCB accessors, which nothing in the core calls.
- MSR and I/O bitmaps, exit qualification and interruption information on exit, and launch-state checks, which the code does not implement.
- Several VMCSs: VMPTRLD and VMCLEAR only clear the launched flag.
- Logging, concurrency between processors, and the bring-up code in src/kern_svm.cpp, src/kern_hv_amd.cpp and src/kern_start.cpp.
