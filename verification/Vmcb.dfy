/** The VMCB page of SVM.h: named slots over the packed control-area struct and
    over the raw-offset accessors of the state-save area. */
module Vmcb {
  import opened Bytes

  datatype Seg = ES | CS | SS | DS | FS | GS | GDTR | LDTR | IDTR | TR

  datatype Part = Selector | Attrib | Limit | Base

  /** The slots of the page that SVM.h names, by a struct member or by an offset, whether or not the
      driver writes them. */
  datatype Slot =
    | Segment(seg: Seg, part: Part)
    | InterceptCr | InterceptDr | InterceptExceptions | Intercept1 | Intercept2
    | PauseThresh | PauseCount | IopmBase | MsrpmBase | TscOffset | GuestAsid | TlbControl
    | VIntr | InterruptShadow | ExitCode | ExitInfo1 | ExitInfo2 | ExitIntInfo
    | NpEnable | EventInj | NestedCr3 | Nrip
    | Cpl | Efer | Cr4 | Cr3 | Cr0 | Dr7 | Dr6 | Rflags | Rip | Rsp | Rax
    | Star | Lstar | Cstar | Sfmask | KgsBase | SysentCs | SysentEsp | SysentEip | Cr2 | Gpat

  function SegOffset(seg: Seg): nat {
    match seg
    case ES => 0x400
    case CS => 0x410
    case SS => 0x420
    case DS => 0x430
    case FS => 0x440
    case GS => 0x450
    case GDTR => 0x460
    case LDTR => 0x470
    case IDTR => 0x480
    case TR => 0x490
  }

  function PartOffset(part: Part): nat {
    match part
    case Selector => 0
    case Attrib => 2
    case Limit => 4
    case Base => 8
  }

  function Offset(s: Slot): nat {
    match s
    case Segment(seg, part) => SegOffset(seg) + PartOffset(part)
    case InterceptCr => 0x000
    case InterceptDr => 0x004
    case InterceptExceptions => 0x008
    case Intercept1 => 0x00C
    case Intercept2 => 0x010
    case PauseThresh => 0x03C
    case PauseCount => 0x03E
    case IopmBase => 0x040
    case MsrpmBase => 0x048
    case TscOffset => 0x050
    case GuestAsid => 0x058
    case TlbControl => 0x05C
    case VIntr => 0x060
    case InterruptShadow => 0x068
    case ExitCode => 0x070
    case ExitInfo1 => 0x078
    case ExitInfo2 => 0x080
    case ExitIntInfo => 0x088
    case NpEnable => 0x090
    case EventInj => 0x0A8
    case NestedCr3 => 0x0B0
    case Nrip => 0x0C8
    case Cpl => 0x4CB
    case Efer => 0x4D0
    case Cr4 => 0x548
    case Cr3 => 0x550
    case Cr0 => 0x558
    case Dr7 => 0x560
    case Dr6 => 0x568
    case Rflags => 0x570
    case Rip => 0x578
    case Rsp => 0x5D8
    case Rax => 0x5F8
    case Star => 0x600
    case Lstar => 0x608
    case Cstar => 0x610
    case Sfmask => 0x618
    case KgsBase => 0x620
    case SysentCs => 0x628
    case SysentEsp => 0x630
    case SysentEip => 0x638
    case Cr2 => 0x640
    case Gpat => 0x668
  }

  function Width(s: Slot): nat {
    match s
    case Segment(_, part) => (match part case Selector => 2 case Attrib => 2 case Limit => 4 case Base => 8)
    case InterceptCr => 4
    case InterceptDr => 4
    case InterceptExceptions => 4
    case Intercept1 => 4
    case Intercept2 => 4
    case GuestAsid => 4
    case PauseThresh => 2
    case PauseCount => 2
    case TlbControl => 1
    case Cpl => 1
    case _ => 8
  }

  /** What a slot keeps of a value stored in it. */
  function Fit(s: Slot, v: bv64): bv64 {
    Keep(Width(s), v)
  }

  function Get(p: Page, s: Slot): bv64 {
    GetAt(p, Offset(s), Width(s))
  }

  function Set(p: Page, s: Slot, v: bv64): Page {
    SetAt(p, Offset(s), Width(s), v)
  }

  ghost predicate Inside(k: nat, s: Slot) {
    Offset(s) <= k < Offset(s) + Width(s)
  }

  /** Byte k of the page belongs to some named slot. */
  ghost predicate Covered(k: nat) {
    exists s: Slot :: Inside(k, s)
  }

  lemma SlotInPage(s: Slot)
    ensures Offset(s) + Width(s) <= PAGE_SIZE && Width(s) <= 8
  {
  }

  lemma SegmentsDisjoint(s: Slot, t: Slot)
    requires s != t && s.Segment? && t.Segment?
    ensures Offset(s) + Width(s) <= Offset(t) || Offset(t) + Width(t) <= Offset(s)
  {
  }

  lemma ControlDisjoint(s: Slot, t: Slot)
    requires s != t && Offset(s) < 0x400 && Offset(t) < 0x400
    ensures Offset(s) + Width(s) <= Offset(t) || Offset(t) + Width(t) <= Offset(s)
  {
  }

  lemma SavedDisjoint(s: Slot, t: Slot)
    requires s != t && Offset(s) >= 0x4A0 && Offset(t) >= 0x4A0
    ensures Offset(s) + Width(s) <= Offset(t) || Offset(t) + Width(t) <= Offset(s)
  {
  }

  /** The segment slots fill 0x400 to 0x49F, and no other slot reaches in. */
  lemma SegmentRange(s: Slot)
    ensures s.Segment? ==> 0x400 <= Offset(s) && Offset(s) + Width(s) <= 0x4A0
    ensures !s.Segment? ==> Offset(s) + Width(s) <= 0x400 || 0x4A0 <= Offset(s)
    ensures 0 < Width(s)
  {
  }

  lemma SlotsDisjoint(s: Slot, t: Slot)
    requires s != t
    ensures Offset(s) + Width(s) <= Offset(t) || Offset(t) + Width(t) <= Offset(s)
  {
    hide Offset, Width;
    SegmentRange(s);
    SegmentRange(t);
    if s.Segment? && t.Segment? {
      SegmentsDisjoint(s, t);
    } else if Offset(s) < 0x400 && Offset(t) < 0x400 {
      ControlDisjoint(s, t);
    } else if Offset(s) >= 0x4A0 && Offset(t) >= 0x4A0 {
      SavedDisjoint(s, t);
    }
  }

  lemma FitIsMask(s: Slot, v: bv64)
    ensures Fit(s, v) == v & Mask(Width(s))
  {
    hide Keep, Mask;
    KeepIsMask(Width(s), v);
  }

  /** Writing one slot sets that slot, and neither any other slot nor any byte outside the slots. */
  lemma GetSet(p: Page, s: Slot, v: bv64)
    ensures Get(Set(p, s, v), s) == Fit(s, v)
    ensures forall t: Slot :: t != s ==> Get(Set(p, s, v), t) == Get(p, t)
    ensures forall k: nat :: k < PAGE_SIZE && !Covered(k) ==> Set(p, s, v)[k] == p[k]
  {
    hide GetAt, Fit, LeBytes, Offset, Width;
    SlotInPage(s);
    GetSetSame(p, Offset(s), Width(s), v);
    FitIsMask(s, v);
    forall t: Slot | t != s
      ensures Get(Set(p, s, v), t) == Get(p, t)
    {
      SlotsDisjoint(s, t);
      SlotInPage(t);
      GetSetDisjoint(p, Offset(s), Width(s), v, Offset(t), Width(t));
    }
    forall k: nat | k < PAGE_SIZE && !Covered(k)
      ensures Set(p, s, v)[k] == p[k]
    {
      assert !Inside(k, s);
    }
  }

  /** A slot never holds more than fits in it. */
  lemma GetFits(p: Page, s: Slot)
    ensures Fit(s, Get(p, s)) == Get(p, s)
  {
    hide Fit;
    FitIsMask(s, Get(p, s));
    GetAtFits(p, Offset(s), Width(s));
  }

  /** A page is determined by its slots and the bytes outside every slot. */
  lemma PagesEqual(p: Page, q: Page)
    requires forall s: Slot :: Get(p, s) == Get(q, s)
    requires forall k: nat :: k < PAGE_SIZE && !Covered(k) ==> p[k] == q[k]
    ensures p == q
  {
    forall k: nat | k < PAGE_SIZE
      ensures p[k] == q[k]
    {
      if Covered(k) {
        var s: Slot :| Inside(k, s);
        assert Get(p, s) == Get(q, s);
        EqualLoads(p, q, Offset(s), Width(s));
        assert p[k] == p[Offset(s)..Offset(s) + Width(s)][k - Offset(s)];
        assert q[k] == q[Offset(s)..Offset(s) + Width(s)][k - Offset(s)];
      }
    }
  }

  /** One access of the slot's width: a struct-field assignment or vmcb_set64. */
  method WriteSlot(page: array<bv8>, s: Slot, v: bv64)
    requires page.Length == PAGE_SIZE
    modifies page
    ensures page[..] == Set(old(page[..]), s, v)
    ensures Get(page[..], s) == Fit(s, v)
    ensures forall t: Slot :: t != s ==> Get(page[..], t) == Get(old(page[..]), t)
    ensures forall k: nat :: k < PAGE_SIZE && !Covered(k) ==> page[k] == old(page[k])
  {
    var bytes := LeBytes(v, Width(s));
    var off := Offset(s);
    forall i | 0 <= i < Width(s) {
      page[off + i] := bytes[i];
    }
    assert page[..] == Set(old(page[..]), s, v);
    SlotInPage(s);
    hide Set, Get, Fit, Covered, LeBytes, Offset, Width;
    GetSet(old(page[..]), s, v);
  }

  method ReadSlot(page: array<bv8>, s: Slot) returns (v: bv64)
    requires page.Length == PAGE_SIZE
    ensures v == Get(page[..], s)
  {
    v := Get(page[..], s);
  }

  // ----- the packed struct that overlays the page -----

  /** The sizes of the members of vmcb_t, in order. */
  const MEMBER_SIZES: seq<nat> := [
    4, 4, 4, 4, 4,         // 0-4: intercept_cr, _dr, _exceptions, _1, _2
    0x28, 2, 2,            // 5-7: reserved_1, pause_filter_thresh, pause_filter_count
    8, 8, 8,               // 8-10: iopm_base_pa, msrpm_base_pa, tsc_offset
    4, 1, 3, 8, 8,         // 11-15: guest_asid, tlb_control, reserved_2, v_intr, interrupt_shadow
    8, 8, 8, 8,            // 16-19: exit_code, exit_info_1, exit_info_2, exit_int_info
    8, 0x18, 8,            // 20-22: np_enable, reserved_3, nested_cr3
    0x1000 - 0xB8]         // 23: raw_tail

  /** Where the i-th member of the packed struct begins. */
  function PackedOffset(i: nat): nat
    requires i <= |MEMBER_SIZES|
  {
    if i == 0 then 0 else PackedOffset(i - 1) + MEMBER_SIZES[i - 1]
  }

  ghost predicate Overlays(i: nat, s: Slot) {
    i < |MEMBER_SIZES| && PackedOffset(i) == Offset(s) && MEMBER_SIZES[i] == Width(s)
  }

  lemma LayoutValues()
    ensures PackedOffset(0) == 0x000 && PackedOffset(1) == 0x004 && PackedOffset(2) == 0x008
    ensures PackedOffset(3) == 0x00C && PackedOffset(4) == 0x010 && PackedOffset(5) == 0x014
    ensures PackedOffset(6) == 0x03C && PackedOffset(7) == 0x03E && PackedOffset(8) == 0x040
    ensures PackedOffset(9) == 0x048 && PackedOffset(10) == 0x050 && PackedOffset(11) == 0x058
    ensures PackedOffset(12) == 0x05C && PackedOffset(13) == 0x05D && PackedOffset(14) == 0x060
    ensures PackedOffset(15) == 0x068 && PackedOffset(16) == 0x070 && PackedOffset(17) == 0x078
    ensures PackedOffset(18) == 0x080 && PackedOffset(19) == 0x088 && PackedOffset(20) == 0x090
    ensures PackedOffset(21) == 0x098 && PackedOffset(22) == 0x0B0 && PackedOffset(23) == 0x0B8
    ensures PackedOffset(24) == PAGE_SIZE
  {
  }

  lemma InterceptMembers()
    ensures Overlays(0, InterceptCr) && Overlays(1, InterceptDr) && Overlays(2, InterceptExceptions)
    ensures Overlays(3, Intercept1) && Overlays(4, Intercept2) && Overlays(6, PauseThresh) && Overlays(7, PauseCount)
  {
    hide PackedOffset;
    LayoutValues();
  }

  lemma MapMembers()
    ensures Overlays(8, IopmBase) && Overlays(9, MsrpmBase) && Overlays(10, TscOffset) && Overlays(11, GuestAsid)
    ensures Overlays(12, TlbControl) && Overlays(14, VIntr) && Overlays(15, InterruptShadow)
  {
    hide PackedOffset;
    LayoutValues();
  }

  lemma ExitMembers()
    ensures Overlays(16, ExitCode) && Overlays(17, ExitInfo1) && Overlays(18, ExitInfo2) && Overlays(19, ExitIntInfo)
    ensures Overlays(20, NpEnable) && Overlays(22, NestedCr3)
  {
    hide PackedOffset;
    LayoutValues();
  }

  /** The struct view and the offset view are one: each named member lies exactly where its slot does,
      EVENTINJ is the last reserved word before the nested root, NRIP the third word after it, and the
      struct is one page. */
  lemma StructLayout()
    ensures Overlays(0, InterceptCr) && Overlays(1, InterceptDr) && Overlays(2, InterceptExceptions)
    ensures Overlays(3, Intercept1) && Overlays(4, Intercept2) && Overlays(6, PauseThresh) && Overlays(7, PauseCount)
    ensures Overlays(8, IopmBase) && Overlays(9, MsrpmBase) && Overlays(10, TscOffset) && Overlays(11, GuestAsid)
    ensures Overlays(12, TlbControl) && Overlays(14, VIntr) && Overlays(15, InterruptShadow)
    ensures Overlays(16, ExitCode) && Overlays(17, ExitInfo1) && Overlays(18, ExitInfo2) && Overlays(19, ExitIntInfo)
    ensures Overlays(20, NpEnable) && Overlays(22, NestedCr3)
    ensures Offset(EventInj) == PackedOffset(21) + 16 && Offset(EventInj) + 8 == Offset(NestedCr3)
    ensures Offset(Nrip) == PackedOffset(23) + 16 && PackedOffset(24) == PAGE_SIZE
  {
    hide PackedOffset, Overlays;
    InterceptMembers();
    MapMembers();
    ExitMembers();
    LayoutValues();
  }

  // ----- the save area, as AMD64 APM Vol. 2, appendix B lays it out -----

  /** The segments in the order of the save area. */
  const SAVED_SEGMENTS: seq<Seg> := [ES, CS, SS, DS, FS, GS, GDTR, LDTR, IDTR, TR]

  /** They fill sixteen bytes each from 0x400 on: selector, attributes, limit, base. */
  lemma SegmentLayout(i: nat)
    requires i < |SAVED_SEGMENTS|
    ensures var seg := SAVED_SEGMENTS[i];
            var at := Offset(Segment(seg, Selector));
      && at == 0x400 + 16 * i
      && Offset(Segment(seg, Attrib)) == at + 2 && Offset(Segment(seg, Limit)) == at + 4
      && Offset(Segment(seg, Base)) == at + 8
      && Width(Segment(seg, Selector)) == 2 == Width(Segment(seg, Attrib))
      && Width(Segment(seg, Limit)) == 4 && Width(Segment(seg, Base)) == 8
  {
  }

  /** The sizes of the members after the segments, reserved ranges included. */
  function SavedSize(i: nat): nat {
    match i
    case 0 => 0x2B   // reserved
    case 1 => 1      // CPL
    case 2 => 4      // reserved
    case 4 => 0x70   // reserved, after EFER
    case 12 => 0x58  // reserved, after CR4, CR3, CR0, DR7, DR6, RFLAGS and RIP
    case 14 => 0x18  // reserved, after RSP
    case 25 => 0x20  // reserved, after RAX, the system-call registers and CR2
    case _ => 8
  }

  /** Where the i-th of them begins. */
  function SavedOffset(i: nat): nat {
    if i == 0 then 0x4A0 else SavedOffset(i - 1) + SavedSize(i - 1)
  }

  ghost predicate SavedAt(i: nat, s: Slot) {
    Offset(s) == SavedOffset(i) && Width(s) == SavedSize(i)
  }

  lemma SavedValues()
    ensures SavedOffset(1) == 0x4CB && SavedOffset(3) == 0x4D0 && SavedOffset(5) == 0x548
    ensures SavedOffset(6) == 0x550 && SavedOffset(7) == 0x558 && SavedOffset(8) == 0x560
    ensures SavedOffset(9) == 0x568 && SavedOffset(10) == 0x570 && SavedOffset(11) == 0x578
    ensures SavedOffset(13) == 0x5D8 && SavedOffset(15) == 0x5F8
  {
  }

  lemma SavedValuesOn()
    ensures SavedOffset(16) == 0x600 && SavedOffset(17) == 0x608 && SavedOffset(18) == 0x610
    ensures SavedOffset(19) == 0x618 && SavedOffset(20) == 0x620 && SavedOffset(21) == 0x628
    ensures SavedOffset(22) == 0x630 && SavedOffset(23) == 0x638 && SavedOffset(24) == 0x640
    ensures SavedOffset(26) == 0x668
  {
    SavedValues();
  }

  lemma SavedControl()
    ensures SavedAt(1, Cpl) && SavedAt(3, Efer) && SavedAt(5, Cr4) && SavedAt(6, Cr3) && SavedAt(7, Cr0)
    ensures SavedAt(8, Dr7) && SavedAt(9, Dr6)
  {
    hide SavedOffset;
    SavedValues();
  }

  lemma SavedGeneral()
    ensures SavedAt(10, Rflags) && SavedAt(11, Rip) && SavedAt(13, Rsp) && SavedAt(15, Rax)
  {
    hide SavedOffset;
    SavedValues();
  }

  lemma SavedPaging()
    ensures SavedAt(24, Cr2) && SavedAt(26, Gpat)
  {
    hide SavedOffset;
    SavedValuesOn();
  }

  lemma SavedSyscall()
    ensures SavedAt(16, Star) && SavedAt(17, Lstar) && SavedAt(18, Cstar) && SavedAt(19, Sfmask)
  {
    hide SavedOffset;
    SavedValuesOn();
  }

  lemma SavedSysenter()
    ensures SavedAt(20, KgsBase) && SavedAt(21, SysentCs) && SavedAt(22, SysentEsp) && SavedAt(23, SysentEip)
  {
    hide SavedOffset;
    SavedValuesOn();
  }

  /** The offset constants are those of the packed save area, member by member. */
  lemma SaveAreaLayout()
    ensures SavedAt(1, Cpl) && SavedAt(3, Efer) && SavedAt(5, Cr4) && SavedAt(6, Cr3) && SavedAt(7, Cr0)
    ensures SavedAt(8, Dr7) && SavedAt(9, Dr6) && SavedAt(10, Rflags) && SavedAt(11, Rip) && SavedAt(13, Rsp)
    ensures SavedAt(15, Rax) && SavedAt(16, Star) && SavedAt(17, Lstar) && SavedAt(18, Cstar) && SavedAt(19, Sfmask)
    ensures SavedAt(20, KgsBase) && SavedAt(21, SysentCs) && SavedAt(22, SysentEsp) && SavedAt(23, SysentEip)
    ensures SavedAt(24, Cr2) && SavedAt(26, Gpat)
  {
    hide SavedAt;
    SavedControl();
    SavedGeneral();
    SavedPaging();
    SavedSyscall();
    SavedSysenter();
  }

  /** What a slot holds is its bytes on the page, the least significant first. */
  lemma SlotLoads(p: Page, s: Slot, k: nat)
    requires k < Width(s)
    ensures Offset(s) + k < PAGE_SIZE
    ensures ByteOf(Get(p, s), k) == p[Offset(s) + k]
  {
    hide ByteOf, Offset, Width, GetAt;
    SlotInPage(s);
    LoadedBytes(p, Offset(s), Width(s), k);
  }
}
