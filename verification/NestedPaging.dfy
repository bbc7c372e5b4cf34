/** EPT entries to NPT entries, and why the translated tables walk to the same pages. */
module NestedPaging {

  // ----- EPT entries (Intel SDM Vol. 3C, section 28.2.2) -----

  function EptRead(e: bv64): bool { e & 0x1 != 0 }

  function EptWrite(e: bv64): bool { e & 0x2 != 0 }

  function EptExecute(e: bv64): bool { e & 0x4 != 0 }

  function EptPresent(e: bv64): bool { e & 0x7 != 0 }

  function EptBit7(e: bv64): bool { e & 0x80 != 0 }

  function EptMemType(e: bv64): bv64 { (e >> 3) & 7 }

  function Address(entry: bv64): bv64 { entry & 0x000F_FFFF_FFFF_F000 }

  // ----- NPT entries (AMD64 APM Vol. 2, sections 5.3 and 15.25) -----

  function NptPresent(n: bv64): bool { n & 0x1 != 0 }

  function NptWrite(n: bv64): bool { n & 0x2 != 0 }

  function NptUser(n: bv64): bool { n & 0x4 != 0 }

  function NptPwt(n: bv64): bool { n & 0x8 != 0 }

  function NptPcd(n: bv64): bool { n & 0x10 != 0 }

  function NptBit7(n: bv64): bool { n & 0x80 != 0 }

  function NptBit8(n: bv64): bool { n & 0x100 != 0 }

  function NptNoExecute(n: bv64): bool { n & 0x8000_0000_0000_0000 != 0 }

  // ----- the translation of one entry -----

  function EptEntryToNpt(e: bv64, leaf: bool): bv64 {
    if e & 0x7 == 0 then 0
    else
      (e & 0x000F_FFFF_FFFF_F000) | 0x1 | 0x4
      | (if e & 0x2 != 0 then 0x2 else 0)
      | (if e & 0x4 == 0 then 0x8000_0000_0000_0000 else 0)
      | (if leaf && e & 0x80 != 0 then 0x80 else 0)
      | (if leaf && (e >> 3) & 7 == 0 then 0x18 else 0)
  }

  lemma EntryAbsent(e: bv64, leaf: bool)
    requires !EptPresent(e)
    ensures EptEntryToNpt(e, leaf) == 0 && !NptPresent(EptEntryToNpt(e, leaf))
  {
  }

  lemma EntryAddress(e: bv64, leaf: bool)
    requires EptPresent(e)
    ensures Address(EptEntryToNpt(e, leaf)) == Address(e)
  {
  }

  lemma EntryRights(e: bv64, leaf: bool)
    requires EptPresent(e)
    ensures NptPresent(EptEntryToNpt(e, leaf)) && NptUser(EptEntryToNpt(e, leaf))
    ensures NptWrite(EptEntryToNpt(e, leaf)) == EptWrite(e)
    ensures NptNoExecute(EptEntryToNpt(e, leaf)) == !EptExecute(e)
  {
  }

  lemma EntryCaching(e: bv64, leaf: bool)
    requires EptPresent(e)
    ensures NptBit7(EptEntryToNpt(e, leaf)) == (leaf && EptBit7(e)) && !NptBit8(EptEntryToNpt(e, leaf))
    ensures NptPwt(EptEntryToNpt(e, leaf)) == (leaf && EptMemType(e) == 0)
    ensures NptPcd(EptEntryToNpt(e, leaf)) == (leaf && EptMemType(e) == 0)
  {
  }

  // ----- entries at a level of the walk: 4 is the root table, 1 maps 4-KiB pages -----

  predicate Maps(level: nat, bit7: bool) {
    level == 1 || (bit7 && level <= 3)
  }

  predicate EptLeaf(e: bv64, level: nat) {
    Maps(level, EptBit7(e))
  }

  /** The page that a leaf maps: 4 KiB, 2 MiB or 1 GiB. */
  function PageFrame(level: nat, address: bv64): bv64 {
    match level
    case 2 => address & 0xFFFF_FFFF_FFE0_0000
    case 3 => address & 0xFFFF_FFFF_C000_0000
    case _ => address
  }

  /** Address bits below the page of a large leaf. */
  function BelowPage(level: nat, address: bv64): bv64 {
    match level
    case 2 => address & 0x001F_F000
    case 3 => address & 0x3FFF_F000
    case _ => 0
  }

  /** Bit 12, which selects the page attribute of a large leaf; in EPT it is a reserved address bit. */
  function Bit12(address: bv64): bool { address & 0x1000 != 0 }

  /** The bit that takes part in selecting the page attribute of a leaf. */
  function PatBit(n: bv64, level: nat): bool {
    if level == 1 then NptBit7(n) else Bit12(Address(n))
  }

  /** Address bits of a large leaf that must be zero in NPT: all those below its page but bit 12. */
  predicate LargeReserved(level: nat, address: bv64) {
    BelowPage(level, address) & 0xFFFF_FFFF_FFFF_EFFF != 0
  }

  /** An EPT misconfiguration (section 28.2.3.1): write without read, a reserved bit of a table entry or
      of a large leaf, or a memory type that does not exist. */
  predicate EptMisconfigured(e: bv64, level: nat) {
    || (EptWrite(e) && !EptRead(e))
    || (level == 4 && EptBit7(e))
    || (EptLeaf(e, level) && (BelowPage(level, Address(e)) != 0 || EptMemType(e) in {2, 3, 7}))
    || (!EptLeaf(e, level) && e & 0x78 != 0)
  }

  /** Bits that must be zero in an NPT entry. */
  predicate NptReserved(n: bv64, level: nat) {
    || (level == 4 && (NptBit7(n) || NptBit8(n)))
    || (Maps(level, NptBit7(n)) && LargeReserved(level, Address(n)))
  }

  // ----- the two walks -----

  /** The entries of all tables in memory, by table address and index. */
  type Tables = (bv64, bv64) -> bv64

  function Index(gpa: bv64, level: nat): bv64 {
    match level
    case 1 => (gpa >> 12) & 0x1FF
    case 2 => (gpa >> 21) & 0x1FF
    case 3 => (gpa >> 30) & 0x1FF
    case _ => (gpa >> 39) & 0x1FF
  }

  datatype EptResult =
    | EptNotPresent
    | EptMisconfig
    | EptPage(level: nat, frame: bv64, read: bool, write: bool, execute: bool, memType: bv64, ignored7: bool)

  function EptWalk(t: Tables, table: bv64, level: nat, gpa: bv64, read: bool, write: bool, execute: bool): EptResult
    requires 1 <= level <= 4
    decreases level
  {
    var e := t(table, Index(gpa, level));
    if !EptPresent(e) then EptNotPresent
    else if EptMisconfigured(e, level) then EptMisconfig
    else
      var r, w, x := read && EptRead(e), write && EptWrite(e), execute && EptExecute(e);
      if EptLeaf(e, level) then
        EptPage(level, PageFrame(level, Address(e)), r, w, x, EptMemType(e), level == 1 && EptBit7(e))
      else EptWalk(t, Address(e), level - 1, gpa, r, w, x)
  }

  datatype NptResult =
    | NptNotPresent
    | NptFault
    | NptPage(level: nat, frame: bv64, write: bool, execute: bool, user: bool, pat: bool, pcd: bool, pwt: bool)

  function NptWalk(t: Tables, table: bv64, level: nat, gpa: bv64, write: bool, execute: bool, user: bool): NptResult
    requires 1 <= level <= 4
    decreases level
  {
    var n := t(table, Index(gpa, level));
    if !NptPresent(n) then NptNotPresent
    else if NptReserved(n, level) then NptFault
    else
      var w, x, u := write && NptWrite(n), execute && !NptNoExecute(n), user && NptUser(n);
      if Maps(level, NptBit7(n)) then
        NptPage(level, PageFrame(level, Address(n)), w, x, u, PatBit(n, level), NptPcd(n), NptPwt(n))
      else NptWalk(t, Address(n), level - 1, gpa, w, x, u)
  }

  /** What an EPT walk should become: the same page with the same write and execute rights, open to user
      accesses as nested walks require, uncached when and only when the EPT leaf says UC. */
  function Translated(r: EptResult): NptResult {
    match r
    case EptNotPresent => NptNotPresent
    case EptMisconfig => NptFault
    case EptPage(level, frame, _, write, execute, memType, ignored7) =>
      NptPage(level, frame, write, execute, true, ignored7, memType == 0, memType == 0)
  }

  // ----- tables that mirror one another -----

  /** All bits of a table entry but the address of the next table. */
  function Flags(n: bv64): bv64 {
    n & 0xFFF0_0000_0000_0FFF
  }

  /** The NPT table holds the translated entries of the EPT table; table entries may point at new tables,
      which mirror the tables that the EPT entries point at. */
  ghost predicate Mirrors(ept: Tables, npt: Tables, level: nat, table: bv64, table': bv64)
    requires 1 <= level <= 4
    decreases level
  {
    forall i: bv64 ::
      var e, n := ept(table, i), npt(table', i);
      if EptLeaf(e, level) || !EptPresent(e) then n == EptEntryToNpt(e, EptLeaf(e, level))
      else Flags(n) == Flags(EptEntryToNpt(e, false)) && (level > 1 ==> Mirrors(ept, npt, level - 1, Address(e), Address(n)))
  }

  lemma FlagsDecide(n: bv64, n': bv64)
    requires Flags(n) == Flags(n')
    ensures NptPresent(n) == NptPresent(n')
    ensures NptUser(n) == NptUser(n')
    ensures NptWrite(n) == NptWrite(n')
  {
  }

  lemma FlagsDecideMore(n: bv64, n': bv64)
    requires Flags(n) == Flags(n')
    ensures NptNoExecute(n) == NptNoExecute(n')
    ensures NptBit7(n) == NptBit7(n') && NptBit8(n) == NptBit8(n')
  {
  }

  lemma WellPlaced(address: bv64, level: nat)
    requires (level == 2 || level == 3) && BelowPage(level, address) == 0
    ensures !Bit12(address) && !LargeReserved(level, address)
  {
  }

  lemma SmallPlaced(address: bv64)
    ensures !LargeReserved(1, address)
  {
  }

  /** One step down: a table entry and its mirror agree, and lead on. */
  lemma TableStep(e: bv64, n: bv64, level: nat)
    requires 1 <= level <= 4 && EptPresent(e) && !EptLeaf(e, level)
    requires Flags(n) == Flags(EptEntryToNpt(e, false))
    ensures NptPresent(n) && NptUser(n) && !NptReserved(n, level) && !Maps(level, NptBit7(n))
    ensures NptWrite(n) == EptWrite(e) && NptNoExecute(n) == !EptExecute(e)
  {
    hide EptEntryToNpt, NptPresent, NptUser, NptWrite, NptNoExecute, NptBit7, NptBit8, EptPresent, EptBit7, Flags, EptWrite, EptExecute;
    FlagsDecide(n, EptEntryToNpt(e, false));
    FlagsDecideMore(n, EptEntryToNpt(e, false));
    EntryRights(e, false);
    EntryCaching(e, false);
  }

  /** A leaf, well-formed or not, and its translation: where the NPT walk faults, and what it maps. */
  lemma LeafStep(e: bv64, level: nat)
    requires 1 <= level <= 4 && EptPresent(e) && EptLeaf(e, level)
    ensures var n := EptEntryToNpt(e, true);
      && NptPresent(n) && NptUser(n) && Maps(level, NptBit7(n)) && Address(n) == Address(e)
      && NptReserved(n, level) == LargeReserved(level, Address(e))
      && NptWrite(n) == EptWrite(e) && NptNoExecute(n) == !EptExecute(e)
      && NptPwt(n) == NptPcd(n) == (EptMemType(e) == 0)
      && PatBit(n, level) == (if level == 1 then EptBit7(e) else Bit12(Address(e)))
  {
    hide EptEntryToNpt, NptPresent, NptUser, NptWrite, NptNoExecute, NptBit7, NptBit8, EptPresent, EptBit7;
    hide EptWrite, EptExecute, EptMemType, NptPwt, NptPcd, LargeReserved, Address, Bit12;
    EntryAddress(e, true);
    EntryRights(e, true);
    EntryCaching(e, true);
  }

  // ----- the exact result: what the NPT walk does, in terms of the EPT tables alone -----

  /** The EPT walk without its misconfiguration test. It stops only at a large leaf with an address bit
      below its page other than bit 12, and takes the page-attribute bit from the leaf. */
  function LaxWalk(t: Tables, table: bv64, level: nat, gpa: bv64, write: bool, execute: bool): NptResult
    requires 1 <= level <= 4
    decreases level
  {
    var e := t(table, Index(gpa, level));
    if !EptPresent(e) then NptNotPresent
    else
      var w, x := write && EptWrite(e), execute && EptExecute(e);
      if !EptLeaf(e, level) then LaxWalk(t, Address(e), level - 1, gpa, w, x)
      else if LargeReserved(level, Address(e)) then NptFault
      else
        NptPage(level, PageFrame(level, Address(e)), w, x, true,
                if level == 1 then EptBit7(e) else Bit12(Address(e)), EptMemType(e) == 0, EptMemType(e) == 0)
  }

  lemma LeafWalk(ept: Tables, npt: Tables, level: nat, table: bv64, table': bv64, gpa: bv64, write: bool, execute: bool)
    requires 1 <= level <= 4
    requires var e := ept(table, Index(gpa, level));
      EptPresent(e) && EptLeaf(e, level) && npt(table', Index(gpa, level)) == EptEntryToNpt(e, true)
    ensures NptWalk(npt, table', level, gpa, write, execute, true) == LaxWalk(ept, table, level, gpa, write, execute)
  {
    hide EptEntryToNpt, NptPresent, NptUser, NptWrite, NptNoExecute, NptBit7, NptBit8, EptPresent, EptBit7, EptMisconfigured;
    hide EptRead, EptWrite, EptExecute, EptMemType, NptPwt, NptPcd, BelowPage, Address, Flags, Index, PageFrame;
    hide Bit12, LargeReserved;
    hide PatBit, NptReserved, Maps;
    LeafStep(ept(table, Index(gpa, level)), level);
  }

  lemma TableWalk(ept: Tables, npt: Tables, level: nat, table: bv64, table': bv64, gpa: bv64, write: bool, execute: bool)
    requires 2 <= level <= 4
    requires var e, n := ept(table, Index(gpa, level)), npt(table', Index(gpa, level));
      EptPresent(e) && !EptLeaf(e, level) && Flags(n) == Flags(EptEntryToNpt(e, false))
    ensures var e, n := ept(table, Index(gpa, level)), npt(table', Index(gpa, level));
      && LaxWalk(ept, table, level, gpa, write, execute)
         == LaxWalk(ept, Address(e), level - 1, gpa, write && EptWrite(e), execute && EptExecute(e))
      && NptWalk(npt, table', level, gpa, write, execute, true)
         == NptWalk(npt, Address(n), level - 1, gpa, write && EptWrite(e), execute && EptExecute(e), true)
  {
    hide EptEntryToNpt, NptPresent, NptUser, NptWrite, NptNoExecute, NptBit7, NptBit8, EptPresent, EptBit7, EptMisconfigured;
    hide EptRead, EptWrite, EptExecute, EptMemType, NptPwt, NptPcd, BelowPage, Address, Flags, Index, PageFrame;
    hide Bit12, LargeReserved;
    hide PatBit, NptReserved, Maps;
    TableStep(ept(table, Index(gpa, level)), npt(table', Index(gpa, level)), level);
  }

  lemma AbsentWalk(ept: Tables, npt: Tables, level: nat, table: bv64, table': bv64, gpa: bv64, write: bool, execute: bool)
    requires 1 <= level <= 4
    requires !EptPresent(ept(table, Index(gpa, level))) && npt(table', Index(gpa, level)) == 0
    ensures NptWalk(npt, table', level, gpa, write, execute, true) == LaxWalk(ept, table, level, gpa, write, execute)
  {
    hide EptPresent, Index;
    assert !NptPresent(0);
    hide NptPresent;
  }

  lemma AboveLeaves(e: bv64, level: nat)
    requires !EptLeaf(e, level)
    ensures level != 1
  {
  }

  /** For all mirrored tables and every address, misconfigured entries included, the NPT walk is the lax one. */
  lemma {:induction false} NptWalkIsLax(ept: Tables, npt: Tables, level: nat, table: bv64, table': bv64, gpa: bv64,
                                        write: bool, execute: bool)
    requires 1 <= level <= 4 && Mirrors(ept, npt, level, table, table')
    ensures NptWalk(npt, table', level, gpa, write, execute, true) == LaxWalk(ept, table, level, gpa, write, execute)
    decreases level
  {
    hide EptEntryToNpt, NptPresent, NptUser, NptWrite, NptNoExecute, NptBit7, NptBit8, EptPresent, EptBit7, EptMisconfigured;
    hide EptRead, EptWrite, EptExecute, EptMemType, NptPwt, NptPcd, BelowPage, Address, Flags, Index, PageFrame;
    hide Bit12, LargeReserved;
    hide NptWalk, LaxWalk, PatBit, NptReserved, Maps;
    var e, n := ept(table, Index(gpa, level)), npt(table', Index(gpa, level));
    if !EptPresent(e) {
      EntryAbsent(e, EptLeaf(e, level));
      AbsentWalk(ept, npt, level, table, table', gpa, write, execute);
    } else if EptLeaf(e, level) {
      LeafWalk(ept, npt, level, table, table', gpa, write, execute);
    } else {
      AboveLeaves(e, level);
      TableWalk(ept, npt, level, table, table', gpa, write, execute);
      NptWalkIsLax(ept, npt, level - 1, Address(e), Address(n), gpa, write && EptWrite(e), execute && EptExecute(e));
    }
  }

  // ----- when that is what the EPT means -----

  lemma GoodLeaf(e: bv64, level: nat)
    requires 1 <= level <= 4 && EptPresent(e) && EptLeaf(e, level) && !EptMisconfigured(e, level)
    ensures !LargeReserved(level, Address(e)) && (level != 1 ==> !Bit12(Address(e)))
  {
    hide EptPresent, EptBit7, EptMemType, EptRead, EptWrite, BelowPage, Address, Bit12, LargeReserved;
    if level != 1 {
      WellPlaced(Address(e), level);
    } else {
      SmallPlaced(Address(e));
    }
  }

  lemma ConfiguredLeaf(t: Tables, table: bv64, level: nat, gpa: bv64, read: bool, write: bool, execute: bool)
    requires 1 <= level <= 4 && EptWalk(t, table, level, gpa, read, write, execute) != EptMisconfig
    requires var e := t(table, Index(gpa, level)); EptPresent(e) && EptLeaf(e, level)
    ensures LaxWalk(t, table, level, gpa, write, execute) == Translated(EptWalk(t, table, level, gpa, read, write, execute))
  {
    hide EptEntryToNpt, NptPresent, NptUser, NptWrite, NptNoExecute, NptBit7, NptBit8, EptPresent, EptBit7, EptMisconfigured;
    hide EptRead, EptWrite, EptExecute, EptMemType, NptPwt, NptPcd, BelowPage, Address, Flags, Index, PageFrame;
    hide Bit12, LargeReserved;
    GoodLeaf(t(table, Index(gpa, level)), level);
  }

  /** Where the EPT walk meets no misconfigured entry, the lax walk is its translation. */
  lemma {:induction false} LaxWhenConfigured(t: Tables, table: bv64, level: nat, gpa: bv64,
                                             read: bool, write: bool, execute: bool)
    requires 1 <= level <= 4 && EptWalk(t, table, level, gpa, read, write, execute) != EptMisconfig
    ensures LaxWalk(t, table, level, gpa, write, execute) == Translated(EptWalk(t, table, level, gpa, read, write, execute))
    decreases level
  {
    hide EptEntryToNpt, NptPresent, NptUser, NptWrite, NptNoExecute, NptBit7, NptBit8, EptPresent, EptBit7, EptMisconfigured;
    hide EptRead, EptWrite, EptExecute, EptMemType, NptPwt, NptPcd, BelowPage, Address, Flags, Index, PageFrame;
    hide Bit12, LargeReserved;
    hide Maps;
    var e := t(table, Index(gpa, level));
    if EptPresent(e) {
      if EptLeaf(e, level) {
        ConfiguredLeaf(t, table, level, gpa, read, write, execute);
      } else {
        AboveLeaves(e, level);
        LaxWhenConfigured(t, Address(e), level - 1, gpa, read && EptRead(e), write && EptWrite(e), execute && EptExecute(e));
      }
    }
  }

  /** The whole truth about a 4-level walk of mirrored tables, with no condition on their entries: the NPT
      walk means what the EPT walk means, except where the EPT walk is misconfigured and the lax walk
      does not stop as well. */
  lemma WalkMeaning(ept: Tables, npt: Tables, root: bv64, root': bv64, gpa: bv64)
    requires Mirrors(ept, npt, 4, root, root')
    ensures var r := EptWalk(ept, root, 4, gpa, true, true, true);
            var lax := LaxWalk(ept, root, 4, gpa, true, true);
      && NptWalk(npt, root', 4, gpa, true, true, true) == lax
      && (lax == Translated(r) <==> (r == EptMisconfig ==> lax == NptFault))
  {
    hide EptWalk, NptWalk, LaxWalk;
    NptWalkIsLax(ept, npt, 4, root, root', gpa, true, true);
    if EptWalk(ept, root, 4, gpa, true, true, true) != EptMisconfig {
      LaxWhenConfigured(ept, root, 4, gpa, true, true, true);
    }
  }

  /** In particular, where the EPT walk finds a page the NPT walk finds the same page with the same rights,
      and where the EPT walk ends at an absent entry so does the NPT walk. */
  lemma WalkPreserved(ept: Tables, npt: Tables, root: bv64, root': bv64, gpa: bv64)
    requires Mirrors(ept, npt, 4, root, root')
    ensures var r := EptWalk(ept, root, 4, gpa, true, true, true);
            var s := NptWalk(npt, root', 4, gpa, true, true, true);
      && (r.EptNotPresent? ==> s.NptNotPresent?)
      && (r.EptPage? ==> s.NptPage? && s.level == r.level && s.frame == r.frame && s.write == r.write && s.execute == r.execute
                         && s.user && s.pcd == s.pwt == (r.memType == 0))
  {
    hide EptWalk, NptWalk, LaxWalk;
    WalkMeaning(ept, npt, root, root', gpa);
  }

  // ----- tables built in parallel -----

  function WithAddress(n: bv64, address: bv64): bv64 {
    (n & 0xFFF0_0000_0000_0FFF) | (address & 0x000F_FFFF_FFFF_F000)
  }

  lemma WithAddressFields(n: bv64, address: bv64)
    ensures Flags(WithAddress(n, address)) == Flags(n)
    ensures Address(WithAddress(n, address)) == Address(address)
  {
  }

  /** A parallel NPT: for every EPT table in use at some level, a page of its own, filled entry by entry
      and with each table entry pointing at the parallel page of the next table. */
  ghost predicate Built(ept: Tables, npt: Tables, inUse: (nat, bv64) -> bool, page: (nat, bv64) -> bv64) {
    forall level: nat, table: bv64, i: bv64 :: 1 <= level <= 4 && inUse(level, table) ==>
      BuiltEntry(ept, npt, inUse, page, level, table, i)
  }

  ghost predicate BuiltEntry(ept: Tables, npt: Tables, inUse: (nat, bv64) -> bool, page: (nat, bv64) -> bv64,
                             level: nat, table: bv64, i: bv64)
    requires 1 <= level <= 4
  {
    var e, n := ept(table, i), npt(page(level, table), i);
    if EptLeaf(e, level) || !EptPresent(e) then n == EptEntryToNpt(e, EptLeaf(e, level))
    else
      && inUse(level - 1, Address(e))
      && Address(page(level - 1, Address(e))) == page(level - 1, Address(e))
      && n == WithAddress(EptEntryToNpt(e, false), page(level - 1, Address(e)))
  }

  /** Such tables mirror the EPT, so that the walks agree. */
  lemma {:induction false} BuiltMirrors(ept: Tables, npt: Tables, inUse: (nat, bv64) -> bool,
                                        page: (nat, bv64) -> bv64, level: nat, table: bv64)
    requires Built(ept, npt, inUse, page) && 1 <= level <= 4 && inUse(level, table)
    ensures Mirrors(ept, npt, level, table, page(level, table))
    decreases level
  {
    hide EptEntryToNpt, EptPresent, EptBit7, Address, Flags, WithAddress;
    forall i: bv64
      ensures var e, n := ept(table, i), npt(page(level, table), i);
        if EptLeaf(e, level) || !EptPresent(e) then n == EptEntryToNpt(e, EptLeaf(e, level))
        else Flags(n) == Flags(EptEntryToNpt(e, false)) && (level > 1 ==> Mirrors(ept, npt, level - 1, Address(e), Address(n)))
    {
      var e := ept(table, i);
      assert BuiltEntry(ept, npt, inUse, page, level, table, i);
      if !EptLeaf(e, level) && EptPresent(e) {
        AboveLeaves(e, level);
        WithAddressFields(EptEntryToNpt(e, false), page(level - 1, Address(e)));
        BuiltMirrors(ept, npt, inUse, page, level - 1, Address(e));
      }
    }
  }

  // ----- a family of small tables: one page, reached through the same entry at every index -----

  function SampleEpt(leaf: bv64): Tables {
    (table: bv64, i: bv64) =>
      if table == 0 then 0x1007 else if table == 0x1000 then 0x2007 else if table == 0x2000 then 0x3007 else leaf
  }

  function SampleNpt(leaf: bv64): Tables {
    (table: bv64, i: bv64) => EptEntryToNpt(SampleEpt(leaf)(table, i), table !in {0, 0x1000, 0x2000})
  }

  lemma SampleEntries()
    ensures Address(0x1007) == 0x1000 && Address(0x2007) == 0x2000 && Address(0x3007) == 0x3000
    ensures EptPresent(0x1007) && EptPresent(0x2007) && EptPresent(0x3007)
    ensures !EptBit7(0x1007) && !EptBit7(0x2007) && !EptBit7(0x3007)
  {
  }

  lemma SampleTable(leaf: bv64, level: nat, table: bv64, entry: bv64)
    requires 2 <= level <= 4 && (forall i: bv64 :: SampleEpt(leaf)(table, i) == entry) && table in {0, 0x1000, 0x2000}
    requires EptPresent(entry) && !EptBit7(entry) && Mirrors(SampleEpt(leaf), SampleNpt(leaf), level - 1, Address(entry), Address(entry))
    ensures Mirrors(SampleEpt(leaf), SampleNpt(leaf), level, table, table)
  {
    EntryAddress(entry, false);
    hide EptEntryToNpt, Address, EptPresent, EptBit7, Flags;
  }

  lemma SampleMirrors(leaf: bv64)
    ensures Mirrors(SampleEpt(leaf), SampleNpt(leaf), 4, 0, 0)
  {
    hide EptEntryToNpt, Address, EptPresent, EptBit7, Flags;
    SampleEntries();
    assert Mirrors(SampleEpt(leaf), SampleNpt(leaf), 1, 0x3000, 0x3000) by {
      SampleLeaves(leaf);
    }
    hide Mirrors;
    SampleTable(leaf, 2, 0x2000, 0x3007);
    SampleTable(leaf, 3, 0x1000, 0x2007);
    SampleTable(leaf, 4, 0, 0x1007);
  }

  lemma SampleLeaves(leaf: bv64)
    ensures Mirrors(SampleEpt(leaf), SampleNpt(leaf), 1, 0x3000, 0x3000)
  {
    hide EptEntryToNpt, EptPresent, Flags;
    if !EptPresent(leaf) {
      EntryAbsent(leaf, true);
    }
  }

  /** A page that may be written but not read is misconfigured in EPT and stops the guest. After
      translation the guest can read and write it. */
  lemma WriteOnlyBecomesWritable(gpa: bv64)
    ensures var ept, npt := SampleEpt(0x5032), SampleNpt(0x5032);
      && Mirrors(ept, npt, 4, 0, 0)
      && EptWalk(ept, 0, 4, gpa, true, true, true) == EptMisconfig
      && NptWalk(npt, 0, 4, gpa, true, true, true) == NptPage(1, 0x5000, true, false, true, false, false, false)
  {
    SampleMirrors(0x5032);
    hide Mirrors, NptWalk, EptWalk, LaxWalk;
    NptWalkIsLax(SampleEpt(0x5032), SampleNpt(0x5032), 4, 0, 0, gpa, true, true);
    WriteOnlyMisconfigured(gpa);
    WriteOnlyLax(gpa);
  }

  lemma WriteOnlyMisconfigured(gpa: bv64)
    ensures EptWalk(SampleEpt(0x5032), 0, 4, gpa, true, true, true) == EptMisconfig
  {
    hide Index;
  }

  lemma WriteOnlyLax(gpa: bv64)
    ensures LaxWalk(SampleEpt(0x5032), 0, 4, gpa, true, true) == NptPage(1, 0x5000, true, false, true, false, false, false)
  {
    hide Index;
  }

  // ----- what the entry format cannot carry over -----

  /** The nested memory type under the power-on page attribute table: write-back or uncached. */
  function NptMemType(s: NptResult): bv64
    requires s.NptPage? && s.pcd == s.pwt
  {
    if s.pcd then 0 else 6
  }

  /** Of the pages that both walks find, exactly the UC and the WB ones keep their memory type. */
  lemma MemTypePreserved(ept: Tables, npt: Tables, root: bv64, root': bv64, gpa: bv64)
    requires Mirrors(ept, npt, 4, root, root') && EptWalk(ept, root, 4, gpa, true, true, true).EptPage?
    ensures var r := EptWalk(ept, root, 4, gpa, true, true, true);
            var s := NptWalk(npt, root', 4, gpa, true, true, true);
      s.NptPage? && s.pcd == s.pwt && (NptMemType(s) == r.memType <==> r.memType in {0, 6})
  {
    hide EptWalk, NptWalk, LaxWalk;
    WalkMeaning(ept, npt, root, root', gpa);
  }

  predicate ExecuteOnly(e: bv64) {
    EptExecute(e) && !EptRead(e) && !EptWrite(e)
  }

  /** Some entry on the way to the page of gpa satisfies the test. */
  function OnPath(t: Tables, table: bv64, level: nat, gpa: bv64, test: bv64 -> bool): bool
    requires 1 <= level <= 4
    decreases level
  {
    var e := t(table, Index(gpa, level));
    EptPresent(e) && (test(e) || (!EptLeaf(e, level) && OnPath(t, Address(e), level - 1, gpa, test)))
  }

  lemma Unreadable(e: bv64, level: nat)
    requires EptPresent(e) && !EptMisconfigured(e, level)
    ensures !EptRead(e) <==> ExecuteOnly(e)
  {
    PresentBits(e);
    hide EptPresent, EptRead, EptWrite, EptExecute, EptBit7, EptMemType, BelowPage, Address;
  }

  lemma PresentBits(e: bv64)
    ensures EptPresent(e) <==> EptRead(e) || EptWrite(e) || EptExecute(e)
  {
  }

  /** A page is readable iff no entry on the way to it is execute-only. */
  lemma {:induction false} ReadableExactly(t: Tables, table: bv64, level: nat, gpa: bv64,
                                           read: bool, write: bool, execute: bool)
    requires 1 <= level <= 4 && EptWalk(t, table, level, gpa, read, write, execute).EptPage?
    ensures EptWalk(t, table, level, gpa, read, write, execute).read
            <==> read && !OnPath(t, table, level, gpa, e => ExecuteOnly(e))
    decreases level
  {
    hide EptEntryToNpt, NptPresent, NptUser, NptWrite, NptNoExecute, NptBit7, NptBit8, EptPresent, EptBit7, EptMisconfigured;
    hide EptRead, EptWrite, EptExecute, EptMemType, NptPwt, NptPcd, BelowPage, Address, Flags, Index, PageFrame;
    hide Bit12, LargeReserved;
    hide ExecuteOnly;
    var e := t(table, Index(gpa, level));
    Unreadable(e, level);
    if !EptLeaf(e, level) {
      AboveLeaves(e, level);
      ReadableExactly(t, Address(e), level - 1, gpa, read && EptRead(e), write && EptWrite(e), execute && EptExecute(e));
    }
  }

  /** The NPT walk lets every page it finds be read. Read permission is lost exactly where an entry on the
      way to the page is execute-only. */
  lemma ReadPreserved(ept: Tables, npt: Tables, root: bv64, root': bv64, gpa: bv64)
    requires Mirrors(ept, npt, 4, root, root') && EptWalk(ept, root, 4, gpa, true, true, true).EptPage?
    ensures var s := NptWalk(npt, root', 4, gpa, true, true, true);
      && s.NptPage? && s.user
      && (s.user == EptWalk(ept, root, 4, gpa, true, true, true).read
          <==> !OnPath(ept, root, 4, gpa, e => ExecuteOnly(e)))
  {
    hide EptWalk, NptWalk, LaxWalk, OnPath;
    WalkMeaning(ept, npt, root, root', gpa);
    ReadableExactly(ept, root, 4, gpa, true, true, true);
  }

  /** An execute-only page becomes readable. */
  lemma ExecuteOnlyBecomesReadable()
    ensures var e: bv64 := 0x1034;
      && ExecuteOnly(e) && !EptMisconfigured(e, 1)
      && NptPresent(EptEntryToNpt(e, true)) && NptUser(EptEntryToNpt(e, true))
  {
  }

  // ----- the raw EPT tables, which the entry code falls back to, walked as NPT tables -----

  /** Bit 63, which EPT ignores and NPT takes for no-execute. */
  function Bit63(e: bv64): bool { e & 0x8000_0000_0000_0000 != 0 }

  /** The low two bits of the memory type, which NPT takes for PWT and PCD. */
  function TypeBit(memType: bv64, pcd: bool): bool {
    memType & (if pcd then 2 else 1) != 0
  }

  lemma RawRights(e: bv64)
    ensures NptPresent(e) == EptRead(e) && NptWrite(e) == EptWrite(e) && NptUser(e) == EptExecute(e)
    ensures NptNoExecute(e) == Bit63(e) && NptBit7(e) == EptBit7(e)
  {
  }

  lemma RawCaching(e: bv64)
    ensures NptPwt(e) == TypeBit(EptMemType(e), false) && NptPcd(e) == TypeBit(EptMemType(e), true)
  {
  }

  lemma RawReserved(e: bv64, level: nat)
    requires 1 <= level <= 4 && EptPresent(e) && !EptMisconfigured(e, level)
    ensures NptReserved(e, level) == (level == 4 && NptBit8(e)) && Maps(level, NptBit7(e)) == EptLeaf(e, level)
    ensures EptLeaf(e, level) ==> PatBit(e, level) == (level == 1 && EptBit7(e))
  {
    RawRights(e);
    hide EptPresent, EptBit7, NptBit7, NptBit8, EptMemType, EptRead, EptWrite, BelowPage, Address, Bit12, LargeReserved;
    if EptLeaf(e, level) {
      GoodLeaf(e, level);
    }
  }

  /** The result that a raw walk should have, from the EPT's result and the bits 63 on the way. */
  function AsRaw(r: EptResult, execute: bool): NptResult
    requires r.EptPage?
  {
    if !r.read then NptNotPresent
    else NptPage(r.level, r.frame, r.write, execute, r.execute, r.ignored7, TypeBit(r.memType, true), TypeBit(r.memType, false))
  }

  /** A root entry that EPT uses and NPT does not allow: EPT has no meaning for bit 8, which must be zero in
      the root table of NPT. */
  predicate RootFaults(e: bv64, level: nat) {
    level == 4 && EptRead(e) && NptBit8(e)
  }

  lemma RawLeaf(t: Tables, table: bv64, level: nat, gpa: bv64, write: bool, execute: bool, user: bool)
    requires 1 <= level <= 4 && EptWalk(t, table, level, gpa, true, write, user).EptPage?
    requires EptLeaf(t(table, Index(gpa, level)), level)
    ensures NptWalk(t, table, level, gpa, write, execute, user)
            == AsRaw(EptWalk(t, table, level, gpa, true, write, user), execute && !OnPath(t, table, level, gpa, e => Bit63(e)))
  {
    hide EptEntryToNpt, NptPresent, NptUser, NptWrite, NptNoExecute, NptBit7, NptBit8, EptPresent, EptBit7, EptMisconfigured;
    hide EptRead, EptWrite, EptExecute, EptMemType, NptPwt, NptPcd, BelowPage, Address, Flags, Index, PageFrame;
    hide Bit12, LargeReserved;
    hide Bit63, TypeBit, PatBit, NptReserved;
    var e := t(table, Index(gpa, level));
    RawRights(e);
    RawCaching(e);
    RawReserved(e, level);
  }

  lemma RawTable(t: Tables, table: bv64, level: nat, gpa: bv64, write: bool, execute: bool, user: bool)
    requires 2 <= level <= 4
    requires var e := t(table, Index(gpa, level)); EptPresent(e) && !EptMisconfigured(e, level) && !EptLeaf(e, level)
    ensures var e := t(table, Index(gpa, level));
            NptWalk(t, table, level, gpa, write, execute, user)
            == if !EptRead(e) then NptNotPresent
               else if RootFaults(e, level) then NptFault
               else NptWalk(t, Address(e), level - 1, gpa, write && EptWrite(e), execute && !Bit63(e), user && EptExecute(e))
  {
    hide EptEntryToNpt, NptPresent, NptUser, NptWrite, NptNoExecute, NptBit7, NptBit8, EptPresent, EptBit7, EptMisconfigured;
    hide EptRead, EptWrite, EptExecute, EptMemType, NptPwt, NptPcd, BelowPage, Address, Flags, Index, PageFrame;
    hide Bit12, LargeReserved;
    hide Bit63, PatBit, NptReserved;
    var e := t(table, Index(gpa, level));
    RawRights(e);
    RawReserved(e, level);
  }

  /** Walked as NPT, the EPT tables lead to the page that the EPT maps iff it is readable at every level and
      the root entry's bit 8 is clear; then with the EPT's write right, user access where the EPT grants execution, execution where no
      entry has bit 63 set, and the type bits as cache bits. */
  lemma {:induction false} RawWalk(t: Tables, table: bv64, level: nat, gpa: bv64,
                                   write: bool, execute: bool, user: bool)
    requires 1 <= level <= 4 && EptWalk(t, table, level, gpa, true, write, user).EptPage?
    ensures NptWalk(t, table, level, gpa, write, execute, user)
            == if RootFaults(t(table, Index(gpa, level)), level) then NptFault
               else AsRaw(EptWalk(t, table, level, gpa, true, write, user),
                          execute && !OnPath(t, table, level, gpa, e => Bit63(e)))
    decreases level
  {
    hide EptEntryToNpt, NptPresent, NptUser, NptWrite, NptNoExecute, NptBit7, NptBit8, EptPresent, EptBit7, EptMisconfigured;
    hide EptRead, EptWrite, EptExecute, EptMemType, NptPwt, NptPcd, BelowPage, Address, Flags, Index, PageFrame;
    hide Bit12, LargeReserved;
    hide Bit63, NptWalk, NptReserved, RootFaults;
    var e := t(table, Index(gpa, level));
    OnlyRootFaults(e, level);
    if level > 1 {
      OnlyRootFaults(t(Address(e), Index(gpa, level - 1)), level - 1);
    }
    if EptLeaf(e, level) {
      RawLeaf(t, table, level, gpa, write, execute, user);
    } else {
      AboveLeaves(e, level);
      RawTable(t, table, level, gpa, write, execute, user);
      if EptRead(e) {
        RawWalk(t, Address(e), level - 1, gpa, write && EptWrite(e), execute && !Bit63(e), user && EptExecute(e));
      } else {
        ReadLost(t, Address(e), level - 1, gpa, write && EptWrite(e), user && EptExecute(e));
      }
    }
  }

  lemma OnlyRootFaults(e: bv64, level: nat)
    ensures RootFaults(e, level) ==> level == 4 && EptRead(e)
  {
  }

  lemma {:induction false} ReadLost(t: Tables, table: bv64, level: nat, gpa: bv64, write: bool, execute: bool)
    requires 1 <= level <= 4 && EptWalk(t, table, level, gpa, false, write, execute).EptPage?
    ensures !EptWalk(t, table, level, gpa, false, write, execute).read
    decreases level
  {
    ReadableExactly(t, table, level, gpa, false, write, execute);
  }

  /** So the raw tables do not always fault: a page that is readable, writable and executable throughout
      is found, for user accesses, and can be written and executed. */
  lemma RawTablesCanMap(gpa: bv64)
    ensures NptWalk(SampleEpt(0x5037), 0, 4, gpa, true, true, true) == NptPage(1, 0x5000, true, true, true, false, true, false)
  {
  }
}
