/** The guest world switch of svm_switch.S, run on a small register and memory machine. */
module WorldSwitch {
  import opened Bytes

  /** A 64-bit register or memory word. */
  type Word = x: int | 0 <= x < 0x1_0000_0000_0000_0000 witness 0

  /** The guest registers that the VMCB does not hold, in the order of the GuestGprs block. */
  datatype Gprs = Gprs(rbx: Word, rcx: Word, rdx: Word, rbp: Word, rsi: Word, rdi: Word, r8: Word, r9: Word,
                       r10: Word, r11: Word, r12: Word, r13: Word, r14: Word, r15: Word)

  /** One stay in the guest, from VMRUN to the exit: any effect on the VMCB page and on its registers. */
  type Guest = (Page, Gprs) -> (Page, Gprs)

  /** Memory by the addresses of its 8-byte words. Every access of the switch is to a word of the
      block or of the stack frame, and the two do not overlap, so these words never overlap in part;
      of a word that overlaps one of them in part nothing is said after a store. */
  type Memory = map<int, Word>

  const BLOCK_WORDS: nat := 14
  const PUSHES: nat := 8

  predicate BlockMapped(mem: Memory, g: Word) {
    && g + 0x00 in mem && g + 0x08 in mem && g + 0x10 in mem && g + 0x18 in mem && g + 0x20 in mem
    && g + 0x28 in mem && g + 0x30 in mem && g + 0x38 in mem && g + 0x40 in mem && g + 0x48 in mem
    && g + 0x50 in mem && g + 0x58 in mem && g + 0x60 in mem && g + 0x68 in mem
  }

  predicate StackMapped(mem: Memory, rsp: Word) {
    && 8 * PUSHES <= rsp
    && rsp - 8 in mem && rsp - 16 in mem && rsp - 24 in mem && rsp - 32 in mem
    && rsp - 40 in mem && rsp - 48 in mem && rsp - 56 in mem && rsp - 64 in mem
  }

  /** The word at a has a byte in common with the block. */
  predicate InBlock(a: int, g: Word) {
    g < a + 8 && a < g + 8 * BLOCK_WORDS
  }

  /** The word at a has a byte in common with the stack frame. */
  predicate InStack(a: int, rsp: Word) {
    rsp - 8 * PUSHES < a + 8 && a < rsp
  }

  /** The GuestGprs block at address g. */
  function Block(mem: Memory, g: Word): Gprs
    requires BlockMapped(mem, g)
  {
    Gprs(mem[g + 0x00], mem[g + 0x08], mem[g + 0x10], mem[g + 0x18], mem[g + 0x20], mem[g + 0x28],
         mem[g + 0x30], mem[g + 0x38], mem[g + 0x40], mem[g + 0x48], mem[g + 0x50], mem[g + 0x58],
         mem[g + 0x60], mem[g + 0x68])
  }

  // ----- words stored upwards from a block address, and downwards from a stack pointer -----

  function Words(regs: Gprs): seq<Word> {
    [regs.rbx, regs.rcx, regs.rdx, regs.rbp, regs.rsi, regs.rdi, regs.r8, regs.r9,
     regs.r10, regs.r11, regs.r12, regs.r13, regs.r14, regs.r15]
  }

  /** The address of the k-th word of a block that starts at base, or of the k-th push below base. */
  function At(base: int, down: bool, k: nat): int {
    if down then base - 8 * k - 8 else base + 8 * k
  }

  ghost function PutWords(mem: Memory, base: int, down: bool, s: seq<Word>): Memory {
    if s == [] then mem
    else PutWords(mem, base, down, s[..|s| - 1])[At(base, down, |s| - 1) := s[|s| - 1]]
  }

  lemma {:induction false} WordAt(mem: Memory, base: int, down: bool, s: seq<Word>, k: nat)
    requires k < |s|
    ensures At(base, down, k) in PutWords(mem, base, down, s)
    ensures PutWords(mem, base, down, s)[At(base, down, k)] == s[k]
  {
    if k < |s| - 1 {
      WordAt(mem, base, down, s[..|s| - 1], k);
    }
  }

  lemma {:induction false} WordElsewhere(mem: Memory, base: int, down: bool, s: seq<Word>, a: int)
    requires a in mem && forall k: nat :: k < |s| ==> a != At(base, down, k)
    ensures a in PutWords(mem, base, down, s)
    ensures PutWords(mem, base, down, s)[a] == mem[a]
  {
    if s != [] {
      WordElsewhere(mem, base, down, s[..|s| - 1], a);
    }
  }

  lemma {:induction false} WordKeys(mem: Memory, base: int, down: bool, s: seq<Word>)
    requires forall k: nat :: k < |s| ==> At(base, down, k) in mem
    ensures PutWords(mem, base, down, s).Keys == mem.Keys
  {
    if s != [] {
      WordKeys(mem, base, down, s[..|s| - 1]);
    }
  }

  /** Storing the registers makes the block hold exactly them. */
  lemma BlockStored(mem: Memory, g: Word, regs: Gprs)
    requires BlockMapped(mem, g)
    ensures var mem' := PutWords(mem, g, false, Words(regs));
      && BlockMapped(mem', g) && Block(mem', g) == regs && mem'.Keys == mem.Keys
      && (forall a :: a in mem && !InBlock(a, g) ==> mem'[a] == mem[a])
  {
    hide PutWords;
    var s := Words(regs);
    var mem' := PutWords(mem, g, false, s);
    forall k: nat | k < 14
      ensures At(g, false, k) in mem
    {
    }
    WordKeys(mem, g, false, s);
    forall k: nat | k < 14
      ensures g + 8 * k in mem' && mem'[g + 8 * k] == s[k]
    {
      WordAt(mem, g, false, s, k);
    }
    assert mem'[g + 8 * 0] == s[0] && mem'[g + 8 * 1] == s[1] && mem'[g + 8 * 2] == s[2];
    assert mem'[g + 8 * 3] == s[3] && mem'[g + 8 * 4] == s[4] && mem'[g + 8 * 5] == s[5];
    assert mem'[g + 8 * 6] == s[6] && mem'[g + 8 * 7] == s[7] && mem'[g + 8 * 8] == s[8];
    assert mem'[g + 8 * 9] == s[9] && mem'[g + 8 * 10] == s[10] && mem'[g + 8 * 11] == s[11];
    assert mem'[g + 8 * 12] == s[12] && mem'[g + 8 * 13] == s[13];
    forall a | a in mem && !InBlock(a, g)
      ensures mem'[a] == mem[a]
    {
      WordElsewhere(mem, g, false, s, a);
    }
  }

  /** Pushing leaves the pushed words readable and everything outside the frame alone. */
  lemma FramePushed(mem: Memory, sp: Word, s: seq<Word>)
    requires StackMapped(mem, sp) && |s| == PUSHES
    ensures var mem' := PutWords(mem, sp, true, s);
      && mem'.Keys == mem.Keys
      && mem'[sp - 8] == s[0] && mem'[sp - 16] == s[1] && mem'[sp - 24] == s[2] && mem'[sp - 32] == s[3]
      && mem'[sp - 40] == s[4] && mem'[sp - 48] == s[5] && mem'[sp - 56] == s[6] && mem'[sp - 64] == s[7]
      && (forall a :: a in mem && !InStack(a, sp) ==> mem'[a] == mem[a])
  {
    hide PutWords;
    forall k: nat | k < PUSHES
      ensures At(sp, true, k) in mem
    {
    }
    WordKeys(mem, sp, true, s);
    var mem' := PutWords(mem, sp, true, s);
    forall k: nat | k < PUSHES
      ensures mem'[sp - 8 * k - 8] == s[k]
    {
      WordAt(mem, sp, true, s, k);
    }
    assert mem'[sp - 8 * 0 - 8] == s[0] && mem'[sp - 8 * 1 - 8] == s[1] && mem'[sp - 8 * 2 - 8] == s[2];
    assert mem'[sp - 8 * 3 - 8] == s[3] && mem'[sp - 8 * 4 - 8] == s[4] && mem'[sp - 8 * 5 - 8] == s[5];
    assert mem'[sp - 8 * 6 - 8] == s[6] && mem'[sp - 8 * 7 - 8] == s[7];
    forall a | a in mem && !InStack(a, sp)
      ensures PutWords(mem, sp, true, s)[a] == mem[a]
    {
      WordElsewhere(mem, sp, true, s, a);
    }
  }

  lemma NothingPut(mem: Memory, base: int, down: bool, s: seq<Word>)
    ensures PutWords(mem, base, down, s[..0]) == mem
  {
  }

  lemma WordsOf(r: Gprs)
    ensures var w := Words(r);
      && |w| == BLOCK_WORDS && w[0] == r.rbx && w[1] == r.rcx && w[2] == r.rdx && w[3] == r.rbp && w[4] == r.rsi
      && w[5] == r.rdi && w[6] == r.r8 && w[7] == r.r9 && w[8] == r.r10 && w[9] == r.r11 && w[10] == r.r12
      && w[11] == r.r13 && w[12] == r.r14 && w[13] == r.r15
  {
  }

  lemma SameBlock(m: Memory, m': Memory, g: Word)
    requires BlockMapped(m, g) && m'.Keys == m.Keys
    requires forall a :: a in m && g <= a <= g + 8 * (BLOCK_WORDS - 1) ==> m'[a] == m[a]
    ensures BlockMapped(m', g) && Block(m', g) == Block(m, g)
  {
  }

  lemma CopyBytes(page: seq<bv8>, bytes: seq<bv8>)
    requires |page| == |bytes| && forall i :: 0 <= i < |page| ==> page[i] == bytes[i]
    ensures page == bytes
  {
  }

  class Cpu {
    var rax: Word
    var rsp: Word
    var r: Gprs     // the other fourteen
    var mem: Memory

    /** A call of the switch is possible: room on the stack, and a block outside it. */
    ghost predicate Ready(g: Word)
      reads this
    {
      && StackMapped(mem, rsp) && BlockMapped(mem, g)
      && (g + 8 * BLOCK_WORDS <= rsp - 8 * PUSHES || rsp <= g)
    }

    /** A push, the k-th since the frame at sp was begun. */
    method Push(v: Word, ghost m: Memory, ghost sp: Word, ghost s: seq<Word>, ghost k: nat)
      requires k < |s| && s[k] == v && rsp == sp - 8 * k && 8 * |s| <= sp
      requires mem == PutWords(m, sp, true, s[..k])
      modifies this`rsp, this`mem
      ensures rsp == sp - 8 * (k + 1) && mem == PutWords(m, sp, true, s[..k + 1])
    {
      rsp := rsp - 8;
      mem := mem[rsp := v];
      assert s[..k + 1][..k] == s[..k];
    }

    method Pop() returns (v: Word)
      requires rsp in mem && rsp + 8 < 0x1_0000_0000_0000_0000
      modifies this`rsp
      ensures rsp == old(rsp) + 8 && v == mem[old(rsp)]
    {
      v := mem[rsp];
      rsp := rsp + 8;
    }

    /** Preserves the callee-saved registers, then stashes the two arguments. */
    method SaveRegisters()
      requires StackMapped(mem, rsp)
      modifies this`rsp, this`mem
      ensures rsp == old(rsp) - 64
      ensures mem == PutWords(old(mem), old(rsp), true, [r.rbp, r.rbx, r.r12, r.r13, r.r14, r.r15, r.rdi, r.rsi])
    {
      hide PutWords;
      ghost var m, sp, s := mem, rsp, [r.rbp, r.rbx, r.r12, r.r13, r.r14, r.r15, r.rdi, r.rsi];
      NothingPut(m, sp, true, s);
      Push(r.rbp, m, sp, s, 0);
      Push(r.rbx, m, sp, s, 1);
      Push(r.r12, m, sp, s, 2);
      Push(r.r13, m, sp, s, 3);
      Push(r.r14, m, sp, s, 4);
      Push(r.r15, m, sp, s, 5);
      Push(r.rdi, m, sp, s, 6);
      Push(r.rsi, m, sp, s, 7);
      assert s[..8] == s;
    }

    /** Loads the guest registers from the block that RSI points at. */
    method LoadGuest()
      requires BlockMapped(mem, r.rsi)
      modifies this`rax, this`r
      ensures r == Block(mem, old(r.rsi))
    {
      rax := r.rsi;
      r := r.(rbx := mem[rax + 0x00]);
      r := r.(rcx := mem[rax + 0x08]);
      r := r.(rdx := mem[rax + 0x10]);
      r := r.(rbp := mem[rax + 0x18]);
      r := r.(rsi := mem[rax + 0x20]);
      r := r.(rdi := mem[rax + 0x28]);
      r := r.(r8 := mem[rax + 0x30]);
      r := r.(r9 := mem[rax + 0x38]);
      r := r.(r10 := mem[rax + 0x40]);
      r := r.(r11 := mem[rax + 0x48]);
      r := r.(r12 := mem[rax + 0x50]);
      r := r.(r13 := mem[rax + 0x58]);
      r := r.(r14 := mem[rax + 0x60]);
      r := r.(r15 := mem[rax + 0x68]);
    }

    /** VMRUN on the page whose physical address is in RAX. The exit restores the host's RAX and RSP
        and leaves the guest's values in all other general registers. */
    method Vmrun(page: array<bv8>, ghost vmcbPA: Word, guest: Guest)
      requires page.Length == PAGE_SIZE && rax == vmcbPA
      modifies page, this`r
      ensures (page[..], r) == guest(old(page[..]), old(r))
    {
      var after := guest(page[..], r);
      var bytes: Page := after.0;
      forall i | 0 <= i < PAGE_SIZE {
        page[i] := bytes[i];
      }
      r := after.1;
      CopyBytes(page[..], bytes);
    }

    method StoreWord(v: Word, k: nat, ghost base: Memory)
      requires k < BLOCK_WORDS && Words(r)[k] == v && |Words(r)| == BLOCK_WORDS
      requires mem == PutWords(base, rax, false, Words(r)[..k])
      modifies this`mem
      ensures mem == PutWords(base, rax, false, Words(r)[..k + 1])
    {
      mem := mem[rax + 8 * k := v];
      assert Words(r)[..k + 1][..k] == Words(r)[..k];
    }

    /** Stores the guest registers into the block that RAX points at. */
    method StoreGuest()
      requires BlockMapped(mem, rax)
      modifies this`mem
      ensures mem == PutWords(old(mem), rax, false, Words(r))
    {
      hide PutWords, Words;
      ghost var base := mem;
      WordsOf(r);
      NothingPut(mem, rax, false, Words(r));
      StoreWord(r.rbx, 0, base);
      StoreWord(r.rcx, 1, base);
      StoreWord(r.rdx, 2, base);
      StoreWord(r.rbp, 3, base);
      StoreWord(r.rsi, 4, base);
      StoreWord(r.rdi, 5, base);
      StoreWord(r.r8, 6, base);
      StoreWord(r.r9, 7, base);
      StoreWord(r.r10, 8, base);
      StoreWord(r.r11, 9, base);
      StoreWord(r.r12, 10, base);
      StoreWord(r.r13, 11, base);
      StoreWord(r.r14, 12, base);
      StoreWord(r.r15, 13, base);
      assert Words(r)[..14] == Words(r);
    }

    /** Pops the callee-saved registers in reverse order. */
    method RestoreRegisters()
      requires rsp in mem && rsp + 8 in mem && rsp + 16 in mem && rsp + 24 in mem && rsp + 32 in mem && rsp + 40 in mem
      requires rsp + 48 < 0x1_0000_0000_0000_0000
      modifies this`rsp, this`r
      ensures rsp == old(rsp) + 48
      ensures r.r15 == mem[old(rsp)] && r.r14 == mem[old(rsp) + 8] && r.r13 == mem[old(rsp) + 16]
      ensures r.r12 == mem[old(rsp) + 24] && r.rbx == mem[old(rsp) + 32] && r.rbp == mem[old(rsp) + 40]
    {
      var v := Pop();
      r := r.(r15 := v);
      v := Pop();
      r := r.(r14 := v);
      v := Pop();
      r := r.(r13 := v);
      v := Pop();
      r := r.(r12 := v);
      v := Pop();
      r := r.(rbx := v);
      v := Pop();
      r := r.(rbp := v);
    }

    /** Between the pushes and the pops: guest registers in, VMRUN, guest registers out. */
    method RunGuest(page: array<bv8>, ghost g: Word, ghost vmcbPA: Word, guest: Guest)
      requires page.Length == PAGE_SIZE && BlockMapped(mem, g) && r.rsi == g
      requires rsp in mem && mem[rsp] == g && rsp + 8 in mem && mem[rsp + 8] == vmcbPA
      requires !InBlock(rsp, g) && !InBlock(rsp + 8, g)
      modifies page, this`rax, this`r, this`mem
      ensures BlockMapped(mem, g) && (page[..], Block(mem, g)) == guest(old(page[..]), Block(old(mem), g))
      ensures mem.Keys == old(mem.Keys)
      ensures forall a :: a in mem && !InBlock(a, g) ==> mem[a] == old(mem)[a]
    {
      hide PutWords, Words, Block, BlockMapped;
      LoadGuest();
      rax := mem[rsp + 8];
      Vmrun(page, vmcbPA, guest);
      rax := mem[rsp + 0];
      BlockStored(mem, g, r);
      StoreGuest();
    }

    /** svmWorldSwitch(vmcb_pa in RDI, g in RSI), up to its RET: the guest runs once, on the page and on
        exactly the registers of the block; the block then holds exactly the registers it left, and the
        caller finds its callee-saved registers, its stack pointer and all other memory unchanged. */
    method SvmWorldSwitch(page: array<bv8>, guest: Guest)
      requires page.Length == PAGE_SIZE && Ready(r.rsi)
      modifies page, this
      ensures Ready(old(r.rsi))
      ensures (page[..], Block(mem, old(r.rsi))) == guest(old(page[..]), Block(old(mem), old(r.rsi)))
      ensures rsp == old(rsp) && r.rbp == old(r.rbp) && r.rbx == old(r.rbx)
      ensures r.r12 == old(r.r12) && r.r13 == old(r.r13) && r.r14 == old(r.r14) && r.r15 == old(r.r15)
      ensures mem.Keys == old(mem.Keys)
      ensures forall a :: a in mem && !InBlock(a, old(r.rsi)) && !InStack(a, rsp) ==> mem[a] == old(mem)[a]
    {
      hide PutWords, Words, Block;
      ghost var m, sp, g, vmcbPA := mem, rsp, r.rsi, r.rdi;
      ghost var s := [r.rbp, r.rbx, r.r12, r.r13, r.r14, r.r15, r.rdi, r.rsi];
      FramePushed(m, sp, s);
      SaveRegisters();
      ghost var pushed := mem;
      SameBlock(m, pushed, g);
      RunGuest(page, g, vmcbPA, guest);
      rsp := rsp + 16;
      RestoreRegisters();
    }
  }
}
