/** Little-endian byte storage: the 4-KiB page that the VMCB accessors of SVM.h
    read and write, addressed by byte offset and access width. */
module Bytes {

  const PAGE_SIZE: nat := 0x1000

  type Page = p: seq<bv8> | |p| == PAGE_SIZE witness seq(PAGE_SIZE, _ => 0)

  datatype Option<+T> = None | Some(value: T)

  function Low32(v: bv64): bv32 {
    (v & 0xFFFF_FFFF) as bv32
  }

  function Wide16(v: bv16): bv64 {
    v as bv64
  }

  function Wide32(v: bv32): bv64 {
    v as bv64
  }

  function Low16(v: bv64): bv16 {
    (v & 0xFFFF) as bv16
  }

  function LowByte(v: bv64): bv8 {
    (v & 0xFF) as bv8
  }

  function UpperBytes(v: bv64): bv64 {
    v >> 8
  }

  function Join(low: bv8, upper: bv64): bv64 {
    (low as bv64) | (upper << 8)
  }

  /** The w low bytes of v, least significant first. */
  function LeBytes(v: bv64, w: nat): (s: seq<bv8>)
    ensures |s| == w
  {
    if w == 0 then [] else [LowByte(v)] + LeBytes(UpperBytes(v), w - 1)
  }

  function LeValue(s: seq<bv8>): bv64 {
    if s == [] then 0 else Join(s[0], LeValue(s[1..]))
  }

  /** All ones in the w low bytes. */
  function Mask(w: nat): bv64 {
    if w == 0 then 0 else Join(0xFF, Mask(w - 1))
  }

  /** The w low bytes of v, for the access widths in use. */
  function Keep(w: nat, v: bv64): bv64 {
    match w
    case 1 => v & 0xFF
    case 2 => v & 0xFFFF
    case 4 => v & 0xFFFF_FFFF
    case _ => v
  }

  function GetAt(p: seq<bv8>, off: nat, w: nat): bv64
    requires off + w <= |p|
  {
    LeValue(p[off..off + w])
  }

  function SetAt(p: seq<bv8>, off: nat, w: nat, v: bv64): (q: seq<bv8>)
    requires off + w <= |p|
    ensures |q| == |p|
    ensures forall k :: 0 <= k < |p| && !(off <= k < off + w) ==> q[k] == p[k]
  {
    p[..off] + LeBytes(v, w) + p[off + w..]
  }

  lemma MaskValues()
    ensures Mask(2) == 0xFFFF && Mask(4) == 0xFFFF_FFFF && Mask(8) == 0xFFFF_FFFF_FFFF_FFFF
    ensures Mask(1) == 0xFF && Mask(3) == 0xFF_FFFF && Mask(5) == 0xFF_FFFF_FFFF
    ensures Mask(6) == 0xFFFF_FFFF_FFFF && Mask(7) == 0xFF_FFFF_FFFF_FFFF
  {
    assert Mask(1) == 0xFF;
    assert Mask(2) == 0xFFFF;
    assert Mask(3) == 0xFF_FFFF;
    assert Mask(4) == 0xFFFF_FFFF;
    assert Mask(5) == 0xFF_FFFF_FFFF;
    assert Mask(6) == 0xFFFF_FFFF_FFFF;
    assert Mask(7) == 0xFF_FFFF_FFFF_FFFF;
  }

  lemma KeepIsMask(w: nat, v: bv64)
    requires w == 1 || w == 2 || w == 4 || w == 8
    ensures Keep(w, v) == v & Mask(w)
  {
    hide Mask;
    MaskValues();
    if w == 1 {
    } else if w == 2 {
    } else if w == 4 {
    } else {
      AllBits(v);
      assert Mask(w) == 0xFFFF_FFFF_FFFF_FFFF;
      assert Keep(w, v) == v;
    }
  }

  lemma AllBits(v: bv64)
    ensures v & 0xFFFF_FFFF_FFFF_FFFF == v
  {
  }

  /** Byte k of v, counted from the least significant. */
  function ByteOf(v: bv64, k: nat): bv8 {
    match k
    case 0 => (v & 0xFF) as bv8
    case 1 => ((v >> 8) & 0xFF) as bv8
    case 2 => ((v >> 16) & 0xFF) as bv8
    case 3 => ((v >> 24) & 0xFF) as bv8
    case 4 => ((v >> 32) & 0xFF) as bv8
    case 5 => ((v >> 40) & 0xFF) as bv8
    case 6 => ((v >> 48) & 0xFF) as bv8
    case 7 => ((v >> 56) & 0xFF) as bv8
    case _ => 0
  }

  lemma NextLowByte(v: bv64, k: nat)
    requires k < 3
    ensures ByteOf(UpperBytes(v), k) == ByteOf(v, k + 1)
  {
  }

  lemma NextHighByte(v: bv64, k: nat)
    requires 3 <= k < 7
    ensures ByteOf(UpperBytes(v), k) == ByteOf(v, k + 1)
  {
  }

  lemma FirstByte(v: bv64)
    ensures LowByte(v) == ByteOf(v, 0)
  {
  }

  /** A stored value lies in memory with its least significant byte first. */
  lemma {:induction false} LittleEndian(v: bv64, w: nat, k: nat)
    requires k < w <= 8
    ensures LeBytes(v, w)[k] == ByteOf(v, k)
    decreases k
  {
    hide LowByte, UpperBytes, ByteOf;
    if k == 0 {
      FirstByte(v);
    } else {
      LittleEndian(UpperBytes(v), w - 1, k - 1);
      if k < 4 {
        NextLowByte(v, k - 1);
      } else {
        NextHighByte(v, k - 1);
      }
    }
  }

  /** So a load gives the bytes at its address, in that order. */
  lemma LoadedBytes(p: seq<bv8>, off: nat, w: nat, k: nat)
    requires off + w <= |p| && k < w <= 8
    ensures ByteOf(GetAt(p, off, w), k) == p[off + k]
  {
    BytesOfValue(p[off..off + w]);
    LittleEndian(GetAt(p, off, w), w, k);
    assert p[off..off + w][k] == p[off + k];
  }

  /** The conversions between words keep the low bits and add none. */
  lemma Conversions(v: bv64, r: bv32, a: bv16)
    ensures Wide32(Low32(v)) == v & 0xFFFF_FFFF && Wide16(Low16(v)) == v & 0xFFFF
    ensures Low32(Wide32(r)) == r && Low16(Wide16(a)) == a
  {
  }

  lemma LowOfWide(r: bv32)
    ensures Low32(Wide32(r)) == r
  {
  }

  lemma JoinMasked(v: bv64, m: bv64)
    ensures Join(LowByte(v), UpperBytes(v) & m) == v & Join(0xFF, m)
  {
  }

  lemma JoinSplits(low: bv8, upper: bv64)
    requires upper & 0xFF_FFFF_FFFF_FFFF == upper
    ensures LowByte(Join(low, upper)) == low && UpperBytes(Join(low, upper)) == upper
  {
  }

  /** Storing w bytes and loading them back truncates to w bytes. */
  lemma {:induction false} ValueOfBytes(v: bv64, w: nat)
    ensures LeValue(LeBytes(v, w)) == v & Mask(w)
    decreases w
  {
    hide LowByte, UpperBytes, Join;
    if w == 0 {
      assert v & 0 == 0;
    } else {
      ValueOfBytes(UpperBytes(v), w - 1);
      assert LeBytes(v, w)[1..] == LeBytes(UpperBytes(v), w - 1);
      JoinMasked(v, Mask(w - 1));
    }
  }

  lemma NarrowMask(x: bv64, m: bv64)
    requires m & 0xFF_FFFF_FFFF_FFFF == m
    ensures (x & m) & 0xFF_FFFF_FFFF_FFFF == x & m
  {
  }

  lemma JoinKeepsMask(low: bv8, x: bv64, m: bv64)
    requires x & m == x
    ensures Join(low, x) & Join(0xFF, m) == Join(low, x)
  {
  }

  /** A value of at most w bytes has no bit above them. */
  lemma {:induction false} ValueFits(s: seq<bv8>)
    ensures LeValue(s) & Mask(|s|) == LeValue(s)
  {
    hide Join;
    if s == [] {
      assert 0 as bv64 & Mask(0) == 0;
    } else {
      ValueFits(s[1..]);
      JoinKeepsMask(s[0], LeValue(s[1..]), Mask(|s| - 1));
    }
  }

  lemma SevenByteMask(n: nat)
    requires n <= 7
    ensures Mask(n) & 0xFF_FFFF_FFFF_FFFF == Mask(n)
  {
    MaskValues();
    assert Mask(0) == 0;
  }

  /** Loading w <= 8 bytes and storing them back restores the bytes. */
  lemma {:induction false} BytesOfValue(s: seq<bv8>)
    requires |s| <= 8
    ensures LeBytes(LeValue(s), |s|) == s
  {
    hide LowByte, UpperBytes, Join;
    if s != [] {
      var rest := s[1..];
      BytesOfValue(rest);
      ValueFits(rest);
      SevenByteMask(|rest|);
      NarrowMask(LeValue(rest), Mask(|rest|));
      JoinSplits(s[0], LeValue(rest));
      assert s == [s[0]] + rest;
    }
  }

  lemma GetSetSame(p: seq<bv8>, off: nat, w: nat, v: bv64)
    requires off + w <= |p|
    ensures GetAt(SetAt(p, off, w, v), off, w) == v & Mask(w)
  {
    ValueOfBytes(v, w);
    assert SetAt(p, off, w, v)[off..off + w] == LeBytes(v, w);
  }

  lemma GetSetDisjoint(p: seq<bv8>, off: nat, w: nat, v: bv64, off': nat, w': nat)
    requires off + w <= |p| && off' + w' <= |p|
    requires off + w <= off' || off' + w' <= off
    ensures GetAt(SetAt(p, off, w, v), off', w') == GetAt(p, off', w')
  {
    assert SetAt(p, off, w, v)[off'..off' + w'] == p[off'..off' + w'];
  }

  lemma GetAtFits(p: seq<bv8>, off: nat, w: nat)
    requires off + w <= |p|
    ensures GetAt(p, off, w) & Mask(w) == GetAt(p, off, w)
  {
    ValueFits(p[off..off + w]);
  }

  lemma LoadIs(p: seq<bv8>, off: nat, bytes: seq<bv8>)
    requires off + |bytes| <= |p|
    requires forall k: nat :: off <= k < off + |bytes| ==> p[k] == bytes[k - off]
    ensures GetAt(p, off, |bytes|) == LeValue(bytes)
  {
    hide LeValue;
    assert p[off..off + |bytes|] == bytes;
  }

  /** Equal loads mean equal bytes. */
  lemma EqualLoads(p: seq<bv8>, q: seq<bv8>, off: nat, w: nat)
    requires |p| == |q| && off + w <= |p| && w <= 8
    requires GetAt(p, off, w) == GetAt(q, off, w)
    ensures p[off..off + w] == q[off..off + w]
  {
    BytesOfValue(p[off..off + w]);
    BytesOfValue(q[off..off + w]);
  }
}
