/**
 A string as a row of bits: bit 0 is the most significant bit of the first byte.
 */
module Bits {

  function Mask(i: nat): bv8
    requires i < 8
  {
    match i
    case 0 => 0x80
    case 1 => 0x40
    case 2 => 0x20
    case 3 => 0x10
    case 4 => 0x08
    case 5 => 0x04
    case 6 => 0x02
    case 7 => 0x01
  }

  predicate Hit(b: bv8, mask: bv8) { b & mask != 0 }

  predicate BitOf(b: bv8, i: nat)
    requires i < 8
  {
    Hit(b, Mask(i))
  }

  predicate BitAt(s: seq<bv8>, p: nat)
    requires p < 8 * |s|
  {
    BitOf(s[p / 8], p % 8)
  }

  function One(b: bool): nat { if b then 1 else 0 }

  // ---------------------------------------------------------------------------
  // Counting
  // ---------------------------------------------------------------------------

  /** How many bits are set from one position up to another. */
  function OnesIn(s: seq<bv8>, lo: nat, hi: nat): nat
    requires lo <= hi <= 8 * |s|
    decreases hi
  {
    if lo == hi then 0 else OnesIn(s, lo, hi - 1) + One(BitAt(s, hi - 1))
  }

  /** How many of the first i bits of a byte are set. */
  function OnesBefore(b: bv8, i: nat): (n: nat)
    requires i <= 8
    ensures n <= i
  {
    if i == 0 then 0 else OnesBefore(b, i - 1) + One(BitOf(b, i - 1))
  }

  function ByteOnes(b: bv8): (n: nat)
    ensures n <= 8
  {
    OnesBefore(b, 8)
  }

  lemma NoOnes(s: seq<bv8>, lo: nat)
    requires lo <= 8 * |s|
    ensures OnesIn(s, lo, lo) == 0
  {
  }

  lemma {:induction false} OnesSplit(s: seq<bv8>, a: nat, b: nat, c: nat)
    requires a <= b <= c <= 8 * |s|
    ensures OnesIn(s, a, c) == OnesIn(s, a, b) + OnesIn(s, b, c)
    decreases c
  {
    hide BitAt;
    if b < c {
      OnesSplit(s, a, b, c - 1);
    }
  }

  /** The bits of one byte. */
  lemma {:induction false} OnesOfByte(s: seq<bv8>, k: nat, i: nat)
    requires k < |s| && i <= 8
    ensures OnesIn(s, 8 * k, 8 * k + i) == OnesBefore(s[k], i)
    decreases i
  {
    hide BitOf;
    if i > 0 {
      OnesOfByte(s, k, i - 1);
      assert (8 * k + i - 1) / 8 == k && (8 * k + i - 1) % 8 == i - 1;
    }
  }

  lemma {:induction false} OnesMoreFrom(s: seq<bv8>, k: nat, j: nat)
    requires k <= j < |s|
    ensures OnesIn(s, 8 * k, 8 * (j + 1)) == OnesIn(s, 8 * k, 8 * j) + ByteOnes(s[j])
  {
    hide OnesIn;
    OnesSplit(s, 8 * k, 8 * j, 8 * (j + 1));
    OnesOfByte(s, j, 8);
  }

  lemma BytesOver(k: nat, p: nat)
    ensures (8 * k + p) / 8 == k + p / 8 && (8 * k + p) % 8 == p % 8
  {
  }

  lemma {:induction false} BitShift(s: seq<bv8>, k: nat, n: nat, p: nat)
    requires k + n <= |s| && p < 8 * n
    ensures BitAt(s[k..k + n], p) == BitAt(s, 8 * k + p)
  {
    BytesOver(k, p);
    assert s[k..k + n][p / 8] == s[k + p / 8];
  }

  /** Counting in a part of a string, with positions shifted. */
  lemma {:induction false} OnesShift(s: seq<bv8>, k: nat, n: nat, lo: nat, hi: nat)
    requires k + n <= |s| && lo <= hi <= 8 * n
    ensures OnesIn(s[k..k + n], lo, hi) == OnesIn(s, 8 * k + lo, 8 * k + hi)
    decreases hi
  {
    hide BitAt;
    if lo < hi {
      OnesShift(s, k, n, lo, hi - 1);
      BitShift(s, k, n, hi - 1);
    }
  }

  // ---------------------------------------------------------------------------
  // Ranges and the masks for their edges
  // ---------------------------------------------------------------------------

  /** Negative positions count from the end; positions outside are moved inside. */
  function ClampStart(start: int, total: nat): (r: nat) {
    var s := if start < 0 then total + start else start;
    if s < 0 then 0 else s
  }

  function ClampEnd(end: int, total: nat): (r: int)
    ensures -1 <= r < total
  {
    var e := if end < 0 then total + end else end;
    var e' := if e < 0 then 0 else e;
    if e' >= total then total - 1 else e'
  }

  method ClampRange(start0: int, end0: int, total: nat) returns (start: nat, end: int)
    ensures start == ClampStart(start0, total) && end == ClampEnd(end0, total)
    ensures 0 <= start0 ==> start == start0
    ensures start0 < 0 <= total + start0 ==> total - start == 0 - start0
    ensures total + start0 < 0 ==> start == 0
    ensures total == 0 ==> end == -1
    ensures 0 <= end0 < total ==> end == end0
    ensures end0 < 0 <= total + end0 && total > 0 ==> total - end == 0 - end0
    ensures end0 >= total ==> end == total - 1
    ensures total + end0 < 0 < total ==> end == 0
  {
    var s, e := start0, end0;
    if s < 0 {
      s := total + s;
    }
    if e < 0 {
      e := total + e;
    }
    if s < 0 {
      s := 0;
    }
    if e < 0 {
      e := 0;
    }
    if e >= total {
      e := total - 1;
    }
    start, end := s, e;
  }

  /** 1 shifted left by n. */
  function OneShifted(n: nat): bv16
    requires n <= 8
  {
    match n
    case 0 => 0x001
    case 1 => 0x002
    case 2 => 0x004
    case 3 => 0x008
    case 4 => 0x010
    case 5 => 0x020
    case 6 => 0x040
    case 7 => 0x080
    case 8 => 0x100
  }

  /** The bits of the first byte that lie before position start. */
  function FirstNegMask(start: nat): bv8 { (!(OneShifted(8 - start % 8) - 1) & 0xFF) as bv8 }

  /** The bits of the last byte that lie behind position end. */
  function LastNegMask(end: nat): bv8 { ((OneShifted(7 - end % 8) - 1) & 0xFF) as bv8 }

  lemma FirstNegMaskIs(start: nat)
    ensures FirstNegMask(start) == match start % 8
      case 0 => 0x00 case 1 => 0x80 case 2 => 0xC0 case 3 => 0xE0
      case 4 => 0xF0 case 5 => 0xF8 case 6 => 0xFC case _ => 0xFE
  {
  }

  lemma LastNegMaskIs(end: nat)
    ensures LastNegMask(end) == match end % 8
      case 0 => 0x7F case 1 => 0x3F case 2 => 0x1F case 3 => 0x0F
      case 4 => 0x07 case 5 => 0x03 case 6 => 0x01 case _ => 0x00
  {
  }

  lemma OneBit(b: bv8, m: bv8, x: bv8)
    requires x & (x - 1) == 0
    ensures (b & m) & x != 0 <==> b & x != 0 && m & x != 0
    ensures (b | m) & x != 0 <==> b & x != 0 || m & x != 0
  {
  }

  lemma OneBitNot(m: bv8, x: bv8)
    requires x & (x - 1) == 0 && x != 0
    ensures !m & x != 0 <==> m & x == 0
  {
  }

  lemma MaskIsOneBit(i: nat)
    requires i < 8
    ensures Mask(i) & (Mask(i) - 1) == 0 && Mask(i) != 0
  {
  }

  lemma BitsRaw(b: bv8, m: bv8, x: bv8)
    requires x & (x - 1) == 0 && x != 0
    ensures Hit(b & m, x) <==> Hit(b, x) && Hit(m, x)
    ensures Hit(b & !m, x) <==> Hit(b, x) && !Hit(m, x)
    ensures Hit(b | m, x) <==> Hit(b, x) || Hit(m, x)
  {
    OneBit(b, m, x);
    OneBit(b, !m, x);
    OneBitNot(m, x);
  }

  lemma BitsOfMasked(b: bv8, m: bv8, i: nat)
    requires i < 8
    ensures BitOf(b & m, i) <==> BitOf(b, i) && BitOf(m, i)
    ensures BitOf(b & !m, i) <==> BitOf(b, i) && !BitOf(m, i)
    ensures BitOf(b | m, i) <==> BitOf(b, i) || BitOf(m, i)
  {
    hide Hit, Mask;
    MaskIsOneBit(i);
    BitsRaw(b, m, Mask(i));
  }

  lemma BitOfFirst(start: nat, i: nat)
    requires i < 8
    ensures BitOf(FirstNegMask(start), i) <==> i < start % 8
  {
    FirstNegMaskIs(start);
  }

  lemma BitOfLast(end: nat, i: nat)
    requires i < 8
    ensures BitOf(LastNegMask(end), i) <==> i > end % 8
  {
    LastNegMaskIs(end);
  }

  lemma MaskedFirst(b: bv8, start: nat, i: nat)
    requires i < 8
    ensures BitOf(b & FirstNegMask(start), i) <==> i < start % 8 && BitOf(b, i)
    ensures BitOf(b & !FirstNegMask(start), i) <==> i >= start % 8 && BitOf(b, i)
    ensures BitOf(b | FirstNegMask(start), i) <==> i < start % 8 || BitOf(b, i)
  {
    hide BitOf, FirstNegMask;
    BitsOfMasked(b, FirstNegMask(start), i);
    BitOfFirst(start, i);
  }

  lemma MaskedLast(b: bv8, end: nat, i: nat)
    requires i < 8
    ensures BitOf(b & LastNegMask(end), i) <==> i > end % 8 && BitOf(b, i)
    ensures BitOf(b & !LastNegMask(end), i) <==> i <= end % 8 && BitOf(b, i)
    ensures BitOf(b | LastNegMask(end), i) <==> i > end % 8 || BitOf(b, i)
  {
    hide BitOf, LastNegMask;
    BitsOfMasked(b, LastNegMask(end), i);
    BitOfLast(end, i);
  }
}
