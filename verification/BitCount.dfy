/**
 Counting set bits: a loop over blocks of 28 bytes that adds up bits in
 parallel inside 32-bit words, and the command that counts in a range.
 */
module BitCount {

  import opened Bits

  // ---------------------------------------------------------------------------
  // Small numbers in bytes
  // ---------------------------------------------------------------------------

  function Nat(b: bv8): (n: nat) { b as int }

  function Sum8(a: bv8, b: bv8): bv8 { a + b }

  function Next(a: bv8): bv8 { a + 1 }

  function Prev(b: bv8): bv8 { b - 1 }

  lemma NextNat(a: bv8)
    ensures Nat(a) < 255 ==> Nat(Next(a)) == Nat(a) + 1
    ensures a != 0 ==> Nat(Prev(a)) == Nat(a) - 1
    ensures a == 0 <==> Nat(a) == 0
  {
  }

  lemma OneOver(a: bv8, b: bv8)
    ensures a + b == (a + 1) + (b - 1)
  {
  }

  lemma SumZero(a: bv8)
    ensures Sum8(a, 0) == a
  {
  }

  lemma SumShifted(a: bv8, b: bv8)
    ensures Sum8(a, b) == Sum8(Next(a), Prev(b))
  {
    calc {
      Sum8(a, b);
      a + b;
      { OneOver(a, b); }
      (a + 1) + (b - 1);
      Sum8(a + 1, b - 1);
      Sum8(Next(a), Prev(b));
    }
  }

  /** Bytes add up as numbers as long as the sum fits. */
  lemma {:induction false} SumNat(a: bv8, b: bv8)
    requires Nat(a) + Nat(b) <= 255
    ensures Nat(Sum8(a, b)) == Nat(a) + Nat(b)
    decreases Nat(b)
  {
    NextNat(b);
    if Nat(b) == 0 {
      SumZero(a);
    } else {
      NextNat(a);
      SumShifted(a, b);
      SumNat(Next(a), Prev(b));
    }
  }

  lemma NatOrder(a: bv8)
    ensures Nat(a) <= 168 ==> a <= 168
    ensures Nat(a) <= 56 ==> a <= 56
  {
  }

  // ---------------------------------------------------------------------------
  // Words of four bytes
  // ---------------------------------------------------------------------------

  function Word(a: bv8, b: bv8, c: bv8, d: bv8): bv32 {
    (a as bv32) | ((b as bv32) << 8) | ((c as bv32) << 16) | ((d as bv32) << 24)
  }

  function Pairs(x: bv32): bv32 { x - ((x >> 1) & 0x55555555) }

  function Nibbles(x: bv32): bv32 { (x & 0x33333333) + ((x >> 2) & 0x33333333) }

  function Sums(x: bv32): bv32 { (x + (x >> 4)) & 0x0F0F0F0F }

  function Plus(x: bv32, y: bv32): bv32 { x + y }

  /** Adds up the four bytes of a word in its top byte. */
  function TopSum(x: bv32): bv8 { ((x * 0x01010101) >> 24) as bv8 }

  // The same steps on one byte.

  function PairsOf(b: bv8): bv8 { b - ((b >> 1) & 0x55) }

  function NibblesOf(b: bv8): bv8 { (b & 0x33) + ((b >> 2) & 0x33) }

  function SumsOf(b: bv8): bv8 { (b + (b >> 4)) & 0x0F }

  function OnesOf(b: bv8): bv8 { SumsOf(NibblesOf(PairsOf(b))) }

  /** The two halves of the byte are at most four. */
  predicate HalvesSmall(b: bv8) { b & 0x0F <= 4 && b >> 4 <= 4 }

  lemma NibblesSmall(b: bv8)
    ensures HalvesSmall(NibblesOf(PairsOf(b)))
  {
  }

  // A word operation works on its bytes: first in plain operators, then by name.

  lemma PairsRaw(a: bv8, b: bv8, c: bv8, d: bv8)
    ensures var w := (a as bv32) | ((b as bv32) << 8) | ((c as bv32) << 16) | ((d as bv32) << 24);
      w - ((w >> 1) & 0x55555555)
        == ((a - ((a >> 1) & 0x55)) as bv32) | (((b - ((b >> 1) & 0x55)) as bv32) << 8)
           | (((c - ((c >> 1) & 0x55)) as bv32) << 16) | (((d - ((d >> 1) & 0x55)) as bv32) << 24)
  {
  }

  lemma PairsWord(a: bv8, b: bv8, c: bv8, d: bv8)
    ensures Pairs(Word(a, b, c, d)) == Word(PairsOf(a), PairsOf(b), PairsOf(c), PairsOf(d))
  {
    calc {
      Pairs(Word(a, b, c, d));
      Pairs((a as bv32) | ((b as bv32) << 8) | ((c as bv32) << 16) | ((d as bv32) << 24));
      (var w := (a as bv32) | ((b as bv32) << 8) | ((c as bv32) << 16) | ((d as bv32) << 24);
       w - ((w >> 1) & 0x55555555));
      { PairsRaw(a, b, c, d); }
      ((a - ((a >> 1) & 0x55)) as bv32) | (((b - ((b >> 1) & 0x55)) as bv32) << 8)
      | (((c - ((c >> 1) & 0x55)) as bv32) << 16) | (((d - ((d >> 1) & 0x55)) as bv32) << 24);
      Word(a - ((a >> 1) & 0x55), b - ((b >> 1) & 0x55), c - ((c >> 1) & 0x55), d - ((d >> 1) & 0x55));
      Word(PairsOf(a), PairsOf(b), PairsOf(c), PairsOf(d));
    }
  }

  lemma NibblesWord(a: bv8, b: bv8, c: bv8, d: bv8)
    ensures Nibbles(Word(a, b, c, d)) == Word(NibblesOf(a), NibblesOf(b), NibblesOf(c), NibblesOf(d))
  {
  }

  lemma SumsWord(a: bv8, b: bv8, c: bv8, d: bv8)
    requires HalvesSmall(a) && HalvesSmall(b) && HalvesSmall(c) && HalvesSmall(d)
    ensures Sums(Word(a, b, c, d)) == Word(SumsOf(a), SumsOf(b), SumsOf(c), SumsOf(d))
  {
  }

  /** Three steps turn every byte of a word into the number of its ones. */
  lemma OnesWord(a: bv8, b: bv8, c: bv8, d: bv8)
    ensures Sums(Nibbles(Pairs(Word(a, b, c, d)))) == Word(OnesOf(a), OnesOf(b), OnesOf(c), OnesOf(d))
  {
    PairsWord(a, b, c, d);
    NibblesWord(PairsOf(a), PairsOf(b), PairsOf(c), PairsOf(d));
    NibblesSmall(a);
    NibblesSmall(b);
    NibblesSmall(c);
    NibblesSmall(d);
    SumsWord(NibblesOf(PairsOf(a)), NibblesOf(PairsOf(b)), NibblesOf(PairsOf(c)), NibblesOf(PairsOf(d)));
  }

  lemma PlusRaw(a: bv8, b: bv8, c: bv8, d: bv8, p: bv8, q: bv8, r: bv8, s: bv8)
    requires a <= 56 && b <= 56 && c <= 56 && d <= 56 && p <= 56 && q <= 56 && r <= 56 && s <= 56
    ensures Word(a, b, c, d) + Word(p, q, r, s) == Word(a + p, b + q, c + r, d + s)
  {
  }

  lemma PlusWord(a: bv8, b: bv8, c: bv8, d: bv8, p: bv8, q: bv8, r: bv8, s: bv8)
    requires a <= 56 && b <= 56 && c <= 56 && d <= 56 && p <= 56 && q <= 56 && r <= 56 && s <= 56
    ensures Plus(Word(a, b, c, d), Word(p, q, r, s)) == Word(Sum8(a, p), Sum8(b, q), Sum8(c, r), Sum8(d, s))
  {
    calc {
      Plus(Word(a, b, c, d), Word(p, q, r, s));
      Word(a, b, c, d) + Word(p, q, r, s);
      { PlusRaw(a, b, c, d, p, q, r, s); }
      Word(a + p, b + q, c + r, d + s);
      Word(Sum8(a, p), Sum8(b, q), Sum8(c, r), Sum8(d, s));
    }
  }

  /** Each byte plus the one below it. */
  function Pair(w: bv32): bv32 { w + (w << 8) }

  function TopTwice(t: bv32): bv8 { ((t + (t << 16)) >> 24) as bv8 }

  lemma TimesRaw(w: bv32)
    ensures TopSum(w) == TopTwice(w + (w << 8))
  {
  }

  lemma TimesPair(w: bv32)
    ensures TopSum(w) == TopTwice(Pair(w))
  {
    TimesRaw(w);
  }

  lemma PairWord(a: bv8, b: bv8, c: bv8, d: bv8)
    requires a <= 56 && b <= 56 && c <= 56 && d <= 56
    ensures Pair(Word(a, b, c, d)) == Word(a, Sum8(a, b), Sum8(b, c), Sum8(c, d))
  {
  }

  lemma TopTwiceWord(a: bv8, b: bv8, c: bv8, d: bv8)
    requires a <= 112 && b <= 112 && c <= 112 && d <= 112
    ensures TopTwice(Word(a, b, c, d)) == Sum8(d, b)
  {
  }

  lemma SumBounds(a: bv8, b: bv8)
    requires a <= 56 && b <= 56
    ensures Sum8(a, b) <= 112 && a <= 112
  {
  }

  /** With sums of at most 56 nothing spills over, and the top byte of the product is the sum of the four. */
  lemma TopSumWord(a: bv8, b: bv8, c: bv8, d: bv8)
    requires a <= 56 && b <= 56 && c <= 56 && d <= 56
    ensures TopSum(Word(a, b, c, d)) == Sum8(Sum8(c, d), Sum8(a, b))
  {
    TimesPair(Word(a, b, c, d));
    PairWord(a, b, c, d);
    SumBounds(a, b);
    SumBounds(b, c);
    SumBounds(c, d);
    TopTwiceWord(a, Sum8(a, b), Sum8(b, c), Sum8(c, d));
  }

  lemma TopSumNat(a: bv8, b: bv8, c: bv8, d: bv8)
    requires Nat(a) <= 56 && Nat(b) <= 56 && Nat(c) <= 56 && Nat(d) <= 56
    ensures Nat(TopSum(Word(a, b, c, d))) == Nat(a) + Nat(b) + Nat(c) + Nat(d)
  {
    NatOrder(a);
    NatOrder(b);
    NatOrder(c);
    NatOrder(d);
    TopSumWord(a, b, c, d);
    SumNat(c, d);
    SumNat(a, b);
    SumNat(Sum8(c, d), Sum8(a, b));
  }

  // ---------------------------------------------------------------------------
  // Counting bytes, words and blocks
  // ---------------------------------------------------------------------------

  lemma OnesOfRaw(b: bv8)
    ensures (((((b - ((b >> 1) & 0x55)) & 0x33) + (((b - ((b >> 1) & 0x55)) >> 2) & 0x33))
        + ((((b - ((b >> 1) & 0x55)) & 0x33) + (((b - ((b >> 1) & 0x55)) >> 2) & 0x33)) >> 4)) & 0x0F) as int
      == (if b & 0x80 != 0 then 1 else 0) + (if b & 0x40 != 0 then 1 else 0) + (if b & 0x20 != 0 then 1 else 0)
        + (if b & 0x10 != 0 then 1 else 0) + (if b & 0x08 != 0 then 1 else 0) + (if b & 0x04 != 0 then 1 else 0)
        + (if b & 0x02 != 0 then 1 else 0) + (if b & 0x01 != 0 then 1 else 0)
  {
  }

  lemma EightBits(b: bv8)
    ensures ByteOnes(b) == One(BitOf(b, 0)) + One(BitOf(b, 1)) + One(BitOf(b, 2)) + One(BitOf(b, 3))
      + One(BitOf(b, 4)) + One(BitOf(b, 5)) + One(BitOf(b, 6)) + One(BitOf(b, 7))
  {
    assert OnesBefore(b, 2) == One(BitOf(b, 0)) + One(BitOf(b, 1));
    assert OnesBefore(b, 4) == OnesBefore(b, 2) + One(BitOf(b, 2)) + One(BitOf(b, 3));
    assert OnesBefore(b, 6) == OnesBefore(b, 4) + One(BitOf(b, 4)) + One(BitOf(b, 5));
    assert OnesBefore(b, 8) == OnesBefore(b, 6) + One(BitOf(b, 6)) + One(BitOf(b, 7));
  }

  /** The steps on one byte count its ones. */
  lemma OnesOfNat(b: bv8)
    ensures Nat(OnesOf(b)) == ByteOnes(b)
  {
    EightBits(b);
    calc {
      Nat(OnesOf(b));
      Nat((((((b - ((b >> 1) & 0x55)) & 0x33) + (((b - ((b >> 1) & 0x55)) >> 2) & 0x33))
        + ((((b - ((b >> 1) & 0x55)) & 0x33) + (((b - ((b >> 1) & 0x55)) >> 2) & 0x33)) >> 4)) & 0x0F));
      { OnesOfRaw(b); }
      ByteOnes(b);
    }
  }

  /** Four running sums of at most n each, whose total is t. */
  ghost predicate Lanes(acc: bv32, a: bv8, b: bv8, c: bv8, d: bv8, n: nat, t: nat) {
    && acc == Word(a, b, c, d)
    && Nat(a) <= n && Nat(b) <= n && Nat(c) <= n && Nat(d) <= n
    && Nat(a) + Nat(b) + Nat(c) + Nat(d) == t
  }

  lemma AddOnes(a: bv8, b: bv8, n: nat)
    requires Nat(a) <= n <= 48
    ensures a <= 56 && OnesOf(b) <= 56
    ensures Nat(Sum8(a, OnesOf(b))) == Nat(a) + ByteOnes(b) <= n + 8
  {
    OnesOfNat(b);
    NatOrder(a);
    NatOrder(OnesOf(b));
    SumNat(a, OnesOf(b));
  }

  /** Adds the counts of one more word to the running sums. */
  method AddWord(acc: bv32, p: bv8, q: bv8, r: bv8, s: bv8, ghost a: bv8, ghost b: bv8, ghost c: bv8, ghost d: bv8,
      ghost n: nat, ghost t: nat)
    returns (acc': bv32, ghost a': bv8, ghost b': bv8, ghost c': bv8, ghost d': bv8)
    requires Lanes(acc, a, b, c, d, n, t) && n <= 48
    ensures Lanes(acc', a', b', c', d', n + 8, t + ByteOnes(p) + ByteOnes(q) + ByteOnes(r) + ByteOnes(s))
  {
    var aux := Word(p, q, r, s);
    aux := Pairs(aux);
    aux := Nibbles(aux);
    acc' := Plus(acc, Sums(aux));
    OnesWord(p, q, r, s);
    AddOnes(a, p, n);
    AddOnes(b, q, n);
    AddOnes(c, r, n);
    AddOnes(d, s, n);
    PlusWord(a, b, c, d, OnesOf(p), OnesOf(q), OnesOf(r), OnesOf(s));
    a', b', c', d' := Sum8(a, OnesOf(p)), Sum8(b, OnesOf(q)), Sum8(c, OnesOf(r)), Sum8(d, OnesOf(s));
  }

  lemma ZeroLanes()
    ensures Lanes(0, 0, 0, 0, 0, 0, 0)
  {
    NextNat(0);
  }

  lemma LanesSum(acc: bv32, a: bv8, b: bv8, c: bv8, d: bv8, t: nat)
    requires Lanes(acc, a, b, c, d, 56, t)
    ensures Nat(TopSum(acc)) == t
  {
    TopSumNat(a, b, c, d);
  }

  lemma {:induction false} OnesOfFour(s: seq<bv8>, k: nat, j: nat)
    requires k <= j && j + 4 <= |s|
    ensures OnesIn(s, 8 * k, 8 * (j + 4))
      == OnesIn(s, 8 * k, 8 * j) + ByteOnes(s[j]) + ByteOnes(s[j + 1]) + ByteOnes(s[j + 2]) + ByteOnes(s[j + 3])
  {
    hide OnesIn, ByteOnes;
    OnesMoreFrom(s, k, j);
    OnesMoreFrom(s, k, j + 1);
    OnesMoreFrom(s, k, j + 2);
    OnesMoreFrom(s, k, j + 3);
  }

  /** Counts the ones in 28 bytes: seven words are added up before the one multiplication. */
  method CountBlock(s: seq<bv8>, k: nat) returns (n: nat)
    requires k + 28 <= |s|
    ensures n == OnesIn(s, 8 * k, 8 * (k + 28))
  {
    hide OnesIn, ByteOnes, Lanes, TopSum, Nat;
    NoOnes(s, 8 * k);
    var acc: bv32 := 0;
    ghost var a: bv8, b: bv8, c: bv8, d: bv8 := 0, 0, 0, 0;
    ZeroLanes();
    ghost var total := 0;
    var j := k;
    for i := 0 to 7
      invariant j == k + 4 * i && total == OnesIn(s, 8 * k, 8 * j)
      invariant Lanes(acc, a, b, c, d, 8 * i, total)
    {
      OnesOfFour(s, k, j);
      acc, a, b, c, d := AddWord(acc, s[j], s[j + 1], s[j + 2], s[j + 3], a, b, c, d, 8 * i, total);
      j, total := j + 4, OnesIn(s, 8 * k, 8 * (j + 4));
    }
    LanesSum(acc, a, b, c, d, total);
    n := Nat(TopSum(acc));
  }

  /** Counts the ones in a string, wherever it lies in memory. */
  method Popcount(s: seq<bv8>, address: nat) returns (bits: nat)
    ensures bits == OnesIn(s, 0, 8 * |s|)
  {
    hide OnesIn, ByteOnes;
    NoOnes(s, 0);
    bits := 0;
    var i := 0;
    while (address + i) % 4 != 0 && i < |s|
      invariant 0 <= i <= |s| && bits == OnesIn(s, 0, 8 * i)
      decreases |s| - i
    {
      OnesMoreFrom(s, 0, i);
      bits := bits + ByteOnes(s[i]);
      i := i + 1;
    }
    while |s| - i >= 28
      invariant 0 <= i <= |s| && bits == OnesIn(s, 0, 8 * i)
      decreases |s| - i
    {
      var n := CountBlock(s, i);
      OnesSplit(s, 0, 8 * i, 8 * (i + 28));
      bits := bits + n;
      i := i + 28;
    }
    while i < |s|
      invariant 0 <= i <= |s| && bits == OnesIn(s, 0, 8 * i)
      decreases |s| - i
    {
      OnesMoreFrom(s, 0, i);
      bits := bits + ByteOnes(s[i]);
      i := i + 1;
    }
  }

  // ---------------------------------------------------------------------------
  // BITCOUNT
  // ---------------------------------------------------------------------------

  datatype Range = Whole | Bytes(start: int, end: int) | BitRange(start: int, end: int)

  /** The ones between two bits or bytes, both included. */
  ghost function OnesBetween(s: seq<bv8>, lo: nat, hi: int, unit: nat): nat
    requires unit == 1 || unit == 8
    requires unit * (hi + 1) <= 8 * |s|
  {
    if lo > hi then 0 else OnesIn(s, unit * lo, unit * (hi + 1))
  }

  /** What BITCOUNT means. */
  ghost function CountIn(s: seq<bv8>, r: Range): nat {
    match r
    case Whole => OnesIn(s, 0, 8 * |s|)
    case Bytes(start, end) =>
      if start < 0 && end < 0 && start > end then 0
      else OnesBetween(s, ClampStart(start, |s|), ClampEnd(end, |s|), 8)
    case BitRange(start, end) =>
      if start < 0 && end < 0 && start > end then 0
      else OnesBetween(s, ClampStart(start, 8 * |s|), ClampEnd(end, 8 * |s|), 1)
  }

  lemma {:induction false} OnesFirst(b: bv8, start: nat, i: nat)
    requires i <= 8
    ensures OnesBefore(b & FirstNegMask(start), i) == OnesBefore(b, if i < start % 8 then i else start % 8)
    decreases i
  {
    hide BitOf, FirstNegMask;
    if i > 0 {
      OnesFirst(b, start, i - 1);
      MaskedFirst(b, start, i - 1);
    }
  }

  lemma {:induction false} OnesLast(b: bv8, end: nat, i: nat)
    requires i <= 8
    ensures OnesBefore(b & LastNegMask(end), i) + OnesBefore(b,
        if i < end % 8 + 1 then i else end % 8 + 1) == OnesBefore(b, i)
    decreases i
  {
    hide BitOf, LastNegMask;
    if i > 0 {
      OnesLast(b, end, i - 1);
      MaskedLast(b, end, i - 1);
    }
  }

  lemma {:induction false} FirstEdge(s: seq<bv8>, lo: nat)
    requires lo < 8 * |s|
    ensures ByteOnes(s[lo / 8] & FirstNegMask(lo)) == OnesIn(s, 8 * (lo / 8), lo)
  {
    hide OnesIn, OnesBefore, FirstNegMask;
    OnesFirst(s[lo / 8], lo, 8);
    OnesOfByte(s, lo / 8, lo % 8);
  }

  lemma {:induction false} BitsBehind(s: seq<bv8>, k: nat, i: nat)
    requires k < |s| && i < 8
    ensures OnesIn(s, 8 * k + i + 1, 8 * k + 8) + OnesBefore(s[k], i + 1) == ByteOnes(s[k])
  {
    hide OnesIn, OnesBefore;
    OnesOfByte(s, k, i + 1);
    OnesOfByte(s, k, 8);
    OnesSplit(s, 8 * k, 8 * k + i + 1, 8 * k + 8);
  }

  lemma {:induction false} LastEdge(s: seq<bv8>, hi: nat)
    requires hi < 8 * |s|
    ensures ByteOnes(s[hi / 8] & LastNegMask(hi)) == OnesIn(s, hi + 1, 8 * (hi / 8 + 1))
  {
    hide OnesIn, OnesBefore, LastNegMask;
    BitsBehind(s, hi / 8, hi % 8);
    OnesLast(s[hi / 8], hi, 8);
  }

  /** The masks for the edges of a range: they select the bits of the edge bytes that lie outside. */
  method EdgeMasks(s: seq<bv8>, lo: nat, hi: nat) returns (first: bv8, last: bv8)
    requires lo <= hi < 8 * |s|
    ensures ByteOnes(s[lo / 8] & first) == OnesIn(s, 8 * (lo / 8), lo)
    ensures ByteOnes(s[hi / 8] & last) == OnesIn(s, hi + 1, 8 * (hi / 8 + 1))
  {
    hide OnesIn, ByteOnes, FirstNegMask, LastNegMask;
    first, last := FirstNegMask(lo), LastNegMask(hi);
    FirstEdge(s, lo);
    LastEdge(s, hi);
  }

  lemma {:induction false} EdgesOutside(s: seq<bv8>, lo: nat, hi: nat)
    requires lo <= hi < 8 * |s|
    ensures OnesIn(s, 8 * (lo / 8), 8 * (hi / 8 + 1))
      == OnesIn(s, lo, hi + 1) + OnesIn(s, 8 * (lo / 8), lo) + OnesIn(s, hi + 1, 8 * (hi / 8 + 1))
  {
    hide OnesIn;
    OnesSplit(s, 8 * (lo / 8), lo, 8 * (hi / 8 + 1));
    OnesSplit(s, lo, hi + 1, 8 * (hi / 8 + 1));
  }

  lemma OnesOfTwo(a: bv8, b: bv8)
    ensures OnesIn([a, b], 0, 16) == ByteOnes(a) + ByteOnes(b)
  {
    OnesOfByte([a, b], 0, 8);
    OnesOfByte([a, b], 1, 8);
    OnesSplit([a, b], 0, 8, 16);
  }

  lemma NoMask(b: bv8)
    ensures ByteOnes(b & 0) == 0
  {
    assert b & 0 == 0;
    EightBits(0);
  }

  /** Counts the ones of a string in a range of bytes. */
  method CountBytes(s: seq<bv8>, lo: nat, hi: nat, address: nat) returns (count: nat)
    requires lo <= hi < |s|
    ensures count == OnesIn(s, 8 * lo, 8 * (hi + 1))
  {
    hide OnesIn;
    OnesShift(s, lo, hi + 1 - lo, 0, 8 * (hi + 1 - lo));
    count := Popcount(s[lo..hi + 1], address);
  }

  /** Counts the ones that the masks select in the first and the last byte. */
  method CountEdges(first: bv8, last: bv8, firstMask: bv8, lastMask: bv8) returns (count: nat)
    ensures count == ByteOnes(first & firstMask) + ByteOnes(last & lastMask)
  {
    hide ByteOnes, OnesIn;
    count := 0;
    NoMask(first);
    NoMask(last);
    if firstMask != 0 || lastMask != 0 {
      var a, b := 0, 0;
      if firstMask != 0 {
        a := first & firstMask;
      }
      if lastMask != 0 {
        b := last & lastMask;
      }
      assert a == first & firstMask && b == last & lastMask;
      OnesOfTwo(a, b);
      count := Popcount([a, b], 0);
    }
  }

  /** Counts whole bytes and takes away the bits of the edge bytes outside the range. */
  method CountRange(s: seq<bv8>, lo: nat, hi: nat, address: nat) returns (count: int)
    requires lo <= hi < 8 * |s|
    ensures count == OnesIn(s, lo, hi + 1)
  {
    hide OnesIn, ByteOnes;
    var firstMask, lastMask := EdgeMasks(s, lo, hi);
    var start, end := lo / 8, hi / 8;
    count := CountBytes(s, start, end, address);
    var outside := CountEdges(s[start], s[end], firstMask, lastMask);
    EdgesOutside(s, lo, hi);
    count := count - outside;
  }

  method BitCountCommand(s: seq<bv8>, r: Range, address: nat) returns (count: int)
    ensures count == CountIn(s, r)
  {
    hide OnesIn;
    NoOnes(s, 0);
    var start, end := 0, |s| - 1;
    if !r.Whole? {
      if r.start < 0 && r.end < 0 && r.start > r.end {
        return 0;
      }
      start, end := ClampRange(r.start, r.end, if r.BitRange? then |s| * 8 else |s|);
    }
    if start > end {
      count := 0;
    } else if r.BitRange? {
      count := CountRange(s, start, end, address);
    } else {
      count := CountBytes(s, start, end, address);
    }
  }
}
