/**
 Finding the first set or clear bit: whole words are skipped, the last bytes
 are gathered into a word, and that word is searched bit by bit.
 */
module BitPos {

  import opened Bits
  import opened Memory

  // ---------------------------------------------------------------------------
  // What is searched
  // ---------------------------------------------------------------------------

  /** r is the first position with that bit, or -1 if there is none. */
  ghost predicate IsFirst(s: seq<bv8>, lo: nat, hi: nat, bit: bool, r: int)
    requires hi <= 8 * |s|
  {
    && (r == -1 || (lo <= r < hi && BitAt(s, r) == bit))
    && (forall p :: lo <= p < hi && (r == -1 || p < r) ==> BitAt(s, p) != bit)
  }

  ghost predicate NoneIn(s: seq<bv8>, lo: nat, hi: nat, bit: bool)
    requires hi <= 8 * |s|
  {
    forall p :: lo <= p < hi ==> BitAt(s, p) != bit
  }

  // ---------------------------------------------------------------------------
  // Bits of a word
  // ---------------------------------------------------------------------------

  function Gather(w: bv64, b: bv8): bv64 { (w << 8) | (b as bv64) }

  function Halved(m: bv64): bv64 { m >> 1 }

  predicate Hits(m: bv64, w: bv64) { m & w != 0 }

  predicate Meets(b: bv8, m: bv8) { b & m != 0 }

  function HighBytes(m: bv64): bv64 { m >> 8 }

  function Low8(m: bv64): bv8 { (m & 0xff) as bv8 }

  lemma GatherRaw(m: bv64, v: bv64, b: bv8)
    ensures m & ((v << 8) | (b as bv64)) != 0 <==> (m >> 8) & v != 0 || b & ((m & 0xff) as bv8) != 0
  {
  }

  lemma HitsGather(m: bv64, v: bv64, b: bv8)
    ensures Hits(m, Gather(v, b)) <==> Hits(HighBytes(m), v) || Meets(b, Low8(m))
  {
    calc {
      Hits(m, Gather(v, b));
      Hits(m, (v << 8) | (b as bv64));
      m & ((v << 8) | (b as bv64)) != 0;
      { GatherRaw(m, v, b); }
      (m >> 8) & v != 0 || b & ((m & 0xff) as bv8) != 0;
      Hits(m >> 8, v) || b & ((m & 0xff) as bv8) != 0;
      Hits(HighBytes(m), v) || Meets(b, Low8(m));
    }
  }

  lemma HitsNothing(v: bv64, b: bv8)
    ensures !Hits(0, v) && !Meets(b, 0)
  {
  }

  ghost function Gathered(s: seq<bv8>): bv64 {
    if s == [] then 0 else Gather(Gathered(s[..|s| - 1]), s[|s| - 1])
  }

  /** Of the eight bytes of x, the k-th from the left is m and those behind it are zero. */
  ghost predicate IsPlaced(x: bv64, k: nat, m: bv8)
    requires k < 8
    decreases 8 - k
  {
    if k == 7 then Low8(x) == m && HighBytes(x) == 0 else Low8(x) == 0 && IsPlaced(HighBytes(x), k + 1, m)
  }

  /** A placed mask meets the gathered bytes exactly if it meets the byte at that place. */
  lemma {:induction false} HitsPlaced(x: bv64, k: nat, m: bv8, s: seq<bv8>)
    requires k < 8 && |s| <= 8 && k + |s| >= 8 && IsPlaced(x, k, m)
    ensures Hits(x, Gathered(s)) <==> Meets(s[k + |s| - 8], m)
    decreases |s|
  {
    var r, b := s[..|s| - 1], s[|s| - 1];
    HitsGather(x, Gathered(r), b);
    HitsNothing(Gathered(r), b);
    if k < 7 {
      HitsPlaced(HighBytes(x), k + 1, m, r);
    }
  }

  // Halving moves the mask one bit to the right.

  predicate Odd(x: bv64) { x & 1 != 0 }

  lemma HalfDownRaw(x: bv64)
    ensures (x >> 1) >> 8 == (x >> 8) >> 1
  {
  }

  lemma HalfDown(x: bv64)
    ensures HighBytes(Halved(x)) == Halved(HighBytes(x))
  {
    calc {
      HighBytes(Halved(x));
      HighBytes(x >> 1);
      (x >> 1) >> 8;
      { HalfDownRaw(x); }
      (x >> 8) >> 1;
      Halved(x >> 8);
      Halved(HighBytes(x));
    }
  }

  lemma HalfOfZero(x: bv64)
    ensures Low8(x) == 0 ==> Low8(Halved(x)) == if Odd(HighBytes(x)) then 0x80 else 0
    ensures Halved(0) == 0
  {
  }

  lemma HalfLast(x: bv64)
    ensures HighBytes(x) == 0 ==> Low8(Halved(x)) == Low8(x) >> 1 && HighBytes(Halved(x)) == 0
    ensures HighBytes(x) == 0 && Low8(x) == 1 ==> Halved(x) == 0
  {
  }

  lemma OddLow(x: bv64)
    ensures Odd(x) <==> Low8(x) & 1 != 0
    ensures x == 0 ==> Low8(x) == 0 && HighBytes(x) == 0
  {
  }

  lemma {:induction false} PlacedNotZero(x: bv64, k: nat, m: bv8)
    requires k < 8 && IsPlaced(x, k, m) && m != 0
    ensures x != 0
    decreases 8 - k
  {
    OddLow(x);
    if k < 7 {
      PlacedNotZero(HighBytes(x), k + 1, m);
    }
  }

  lemma {:induction false} HalfInside(x: bv64, k: nat, m: bv8)
    requires k < 8 && IsPlaced(x, k, m) && m & 1 == 0
    ensures IsPlaced(Halved(x), k, m >> 1) && !Odd(x)
    decreases 8 - k
  {
    OddLow(x);
    if k == 7 {
      HalfLast(x);
    } else {
      HalfDown(x);
      HalfOfZero(x);
      HalfInside(HighBytes(x), k + 1, m);
    }
  }

  lemma {:induction false} HalfAcross(x: bv64, k: nat)
    requires k < 7 && IsPlaced(x, k, 1)
    ensures IsPlaced(Halved(x), k + 1, 0x80) && !Odd(x)
    decreases 8 - k
  {
    var y := HighBytes(x);
    OddLow(x);
    HalfDown(x);
    HalfOfZero(x);
    OddLow(y);
    if k == 6 {
      HalfLast(y);
    } else {
      HalfAcross(y, k + 1);
    }
  }

  lemma MaskHalves(i: nat)
    requires i < 8
    ensures i < 7 ==> Mask(i) & 1 == 0 && Mask(i) >> 1 == Mask(i + 1)
    ensures i == 7 ==> Mask(i) == 1
    ensures Mask(0) == 0x80 && Mask(i) != 0
  {
  }

  /** The mask that starts at the left end and has moved j bits to the right. */
  ghost predicate OneAt(x: bv64, j: nat) { if j < 64 then IsPlaced(x, j / 8, Mask(j % 8)) else x == 0 }

  lemma OneMoves(x: bv64, j: nat)
    requires j < 64 && OneAt(x, j)
    ensures x != 0 && OneAt(Halved(x), j + 1)
  {
    var k, i := j / 8, j % 8;
    MaskHalves(i);
    PlacedNotZero(x, k, Mask(i));
    if i < 7 {
      assert (j + 1) / 8 == k && (j + 1) % 8 == i + 1;
      HalfInside(x, k, Mask(i));
    } else if k < 7 {
      assert (j + 1) / 8 == k + 1 && (j + 1) % 8 == 0;
      HalfAcross(x, k);
    } else {
      HalfLast(x);
    }
  }

  const LEFTMOST: bv64 := 0x8000000000000000

  lemma LeftmostBytes()
    ensures Low8(0x8000000000000000) == 0 && HighBytes(0x8000000000000000) == 0x80000000000000
    ensures Low8(0x80000000000000) == 0 && HighBytes(0x80000000000000) == 0x800000000000
    ensures Low8(0x800000000000) == 0 && HighBytes(0x800000000000) == 0x8000000000
    ensures Low8(0x8000000000) == 0 && HighBytes(0x8000000000) == 0x80000000
    ensures Low8(0x80000000) == 0 && HighBytes(0x80000000) == 0x800000
    ensures Low8(0x800000) == 0 && HighBytes(0x800000) == 0x8000
    ensures Low8(0x8000) == 0 && HighBytes(0x8000) == 0x80
    ensures Low8(0x80) == 0x80 && HighBytes(0x80) == 0
  {
  }

  lemma OneStarts()
    ensures OneAt(LEFTMOST, 0)
  {
    LeftmostBytes();
    assert IsPlaced(0x80, 7, 0x80) && IsPlaced(0x8000, 6, 0x80) && IsPlaced(0x800000, 5, 0x80);
    assert IsPlaced(0x80000000, 4, 0x80) && IsPlaced(0x8000000000, 3, 0x80) && IsPlaced(0x800000000000, 2, 0x80);
    assert IsPlaced(0x80000000000000, 1, 0x80);
  }

  lemma OneHits(x: bv64, j: nat, s: seq<bv8>)
    requires j < 64 && |s| == 8 && OneAt(x, j)
    ensures Hits(x, Gathered(s)) <==> BitAt(s, j)
  {
    HitsPlaced(x, j / 8, Mask(j % 8), s);
  }

  // ---------------------------------------------------------------------------
  // Whole words
  // ---------------------------------------------------------------------------

  ghost predicate AllAre(s: seq<bv8>, b: bv8) { forall i :: 0 <= i < |s| ==> s[i] == b }

  lemma ZeroWide(b0: bv8, b1: bv8, b2: bv8, b3: bv8, b4: bv8, b5: bv8, b6: bv8, b7: bv8)
    ensures Wide(b0, b1, b2, b3, b4, b5, b6, b7) == 0
      <==> b0 == 0 && b1 == 0 && b2 == 0 && b3 == 0 && b4 == 0 && b5 == 0 && b6 == 0 && b7 == 0
  {
  }

  lemma OnesWide(b0: bv8, b1: bv8, b2: bv8, b3: bv8, b4: bv8, b5: bv8, b6: bv8, b7: bv8)
    ensures Wide(b0, b1, b2, b3, b4, b5, b6, b7) == 0xFFFFFFFFFFFFFFFF
      <==> b0 == 0xFF && b1 == 0xFF && b2 == 0xFF && b3 == 0xFF && b4 == 0xFF && b5 == 0xFF && b6 == 0xFF && b7 == 0xFF
  {
  }

  lemma EightAre(s: seq<bv8>, b: bv8)
    requires |s| == 8
    ensures AllAre(s, b) <==>
      s[0] == b && s[1] == b && s[2] == b && s[3] == b && s[4] == b && s[5] == b && s[6] == b && s[7] == b
  {
  }

  lemma WordIsZero(s: seq<bv8>)
    requires |s| == 8
    ensures LoadLittle(s) == 0 <==> AllAre(s, 0)
  {
    EightAre(s, 0);
    ZeroWide(s[0], s[1], s[2], s[3], s[4], s[5], s[6], s[7]);
  }

  lemma WordIsOnes(s: seq<bv8>)
    requires |s| == 8
    ensures LoadLittle(s) == 0xFFFFFFFFFFFFFFFF <==> AllAre(s, 0xFF)
  {
    EightAre(s, 0xFF);
    OnesWide(s[0], s[1], s[2], s[3], s[4], s[5], s[6], s[7]);
  }

  /** A word is all zeros or all ones exactly if its bytes are. */
  lemma WordIsSkipped(s: seq<bv8>)
    requires |s| == 8
    ensures LoadLittle(s) == 0 <==> AllAre(s, 0)
    ensures LoadLittle(s) == 0xFFFFFFFFFFFFFFFF <==> AllAre(s, 0xFF)
  {
    WordIsZero(s);
    WordIsOnes(s);
  }

  lemma SameByte(b: bv8, i: nat)
    requires i < 8
    ensures !BitOf(0, i) && BitOf(0xFF, i)
  {
  }

  lemma OtherByte(b: bv8)
    ensures b == 0 || exists i: nat :: i < 8 && BitOf(b, i)
    ensures b == 0xFF || exists i: nat :: i < 8 && !BitOf(b, i)
  {
    assert b == 0 || BitOf(b, 0) || BitOf(b, 1) || BitOf(b, 2) || BitOf(b, 3)
      || BitOf(b, 4) || BitOf(b, 5) || BitOf(b, 6) || BitOf(b, 7);
    assert b == 0xFF || !BitOf(b, 0) || !BitOf(b, 1) || !BitOf(b, 2) || !BitOf(b, 3)
      || !BitOf(b, 4) || !BitOf(b, 5) || !BitOf(b, 6) || !BitOf(b, 7);
  }

  function Skip(bit: bool): bv8 { if bit then 0 else 0xFF }

  /** Bytes without the bit are passed over. */
  lemma {:induction false} SkippedBytes(s: seq<bv8>, k: nat, n: nat, bit: bool)
    requires k + n <= |s| && AllAre(s[k..k + n], Skip(bit)) && NoneIn(s, 0, 8 * k, bit)
    ensures NoneIn(s, 0, 8 * (k + n), bit)
  {
    forall p | 0 <= p < 8 * (k + n) ensures BitAt(s, p) != bit {
      if p >= 8 * k {
        assert s[p / 8] == s[k..k + n][p / 8 - k];
        SameByte(0, p % 8);
      }
    }
  }

  // ---------------------------------------------------------------------------
  // Searching a string
  // ---------------------------------------------------------------------------

  /** The first position with the bit; behind its end the string counts as zeros. */
  ghost predicate IsFound(s: seq<bv8>, bit: bool, r: int) {
    if bit || r < 8 * |s| then IsFirst(s, 0, 8 * |s|, bit, r) && (bit || r >= 0)
    else r == 8 * |s| && NoneIn(s, 0, 8 * |s|, bit)
  }

  /** Up to eight bytes, filled up with zeros. */
  ghost function Padded(s: seq<bv8>, k: nat): (r: seq<bv8>)
    ensures |r| == 8
  {
    seq(8, j requires 0 <= j < 8 => if k + j < |s| then s[k + j] else 0)
  }

  method SkipBytes(s: seq<bv8>, address: nat, bit: bool) returns (k: nat, found: bool)
    ensures k <= |s| && NoneIn(s, 0, 8 * k, bit)
    ensures found ==> k < |s| && s[k] != Skip(bit)
  {
    k, found := 0, false;
    while (address + k) % 8 != 0 && k < |s|
      invariant k <= |s| && NoneIn(s, 0, 8 * k, bit)
      decreases |s| - k
    {
      if s[k] != Skip(bit) {
        found := true;
        return;
      }
      assert s[k..k + 1] == [Skip(bit)];
      SkippedBytes(s, k, 1, bit);
      k := k + 1;
    }
  }

  method SkipWords(s: seq<bv8>, k0: nat, bit: bool) returns (k: nat)
    requires k0 <= |s| && NoneIn(s, 0, 8 * k0, bit)
    ensures k0 <= k <= |s| && NoneIn(s, 0, 8 * k, bit)
    ensures |s| - k >= 8 ==> !AllAre(s[k..k + 8], Skip(bit))
  {
    var skip: bv64 := if bit then 0 else 0xFFFFFFFFFFFFFFFF;
    k := k0;
    while |s| - k >= 8
      invariant k0 <= k <= |s| && NoneIn(s, 0, 8 * k, bit)
      decreases |s| - k
    {
      WordIsSkipped(s[k..k + 8]);
      if LoadLittle(s[k..k + 8]) != skip {
        return;
      }
      SkippedBytes(s, k, 8, bit);
      k := k + 8;
    }
  }

  method GatherRest(s: seq<bv8>, k: nat) returns (word: bv64)
    requires k <= |s|
    ensures word == Gathered(Padded(s, k))
  {
    word := 0;
    ghost var bytes := Padded(s, k);
    assert bytes[..0] == [];
    for j := 0 to 8
      invariant word == Gathered(bytes[..j])
    {
      assert bytes[..j + 1][..j] == bytes[..j];
      word := Gather(word, if k + j < |s| then s[k + j] else 0);
    }
    assert bytes[..8] == bytes;
  }

  lemma OneStep(x: bv64, j: nat, s: seq<bv8>)
    requires j <= 64 && |s| == 8 && OneAt(x, j)
    ensures x == 0 <==> j == 64
    ensures j < 64 ==> OneAt(Halved(x), j + 1) && (Hits(x, Gathered(s)) <==> BitAt(s, j))
  {
    if j < 64 {
      OneMoves(x, j);
      OneHits(x, j, s);
    }
  }

  /** The mask has moved j bits and met only other bits. */
  ghost predicate Searched(one: bv64, j: nat, s: seq<bv8>, bit: bool) {
    |s| == 8 && j <= 64 && OneAt(one, j) && NoneIn(s, 0, j, bit)
  }

  /** One test of the mask against the word. */
  method TestBit(one: bv64, j: nat, word: bv64, bit: bool, ghost bytes: seq<bv8>) returns (hit: bool, next: bv64)
    requires Searched(one, j, bytes, bit) && word == Gathered(bytes) && one != 0
    ensures j < 64
    ensures hit ==> IsFirst(bytes, 0, 64, bit, j)
    ensures !hit ==> Searched(next, j + 1, bytes, bit)
  {
    OneStep(one, j, bytes);
    hit := Hits(one, word) == bit;
    next := Halved(one);
  }

  /** Moves a one-bit mask through the word until it meets the bit, which it does. */
  method SearchWord(word: bv64, bit: bool, ghost bytes: seq<bv8>) returns (j: nat)
    requires |bytes| == 8 && word == Gathered(bytes)
    requires exists p: nat :: p < 64 && BitAt(bytes, p) == bit
    ensures IsFirst(bytes, 0, 64, bit, j)
  {
    var one, hit := LEFTMOST, false;
    OneStarts();
    j := 0;
    while one != 0
      invariant Searched(one, j, bytes, bit)
      decreases 64 - j
    {
      hit, one := TestBit(one, j, word, bit, bytes);
      if hit {
        return;
      }
      j := j + 1;
    }
    OneStep(one, j, bytes);
    assert false;
  }

  lemma {:induction false} GatheredZero(s: seq<bv8>)
    requires AllAre(s, 0)
    ensures Gathered(s) == 0
  {
    if s != [] {
      GatheredZero(s[..|s| - 1]);
    }
  }

  lemma {:induction false} NoBitInZero(s: seq<bv8>, p: nat)
    requires |s| == 8 && p < 64 && AllAre(s, 0)
    ensures !BitAt(s, p)
  {
    SameByte(0, p % 8);
  }

  lemma {:induction false} SomeBit(s: seq<bv8>, bit: bool, k: nat)
    requires k < |s| && s[k] != Skip(bit)
    ensures exists p: nat :: p < 8 * |s| && BitAt(s, p) == bit
  {
    OtherByte(s[k]);
    var i: nat :| i < 8 && BitOf(s[k], i) == bit;
    assert BitAt(s, 8 * k + i) == bit by {
      BytesOver(k, i);
    }
  }

  lemma {:induction false} PaddedBit(s: seq<bv8>, k: nat, j: nat)
    requires k <= |s| && j < 64
    ensures 8 * k + j < 8 * |s| ==> BitAt(Padded(s, k), j) == BitAt(s, 8 * k + j)
    ensures 8 * k + j >= 8 * |s| ==> !BitAt(Padded(s, k), j)
  {
    BytesOver(k, j);
    SameByte(0, j % 8);
  }

  /** Unless fewer than eight bytes are left, the bit is among the next eight. */
  lemma {:induction false} BitAhead(s: seq<bv8>, k: nat, bit: bool)
    requires k <= |s|
    requires (k < |s| && s[k] != Skip(bit)) || |s| - k < 8 || !AllAre(s[k..k + 8], Skip(bit))
    requires bit ==> !AllAre(Padded(s, k), 0)
    ensures exists p: nat :: p < 64 && BitAt(Padded(s, k), p) == bit
  {
    var r := Padded(s, k);
    if bit {
      var i :| 0 <= i < 8 && r[i] != 0;
      SomeBit(r, bit, i);
    } else if k < |s| && s[k] != Skip(bit) {
      SomeBit(r, bit, 0);
    } else if |s| - k < 8 {
      SomeBit(r, bit, 7);
    } else {
      assert r == s[k..k + 8];
      var i :| 0 <= i < 8 && r[i] != Skip(bit);
      SomeBit(r, bit, i);
    }
  }

  lemma {:induction false} FoundInRest(s: seq<bv8>, k: nat, bit: bool, j: nat)
    requires k <= |s| && NoneIn(s, 0, 8 * k, bit) && IsFirst(Padded(s, k), 0, 64, bit, j)
    ensures IsFound(s, bit, 8 * k + j)
  {
    var r := 8 * k + j;
    PaddedBit(s, k, j);
    forall p | 0 <= p < 8 * |s| && p < r ensures BitAt(s, p) != bit {
      if p >= 8 * k {
        PaddedBit(s, k, p - 8 * k);
      }
    }
    if r > 8 * |s| {
      PaddedBit(s, k, 8 * |s| - 8 * k);
    }
  }

  /** Without a set bit in the rest of at most seven bytes there is none at all. */
  lemma {:induction false} NothingInRest(s: seq<bv8>, k: nat)
    requires k <= |s| && NoneIn(s, 0, 8 * k, true) && |s| - k < 8 && AllAre(Padded(s, k), 0)
    ensures IsFound(s, true, -1)
  {
    forall p | 0 <= p < 8 * |s| ensures !BitAt(s, p) {
      if p >= 8 * k {
        PaddedBit(s, k, p - 8 * k);
        NoBitInZero(Padded(s, k), p - 8 * k);
      }
    }
  }

  lemma {:induction false} ZeroWord(s: seq<bv8>)
    requires |s| == 8 && Gathered(s) == 0
    ensures AllAre(s, 0)
  {
    forall i | 0 <= i < 8 ensures s[i] == 0 {
      if s[i] != 0 {
        SomeBit(s, true, i);
        var p: nat :| p < 64 && BitAt(s, p);
        NoHitInZero(s, p);
      }
    }
  }

  lemma {:induction false} NoHitInZero(s: seq<bv8>, p: nat)
    requires |s| == 8 && p < 64 && Gathered(s) == 0
    ensures !BitAt(s, p)
  {
    var x := OneFor(p);
    OneHits(x, p, s);
    assert !Hits(x, 0);
  }

  /** There is a mask for every position. */
  lemma {:induction false} OneFor(j: nat) returns (x: bv64)
    requires j < 64
    ensures OneAt(x, j)
  {
    if j == 0 {
      x := LEFTMOST;
      OneStarts();
    } else {
      var y := OneFor(j - 1);
      OneMoves(y, j - 1);
      x := Halved(y);
    }
  }

  /** The first set or clear bit of a string, wherever it lies in memory. */
  method Bitpos(s: seq<bv8>, bit: bool, address: nat) returns (r: int)
    ensures IsFound(s, bit, r)
  {
    var k, found := SkipBytes(s, address, bit);
    if !found {
      k := SkipWords(s, k, bit);
    }
    var word := GatherRest(s, k);
    if bit && word == 0 {
      ZeroWord(Padded(s, k));
      LastBytes(s, k);
      NothingInRest(s, k);
      return -1;
    }
    if bit && AllAre(Padded(s, k), 0) {
      GatheredZero(Padded(s, k));
    }
    BitAhead(s, k, bit);
    var j := SearchWord(word, bit, Padded(s, k));
    FoundInRest(s, k, bit, j);
    r := 8 * k + j;
  }

  lemma {:induction false} LastBytes(s: seq<bv8>, k: nat)
    requires k <= |s| && AllAre(Padded(s, k), 0)
    ensures k < |s| ==> s[k] == 0
    ensures |s| - k >= 8 ==> AllAre(s[k..k + 8], 0)
  {
    var r := Padded(s, k);
    assert k < |s| ==> r[0] == s[k];
    if |s| - k >= 8 {
      assert r == s[k..k + 8];
    }
  }

  // ---------------------------------------------------------------------------
  // BITPOS
  // ---------------------------------------------------------------------------

  /** An edge byte in which no bit outside the range can match. */
  function WithoutFirst(b: bv8, lo: nat, bit: bool): bv8 {
    if bit then b & !FirstNegMask(lo) else b | FirstNegMask(lo)
  }

  function WithoutLast(b: bv8, hi: nat, bit: bool): bv8 {
    if bit then b & !LastNegMask(hi) else b | LastNegMask(hi)
  }

  lemma WithoutFirstBit(b: bv8, lo: nat, bit: bool, i: nat)
    requires i < 8
    ensures BitOf(WithoutFirst(b, lo, bit), i) == bit <==> i >= lo % 8 && BitOf(b, i) == bit
  {
    MaskedFirst(b, lo, i);
  }

  lemma WithoutLastBit(b: bv8, hi: nat, bit: bool, i: nat)
    requires i < 8
    ensures BitOf(WithoutLast(b, hi, bit), i) == bit <==> i <= hi % 8 && BitOf(b, i) == bit
  {
    MaskedLast(b, hi, i);
  }

  lemma NoFirstMask(lo: nat)
    ensures FirstNegMask(lo) == 0 <==> lo % 8 == 0
  {
    FirstNegMaskIs(lo);
  }

  lemma NoLastMask(hi: nat)
    ensures LastNegMask(hi) == 0 <==> hi % 8 == 7
  {
    LastNegMaskIs(hi);
  }

  /** A byte with nothing but the bits from lo up to hi, both included. */
  ghost predicate IsEdge(s: seq<bv8>, k: nat, lo: nat, hi: nat, bit: bool, b: bv8)
    requires k < |s|
  {
    forall i: nat :: i < 8 ==> (BitOf(b, i) == bit <==> lo <= 8 * k + i <= hi && BitOf(s[k], i) == bit)
  }

  /** Searches one edge byte; the result is shifted to its place in the string. */
  method SearchEdge(s: seq<bv8>, k: nat, lo: nat, hi: nat, bit: bool, b: bv8) returns (pos: int)
    requires k < |s| && IsEdge(s, k, lo, hi, bit, b) && lo < 8 * k + 8 && 8 * k <= hi < 8 * |s|
    ensures pos == -1 || 0 <= pos <= 8
    ensures pos == -1 ==> bit
    ensures pos == 8 ==> !bit
    ensures pos == -1 || pos == 8 ==> forall p :: 8 * k <= p < 8 * k + 8 && lo <= p <= hi ==> BitAt(s, p) != bit
    ensures 0 <= pos < 8 ==> lo <= 8 * k + pos <= hi && BitAt(s, 8 * k + pos) == bit
    ensures 0 <= pos < 8 ==> forall p :: 8 * k <= p < 8 * k + pos && lo <= p <= hi ==> BitAt(s, p) != bit
  {
    hide BitOf;
    pos := Bitpos([b], bit, 0);
    forall p | 8 * k <= p < 8 * k + 8 && lo <= p <= hi && (pos < 0 || p < 8 * k + pos) ensures BitAt(s, p) != bit {
      assert BitAt([b], p - 8 * k) != bit;
      assert BitOf(b, p - 8 * k) != bit;
    }
    if 0 <= pos < 8 {
      assert BitAt([b], pos) == bit;
      BytesOver(k, pos);
    }
  }

  /** Searches whole bytes in the middle. */
  method SearchMiddle(s: seq<bv8>, k: nat, n: nat, bit: bool, address: nat) returns (pos: int)
    requires k + n <= |s|
    ensures pos == -1 || 0 <= pos <= 8 * n
    ensures pos == -1 ==> bit
    ensures pos == 8 * n ==> !bit
    ensures pos == -1 || pos == 8 * n ==> NoneIn(s, 8 * k, 8 * (k + n), bit)
    ensures 0 <= pos < 8 * n ==> BitAt(s, 8 * k + pos) == bit && NoneIn(s, 8 * k, 8 * k + pos, bit)
  {
    var part := s[k..k + n];
    pos := Bitpos(part, bit, address);
    forall p | 8 * k <= p < 8 * (k + n) && (pos < 0 || p < 8 * k + pos) ensures BitAt(s, p) != bit {
      BitShift(s, k, n, p - 8 * k);
    }
    if 0 <= pos < 8 * n {
      BitShift(s, k, n, pos);
    }
  }

  /** What a search in a range answers; without an explicit end, clear bits follow the last byte. */
  ghost predicate IsAnswer(s: seq<bv8>, lo: nat, hi: nat, bit: bool, endGiven: bool, r: int)
    requires hi < 8 * |s|
  {
    if !bit && !endGiven && NoneIn(s, lo, hi + 1, bit) then r == 8 * (hi / 8 + 1) else IsFirst(s, lo, hi + 1, bit, r)
  }

  /** The last step: a search for a clear bit that ran past an explicit end found none. */
  method Answer(pos: int, start: nat, bytes: nat, bit: bool, endGiven: bool) returns (r: int)
    ensures r == if endGiven && !bit && pos == 8 * bytes then -1 else if pos == -1 then -1 else pos + 8 * start
  {
    if endGiven && !bit && pos == 8 * bytes {
      return -1;
    }
    r := pos;
    if r != -1 {
      r := r + 8 * start;
    }
  }

  lemma {:induction false} FirstIsEdge(s: seq<bv8>, lo: nat, hi: nat, bit: bool, b: bv8)
    requires lo <= hi < 8 * |s|
    requires b == if lo / 8 == hi / 8 then WithoutLast(WithoutFirst(s[lo / 8], lo, bit), hi,
        bit) else WithoutFirst(s[lo / 8], lo, bit)
    ensures IsEdge(s, lo / 8, lo, hi, bit, b)
  {
    var k := lo / 8;
    forall i: nat | i < 8 ensures BitOf(b, i) == bit <==> lo <= 8 * k + i <= hi && BitOf(s[k], i) == bit {
      WithoutFirstBit(s[k], lo, bit, i);
      WithoutLastBit(WithoutFirst(s[k], lo, bit), hi, bit, i);
    }
  }

  lemma {:induction false} LastIsEdge(s: seq<bv8>, lo: nat, hi: nat, bit: bool)
    requires lo <= hi < 8 * |s| && lo <= 8 * (hi / 8)
    ensures IsEdge(s, hi / 8, lo, hi, bit, WithoutLast(s[hi / 8], hi, bit))
  {
    var k := hi / 8;
    forall i: nat | i < 8
      ensures BitOf(WithoutLast(s[k], hi, bit), i) == bit <==> lo <= 8 * k + i <= hi && BitOf(s[k], i) == bit
    {
      WithoutLastBit(s[k], hi, bit, i);
    }
  }

  lemma NoLastMaskNeeded(b: bv8, hi: nat, bit: bool)
    requires hi % 8 == 7
    ensures WithoutLast(b, hi, bit) == b
  {
    LastNegMaskIs(hi);
  }

  /** The first byte, if only part of it is in the range. */
  method SearchFirst(s: seq<bv8>, lo: nat, hi: nat, bit: bool, endGiven: bool, lastMask: bool) returns (done: bool,
      r: int)
    requires lo <= hi < 8 * |s| && lo % 8 != 0 && lastMask == (hi % 8 != 7) && endGiven
    ensures done ==> IsAnswer(s, lo, hi, bit, endGiven, r)
    ensures !done ==> lo / 8 < hi / 8 && NoneIn(s, lo, 8 * (lo / 8 + 1), bit)
  {
    var start := lo / 8;
    var bytes := hi / 8 - start + 1;
    var tmp := WithoutFirst(s[start], lo, bit);
    if lastMask && bytes == 1 {
      tmp := WithoutLast(tmp, hi, bit);
    } else if bytes == 1 {
      NoLastMaskNeeded(tmp, hi, bit);
    }
    FirstIsEdge(s, lo, hi, bit, tmp);
    var pos := SearchEdge(s, start, lo, hi, bit, tmp);
    done := bytes == 1 || (pos != -1 && pos != 8);
    if done {
      r := Answer(pos, start, bytes, bit, endGiven);
    } else {
      r := pos;
    }
  }

  /** Whole bytes; last says whether they reach the end of the range. */
  method SearchBytes(s: seq<bv8>, lo: nat, hi: nat, start: nat, n: nat, last: bool, bit: bool, endGiven: bool,
      address: nat)
    returns (done: bool, r: int)
    requires lo <= 8 * start && 8 * (start + n) <= hi + 1 <= 8 * |s| && n > 0 && NoneIn(s, lo, 8 * start, bit)
    requires last <==> 8 * (start + n) == hi + 1
    requires !last ==> endGiven
    ensures done ==> IsAnswer(s, lo, hi, bit, endGiven, r)
    ensures !done ==> !last && NoneIn(s, lo, 8 * (start + n), bit)
  {
    var pos := SearchMiddle(s, start, n, bit, address);
    done := last || (pos != -1 && pos != 8 * n);
    var bytes := if last then n else n + 1;
    if done {
      r := Answer(pos, start, bytes, bit, endGiven);
    } else {
      r := pos;
    }
  }

  /** The last byte, if only part of it is in the range. */
  method SearchLast(s: seq<bv8>, lo: nat, hi: nat, bit: bool, endGiven: bool) returns (r: int)
    requires lo <= hi < 8 * |s| && lo <= 8 * (hi / 8) && NoneIn(s, lo, 8 * (hi / 8), bit) && endGiven
    ensures IsAnswer(s, lo, hi, bit, endGiven, r)
  {
    var tmp := WithoutLast(s[hi / 8], hi, bit);
    LastIsEdge(s, lo, hi, bit);
    var pos := SearchEdge(s, hi / 8, lo, hi, bit, tmp);
    r := Answer(pos, hi / 8, 1, bit, endGiven);
  }

  /** Searches a range of bits: a partial first byte, whole bytes, a partial last byte. */
  method SearchRange(s: seq<bv8>, lo: nat, hi: nat, bit: bool, endGiven: bool, address: nat) returns (r: int)
    requires lo <= hi < 8 * |s| && (!endGiven ==> lo % 8 == 0 && hi % 8 == 7)
    ensures IsAnswer(s, lo, hi, bit, endGiven, r)
  {
    NoFirstMask(lo);
    NoLastMask(hi);
    var firstMask, lastMask := FirstNegMask(lo) != 0, LastNegMask(hi) != 0;
    var start, end := lo / 8, hi / 8;
    var bytes := end - start + 1;
    var done;
    if firstMask {
      done, r := SearchFirst(s, lo, hi, bit, endGiven, lastMask);
      if done {
        return;
      }
      start, bytes := start + 1, bytes - 1;
    }
    var current := if lastMask then bytes - 1 else bytes;
    if current > 0 {
      done, r := SearchBytes(s, lo, hi, start, current, !lastMask, bit, endGiven, address);
      if done {
        return;
      }
    }
    r := SearchLast(s, lo, hi, bit, endGiven);
  }

  /** From the start, from a byte, between two bytes, or between two bits. */
  datatype Range = Whole | From(start: int) | Bytes(start: int, end: int) | BitRange(start: int, end: int)

  /** The bits of a range, both included; empty if the second is smaller. */
  function FirstBit(s: seq<bv8>, r: Range): nat {
    match r
    case Whole => 0
    case From(start) => 8 * ClampStart(start, |s|)
    case Bytes(start, _) => 8 * ClampStart(start, |s|)
    case BitRange(start, _) => ClampStart(start, 8 * |s|)
  }

  function LastBit(s: seq<bv8>, r: Range): (e: int)
    ensures e < 8 * |s|
  {
    match r
    case Whole => 8 * |s| - 1
    case From(_) => 8 * ClampEnd(|s| - 1, |s|) + 7
    case Bytes(_, end) => 8 * ClampEnd(end, |s|) + 7
    case BitRange(_, end) => ClampEnd(end, 8 * |s|)
  }

  /** What BITPOS means: nothing in an empty range, else the first such bit of the range. */
  ghost predicate IsReply(s: seq<bv8>, bit: bool, r: Range, pos: int) {
    var lo, hi := FirstBit(s, r), LastBit(s, r);
    if lo > hi then pos == -1 else IsAnswer(s, lo, hi, bit, r.Bytes? || r.BitRange?, pos)
  }

  method BitPosCommand(s: seq<bv8>, bit: bool, r: Range, address: nat) returns (pos: int)
    ensures IsReply(s, bit, r, pos)
  {
    hide IsAnswer;
    var start, end := 0, |s| - 1;
    if !r.Whole? {
      start, end := ClampRange(r.start, if r.From? then |s| - 1 else r.end, if r.BitRange? then 8 * |s| else |s|);
    }
    if start > end {
      pos := -1;
    } else if r.BitRange? {
      pos := SearchRange(s, start, end, bit, true, address);
    } else {
      pos := SearchRange(s, 8 * start, 8 * end + 7, bit, r.Bytes?, address);
    }
  }

  /** Without an end, a search for a clear bit in set bits only ends right behind the string. */
  lemma BehindTheEnd(s: seq<bv8>, start: int, pos: int)
    requires ClampStart(start, |s|) < |s| && IsReply(s, false, From(start), pos)
    requires NoneIn(s, 8 * ClampStart(start, |s|), 8 * |s|, false)
    ensures pos == 8 * |s|
  {
    assert LastBit(s, From(start)) == 8 * |s| - 1;
  }
}
