/**
 64-bit words as the CRC code uses them: the bit-at-a-time register, its mirror
 image, and the linearity over GF(2) that lets eight table lookups replace
 sixty-four shifts.

 Facts about machine words are proved on bare operators first (the lemmas named
 ...Words) and then restated for the named operations.
 */
module Crc64Words {

  import opened Slicing

  const POLY: bv64 := 0xad93d23594c935a9
  /** The polynomial with its 64 bits in the opposite order. */
  const MIRRORED_POLY: bv64 := 0x95ac9329ac4bc9b5
  const TOP_BIT: bv64 := 0x8000000000000000

  function Xor(a: bv64, b: bv64): bv64 { a ^ b }
  function Half(w: bv64): bv64 { w >> 1 }
  function Double(w: bv64): bv64 { w << 1 }
  function LowBit(w: bv64): bv64 { w & 1 }
  function LowByte(w: bv64): bv64 { w & 0xff }
  function DropByte(w: bv64): bv64 { w >> 8 }
  function BitWord(bit: bool): bv64 { if bit then 1 else 0 }

  // ---------------------------------------------------------------------------
  // Bit reversal
  // ---------------------------------------------------------------------------

  /** All 64 bits of x in the opposite order, by swapping ever larger halves. */
  function Reflect(x: bv64): bv64 {
    var a := ((x >> 1) & 0x5555555555555555) | ((x & 0x5555555555555555) << 1);
    var b := ((a >> 2) & 0x3333333333333333) | ((a & 0x3333333333333333) << 2);
    var c := ((b >> 4) & 0x0f0f0f0f0f0f0f0f) | ((b & 0x0f0f0f0f0f0f0f0f) << 4);
    var d := ((c >> 8) & 0x00ff00ff00ff00ff) | ((c & 0x00ff00ff00ff00ff) << 8);
    var e := ((d >> 16) & 0x0000ffff0000ffff) | ((d & 0x0000ffff0000ffff) << 16);
    (e >> 32) | (e << 32)
  }

  lemma ReflectInvolution(x: bv64)
    ensures Reflect(Reflect(x)) == x
  {
  }

  lemma ReflectXor(x: bv64, y: bv64)
    ensures Reflect(Xor(x, y)) == Xor(Reflect(x), Reflect(y))
  {
  }

  lemma ReflectDouble(x: bv64)
    ensures Reflect(Double(x)) == Half(Reflect(x))
    ensures (x & TOP_BIT != 0) == (Reflect(x) & 1 != 0)
  {
  }

  function BitAt(x: bv64, k: bv64): bv64
    requires k < 64
  {
    (x >> k) & 1
  }

  lemma LowestBit(x: bv64, y: bv64)
    requires (x & TOP_BIT != 0) == (y & 1 != 0)
    ensures BitAt(y, 0) == BitAt(x, 63)
  {
  }

  lemma BitOfHalf(y: bv64, k: bv64)
    requires 0 < k < 64
    ensures BitAt(Half(y), k - 1) == BitAt(y, k)
  {
  }

  lemma BitOfDouble(x: bv64, k: bv64)
    requires 0 < k < 64
    ensures BitAt(Double(x), 64 - k) == BitAt(x, 63 - k)
  {
  }

  /** Bit k of the reflection is bit 63 - k. */
  lemma {:induction false} ReflectBit(x: bv64, k: bv64)
    requires k < 64
    ensures BitAt(Reflect(x), k) == BitAt(x, 63 - k)
    decreases k
  {
    hide Reflect, Half, Double, BitAt;
    ReflectDouble(x);
    if k == 0 {
      LowestBit(x, Reflect(x));
    } else {
      ReflectBit(Double(x), k - 1);
      BitOfHalf(Reflect(x), k);
      BitOfDouble(x, k);
      assert 63 - (k - 1) == 64 - k;
    }
  }

  // ---------------------------------------------------------------------------
  // Exclusive or
  // ---------------------------------------------------------------------------

  lemma {:induction false} XorWords(a: bv64, b: bv64, c: bv64, d: bv64)
    ensures (a ^ b) ^ c == a ^ (b ^ c)
    ensures (a ^ b) ^ (c ^ d) == (a ^ c) ^ (b ^ d)
    ensures (a ^ b) >> 1 == (a >> 1) ^ (b >> 1)
    ensures ((a ^ b) & 1 != 0) == ((a & 1 != 0) != (b & 1 != 0))
  {
  }

  lemma {:induction false} XorZero(a: bv64)
    ensures Xor(a, 0) == a
    ensures Xor(0, a) == a
  {
  }

  lemma {:induction false} XorComm(a: bv64, b: bv64)
    ensures Xor(a, b) == Xor(b, a)
  {
  }

  lemma {:induction false} XorGroups(a: bv64, b: bv64, c: bv64)
    ensures Xor(Xor(a, b), c) == Xor(a, Xor(b, c))
  {
    calc {
      Xor(Xor(a, b), c);
      Xor(a ^ b, c);
      (a ^ b) ^ c;
      { XorWords(a, b, c, c); }
      a ^ (b ^ c);
      Xor(a, b ^ c);
    }
  }

  lemma {:induction false} XorSwaps(a: bv64, b: bv64, c: bv64, d: bv64)
    ensures Xor(Xor(a, b), Xor(c, d)) == Xor(Xor(a, c), Xor(b, d))
  {
    calc {
      Xor(Xor(a, b), Xor(c, d));
      Xor(a ^ b, c ^ d);
      (a ^ b) ^ (c ^ d);
      { XorWords(a, b, c, d); }
      (a ^ c) ^ (b ^ d);
      Xor(a ^ c, b ^ d);
    }
  }

  lemma {:induction false} HalfXor(a: bv64, b: bv64)
    ensures Half(Xor(a, b)) == Xor(Half(a), Half(b))
  {
    calc {
      Half(Xor(a, b));
      (a ^ b) >> 1;
      { XorWords(a, b, a, b); }
      (a >> 1) ^ (b >> 1);
      Xor(a >> 1, b >> 1);
    }
  }

  lemma {:induction false} XorNeutral()
    ensures Neutral(Xor, 0)
  {
    forall x ensures Xor(x, 0) == x { XorZero(x); }
  }

  lemma {:induction false} XorAssociative()
    ensures Associative(Xor)
  {
    forall x, y, z ensures At(x, y, z) && Xor(Xor(x, y), z) == Xor(x, Xor(y, z)) { XorGroups(x, y, z); }
  }

  lemma {:induction false} XorInterchanges()
    ensures Interchanges(Xor)
  {
    forall a, b, c, d ensures Xor(Xor(a, b), Xor(c, d)) == Xor(Xor(a, c), Xor(b, d)) { XorSwaps(a, b, c, d); }
  }

  lemma {:induction false} HalfLinear()
    ensures Linear(Xor, Half)
  {
    forall a, b ensures At2(a, b) && Half(Xor(a, b)) == Xor(Half(a), Half(b)) { HalfXor(a, b); }
  }

  // ---------------------------------------------------------------------------
  // One bit
  // ---------------------------------------------------------------------------

  function PolyIf(bit: bool): bv64 { if bit then POLY else 0 }

  /** One round of the bit-at-a-time register, fed with one message bit. */
  function FeedBit(crc: bv64, bit: bool): bv64 {
    Xor(Double(crc), PolyIf((crc & TOP_BIT != 0) != bit))
  }

  function LowPoly(w: bv64): bv64 { if w & 1 != 0 then MIRRORED_POLY else 0 }

  /** The same round seen in the mirror, the message bit already mixed in. */
  function Down(crc: bv64): bv64 {
    Xor(Half(crc), LowPoly(crc))
  }

  lemma {:induction false} MixedBit(r: bv64, bit: bool)
    ensures Half(Xor(r, BitWord(bit))) == Half(r)
    ensures (Xor(r, BitWord(bit)) & 1 != 0) == ((r & 1 != 0) != bit)
  {
  }

  lemma ReflectPoly(bit: bool)
    ensures Reflect(PolyIf(bit)) == if bit then MIRRORED_POLY else 0
  {
  }

  lemma {:induction false} MirrorBit(crc: bv64, bit: bool)
    ensures Reflect(FeedBit(crc, bit)) == Down(Xor(Reflect(crc), BitWord(bit)))
  {
    var r := Reflect(crc);
    var odd := (crc & TOP_BIT != 0) != bit;
    calc {
      Reflect(FeedBit(crc, bit));
      { ReflectXor(Double(crc), PolyIf(odd)); }
      Xor(Reflect(Double(crc)), Reflect(PolyIf(odd)));
      { ReflectDouble(crc); ReflectPoly(odd); }
      Xor(Half(r), if odd then MIRRORED_POLY else 0);
      { ReflectDouble(crc); MixedBit(r, bit); }
      Down(Xor(r, BitWord(bit)));
    }
  }

  lemma LowBitXor(a: bv64, b: bv64)
    ensures ((a ^ b) & 1 != 0) == ((a & 1 != 0) != (b & 1 != 0))
  {
  }

  lemma PolyXor()
    ensures Xor(MIRRORED_POLY, 0) == MIRRORED_POLY == Xor(0, MIRRORED_POLY) && Xor(MIRRORED_POLY, MIRRORED_POLY) == 0
    ensures Xor(0, 0) == 0
  {
  }

  lemma LowPolyXor(a: bv64, b: bv64)
    ensures LowPoly(Xor(a, b)) == Xor(LowPoly(a), LowPoly(b))
  {
    LowBitXor(a, b);
    PolyXor();
  }

  lemma {:induction false} LowPolyLinear()
    ensures Linear(Xor, LowPoly)
  {
    forall a, b ensures At2(a, b) && LowPoly(Xor(a, b)) == Xor(LowPoly(a), LowPoly(b)) {
      LowPolyXor(a, b);
    }
  }

  lemma {:induction false} DownLinear()
    ensures Linear(Xor, Down)
  {
    XorInterchanges(); HalfLinear(); LowPolyLinear();
    LinearSum(Xor, Half, LowPoly, Down);
  }

  lemma {:induction false} DownTakesLowBit(w: bv64)
    ensures Down(w) == Xor(Down(LowBit(w)), Half(w))
  {
    var p := LowPoly(w);
    calc {
      Xor(Down(LowBit(w)), Half(w));
      { LowBitAlone(w); }
      Xor(Xor(0, p), Half(w));
      { XorZero(p); }
      Xor(p, Half(w));
      { XorZero(p); XorComm(p, Half(w)); }
      Down(w);
    }
  }

  lemma {:induction false} LowBitAlone(w: bv64)
    ensures Half(LowBit(w)) == 0
    ensures LowPoly(LowBit(w)) == LowPoly(w)
  {
  }

  lemma {:induction false} DownSlides()
    ensures Slides(Xor, Down, LowBit, Half)
  {
    XorAssociative(); DownLinear();
    forall w ensures At1(w) && Down(w) == Xor(Down(LowBit(w)), Half(w)) { DownTakesLowBit(w); }
  }

  // ---------------------------------------------------------------------------
  // One byte
  // ---------------------------------------------------------------------------

  /** The register after a stream of message bits. */
  function Fed(crc: bv64, bits: seq<bool>): bv64 {
    if bits == [] then crc else FeedBit(Fed(crc, bits[..|bits| - 1]), bits[|bits| - 1])
  }

  /** The bits of a byte in the order they are fed, lowest first. */
  function BitsOf(b: bv8): (s: seq<bool>)
    ensures |s| == 8
  {
    [b & 0x01 != 0, b & 0x02 != 0, b & 0x04 != 0, b & 0x08 != 0,
     b & 0x10 != 0, b & 0x20 != 0, b & 0x40 != 0, b & 0x80 != 0]
  }

  ghost function BitWords(bits: seq<bool>): (s: seq<bv64>)
    ensures |s| == |bits|
  {
    seq(|bits|, i requires 0 <= i < |bits| => BitWord(bits[i]))
  }

  lemma {:induction false} MirrorBits(crc: bv64, bits: seq<bool>)
    ensures Reflect(Fed(crc, bits)) == Stepped(Xor, Down, Reflect(crc), BitWords(bits))
  {
    if bits != [] {
      var init := bits[..|bits| - 1];
      MirrorBits(crc, init);
      MirrorBit(Fed(crc, init), bits[|bits| - 1]);
      assert BitWords(bits)[..|bits| - 1] == BitWords(init);
    }
  }

  lemma {:induction false} HalvedByte(b: bv8)
    ensures var w := b as bv64;
      && Half(w) == w >> 1 && Half(w >> 1) == w >> 2 && Half(w >> 2) == w >> 3 && Half(w >> 3) == w >> 4
      && Half(w >> 4) == w >> 5 && Half(w >> 5) == w >> 6 && Half(w >> 6) == w >> 7 && Half(w >> 7) == 0
  {
  }

  lemma {:induction false} LowBitsOfByte(b: bv8)
    ensures var w := b as bv64;
      && LowBit(w) == BitWord(b & 0x01 != 0) && LowBit(w >> 1) == BitWord(b & 0x02 != 0)
      && LowBit(w >> 2) == BitWord(b & 0x04 != 0) && LowBit(w >> 3) == BitWord(b & 0x08 != 0)
      && LowBit(w >> 4) == BitWord(b & 0x10 != 0) && LowBit(w >> 5) == BitWord(b & 0x20 != 0)
      && LowBit(w >> 6) == BitWord(b & 0x40 != 0) && LowBit(w >> 7) == BitWord(b & 0x80 != 0)
  {
  }

  lemma {:induction false} EightBitWords(b: bv8)
    ensures BitWords(BitsOf(b)) ==
      [BitWord(b & 0x01 != 0), BitWord(b & 0x02 != 0), BitWord(b & 0x04 != 0), BitWord(b & 0x08 != 0),
       BitWord(b & 0x10 != 0), BitWord(b & 0x20 != 0), BitWord(b & 0x40 != 0), BitWord(b & 0x80 != 0)]
  {
  }

  lemma {:induction false} SpellsBits(b: bv8)
    ensures Spells(LowBit, Half, 0, b as bv64, BitWords(BitsOf(b)))
  {
    var w := b as bv64;
    EightBitWords(b);
    HalvedByte(b);
    LowBitsOfByte(b);
    SpellsEight(LowBit, Half, 0, w, w >> 1, w >> 2, w >> 3, w >> 4, w >> 5, w >> 6, w >> 7,
      BitWord(b & 0x01 != 0), BitWord(b & 0x02 != 0), BitWord(b & 0x04 != 0), BitWord(b & 0x08 != 0),
      BitWord(b & 0x10 != 0), BitWord(b & 0x20 != 0), BitWord(b & 0x40 != 0), BitWord(b & 0x80 != 0));
  }

  /** The mirrored register after one byte: eight rounds. */
  ghost function Down8(crc: bv64): bv64 { Down(Down(Down(Down(Down(Down(Down(Down(crc)))))))) }

  /** A byte fed bit by bit is, in the mirror, one exclusive or and eight rounds. */
  lemma {:induction false} MirrorByte(crc: bv64, b: bv8)
    ensures Reflect(Fed(crc, BitsOf(b))) == Down8(Xor(Reflect(crc), b as bv64))
  {
    var r := Reflect(crc);
    MirrorBits(crc, BitsOf(b));
    DownSlides();
    XorNeutral();
    SpellsBits(b);
    SteppedWord(Xor, Down, LowBit, Half, 0, r, b as bv64, BitWords(BitsOf(b)));
    IterEight(Down, Xor(r, b as bv64));
  }

  lemma {:induction false} Down8OfHigh(x: bv64)
    requires x & 0xff == 0
    ensures Down8(x) == DropByte(x)
  {
  }

  lemma {:induction false} SplitByte(w: bv64)
    ensures Xor(w & 0xff, w & 0xffffffffffffff00) == w
    ensures (w & 0xffffffffffffff00) & 0xff == 0
    ensures DropByte(w & 0xffffffffffffff00) == DropByte(w)
  {
  }

  lemma {:induction false} Down8Xor(x: bv64, y: bv64)
    ensures Down8(Xor(x, y)) == Xor(Down8(x), Down8(y))
  {
    DownLinear();
    IterLinear(Xor, Down, 8, x, y);
    IterEight(Down, x); IterEight(Down, y); IterEight(Down, Xor(x, y));
  }

  lemma {:induction false} Down8TakesLowByte(w: bv64)
    ensures Down8(w) == Xor(Down8(LowByte(w)), DropByte(w))
  {
    var l, h := LowByte(w), w & 0xffffffffffffff00;
    calc {
      Down8(w);
      { SplitByte(w); }
      Down8(Xor(l, h));
      { Down8Xor(l, h); }
      Xor(Down8(l), Down8(h));
      { SplitByte(w); Down8OfHigh(h); }
      Xor(Down8(l), DropByte(h));
      { SplitByte(w); }
      Xor(Down8(l), DropByte(w));
    }
  }

  lemma {:induction false} Down8Linear()
    ensures Linear(Xor, Down8)
  {
    forall x, y ensures At2(x, y) && Down8(Xor(x, y)) == Xor(Down8(x), Down8(y)) { Down8Xor(x, y); }
  }

  lemma {:induction false} Down8Slides()
    ensures Slides(Xor, Down8, LowByte, DropByte)
  {
    XorAssociative(); Down8Linear();
    forall w ensures At1(w) && Down8(w) == Xor(Down8(LowByte(w)), DropByte(w)) { Down8TakesLowByte(w); }
  }
}
