/**
 What the CRC register holds: the remainder of the message, taken as a
 polynomial, after division by the Jones polynomial.
 */
module Crc64Poly {

  import opened Crc64Words
  import opened Gf2
  import opened Slicing

  /** The Jones polynomial. */
  const JONES: Poly := {64}
    + {63, 61, 59, 58, 56, 55, 52, 49, 48} + {47, 46, 44, 41, 37, 36, 34, 32}
    + {31, 28, 26, 23, 22, 19, 16} + {13, 12, 10, 8, 7, 5, 3, 0}

  // ---------------------------------------------------------------------------
  // Words as polynomials
  // ---------------------------------------------------------------------------

  predicate TopSet(r: bv64) { r & TOP_BIT != 0 }

  /** The polynomial of the n highest bits of a word, the highest of them the coefficient of the power n - 1. */
  ghost function TopPoly(r: bv64, n: nat): Poly
    decreases n
  {
    if n == 0 then {} else Sum(If(TopSet(r), {n - 1}), TopPoly(Double(r), n - 1))
  }

  /** The polynomial of a word: bit k is the coefficient of the power k. */
  ghost function PolyOf(r: bv64): Poly { TopPoly(r, 64) }

  lemma {:induction false} TopPolyBelow(r: bv64, n: nat)
    ensures Below(TopPoly(r, n), n)
    decreases n
  {
    if n > 0 {
      TopPolyBelow(Double(r), n - 1);
    }
  }

  /** The power k has a coefficient exactly if bit k is set, that is, if doubling brings a bit to the top from there. */
  lemma {:induction false} PolyBit(r: bv64, n: nat, k: nat)
    requires k < n
    ensures k in TopPoly(r, n) <==> TopSet(Iter(Double, n - 1 - k, r))
    decreases n
  {
    hide TopSet, Double;
    TopPolyBelow(Double(r), n - 1);
    if k < n - 1 {
      PolyBit(Double(r), n - 1, k);
    }
  }

  lemma UpOne(bit: bool, n: nat)
    ensures Up(If(bit, {n})) == If(bit, {n + 1})
  {
  }

  /** One more bit below the others. */
  lemma {:induction false} TopPolyMore(r: bv64, n: nat)
    ensures TopPoly(r, n + 1) == Sum(Up(TopPoly(r, n)), If(TopSet(Iter(Double, n, r)), {0}))
    decreases n
  {
    hide Sum, Up, If;
    if n == 0 {
      UpEmpty();
      SumLaws(If(TopSet(r), {0}), {}, {});
    } else {
      var top, rest := If(TopSet(r), {n - 1}), TopPoly(Double(r), n - 1);
      var low := If(TopSet(Iter(Double, n, r)), {0});
      TopPolyMore(Double(r), n - 1);
      UpSum(top, rest);
      UpOne(TopSet(r), n - 1);
      SumLaws(If(TopSet(r), {n}), Up(rest), low);
    }
  }

  function DoubleByte(r: bv64): bv64 { r << 8 }

  lemma EightDoubled(r: bv64)
    ensures Double(Double(Double(Double(Double(Double(Double(Double(r)))))))) == DoubleByte(r)
  {
  }

  lemma AllDoubled(r: bv64)
    ensures DoubleByte(DoubleByte(DoubleByte(DoubleByte(DoubleByte(DoubleByte(DoubleByte(DoubleByte(r)))))))) == 0
  {
  }

  /** Nothing is left of a word that is doubled 64 times. */
  lemma {:induction false} DoubledAway(r: bv64)
    ensures Iter(Double, 63, Double(r)) == 0
  {
    hide Double, DoubleByte;
    forall y ensures Iter(Double, 8, y) == DoubleByte(y) {
      IterEight(Double, y);
      EightDoubled(y);
    }
    IterSixtyFour(Double, DoubleByte, r);
    AllDoubled(r);
    assert Iter(Double, 64, r) == Iter(Double, 63, Double(r));
  }

  /** Doubling a word multiplies its polynomial by x, and drops the term that does not fit. */
  lemma {:induction false} DoublePoly(r: bv64)
    ensures Sum(PolyOf(Double(r)), If(TopSet(r), {64})) == Up(PolyOf(r))
  {
    hide Sum, Up, If, Double, TopPoly;
    var low, top := TopPoly(Double(r), 63), If(TopSet(r), {63});
    FirstTerm(r, 63);
    UpSum(top, low);
    UpOne(TopSet(r), 63);
    DoubledAway(r);
    TopPolyMore(Double(r), 63);
    NoTerm();
    SumLaws(Up(low), {}, {});
    SumLaws(Up(low), Up(top), {});
  }

  lemma FirstTerm(r: bv64, n: nat)
    ensures TopPoly(r, n + 1) == Sum(If(TopSet(r), {n}), TopPoly(Double(r), n))
  {
  }

  lemma NoTerm()
    ensures If(TopSet(0), {0}) == {}
  {
  }

  lemma TopXor(a: bv64, b: bv64)
    ensures TopSet(Xor(a, b)) == (TopSet(a) != TopSet(b))
  {
  }

  lemma DoubleXor(a: bv64, b: bv64)
    ensures Double(Xor(a, b)) == Xor(Double(a), Double(b))
  {
  }

  lemma IfSum(a: bool, b: bool, p: Poly)
    ensures If(a != b, p) == Sum(If(a, p), If(b, p))
  {
  }

  /** Exclusive or adds polynomials. */
  lemma {:induction false} XorPoly(a: bv64, b: bv64, n: nat)
    ensures TopPoly(Xor(a, b), n) == Sum(TopPoly(a, n), TopPoly(b, n))
    decreases n
  {
    hide Sum, If, Xor, Double, TopSet;
    if n == 0 {
      SumLaws({}, {}, {});
    } else {
      XorPoly(Double(a), Double(b), n - 1);
      DoubleXor(a, b);
      TopXor(a, b);
      IfSum(TopSet(a), TopSet(b), {n - 1});
      SumSwaps(If(TopSet(a), {n - 1}), If(TopSet(b), {n - 1}), TopPoly(Double(a), n - 1), TopPoly(Double(b), n - 1));
    }
  }

  // ---------------------------------------------------------------------------
  // The constant
  // ---------------------------------------------------------------------------

  /** The terms of the four highest bits of a word. */
  ghost function HighTerms(r: bv64, n: nat): Poly {
    If(r & 0x8000000000000000 != 0, {n + 3}) + If(r & 0x4000000000000000 != 0, {n + 2})
    + If(r & 0x2000000000000000 != 0, {n + 1}) + If(r & 0x1000000000000000 != 0, {n})
  }

  lemma {:induction false} TermApart(bit: bool, n: nat, p: Poly)
    requires Below(p, n)
    ensures Sum(If(bit, {n}), p) == If(bit, {n}) + p
  {
  }

  lemma {:induction false} OneTerm(r: bv64, n: nat)
    ensures TopPoly(r, n + 1) == If(TopSet(r), {n}) + TopPoly(Double(r), n)
  {
    TopPolyBelow(Double(r), n);
    TermApart(TopSet(r), n, TopPoly(Double(r), n));
  }

  lemma SecondBit(r: bv64)
    ensures ((r << 1) & 0x8000000000000000 != 0) == (r & 0x4000000000000000 != 0)
  {
  }

  lemma ThirdBit(r: bv64)
    ensures ((r << 2) & 0x8000000000000000 != 0) == (r & 0x2000000000000000 != 0)
  {
  }

  lemma FourthBit(r: bv64)
    ensures ((r << 3) & 0x8000000000000000 != 0) == (r & 0x1000000000000000 != 0)
  {
  }

  lemma TopIs(r: bv64)
    ensures TopSet(r) == (r & 0x8000000000000000 != 0)
  {
  }

  lemma DoubledBits(r: bv64)
    ensures Double(r) == r << 1 && Double(r << 1) == r << 2 && Double(r << 2) == r << 3 && Double(r << 3) == r << 4
  {
  }

  function FourUp(r: bv64): bv64 { r << 4 }

  lemma {:induction false} FourTerms(r: bv64, n: nat)
    ensures TopPoly(r, n + 4) == HighTerms(r, n) + TopPoly(FourUp(r), n)
  {
    hide TopPoly, TopSet, Double, If;
    TopIs(r);
    TopIs(r << 1);
    TopIs(r << 2);
    TopIs(r << 3);
    SecondBit(r);
    ThirdBit(r);
    FourthBit(r);
    DoubledBits(r);
    OneTerm(r, n + 3);
    OneTerm(r << 1, n + 2);
    OneTerm(r << 2, n + 1);
    OneTerm(r << 3, n);
  }

  lemma Together(a: Poly, b: Poly, c: Poly, d: Poly, e: Poly)
    ensures a + (b + (c + (d + e))) == a + b + c + d + e
  {
  }

  /** The sixteen highest terms of a word a, if b, c and d are the word moved up by four, eight and twelve bits. */
  lemma {:induction false} SixteenTerms(a: bv64, b: bv64, c: bv64, d: bv64, e: bv64, n: nat)
    requires b == FourUp(a) && c == FourUp(b) && d == FourUp(c) && e == FourUp(d)
    ensures TopPoly(a, n + 16)
      == HighTerms(a, n + 12) + HighTerms(b, n + 8) + HighTerms(c, n + 4) + HighTerms(d, n) + TopPoly(e, n)
  {
    hide TopPoly, HighTerms, FourUp;
    FourTerms(a, n + 12);
    FourTerms(b, n + 8);
    FourTerms(c, n + 4);
    FourTerms(d, n);
    Together(HighTerms(a, n + 12), HighTerms(b, n + 8), HighTerms(c, n + 4), HighTerms(d, n), TopPoly(e, n));
  }

  lemma Jones63Bits()
    ensures FourUp(0xad93d23594c935a9) == 0xd93d23594c935a90 && FourUp(0xd93d23594c935a90) == 0x93d23594c935a900
    ensures FourUp(0x93d23594c935a900) == 0x3d23594c935a9000 && FourUp(0x3d23594c935a9000) == 0xd23594c935a90000
    ensures HighTerms(0xad93d23594c935a9, 60) == {63, 61}
    ensures HighTerms(0xd93d23594c935a90, 56) == {59, 58, 56}
    ensures HighTerms(0x93d23594c935a900, 52) == {55, 52}
    ensures HighTerms(0x3d23594c935a9000, 48) == {49, 48}
  {
  }

  lemma {:induction false} Jones63()
    ensures TopPoly(0xad93d23594c935a9, 64) == {63, 61, 59, 58, 56, 55, 52, 49, 48} + TopPoly(0xd23594c935a90000, 48)
  {
    hide TopPoly, HighTerms, FourUp;
    Jones63Bits();
    SixteenTerms(0xad93d23594c935a9, 0xd93d23594c935a90, 0x93d23594c935a900,
      0x3d23594c935a9000, 0xd23594c935a90000, 48);
    assert {63, 61} + {59, 58, 56} + {55, 52} + {49, 48} == {63, 61, 59, 58, 56, 55, 52, 49, 48};
  }

  lemma Jones47Bits()
    ensures FourUp(0xd23594c935a90000) == 0x23594c935a900000 && FourUp(0x23594c935a900000) == 0x3594c935a9000000
    ensures FourUp(0x3594c935a9000000) == 0x594c935a90000000 && FourUp(0x594c935a90000000) == 0x94c935a900000000
    ensures HighTerms(0xd23594c935a90000, 44) == {47, 46, 44}
    ensures HighTerms(0x23594c935a900000, 40) == {41}
    ensures HighTerms(0x3594c935a9000000, 36) == {37, 36}
    ensures HighTerms(0x594c935a90000000, 32) == {34, 32}
  {
  }

  lemma {:induction false} Jones47()
    ensures TopPoly(0xd23594c935a90000, 48) == {47, 46, 44, 41, 37, 36, 34, 32} + TopPoly(0x94c935a900000000, 32)
  {
    hide TopPoly, HighTerms, FourUp;
    Jones47Bits();
    SixteenTerms(0xd23594c935a90000, 0x23594c935a900000, 0x3594c935a9000000,
      0x594c935a90000000, 0x94c935a900000000, 32);
    assert {47, 46, 44} + {41} + {37, 36} + {34, 32} == {47, 46, 44, 41, 37, 36, 34, 32};
  }

  lemma Jones31Bits()
    ensures FourUp(0x94c935a900000000) == 0x4c935a9000000000 && FourUp(0x4c935a9000000000) == 0xc935a90000000000
    ensures FourUp(0xc935a90000000000) == 0x935a900000000000 && FourUp(0x935a900000000000) == 0x35a9000000000000
    ensures HighTerms(0x94c935a900000000, 28) == {31, 28}
    ensures HighTerms(0x4c935a9000000000, 24) == {26}
    ensures HighTerms(0xc935a90000000000, 20) == {23, 22}
    ensures HighTerms(0x935a900000000000, 16) == {19, 16}
  {
  }

  lemma {:induction false} Jones31()
    ensures TopPoly(0x94c935a900000000, 32) == {31, 28, 26, 23, 22, 19, 16} + TopPoly(0x35a9000000000000, 16)
  {
    hide TopPoly, HighTerms, FourUp;
    Jones31Bits();
    SixteenTerms(0x94c935a900000000, 0x4c935a9000000000, 0xc935a90000000000,
      0x935a900000000000, 0x35a9000000000000, 16);
    assert {31, 28} + {26} + {23, 22} + {19, 16} == {31, 28, 26, 23, 22, 19, 16};
  }

  lemma Jones15Bits()
    ensures FourUp(0x35a9000000000000) == 0x5a90000000000000 && FourUp(0x5a90000000000000) == 0xa900000000000000
    ensures FourUp(0xa900000000000000) == 0x9000000000000000 && FourUp(0x9000000000000000) == 0x0000000000000000
    ensures HighTerms(0x35a9000000000000, 12) == {13, 12}
    ensures HighTerms(0x5a90000000000000, 8) == {10, 8}
    ensures HighTerms(0xa900000000000000, 4) == {7, 5}
    ensures HighTerms(0x9000000000000000, 0) == {3, 0}
  {
  }

  lemma {:induction false} Jones15()
    ensures TopPoly(0x35a9000000000000, 16) == {13, 12, 10, 8, 7, 5, 3, 0} + TopPoly(0x0000000000000000, 0)
  {
    hide TopPoly, HighTerms, FourUp;
    Jones15Bits();
    SixteenTerms(0x35a9000000000000, 0x5a90000000000000, 0xa900000000000000,
      0x9000000000000000, 0x0000000000000000, 0);
    assert {13, 12} + {10, 8} + {7, 5} + {3, 0} == {13, 12, 10, 8, 7, 5, 3, 0};
  }

  /** The constant is the Jones polynomial without its highest term. */
  lemma {:induction false} PolyIsJones()
    ensures Sum({64}, PolyOf(POLY)) == JONES
  {
    hide TopPoly;
    Jones63();
    Jones47();
    Jones31();
    Jones15();
    NoBits(0);
    JonesTogether(TopPoly(POLY, 64), TopPoly(0xd23594c935a90000, 48), TopPoly(0x94c935a900000000, 32),
      TopPoly(0x35a9000000000000, 16));
    TopPolyBelow(POLY, 64);
    TermApart(true, 64, PolyOf(POLY));
  }

  lemma JonesTogether(p: Poly, q: Poly, r: Poly, s: Poly)
    requires p == {63, 61, 59, 58, 56, 55, 52, 49, 48} + q && q == {47, 46, 44, 41, 37, 36, 34, 32} + r
    requires r == {31, 28, 26, 23, 22, 19, 16} + s && s == {13, 12, 10, 8, 7, 5, 3, 0} + {}
    ensures {64} + p == JONES
  {
    Together({64}, {63, 61, 59, 58, 56, 55, 52, 49, 48}, {47, 46, 44, 41, 37, 36, 34, 32},
      {31, 28, 26, 23, 22, 19, 16}, s);
  }

  lemma NoBits(r: bv64)
    ensures TopPoly(r, 0) == {}
  {
  }

  // ---------------------------------------------------------------------------
  // The register
  // ---------------------------------------------------------------------------

  /** One round: the register is multiplied by x, the message bit is added above it, and the result is reduced. */
  lemma {:induction false} FeedPoly(r: bv64, bit: bool)
    ensures Sum(Up(PolyOf(r)), If(bit, {64})) == Sum(If(TopSet(r) != bit, JONES), PolyOf(FeedBit(r, bit)))
  {
    hide Sum, Up, If, TopPoly, Double, TopSet, Xor;
    var odd := TopSet(r) != bit;
    var d, high := PolyOf(Double(r)), {64};
    DoublePoly(r);
    PolyIsJones();
    XorPoly(Double(r), PolyIf(odd), 64);
    OddTerm(odd);
    FeedIs(r, bit);
    Rearranged(d, TopSet(r), bit, PolyOf(PolyIf(odd)), JONES);
  }

  lemma FeedIs(r: bv64, bit: bool)
    ensures FeedBit(r, bit) == Xor(Double(r), PolyIf(TopSet(r) != bit))
  {
  }

  lemma OddTerm(odd: bool)
    ensures PolyOf(PolyIf(odd)) == if odd then PolyOf(POLY) else {}
  {
    hide TopPoly;
    ZeroPoly(64);
  }

  lemma {:induction false} ZeroPoly(n: nat)
    ensures TopPoly(0, n) == {}
  {
    if n > 0 {
      ZeroPoly(n - 1);
    }
  }

  lemma Rearranged(d: Poly, top: bool, bit: bool, low: Poly, jones: Poly)
    requires if top != bit then Sum({64}, low) == jones else low == {}
    ensures Sum(Sum(d, If(top, {64})), If(bit, {64})) == Sum(If(top != bit, jones), Sum(d, low))
  {
  }

  /** The register after some bits, and the multiples of the Jones polynomial taken away so far. */
  lemma {:induction false} FedRemainder(crc: bv64, bits: seq<bool>) returns (q: seq<bool>)
    ensures Sum(Raised(PolyOf(crc), |bits|), Product(bits, {64})) == Sum(Product(q, JONES), PolyOf(Fed(crc, bits)))
  {
    hide Sum, Up, If, FeedBit, PolyOf;
    if bits == [] {
      q := [];
      SumLaws(PolyOf(crc), {}, {});
    } else {
      var n := |bits| - 1;
      var before := FedRemainder(crc, bits[..n]);
      var r := Fed(crc, bits[..n]);
      var odd := TopSet(r) != bits[n];
      q := before + [odd];
      assert q[..|before|] == before;
      FeedPoly(r, bits[n]);
      OneMoreBit(Raised(PolyOf(crc), n), Product(bits[..n], {64}), Product(before, JONES), PolyOf(r), If(bits[n], {64}),
        If(odd, JONES), PolyOf(FeedBit(r, bits[n])));
    }
  }

  lemma OneMoreBit(c: Poly, m: Poly, t: Poly, r: Poly, bit: Poly, j: Poly, r': Poly)
    requires Sum(c, m) == Sum(t, r) && Sum(Up(r), bit) == Sum(j, r')
    ensures Sum(Up(c), Sum(Up(m), bit)) == Sum(Sum(Up(t), j), r')
  {
    hide Sum, Up;
    UpSum(c, m);
    UpSum(t, r);
    SumLaws(Up(c), Up(m), bit);
    SumLaws(Up(t), Up(r), bit);
    SumLaws(Up(t), j, r');
  }

  /** The register is the remainder of the message above it. */
  lemma {:induction false} FedIsRemainder(crc: bv64, bits: seq<bool>)
    ensures IsRemainder(Sum(Raised(PolyOf(crc), |bits|), Product(bits, {64})), JONES, PolyOf(Fed(crc, bits)))
  {
    hide TopPoly;
    var q := FedRemainder(crc, bits);
    TopPolyBelow(Fed(crc, bits), 64);
  }
}
