/**
 Polynomials over the field of two elements, as the sets of their exponents:
 sums, products, and division by a polynomial of degree 64.
 */
module Gf2 {

  type Poly = set<nat>

  /** The terms of which there is an odd number. */
  ghost function Sum(p: Poly, q: Poly): Poly { (p - q) + (q - p) }

  /** Multiplication by x. */
  ghost function Up(p: Poly): Poly { set k | k in p :: k + 1 }

  ghost function Raised(p: Poly, n: nat): Poly { if n == 0 then p else Up(Raised(p, n - 1)) }

  /** The product with a polynomial that is given by its coefficients, highest first. */
  ghost function Product(q: seq<bool>, p: Poly): Poly {
    if q == [] then {}
    else Sum(Up(Product(q[..|q| - 1], p)), If(q[|q| - 1], p))
  }

  ghost function If(bit: bool, p: Poly): Poly { if bit then p else {} }

  /** All exponents are below n. */
  ghost predicate Below(p: Poly, n: nat) { forall k :: k in p ==> k < n }

  // ---------------------------------------------------------------------------
  // Laws
  // ---------------------------------------------------------------------------

  lemma SumLaws(p: Poly, q: Poly, r: Poly)
    ensures Sum(p, q) == Sum(q, p)
    ensures Sum(Sum(p, q), r) == Sum(p, Sum(q, r))
    ensures Sum(p, p) == {} && Sum(p, {}) == p
  {
  }

  lemma SumSwaps(a: Poly, b: Poly, c: Poly, d: Poly)
    ensures Sum(Sum(a, b), Sum(c, d)) == Sum(Sum(a, c), Sum(b, d))
  {
  }

  lemma UpIs(p: Poly, k: nat)
    ensures k in Up(p) <==> k > 0 && k - 1 in p
  {
    if k > 0 && k - 1 in p {
      assert (k - 1) + 1 in Up(p);
    }
  }

  lemma UpSum(p: Poly, q: Poly)
    ensures Up(Sum(p, q)) == Sum(Up(p), Up(q))
  {
    forall k: nat ensures k in Up(Sum(p, q)) <==> k in Sum(Up(p), Up(q)) {
      UpIs(Sum(p, q), k);
      UpIs(p, k);
      UpIs(q, k);
    }
  }

  lemma UpEmpty()
    ensures Up({}) == {}
  {
  }

  lemma UpBelow(p: Poly, n: nat)
    requires Below(p, n)
    ensures Below(Up(p), n + 1)
  {
  }

  // ---------------------------------------------------------------------------
  // Products
  // ---------------------------------------------------------------------------

  function XorAll(a: seq<bool>, b: seq<bool>): (r: seq<bool>)
    requires |a| == |b|
    ensures |r| == |a|
  {
    seq(|a|, i requires 0 <= i < |a| => a[i] != b[i])
  }

  lemma {:induction false} ProductSum(a: seq<bool>, b: seq<bool>, p: Poly)
    requires |a| == |b|
    ensures Product(XorAll(a, b), p) == Sum(Product(a, p), Product(b, p))
  {
    if a != [] {
      var n := |a| - 1;
      ProductSum(a[..n], b[..n], p);
      assert XorAll(a, b)[..n] == XorAll(a[..n], b[..n]);
      var x, y := Product(a[..n], p), Product(b[..n], p);
      UpSum(x, y);
      SumSwaps(Up(x), Up(y), If(a[n], p), If(b[n], p));
      SumLaws(p, p, {});
      SumLaws({}, p, {});
    }
  }

  /** Leading zeros change nothing. */
  lemma {:induction false} LeadingZero(q: seq<bool>, p: Poly)
    ensures Product([false] + q, p) == Product(q, p)
  {
    if q == [] {
      assert ([false] + q)[..0] == [];
      UpEmpty();
      SumLaws({}, {}, {});
    } else {
      var n := |q| - 1;
      assert ([false] + q)[..n + 1] == [false] + q[..n];
      LeadingZero(q[..n], p);
    }
  }

  /** A product with a polynomial of degree 64 is zero, or has a term of degree 64 or more. */
  lemma {:induction false} ProductDegree(q: seq<bool>, p: Poly)
    requires 64 in p && Below(p, 65)
    ensures Below(Product(q, p), 64 + |q|)
    ensures Product(q, p) == {} || exists k :: k in Product(q, p) && k >= 64
  {
    if q != [] {
      var n := |q| - 1;
      var x := Product(q[..n], p);
      ProductDegree(q[..n], p);
      UpBelow(x, 64 + n);
      if x == {} {
        UpEmpty();
        SumLaws({}, If(q[n], p), {});
        SumLaws(If(q[n], p), {}, {});
      } else {
        TopTerm(x, p, q[n]);
      }
    }
  }

  lemma {:induction false} TopTerm(x: Poly, p: Poly, bit: bool)
    requires Below(p, 65) && exists k :: k in x && k >= 64
    ensures exists k :: k in Sum(Up(x), If(bit, p)) && k >= 64
  {
    var k: nat :| k in x && k >= 64;
    UpIs(x, k + 1);
    assert k + 1 in Sum(Up(x), If(bit, p));
  }

  // ---------------------------------------------------------------------------
  // Remainders
  // ---------------------------------------------------------------------------

  /** r is what is left of m when multiples of p are taken away, and its degree is less than 64. */
  ghost predicate IsRemainder(m: Poly, p: Poly, r: Poly) {
    Below(r, 64) && exists q: seq<bool> :: m == Sum(Product(q, p), r)
  }

  lemma {:induction false} Padded(q: seq<bool>, n: nat, p: Poly) returns (q': seq<bool>)
    ensures |q'| == |q| + n && Product(q', p) == Product(q, p)
  {
    if n == 0 {
      q' := q;
    } else {
      q' := Padded(q, n - 1, p);
      LeadingZero(q', p);
      q' := [false] + q';
    }
  }

  /** There is only one remainder. */
  lemma {:induction false} RemainderUnique(m: Poly, p: Poly, r: Poly, s: Poly)
    requires 64 in p && Below(p, 65) && IsRemainder(m, p, r) && IsRemainder(m, p, s)
    ensures r == s
  {
    var a :| m == Sum(Product(a, p), r);
    var b :| m == Sum(Product(b, p), s);
    var a' := Padded(a, |b|, p);
    var b' := Padded(b, |a|, p);
    ProductSum(a', b', p);
    ProductDegree(XorAll(a', b'), p);
    SameSums(Product(a, p), r, Product(b, p), s);
  }

  lemma SameSums(a: Poly, r: Poly, b: Poly, s: Poly)
    requires Sum(a, r) == Sum(b, s) && Below(r, 64) && Below(s, 64)
    requires Sum(a, b) == {} || exists k :: k in Sum(a, b) && k >= 64
    ensures r == s
  {
    assert Sum(a, b) == Sum(r, s) by {
      SumSwaps(a, r, b, s);
      assert Sum(Sum(a, r), Sum(b, s)) == {};
      assert Sum(Sum(a, b), Sum(r, s)) == {};
    }
    assert Below(Sum(r, s), 64);
  }
}
