/**
 The algebra behind table-driven checksums, free of any word size. A register is
 stepped by a linear map f; a message word mixed into the register is used up
 part by part. Sums are bitwise exclusive or in the instance of interest.
 */
module Slicing {

  // The laws below are used only at values named with At, At2 or At1 (always true):
  // left to match on their own they rewrite sums without end.
  ghost predicate At<T(!new)>(x: T, y: T, z: T) { x == x && y == y && z == z }
  ghost predicate At2<T(!new)>(x: T, y: T) { x == x && y == y }
  ghost predicate At1<T(!new)>(x: T) { x == x }

  ghost predicate Linear<T(!new)>(sum: (T, T) -> T, f: T -> T) {
    forall x, y {:trigger At2(x, y)} :: At2(x, y) && f(sum(x, y)) == sum(f(x), f(y))
  }

  ghost predicate Interchanges<T(!new)>(sum: (T, T) -> T) {
    forall a, b, c, d {:trigger sum(sum(a, b), sum(c, d))} :: sum(sum(a, b), sum(c, d)) == sum(sum(a, c), sum(b, d))
  }

  ghost predicate Associative<T(!new)>(sum: (T, T) -> T) {
    forall x, y, z {:trigger At(x, y, z)} :: At(x, y, z) && sum(sum(x, y), z) == sum(x, sum(y, z))
  }

  ghost predicate Neutral<T(!new)>(sum: (T, T) -> T, zero: T) {
    forall x {:trigger sum(x, zero)} :: sum(x, zero) == x
  }

  /** Stepping a word uses up its low part and moves the rest down. */
  ghost predicate Slides<T(!new)>(sum: (T, T) -> T, f: T -> T, lo: T -> T, hi: T -> T) {
    && Associative(sum)
    && Linear(sum, f)
    && forall w {:trigger At1(w)} :: At1(w) && f(w) == sum(f(lo(w)), hi(w))
  }

  ghost function Iter<T>(f: T -> T, n: nat, x: T): T {
    if n == 0 then x else Iter(f, n - 1, f(x))
  }

  lemma {:induction false} LinearSum<T(!new)>(sum: (T, T) -> T, g: T -> T, h: T -> T, f: T -> T)
    requires Interchanges(sum) && Linear(sum, g) && Linear(sum, h)
    requires forall x :: f(x) == sum(g(x), h(x))
    ensures Linear(sum, f)
  {
    forall x, y ensures At2(x, y) && f(sum(x, y)) == sum(f(x), f(y)) {
      assert At2(x, y);
      calc {
        f(sum(x, y));
        sum(sum(g(x), g(y)), sum(h(x), h(y)));
        sum(f(x), f(y));
      }
    }
  }

  lemma {:induction false} IterLast<T>(f: T -> T, n: nat, x: T)
    ensures Iter(f, n + 1, x) == f(Iter(f, n, x))
  {
    if n != 0 {
      IterLast(f, n - 1, f(x));
    }
  }

  lemma {:induction false} IterEight<T>(f: T -> T, x: T)
    ensures Iter(f, 8, x) == f(f(f(f(f(f(f(f(x))))))))
  {
    assert Iter(f, 8, x) == Iter(f, 6, f(f(x)));
    assert Iter(f, 6, f(f(x))) == Iter(f, 4, f(f(f(f(x)))));
  }

  lemma {:induction false} IterAdd<T>(f: T -> T, m: nat, n: nat, x: T)
    ensures Iter(f, m + n, x) == Iter(f, n, Iter(f, m, x))
  {
    if m != 0 {
      IterAdd(f, m - 1, n, f(x));
    }
  }

  /** Eight times eight steps. */
  lemma {:induction false} IterSixtyFour<T>(f: T -> T, g: T -> T, x: T)
    requires forall y :: Iter(f, 8, y) == g(y)
    ensures Iter(f, 64, x) == g(g(g(g(g(g(g(g(x))))))))
  {
    IterAdd(f, 8, 8, x); IterAdd(f, 16, 8, x); IterAdd(f, 24, 8, x); IterAdd(f, 32, 8, x);
    IterAdd(f, 40, 8, x); IterAdd(f, 48, 8, x); IterAdd(f, 56, 8, x);
  }

  lemma {:induction false} IterLinear<T(!new)>(sum: (T, T) -> T, f: T -> T, n: nat, x: T, y: T)
    requires Linear(sum, f)
    ensures Iter(f, n, sum(x, y)) == sum(Iter(f, n, x), Iter(f, n, y))
  {
    if n != 0 {
      assert At2(x, y);
      IterLinear(sum, f, n - 1, f(x), f(y));
    }
  }

  /** Stepping a word n + 1 times splits into its low part stepped as often and the rest stepped once less. */
  lemma {:induction false} IterSplits<T(!new)>(sum: (T, T) -> T, f: T -> T, lo: T -> T, hi: T -> T, n: nat, w: T)
    requires Slides(sum, f, lo, hi)
    ensures Iter(f, n + 1, w) == sum(Iter(f, n + 1, lo(w)), Iter(f, n, hi(w)))
  {
    assert At1(w);
    IterLinear(sum, f, n, f(lo(w)), hi(w));
  }

  // ---------------------------------------------------------------------------
  // Words and their parts
  // ---------------------------------------------------------------------------

  /** The word w consists of exactly these parts, lowest first. */
  ghost predicate Spells<T>(lo: T -> T, hi: T -> T, zero: T, w: T, parts: seq<T>) {
    if parts == [] then w == zero else lo(w) == parts[0] && Spells(lo, hi, zero, hi(w), parts[1..])
  }

  lemma {:induction false} SpellsMore<T>(lo: T -> T, hi: T -> T, zero: T, w: T, h: T, p: T, parts: seq<T>)
    requires lo(w) == p && hi(w) == h
    requires Spells(lo, hi, zero, h, parts)
    ensures Spells(lo, hi, zero, w, [p] + parts)
  {
    assert ([p] + parts)[1..] == parts;
  }

  lemma {:induction false} SpellsEight<T>(lo: T -> T, hi: T -> T, zero: T,
    w0: T, w1: T, w2: T, w3: T, w4: T, w5: T, w6: T, w7: T, p0: T, p1: T, p2: T, p3: T, p4: T, p5: T, p6: T, p7: T)
    requires hi(w0) == w1 && hi(w1) == w2 && hi(w2) == w3 && hi(w3) == w4
    requires hi(w4) == w5 && hi(w5) == w6 && hi(w6) == w7 && hi(w7) == zero
    requires lo(w0) == p0 && lo(w1) == p1 && lo(w2) == p2 && lo(w3) == p3
    requires lo(w4) == p4 && lo(w5) == p5 && lo(w6) == p6 && lo(w7) == p7
    ensures Spells(lo, hi, zero, w0, [p0, p1, p2, p3, p4, p5, p6, p7])
  {
    SpellsMore(lo, hi, zero, w7, zero, p7, []);
    SpellsMore(lo, hi, zero, w6, w7, p6, [p7]);
    SpellsMore(lo, hi, zero, w5, w6, p5, [p6] + [p7]);
    SpellsMore(lo, hi, zero, w4, w5, p4, [p5] + ([p6] + [p7]));
    var t := [p4] + ([p5] + ([p6] + [p7]));
    SpellsMore(lo, hi, zero, w3, w4, p3, t);
    SpellsMore(lo, hi, zero, w2, w3, p2, [p3] + t);
    SpellsMore(lo, hi, zero, w1, w2, p1, [p2] + ([p3] + t));
    SpellsMore(lo, hi, zero, w0, w1, p0, [p1] + ([p2] + ([p3] + t)));
    assert [p7] + [] == [p7];
    assert [p0] + ([p1] + ([p2] + ([p3] + t))) == [p0, p1, p2, p3, p4, p5, p6, p7];
  }

  /** The register after feeding the parts one at a time. */
  ghost function Stepped<T>(sum: (T, T) -> T, f: T -> T, r: T, parts: seq<T>): T {
    if parts == [] then r else f(sum(Stepped(sum, f, r, parts[..|parts| - 1]), parts[|parts| - 1]))
  }

  /** Each part carried down on its own, and the results added to acc. */
  ghost function Slices<T>(sum: (T, T) -> T, f: T -> T, acc: T, parts: seq<T>): T
    decreases |parts|
  {
    if parts == [] then acc else Slices(sum, f, sum(acc, Iter(f, |parts|, parts[0])), parts[1..])
  }

  lemma {:induction false} SteppedConcat<T>(sum: (T, T) -> T, f: T -> T, r: T, a: seq<T>, b: seq<T>)
    ensures Stepped(sum, f, r, a + b) == Stepped(sum, f, Stepped(sum, f, r, a), b)
  {
    if b == [] {
      assert a + b == a;
    } else {
      assert (a + b)[..|a + b| - 1] == a + b[..|b| - 1];
      SteppedConcat(sum, f, r, a, b[..|b| - 1]);
    }
  }

  /** Feeding the parts of a word is mixing the whole word in and stepping that many times. */
  lemma {:induction false} SteppedWord<T(!new)>(
    sum: (T, T) -> T, f: T -> T, lo: T -> T, hi: T -> T, zero: T, r: T, w: T, parts: seq<T>)
    requires Slides(sum, f, lo, hi) && Neutral(sum, zero)
    requires Spells(lo, hi, zero, w, parts)
    ensures Stepped(sum, f, r, parts) == Iter(f, |parts|, sum(r, w))
    decreases |parts|
  {
    if parts != [] {
      var first, rest := [parts[0]], parts[1..];
      calc {
        Stepped(sum, f, r, parts);
        { assert parts == first + rest; SteppedConcat(sum, f, r, first, rest); }
        Stepped(sum, f, Stepped(sum, f, r, first), rest);
        { assert first[..0] == []; assert Stepped(sum, f, r, first) == f(sum(r, lo(w))); }
        Stepped(sum, f, f(sum(r, lo(w))), rest);
        { SteppedWord(sum, f, lo, hi, zero, f(sum(r, lo(w))), hi(w), rest); }
        Iter(f, |rest|, sum(f(sum(r, lo(w))), hi(w)));
        { SlidePast(sum, f, lo, hi, r, w); }
        Iter(f, |rest|, f(sum(r, w)));
      }
    }
  }

  lemma {:induction false} SlidePast<T(!new)>(sum: (T, T) -> T, f: T -> T, lo: T -> T, hi: T -> T, r: T, w: T)
    requires Slides(sum, f, lo, hi)
    ensures f(sum(r, w)) == sum(f(sum(r, lo(w))), hi(w))
  {
    assert At1(w) && At2(r, w) && At2(r, lo(w)) && At(f(r), f(lo(w)), hi(w));
    calc {
      f(sum(r, w));
      sum(f(r), sum(f(lo(w)), hi(w)));
      sum(sum(f(r), f(lo(w))), hi(w));
      sum(f(sum(r, lo(w))), hi(w));
    }
  }

  /** Stepping a whole word is adding up its parts, each stepped on its own. */
  lemma {:induction false} SlicedWord<T(!new)>(
    sum: (T, T) -> T, f: T -> T, lo: T -> T, hi: T -> T, zero: T, acc: T, w: T, parts: seq<T>)
    requires Slides(sum, f, lo, hi) && Neutral(sum, zero)
    requires Spells(lo, hi, zero, w, parts)
    ensures sum(acc, Iter(f, |parts|, w)) == Slices(sum, f, acc, parts)
    decreases |parts|
  {
    if parts != [] {
      var first, rest := Iter(f, |parts|, lo(w)), Iter(f, |parts| - 1, hi(w));
      IterSplits(sum, f, lo, hi, |parts| - 1, w);
      assert At(acc, first, rest);
      SlicedWord(sum, f, lo, hi, zero, sum(acc, first), hi(w), parts[1..]);
    }
  }

  lemma NoSlices<T>(sum: (T, T) -> T, f: T -> T, acc: T)
    ensures Slices(sum, f, acc, []) == acc
  {
  }

  lemma {:induction false} SliceOne<T>(sum: (T, T) -> T, f: T -> T, acc: T, p: seq<T>, k: nat)
    requires k < |p|
    ensures Slices(sum, f, acc, p[k..]) == Slices(sum, f, sum(acc, Iter(f, |p| - k, p[k])), p[k + 1..])
  {
    assert p[k..][1..] == p[k + 1..];
  }

  lemma {:induction false} FirstSlice<T(!new)>(
    sum: (T, T) -> T, f: T -> T, lo: T -> T, hi: T -> T, zero: T, w: T, p: seq<T>)
    requires Slides(sum, f, lo, hi) && Neutral(sum, zero)
    requires p != [] && Spells(lo, hi, zero, w, p)
    ensures Iter(f, |p|, w) == Slices(sum, f, Iter(f, |p|, p[0]), p[1..])
  {
    IterSplits(sum, f, lo, hi, |p| - 1, w);
    SlicedWord(sum, f, lo, hi, zero, Iter(f, |p|, p[0]), hi(w), p[1..]);
  }
}
