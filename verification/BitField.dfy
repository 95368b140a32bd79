/**
 Integers of any width at any bit of a string: reading, writing, and adding
 with overflow in fixed width.
 */
module BitField {

  import opened Bits
  import opened Wrappers

  // ---------------------------------------------------------------------------
  // Powers of two
  // ---------------------------------------------------------------------------

  function Pow2(n: nat): (r: nat)
    ensures r > 0
  {
    if n == 0 then 1 else 2 * Pow2(n - 1)
  }

  const TWO_63 := 0x8000_0000_0000_0000
  const TWO_64 := 0x1_0000_0000_0000_0000

  lemma Pow2Big()
    ensures Pow2(63) == TWO_63 && Pow2(64) == TWO_64
  {
    assert Pow2(8) == 0x100;
    assert Pow2(16) == 0x1_0000;
    assert Pow2(24) == 0x100_0000;
    assert Pow2(32) == 0x1_0000_0000;
    assert Pow2(40) == 0x100_0000_0000;
    assert Pow2(48) == 0x1_0000_0000_0000;
    assert Pow2(56) == 0x100_0000_0000_0000;
  }

  lemma {:induction false} Pow2Grows(a: nat, b: nat)
    requires a <= b
    ensures Pow2(a) <= Pow2(b)
    decreases b
  {
    if a < b {
      Pow2Grows(a, b - 1);
    }
  }

  /** Quotient and remainder are unique. */
  lemma DivModIs(x: int, m: int, q: int, r: int)
    requires m > 0 && x == q * m + r && 0 <= r < m
    ensures x / m == q && x % m == r
  {
    var d := x / m - q;
    assert x == (x / m) * m + x % m;
    assert d * m == r - x % m;
    if d > 0 {
      AtLeastOnce(d, m);
    } else if d < 0 {
      AtLeastOnce(-d, m);
    }
  }

  lemma AtLeastOnce(d: int, m: int)
    requires d >= 1 && m > 0
    ensures d * m >= m && -d * m == -(d * m)
  {
  }

  lemma DoubleMod(q: nat, m: nat)
    requires m > 0
    ensures 2 * ((q / 2) % m) + q % 2 == q % (2 * m)
  {
    var h, b := q / 2, q % 2;
    var t, r := h / m, h % m;
    assert h == t * m + r;
    assert q == t * (2 * m) + (2 * r + b) by {
      assert t * (2 * m) == 2 * (t * m);
    }
    DivModIs(q, 2 * m, t, 2 * r + b);
  }

  lemma HalfOfQuotient(v: nat, m: nat)
    requires m > 0
    ensures v / m / 2 == v / (2 * m)
  {
    var q, r := v / m, v % m;
    var t, b := q / 2, q % 2;
    assert v == q * m + r && q == 2 * t + b;
    assert v == t * (2 * m) + (b * m + r) by {
      assert q * m == 2 * t * m + b * m;
      assert 2 * t * m == t * (2 * m);
    }
    assert b == 0 || b == 1;
    assert b * m + r < 2 * m;
    DivModIs(v, 2 * m, t, b * m + r);
  }

  // ---------------------------------------------------------------------------
  // The value of a field
  // ---------------------------------------------------------------------------

  /** The number that the bits of a field spell, the first one being the highest. */
  function FieldValue(s: seq<bv8>, offset: nat, bits: nat): (v: nat)
    requires offset + bits <= 8 * |s|
    ensures v < Pow2(bits)
  {
    if bits == 0 then 0 else 2 * FieldValue(s, offset, bits - 1) + One(BitAt(s, offset + bits - 1))
  }

  lemma {:induction false} SameField(s: seq<bv8>, t: seq<bv8>, offset: nat, offset': nat, bits: nat)
    requires offset + bits <= 8 * |s| && offset' + bits <= 8 * |t|
    requires forall q :: offset <= q < offset + bits ==> BitAt(s, q) == BitAt(t, q - offset + offset')
    ensures FieldValue(s, offset, bits) == FieldValue(t, offset', bits)
    decreases bits
  {
    if bits > 0 {
      SameField(s, t, offset, offset', bits - 1);
    }
  }

  /** A 64-bit number read as a signed one. */
  function AsSigned(u: nat): int
    requires u < TWO_64
  {
    if u >= TWO_63 then u - TWO_64 else u
  }

  /** Bit k of a number. */
  predicate NumberBit(v: nat, k: nat) { (v / Pow2(k)) % 2 == 1 }

  function SignedValue(u: nat, bits: nat): (v: int)
    requires bits > 0 && u < Pow2(bits)
    ensures -(Pow2(bits - 1) as int) <= v < Pow2(bits - 1)
  {
    if u >= Pow2(bits - 1) then u - Pow2(bits) else u
  }

  /** What is stored for a number: its lowest bits. */
  function Stored(v: int, bits: nat): (u: nat)
    ensures u < Pow2(bits)
  {
    v % Pow2(bits)
  }

  /** A number in the range of a signed field reads back as it was stored. */
  lemma StoredSigned(v: int, bits: nat)
    requires bits > 0 && -(Pow2(bits - 1) as int) <= v < Pow2(bits - 1)
    ensures SignedValue(Stored(v, bits), bits) == v
  {
    var m := Pow2(bits);
    if v >= 0 {
      DivModIs(v, m, 0, v);
    } else {
      DivModIs(v, m, -1, v + m);
    }
  }

  lemma StoredUnsigned(v: nat, bits: nat)
    requires v < Pow2(bits)
    ensures Stored(v, bits) == v
  {
    DivModIs(v, Pow2(bits), 0, v);
  }

  // ---------------------------------------------------------------------------
  // Reading and writing
  // ---------------------------------------------------------------------------

  function WithBit(b: bv8, i: nat, v: bool): bv8
    requires i < 8
  {
    Joined(Cleared(b, Mask(i)), if v then Mask(i) else 0)
  }

  function Cleared(b: bv8, m: bv8): bv8 { b & !m }

  function Joined(b: bv8, m: bv8): bv8 { b | m }

  lemma ClearedBit(b: bv8, m: bv8, k: nat)
    requires k < 8
    ensures BitOf(Cleared(b, m), k) <==> BitOf(b, k) && !BitOf(m, k)
  {
    hide BitOf;
    BitsOfMasked(b, m, k);
  }

  lemma JoinedBit(b: bv8, m: bv8, k: nat)
    requires k < 8
    ensures BitOf(Joined(b, m), k) <==> BitOf(b, k) || BitOf(m, k)
  {
    hide BitOf;
    BitsOfMasked(b, m, k);
  }

  lemma WithBitIs(b: bv8, i: nat, v: bool, k: nat)
    requires i < 8 && k < 8
    ensures BitOf(WithBit(b, i, v), k) == if k == i then v else BitOf(b, k)
  {
    hide BitOf, Mask, Cleared, Joined;
    JoinedBit(Cleared(b, Mask(i)), if v then Mask(i) else 0, k);
    ClearedBit(b, Mask(i), k);
    MaskBits(i, k);
  }

  lemma MaskBits(i: nat, k: nat)
    requires i < 8 && k < 8
    ensures BitOf(Mask(i), k) <==> i == k
    ensures !BitOf(0, k)
  {
  }

  method SetBit(p: array<bv8>, at: nat, v: bool)
    requires at < 8 * p.Length
    modifies p
    ensures forall q :: 0 <= q < 8 * p.Length ==> BitAt(p[..], q) == if q == at then v else BitAt(old(p[..]), q)
  {
    var byte, bit := at / 8, at % 8;
    p[byte] := WithBit(p[byte], bit, v);
    forall q | 0 <= q < 8 * p.Length ensures BitAt(p[..], q) == if q == at then v else BitAt(old(p[..]), q) {
      if q / 8 == byte {
        WithBitIs(old(p[byte]), bit, v, q % 8);
      }
    }
  }

  /** Writes the lowest bits of a number, highest first; no other bit changes. */
  method SetUnsigned(p: array<bv8>, offset: nat, bits: nat, value: nat)
    requires offset + bits <= 8 * p.Length
    modifies p
    ensures FieldValue(p[..], offset, bits) == Stored(value, bits)
    ensures forall q :: 0 <= q < 8 * p.Length && !(offset <= q < offset + bits) ==>
      BitAt(p[..], q) == BitAt(old(p[..]), q)
  {
    hide BitAt, NumberBit;
    for j := 0 to bits
      invariant FieldValue(p[..], offset, j) == Stored(value / Pow2(bits - j), j)
      invariant forall q :: 0 <= q < 8 * p.Length && !(offset <= q < offset + j) ==>
        BitAt(p[..], q) == BitAt(old(p[..]), q)
    {
      ghost var before := p[..];
      SetBit(p, offset + j, NumberBit(value, bits - 1 - j));
      SameField(before, p[..], offset, offset, j);
      StoredMore(value, bits, j);
    }
  }

  lemma StoredMore(value: nat, bits: nat, j: nat)
    requires j < bits
    ensures 2 * Stored(value / Pow2(bits - j), j) + One(NumberBit(value,
        bits - 1 - j)) == Stored(value / Pow2(bits - 1 - j), j + 1)
  {
    HalfOfQuotient(value, Pow2(bits - 1 - j));
    DoubleMod(value / Pow2(bits - 1 - j), Pow2(j));
  }

  method GetUnsigned(p: seq<bv8>, offset: nat, bits: nat) returns (value: nat)
    requires offset + bits <= 8 * |p|
    ensures value == FieldValue(p, offset, bits)
  {
    value := 0;
    for j := 0 to bits
      invariant value == FieldValue(p, offset, j)
    {
      value := 2 * value + One(BitAt(p, offset + j));
    }
  }

  method GetSigned(p: seq<bv8>, offset: nat, bits: nat) returns (value: int)
    requires 0 < bits <= 64 && offset + bits <= 8 * |p|
    ensures value == SignedValue(FieldValue(p, offset, bits), bits)
  {
    Pow2Big();
    Pow2Grows(bits, 64);
    var u := GetUnsigned(p, offset, bits);
    TopBit(u, bits);
    value := AsSigned(u);
    if bits < 64 {
      Pow2Grows(bits, 63);
      if NumberBit(u, bits - 1) {
        value := value - Pow2(bits);
      }
    }
  }

  lemma TopBit(u: nat, bits: nat)
    requires bits > 0 && u < Pow2(bits)
    ensures NumberBit(u, bits - 1) <==> u >= Pow2(bits - 1)
  {
    var m := Pow2(bits - 1);
    if u < m {
      DivModIs(u, m, 0, u);
    } else {
      DivModIs(u, m, 1, u - m);
    }
  }

  // ---------------------------------------------------------------------------
  // Overflow
  // ---------------------------------------------------------------------------

  datatype Policy = Wrap | Sat | Fail

  /** No overflow, or the value that the policy asks for (none for Fail). */
  datatype Check = Fits | Over(limit: int) | Under(limit: int)

  /** A sum or difference in 64-bit arithmetic. */
  function Wrapped(x: int): (u: nat)
    ensures u < TWO_64
  {
    x % TWO_64
  }

  predicate IsInt64(x: int) { -TWO_63 <= x < TWO_63 }

  function UnsignedMax(bits: nat): nat { if bits == 64 then TWO_64 - 1 else Pow2(bits) - 1 }

  predicate UnsignedOver(value: nat, incr: int, bits: nat) {
    var maxincr := AsSigned(Wrapped(UnsignedMax(bits) - value));
    value > UnsignedMax(bits) || (incr > 0 && incr > maxincr)
  }

  predicate UnsignedUnder(value: nat, incr: int) {
    var minincr := AsSigned(Wrapped(0 - value));
    incr < 0 && incr < minincr
  }

  function CheckUnsigned(value: nat, incr: int, bits: nat, policy: Policy): Check {
    if UnsignedOver(value, incr, bits) then
      if policy == Wrap then Over(Stored(Wrapped(value + incr), bits)) else Over(UnsignedMax(bits))
    else if UnsignedUnder(value, incr) then
      if policy == Wrap then Over(Stored(Wrapped(value + incr), bits)) else Under(0)
    else Fits
  }

  /** The sign bit of a field of that width, spread over the higher bits. */
  function Spread(u: nat, bits: nat): int
    requires u < TWO_64 && 0 < bits <= 64
  {
    if bits == 64 then AsSigned(u)
    else if NumberBit(u, bits - 1) then Stored(u, bits) - Pow2(bits)
    else Stored(u, bits)
  }

  function SignedMax(bits: nat): int
    requires bits > 0
  {
    if bits == 64 then TWO_63 - 1 else Pow2(bits - 1) - 1
  }

  predicate SignedOver(value: int, incr: int, bits: nat)
    requires bits > 0
  {
    var max := SignedMax(bits);
    var maxincr := AsSigned(Wrapped(max - value));
    value > max || (bits != 64 && incr > maxincr) || (value >= 0 && incr > 0 && incr > maxincr)
  }

  predicate SignedUnder(value: int, incr: int, bits: nat)
    requires bits > 0
  {
    var min := -SignedMax(bits) - 1;
    var minincr := AsSigned(Wrapped(min - value));
    value < min || (bits != 64 && incr < minincr) || (value < 0 && incr < 0 && incr < minincr)
  }

  function CheckSigned(value: int, incr: int, bits: nat, policy: Policy): Check
    requires 0 < bits <= 64
  {
    if SignedOver(value, incr, bits) then
      if policy == Wrap then Over(Spread(Wrapped(value + incr), bits)) else Over(SignedMax(bits))
    else if SignedUnder(value, incr, bits) then
      if policy == Wrap then Over(Spread(Wrapped(value + incr), bits)) else Under(-SignedMax(bits) - 1)
    else Fits
  }

  /** What should be stored for a number: itself if it fits, else what the policy says. */
  function Fitted(x: int, min: int, max: int, wrapped: int, policy: Policy): Option<int> {
    if min <= x <= max then Some(x)
    else match policy
      case Wrap => Some(wrapped)
      case Sat => Some(if x > max then max else min)
      case Fail => None
  }

  /** Two numbers with the same lowest bits. */
  predicate Congruent(x: int, y: int, bits: nat) { (x - y) % Pow2(bits) == 0 }

  predicate InRange(x: int, min: int, max: int) { min <= x <= max }

  function Distance(x: int, y: int): nat { if x < y then y - x else x - y }

  /** r is what the policy makes of x in a range: x if it fits, else congruent to x, or nearest to it, or nothing. */
  ghost predicate Right(x: int, min: int, max: int, bits: nat, policy: Policy, r: Option<int>) {
    && (r.Some? ==> InRange(r.value, min, max))
    && (InRange(x, min, max) ==> r == Some(x))
    && (policy == Wrap ==> r.Some? && Congruent(r.value, x, bits))
    && (policy == Sat ==> r.Some? && forall y :: InRange(y, min, max) ==> Distance(x, r.value) <= Distance(x, y))
    && (policy == Fail ==> (r.None? <==> !InRange(x, min, max)))
  }

  lemma StoredCongruent(x: int, bits: nat)
    ensures Congruent(Stored(x, bits), x, bits) && Congruent(Stored(x, bits) - Pow2(bits), x, bits)
  {
    hide Pow2;
    var m := Pow2(bits);
    TakenAway(x, m, x / m, x % m);
    DivModIs(x % m - x, m, -(x / m), 0);
    DivModIs(x % m - m - x, m, -(x / m) - 1, 0);
  }

  lemma TakenAway(x: int, m: int, q: int, r: int)
    requires x == q * m + r
    ensures r - x == -q * m && r - m - x == (-q - 1) * m
  {
  }

  /** What should be stored is right, for every number, width and policy. */
  lemma {:induction false} FittedIsRight(x: int, bits: nat, policy: Policy)
    requires bits > 0
    ensures Right(x, 0, Pow2(bits) - 1, bits, policy, Fitted(x, 0, Pow2(bits) - 1, Stored(x, bits), policy))
    ensures var half := Pow2(bits - 1);
      Right(x, -(half as int), half - 1, bits, policy,
        Fitted(x, -(half as int), half - 1, SignedValue(Stored(x, bits), bits), policy))
  {
    StoredCongruent(x, bits);
    SameCongruent(x, bits);
  }

  lemma SameCongruent(x: int, bits: nat)
    ensures Congruent(x, x, bits)
  {
    DivModIs(0, Pow2(bits), 0, 0);
  }

  /** What the code stores for a check. */
  function Outcome(c: Check, x: int, policy: Policy): Option<int> {
    if c.Fits? then Some(x) else if policy == Fail then None else Some(c.limit)
  }

  lemma ModOfMultiple(x: int, m: int, k: int)
    requires m > 0 && k > 0 && k * m > 0
    ensures (x % (k * m)) % m == x % m
  {
    var q, r := x / (k * m), x % (k * m);
    var t, b := r / m, r % m;
    assert x == q * (k * m) + r && r == t * m + b;
    Regroup(q, k, m, t, b);
    DivModIs(x, m, q * k + t, b);
  }

  lemma Regroup(q: int, k: int, m: int, t: int, b: int)
    ensures q * (k * m) + (t * m + b) == (q * k + t) * m + b
  {
  }

  lemma {:induction false} ModOfMod(x: int, a: nat, b: nat)
    requires a <= b
    ensures (x % Pow2(b)) % Pow2(a) == x % Pow2(a)
  {
    Pow2Times(a, b - a);
    ModOfMultiple(x, Pow2(a), Pow2(b - a));
  }

  lemma {:induction false} Pow2Times(a: nat, b: nat)
    ensures Pow2(a + b) == Pow2(b) * Pow2(a)
    decreases b
  {
    if b > 0 {
      Pow2Times(a, b - 1);
    }
  }

  lemma StoredWrapped(x: int, bits: nat)
    requires bits <= 64
    ensures Stored(Wrapped(x), bits) == Stored(x, bits)
  {
    Pow2Big();
    ModOfMod(x, bits, 64);
  }

  lemma AsSignedIs(x: int)
    requires IsInt64(x)
    ensures AsSigned(Wrapped(x)) == x
  {
    if x >= 0 {
      DivModIs(x, TWO_64, 0, x);
    } else {
      DivModIs(x, TWO_64, -1, x + TWO_64);
    }
  }

  /** Spreading the sign bit reads the lowest bits as a signed number. */
  lemma SpreadIs(x: int, bits: nat)
    requires 0 < bits <= 64
    ensures Spread(Wrapped(x), bits) == SignedValue(Stored(x, bits), bits)
  {
    Pow2Big();
    if bits < 64 {
      StoredWrapped(x, bits);
      LowBit(Wrapped(x), bits);
      TopBit(Stored(x, bits), bits);
    }
  }

  lemma HalvesOf(u: nat, h: nat, q: nat, t: nat, b: nat)
    requires h > 0 && u == q * (2 * h) + (t * h + b) && b < h
    ensures u / h == q * 2 + t
  {
    Regroup(q, 2, h, t, b);
    DivModIs(u, h, q * 2 + t, b);
  }

  lemma EvenPart(q: nat, t: nat)
    ensures (q * 2 + t) % 2 == t % 2
  {
  }

  lemma Quotient(u: nat, m: nat)
    requires m > 0
    ensures u == (u / m) * m + u % m && 0 <= u % m < m && u / m >= 0
  {
  }

  lemma LowBitParts(u: nat, h: nat, q: nat, r: nat)
    requires h > 0 && u == q * (2 * h) + r
    ensures (u / h) % 2 == (r / h) % 2
  {
    Quotient(r, h);
    HalvesOf(u, h, q, r / h, r % h);
    EvenPart(q, r / h);
  }

  lemma LowBitOf(u: nat, h: nat)
    requires h > 0
    ensures (u / h) % 2 == ((u % (2 * h)) / h) % 2
  {
    Quotient(u, 2 * h);
    LowBitParts(u, h, u / (2 * h), u % (2 * h));
  }

  lemma LowBit(u: nat, bits: nat)
    requires bits > 0
    ensures NumberBit(u, bits - 1) <==> NumberBit(Stored(u, bits), bits - 1)
  {
    LowBitOf(u, Pow2(bits - 1));
  }

  /** For values of the field, the two tests of an unsigned sum are exact. */
  lemma UnsignedTests(value: nat, incr: int, bits: nat)
    requires 0 < bits < 64 && value < Pow2(bits) && IsInt64(incr)
    ensures UnsignedOver(value, incr, bits) <==> value + incr >= Pow2(bits)
    ensures UnsignedUnder(value, incr) <==> value + incr < 0
  {
    hide Pow2, AsSigned;
    Pow2Big();
    Pow2Grows(bits, 63);
    AsSignedIs(Pow2(bits) - 1 - value);
    AsSignedIs(0 - value);
  }

  lemma UnsignedExact(value: nat, incr: int, bits: nat, policy: Policy)
    requires 0 < bits < 64 && value < Pow2(bits) && IsInt64(incr)
    ensures Outcome(CheckUnsigned(value, incr, bits, policy), value + incr, policy)
      == Fitted(value + incr, 0, Pow2(bits) - 1, Stored(value + incr, bits), policy)
  {
    UnsignedTests(value, incr, bits);
    StoredWrapped(value + incr, bits);
  }

  lemma SignedLimits(bits: nat)
    requires 0 < bits <= 64
    ensures SignedMax(bits) == Pow2(bits - 1) - 1 && IsInt64(SignedMax(bits)) && IsInt64(-SignedMax(bits) - 1)
    ensures bits < 64 ==> Pow2(bits) <= TWO_63 && Pow2(bits) == 2 * Pow2(bits - 1)
  {
    Pow2Big();
    Pow2Grows(bits - 1, 63);
    if bits < 64 {
      Pow2Grows(bits, 63);
    }
  }

  /** For values of the field, the two tests of a signed sum are exact, for every width. */
  lemma SignedTests(value: int, incr: int, bits: nat)
    requires 0 < bits <= 64 && -(Pow2(bits - 1) as int) <= value < Pow2(bits - 1) && IsInt64(incr)
    ensures SignedOver(value, incr, bits) <==> value + incr >= Pow2(bits - 1)
    ensures SignedUnder(value, incr, bits) <==> value + incr < -(Pow2(bits - 1) as int)
  {
    SignedLimits(bits);
    var max := SignedMax(bits);
    if bits < 64 || value >= 0 {
      AsSignedIs(max - value);
    }
    if bits < 64 || value < 0 {
      AsSignedIs(-max - 1 - value);
    }
  }

  lemma SignedExact(value: int, incr: int, bits: nat, policy: Policy)
    requires 0 < bits <= 64 && -(Pow2(bits - 1) as int) <= value < Pow2(bits - 1) && IsInt64(incr)
    ensures Outcome(CheckSigned(value, incr, bits, policy), value + incr, policy)
      == Fitted(value + incr, -(Pow2(bits - 1) as int), Pow2(bits - 1) - 1, SignedValue(Stored(value + incr, bits),
          bits), policy)
  {
    SignedTests(value, incr, bits);
    SignedLimits(bits);
    SpreadIs(value + incr, bits);
  }

  /** The tests on a number that is not a sum: a very negative one passes for an overflow. */
  lemma SetTests(v: int, bits: nat)
    requires 0 < bits < 64 && IsInt64(v)
    ensures SignedOver(v, 0, bits) <==> v > SignedMax(bits) || v <= SignedMax(bits) - TWO_63
    ensures !SignedOver(v, 0, bits) ==> (SignedUnder(v, 0, bits) <==> v < -SignedMax(bits) - 1)
  {
    SignedLimits(bits);
    var max := SignedMax(bits);
    if v <= max - TWO_63 {
      FarDifference(max - v);
    } else if v <= max {
      AsSignedIs(max - v);
      if v >= -max - 1 {
        AsSignedIs(-max - 1 - v);
      }
    }
  }

  /**
   Storing a number that is not a sum: for fields of fewer than 64 bits a very
   negative number is taken for an overflow, and saturation stores the largest
   value instead of the smallest.
   */
  lemma SetExact(v: int, bits: nat, policy: Policy)
    requires 0 < bits <= 64 && IsInt64(v)
    ensures Outcome(CheckSigned(v, 0, bits, policy), v, policy)
        == Fitted(v, -SignedMax(bits) - 1, SignedMax(bits), SignedValue(Stored(v, bits), bits), policy)
      <==> policy != Sat || bits == 64 || v > SignedMax(bits) - TWO_63
  {
    SignedLimits(bits);
    SpreadIs(v, bits);
    if bits < 64 {
      SetTests(v, bits);
    } else {
      SignedWide(v);
    }
  }

  lemma VeryNegative()
    ensures CheckSigned(-TWO_63, 0, 8, Sat) == Over(127)
  {
    SetTests(-TWO_63, 8);
    assert Pow2(7) == 128;
  }

  /**
   Storing a number in an unsigned field: a negative one is taken for a huge
   one, so saturation stores the largest value instead of zero.
   */
  lemma SetUnsignedExact(v: int, bits: nat, policy: Policy)
    requires 0 < bits < 64 && IsInt64(v)
    ensures Outcome(CheckUnsigned(Wrapped(v), 0, bits, policy), Wrapped(v), policy)
        == Fitted(v, 0, Pow2(bits) - 1, Stored(v, bits), policy)
      <==> policy != Sat || v >= 0
  {
    SetUnsignedTests(v, bits);
    StoredWrapped(v, bits);
    StoredWrapped(Wrapped(v), bits);
  }

  lemma SetUnsignedTests(v: int, bits: nat)
    requires 0 < bits < 64 && IsInt64(v)
    ensures UnsignedOver(Wrapped(v), 0, bits) <==> v < 0 || v >= Pow2(bits)
    ensures v >= 0 ==> Wrapped(v) == v
    ensures UnsignedMax(bits) == Pow2(bits) - 1 > 0
  {
    Pow2Big();
    Pow2Grows(bits, 63);
    Pow2Grows(1, bits);
    if v >= 0 {
      DivModIs(v, TWO_64, 0, v);
    } else {
      DivModIs(v, TWO_64, -1, v + TWO_64);
    }
  }

  lemma NegativeUnsigned()
    ensures CheckUnsigned(Wrapped(-1), 0, 8, Sat) == Over(255)
  {
    SetUnsignedTests(-1, 8);
    assert Pow2(8) == 256;
  }

  lemma FarDifference(x: int)
    requires TWO_63 <= x < TWO_64
    ensures AsSigned(Wrapped(x)) < 0
  {
    DivModIs(x, TWO_64, 0, x);
  }

  lemma SignedWide(v: int)
    requires IsInt64(v)
    ensures !SignedOver(v, 0, 64) && !SignedUnder(v, 0, 64)
  {
  }

  // ---------------------------------------------------------------------------
  // BITFIELD
  // ---------------------------------------------------------------------------

  ghost predicate OnlyField(s: seq<bv8>, t: seq<bv8>, offset: nat, bits: nat) {
    |s| == |t| && forall q :: 0 <= q < 8 * |s| && !(offset <= q < offset + bits) ==> BitAt(t, q) == BitAt(s, q)
  }

  ghost function SignedAt(s: seq<bv8>, offset: nat, bits: nat): int
    requires 0 < bits && offset + bits <= 8 * |s|
  {
    SignedValue(FieldValue(s, offset, bits), bits)
  }

  method SetSigned(p: array<bv8>, offset: nat, bits: nat, value: int)
    requires 0 < bits <= 64 && offset + bits <= 8 * p.Length
    modifies p
    ensures FieldValue(p[..], offset, bits) == Stored(value, bits) && OnlyField(old(p[..]), p[..], offset, bits)
    ensures -(Pow2(bits - 1) as int) <= value < Pow2(bits - 1) ==> SignedAt(p[..], offset, bits) == value
  {
    StoredWrapped(value, bits);
    if -(Pow2(bits - 1) as int) <= value < Pow2(bits - 1) {
      StoredSigned(value, bits);
    }
    SetUnsigned(p, offset, bits, Wrapped(value));
  }

  /** The exact sum if it fits, else what the policy says; nothing but the field changes. */
  method IncrSigned(p: array<bv8>, offset: nat, bits: nat, incr: int, policy: Policy) returns (reply: Option<int>)
    requires 0 < bits <= 64 && offset + bits <= 8 * p.Length && IsInt64(incr)
    modifies p
    ensures var x, half := old(SignedAt(p[..], offset, bits)) + incr, Pow2(bits - 1);
      reply == Fitted(x, -(half as int), half - 1, SignedValue(Stored(x, bits), bits), policy)
    ensures reply.Some? ==> SignedAt(p[..], offset, bits) == reply.value
    ensures reply.None? ==> p[..] == old(p[..])
    ensures OnlyField(old(p[..]), p[..], offset, bits)
  {
    hide Pow2, Stored, SignedValue;
    var oldval := GetSigned(p[..], offset, bits);
    var check := CheckSigned(oldval, incr, bits, policy);
    var newval := if check.Fits? then oldval + incr else check.limit;
    SignedExact(oldval, incr, bits, policy);
    if !check.Fits? && policy == Fail {
      return None;
    }
    SetSigned(p, offset, bits, newval);
    reply := Some(newval);
  }

  method IncrUnsigned(p: array<bv8>, offset: nat, bits: nat, incr: int, policy: Policy) returns (reply: Option<int>)
    requires 0 < bits < 64 && offset + bits <= 8 * p.Length && IsInt64(incr)
    modifies p
    ensures var x := old(FieldValue(p[..], offset, bits)) + incr;
      reply == Fitted(x, 0, Pow2(bits) - 1, Stored(x, bits), policy)
    ensures reply.Some? ==> FieldValue(p[..], offset, bits) == reply.value
    ensures reply.None? ==> p[..] == old(p[..])
    ensures OnlyField(old(p[..]), p[..], offset, bits)
  {
    var oldval := GetUnsigned(p[..], offset, bits);
    var check := CheckUnsigned(oldval, incr, bits, policy);
    var newval := if check.Fits? then oldval + incr else check.limit;
    UnsignedExact(oldval, incr, bits, policy);
    if !check.Fits? && policy == Fail {
      return None;
    }
    StoredUnsigned(newval, bits);
    SetUnsigned(p, offset, bits, newval);
    reply := Some(newval);
  }

  /** Stores a number and answers with the old value. */
  method SetField(p: array<bv8>, offset: nat, bits: nat, v: int, policy: Policy) returns (reply: Option<int>)
    requires 0 < bits <= 64 && offset + bits <= 8 * p.Length && IsInt64(v)
    modifies p
    ensures reply.Some? ==> reply.value == old(SignedAt(p[..], offset, bits))
    ensures reply.None? ==> p[..] == old(p[..])
    ensures reply.None? <==> policy == Fail && !(-(Pow2(bits - 1) as int) <= v < Pow2(bits - 1))
    ensures OnlyField(old(p[..]), p[..], offset, bits)
    ensures reply.Some? ==> Outcome(CheckSigned(v, 0, bits, policy), v, policy) == Some(SignedAt(p[..], offset, bits))
  {
    var oldval := GetSigned(p[..], offset, bits);
    var check := CheckSigned(v, 0, bits, policy);
    var newval := if check.Fits? then v else check.limit;
    SetExact(v, bits, policy);
    SignedLimits(bits);
    if !check.Fits? && policy == Fail {
      return None;
    }
    SetInRange(v, bits, policy);
    SetSigned(p, offset, bits, newval);
    reply := Some(oldval);
  }

  lemma SetInRange(v: int, bits: nat, policy: Policy)
    requires 0 < bits <= 64 && IsInt64(v) && Outcome(CheckSigned(v, 0, bits, policy), v, policy).Some?
    ensures -(Pow2(bits - 1) as int) <= Outcome(CheckSigned(v, 0, bits, policy), v, policy).value < Pow2(bits - 1)
  {
    SignedLimits(bits);
    SpreadIs(v, bits);
    if bits < 64 {
      SetTests(v, bits);
    } else {
      SignedWide(v);
    }
  }

  /** Stores a number in an unsigned field and answers with the old value. */
  method SetUnsignedField(p: array<bv8>, offset: nat, bits: nat, v: int, policy: Policy) returns (reply: Option<int>)
    requires 0 < bits < 64 && offset + bits <= 8 * p.Length && IsInt64(v)
    modifies p
    ensures reply.Some? ==> reply.value == old(FieldValue(p[..], offset, bits))
    ensures reply.None? ==> p[..] == old(p[..])
    ensures reply.None? <==> policy == Fail && !(0 <= v < Pow2(bits))
    ensures OnlyField(old(p[..]), p[..], offset, bits)
    ensures reply.Some? ==>
      Outcome(CheckUnsigned(Wrapped(v), 0, bits, policy), Wrapped(v), policy) == Some(FieldValue(p[..], offset, bits))
  {
    var oldval := GetUnsigned(p[..], offset, bits);
    var check := CheckUnsigned(Wrapped(v), 0, bits, policy);
    var newval := if check.Fits? then Wrapped(v) else check.limit;
    SetUnsignedTests(v, bits);
    if !check.Fits? && policy == Fail {
      return None;
    }
    StoredUnsigned(newval, bits);
    SetUnsigned(p, offset, bits, newval);
    reply := Some(oldval);
  }

  // Reading behind the end of the string.

  predicate BitOrZero(s: seq<bv8>, p: nat) { p < 8 * |s| && BitAt(s, p) }

  /** The value of a field of the string continued with zeros. */
  function ExtendedValue(s: seq<bv8>, offset: nat, bits: nat): (v: nat)
    ensures v < Pow2(bits)
  {
    if bits == 0 then 0 else 2 * ExtendedValue(s, offset, bits - 1) + One(BitOrZero(s, offset + bits - 1))
  }

  ghost predicate IsCopy(s: seq<bv8>, buf: seq<bv8>, k: nat) {
    |buf| == 9 && forall i :: 0 <= i < 9 ==> buf[i] == if k + i < |s| then s[k + i] else 0
  }

  lemma {:induction false} BufferBit(s: seq<bv8>, buf: seq<bv8>, k: nat, j: nat, p: nat)
    requires IsCopy(s, buf, k) && j < 72 && p == 8 * k + j
    ensures BitAt(buf, j) == BitOrZero(s, p)
  {
    BytesOver(k, j);
    ZeroBit(j % 8);
    assert buf[j / 8] == if k + j / 8 < |s| then s[k + j / 8] else 0;
  }

  lemma {:induction false} SameExtended(s: seq<bv8>, buf: seq<bv8>, o: nat, offset: nat, bits: nat)
    requires o + bits <= 8 * |buf|
    requires forall j :: o <= j < o + bits ==> BitAt(buf, j) == BitOrZero(s, j + offset - o)
    requires offset >= o
    ensures FieldValue(buf, o, bits) == ExtendedValue(s, offset, bits)
    decreases bits
  {
    if bits > 0 {
      SameExtended(s, buf, o, offset, bits - 1);
      assert BitAt(buf, o + bits - 1) == BitOrZero(s, offset + bits - 1);
    }
  }

  lemma {:induction false} BufferValue(s: seq<bv8>, buf: seq<bv8>, k: nat, o: nat, bits: nat)
    requires IsCopy(s, buf, k) && o < 8 && bits <= 64
    ensures FieldValue(buf, o, bits) == ExtendedValue(s, 8 * k + o, bits)
  {
    forall j | o <= j < o + bits ensures BitAt(buf, j) == BitOrZero(s, j + (8 * k + o) - o) {
      BufferBit(s, buf, k, j, j + (8 * k + o) - o);
    }
    SameExtended(s, buf, o, 8 * k + o, bits);
  }

  lemma ZeroBit(i: nat)
    requires i < 8
    ensures !BitOf(0, i)
  {
  }

  /** Copies up to nine bytes into a buffer of zeros. */
  method CopyNine(s: seq<bv8>, byte: nat) returns (buf: array<bv8>)
    ensures fresh(buf) && IsCopy(s, buf[..], byte)
  {
    buf := new bv8[9](_ => 0);
    var i := 0;
    while i < 9
      invariant 0 <= i <= 9
      invariant forall k :: 0 <= k < i ==> buf[k] == if byte + k < |s| then s[byte + k] else 0
      invariant forall k :: i <= k < 9 ==> buf[k] == 0
    {
      if i + byte >= |s| {
        break;
      }
      buf[i] := s[i + byte];
      i := i + 1;
    }
  }

  /** Reads a field of the string continued with zeros, from nine copied bytes. */
  method GetField(s: seq<bv8>, offset: nat, bits: nat, signed: bool) returns (value: int)
    requires 0 < bits <= 64
    ensures value == if signed then SignedValue(ExtendedValue(s, offset, bits), bits) else ExtendedValue(s, offset,
        bits)
  {
    var byte := offset / 8;
    var bit := offset - 8 * byte;
    var buf := CopyNine(s, byte);
    value := GetFrom(buf[..], bit, bits, signed);
    BufferValue(s, buf[..], byte, bit, bits);
  }

  method GetFrom(buf: seq<bv8>, bit: nat, bits: nat, signed: bool) returns (value: int)
    requires 0 < bits <= 64 && bit + bits <= 8 * |buf|
    ensures value == if signed then SignedAt(buf, bit, bits) else FieldValue(buf, bit, bits)
  {
    if signed {
      value := GetSigned(buf, bit, bits);
    } else {
      value := GetUnsigned(buf, bit, bits);
    }
  }
}
