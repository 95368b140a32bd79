/**
 BITOP: the bytewise AND, OR, XOR or NOT of strings of different lengths, word
 by word as far as all strings have data, byte by byte after that.
 */
module BitOp {

  import opened Bits
  import opened Memory

  datatype Op = And | Or | Xor | Not

  function Apply(op: Op, a: bv8, b: bv8): bv8 {
    match op
    case And => a & b
    case Or => a | b
    case Xor => a ^ b
    case Not => a
  }

  function ByteAt(s: seq<bv8>, j: nat): bv8 { if j < |s| then s[j] else 0 }

  /** The operation over the first n strings at one byte; shorter strings are continued with zeros. */
  function Fold(op: Op, srcs: seq<seq<bv8>>, j: nat, n: nat): bv8
    requires 1 <= n <= |srcs|
  {
    if n == 1 then (if op == Not then !ByteAt(srcs[0], j) else ByteAt(srcs[0], j))
    else Apply(op, Fold(op, srcs, j, n - 1), ByteAt(srcs[n - 1], j))
  }

  // ---------------------------------------------------------------------------
  // Bits
  // ---------------------------------------------------------------------------

  /** A bit of a string; behind its end all bits are clear. */
  predicate BitIn(s: seq<bv8>, p: nat) { p < 8 * |s| && BitAt(s, p) }

  /** How many of the first n strings have the bit. */
  function Having(srcs: seq<seq<bv8>>, p: nat, n: nat): (r: nat)
    requires n <= |srcs|
  {
    if n == 0 then 0 else Having(srcs, p, n - 1) + One(BitIn(srcs[n - 1], p))
  }

  /** What a bit of the result says: all strings have it, or some, or an odd number of them, or the only one has not. */
  predicate Means(op: Op, srcs: seq<seq<bv8>>, p: nat)
    requires srcs != []
  {
    match op
    case And => forall k :: 0 <= k < |srcs| ==> BitIn(srcs[k], p)
    case Or => exists k :: 0 <= k < |srcs| && BitIn(srcs[k], p)
    case Xor => Having(srcs, p, |srcs|) % 2 == 1
    case Not => !BitIn(srcs[0], p)
  }

  lemma HitAnd(a: bv8, b: bv8, i: nat)
    requires i < 8
    ensures (a & b) & Mask(i) != 0 <==> a & Mask(i) != 0 && b & Mask(i) != 0
  {
  }

  lemma HitOr(a: bv8, b: bv8, i: nat)
    requires i < 8
    ensures (a | b) & Mask(i) != 0 <==> a & Mask(i) != 0 || b & Mask(i) != 0
  {
  }

  lemma HitXor(a: bv8, b: bv8, i: nat)
    requires i < 8
    ensures (a ^ b) & Mask(i) != 0 <==> (a & Mask(i) != 0) != (b & Mask(i) != 0)
  {
  }

  lemma HitNot(a: bv8, i: nat)
    requires i < 8
    ensures !a & Mask(i) != 0 <==> a & Mask(i) == 0
  {
  }

  lemma HitZero(i: nat)
    requires i < 8
    ensures !BitOf(0, i)
  {
  }

  lemma BitOfByte(s: seq<bv8>, j: nat, i: nat)
    requires i < 8
    ensures BitOf(ByteAt(s, j), i) == BitIn(s, 8 * j + i)
  {
    hide BitOf;
    HitZero(i);
    assert (8 * j + i) / 8 == j && (8 * j + i) % 8 == i;
  }

  /** Two bits make the third. */
  predicate Joins(op: Op, a: bool, b: bool, c: bool) {
    match op
    case And => c == (a && b)
    case Or => c == (a || b)
    case Xor => c == (a != b)
    case Not => c == a
  }

  lemma AndBit(a: bv8, b: bv8, i: nat)
    requires i < 8
    ensures BitOf(a & b, i) == (BitOf(a, i) && BitOf(b, i))
  {
    hide Mask;
    HitAnd(a, b, i);
  }

  lemma OrBit(a: bv8, b: bv8, i: nat)
    requires i < 8
    ensures BitOf(a | b, i) == (BitOf(a, i) || BitOf(b, i))
  {
    hide Mask;
    HitOr(a, b, i);
  }

  lemma XorBit(a: bv8, b: bv8, i: nat)
    requires i < 8
    ensures BitOf(a ^ b, i) == (BitOf(a, i) != BitOf(b, i))
  {
    hide Mask;
    HitXor(a, b, i);
  }

  lemma ApplyBit(op: Op, a: bv8, b: bv8, i: nat)
    requires i < 8
    ensures Joins(op, BitOf(a, i), BitOf(b, i), BitOf(Apply(op, a, b), i))
  {
    hide BitOf;
    match op
    case And => AndBit(a, b, i);
    case Or => OrBit(a, b, i);
    case Xor => XorBit(a, b, i);
    case Not =>
  }

  lemma NotBit(a: bv8, i: nat)
    requires i < 8
    ensures BitOf(!a, i) == !BitOf(a, i)
  {
    hide Mask;
    HitNot(a, i);
  }

  lemma OneMeans(op: Op, s: seq<bv8>, p: nat)
    ensures Means(op, [s], p) == if op == Not then !BitIn(s, p) else BitIn(s, p)
  {
    hide BitIn;
    assert Having([s], p, 0) == 0;
    assert [s][0] == s;
  }

  /** The first n strings at one bit. */
  lemma {:induction false} FoldBit(op: Op, srcs: seq<seq<bv8>>, j: nat, i: nat, n: nat)
    requires 1 <= n <= |srcs| && i < 8 && (op == Not ==> n == 1)
    ensures BitOf(Fold(op, srcs, j, n), i) == Means(op, srcs[..n], 8 * j + i)
  {
    hide BitIn, ByteAt, Means, Apply, BitOf;
    var p := 8 * j + i;
    BitOfByte(srcs[n - 1], j, i);
    if n == 1 {
      NotBit(ByteAt(srcs[0], j), i);
      OneMeans(op, srcs[0], p);
      assert srcs[..1] == [srcs[0]];
    } else {
      FoldBit(op, srcs, j, i, n - 1);
      ApplyBit(op, Fold(op, srcs, j, n - 1), ByteAt(srcs[n - 1], j), i);
      MeansMore(op, srcs, p, n);
    }
  }

  lemma {:induction false} HavingPrefix(srcs: seq<seq<bv8>>, p: nat, n: nat, k: nat)
    requires k <= n <= |srcs|
    ensures Having(srcs[..n], p, k) == Having(srcs, p, k)
  {
    hide BitIn;
    if k > 0 {
      HavingPrefix(srcs, p, n, k - 1);
    }
  }

  lemma {:induction false} MeansMore(op: Op, srcs: seq<seq<bv8>>, p: nat, n: nat)
    requires 1 < n <= |srcs| && op != Not
    ensures Joins(op, Means(op, srcs[..n - 1], p), BitIn(srcs[n - 1], p), Means(op, srcs[..n], p))
  {
    hide BitIn;
    var a, b := srcs[..n], srcs[..n - 1];
    assert forall k :: 0 <= k < n - 1 ==> a[k] == b[k];
    HavingPrefix(srcs, p, n, n);
    HavingPrefix(srcs, p, n - 1, n - 1);
    if Means(op, b, p) && op == Or {
      var k :| 0 <= k < |b| && BitIn(b[k], p);
      assert BitIn(a[k], p);
    }
    assert BitIn(srcs[n - 1], p) ==> BitIn(a[n - 1], p);
  }

  // ---------------------------------------------------------------------------
  // Words
  // ---------------------------------------------------------------------------

  function ApplyWord(op: Op, a: bv64, b: bv64): bv64 {
    match op
    case And => a & b
    case Or => a | b
    case Xor => a ^ b
    case Not => a
  }

  function Zip(op: Op, a: seq<bv8>, b: seq<bv8>): (r: seq<bv8>)
    requires |a| == |b|
    ensures |r| == |a| && forall k :: 0 <= k < |a| ==> r[k] == Apply(op, a[k], b[k])
  {
    seq(|a|, k requires 0 <= k < |a| => Apply(op, a[k], b[k]))
  }

  function Negated(a: seq<bv8>): (r: seq<bv8>)
    ensures |r| == |a|
  {
    seq(|a|, k requires 0 <= k < |a| => !a[k])
  }

  lemma ZipIs(op: Op, a: seq<bv8>, b: seq<bv8>)
    requires |a| == 8 && |b| == 8
    ensures Zip(op, a, b)
      == [Apply(op, a[0], b[0]), Apply(op, a[1], b[1]), Apply(op, a[2], b[2]), Apply(op, a[3], b[3]),
          Apply(op, a[4], b[4]), Apply(op, a[5], b[5]), Apply(op, a[6], b[6]), Apply(op, a[7], b[7])]
  {
    EightOf(Zip(op, a, b));
  }

  lemma EightOf<T>(s: seq<T>)
    requires |s| == 8
    ensures s == [s[0], s[1], s[2], s[3], s[4], s[5], s[6], s[7]]
  {
  }

  // A word operation is the operation on its bytes: first on eight bytes, then on sequences.

  lemma AndWide(b0: bv8, b1: bv8, b2: bv8, b3: bv8, b4: bv8, b5: bv8, b6: bv8, b7: bv8,
               c0: bv8, c1: bv8, c2: bv8, c3: bv8, c4: bv8, c5: bv8, c6: bv8, c7: bv8)
    ensures Wide(b0, b1, b2, b3, b4, b5, b6, b7) & Wide(c0, c1, c2, c3, c4, c5, c6, c7)
      == Wide(b0 & c0, b1 & c1, b2 & c2, b3 & c3, b4 & c4, b5 & c5, b6 & c6, b7 & c7)
  {
  }

  lemma AndWord(a: seq<bv8>, b: seq<bv8>)
    requires |a| == 8 && |b| == 8
    ensures ApplyWord(And, LoadLittle(a), LoadLittle(b)) == LoadLittle(Zip(And, a, b))
  {
    calc {
      ApplyWord(And, LoadLittle(a), LoadLittle(b));
      ApplyWord(And, Wide(a[0], a[1], a[2], a[3], a[4], a[5], a[6], a[7]),
        Wide(b[0], b[1], b[2], b[3], b[4], b[5], b[6], b[7]));
      Wide(a[0], a[1], a[2], a[3], a[4], a[5], a[6], a[7]) & Wide(b[0], b[1], b[2], b[3], b[4], b[5], b[6], b[7]);
      { AndWide(a[0], a[1], a[2], a[3], a[4], a[5], a[6], a[7], b[0], b[1], b[2], b[3], b[4], b[5], b[6], b[7]); }
      Wide(a[0] & b[0], a[1] & b[1], a[2] & b[2], a[3] & b[3], a[4] & b[4], a[5] & b[5], a[6] & b[6], a[7] & b[7]);
      LoadLittle([a[0] & b[0], a[1] & b[1], a[2] & b[2], a[3] & b[3], a[4] & b[4], a[5] & b[5], a[6] & b[6],
          a[7] & b[7]]);
      { ZipIs(And, a, b); }
      LoadLittle(Zip(And, a, b));
    }
  }

  lemma OrWide(b0: bv8, b1: bv8, b2: bv8, b3: bv8, b4: bv8, b5: bv8, b6: bv8, b7: bv8,
               c0: bv8, c1: bv8, c2: bv8, c3: bv8, c4: bv8, c5: bv8, c6: bv8, c7: bv8)
    ensures Wide(b0, b1, b2, b3, b4, b5, b6, b7) | Wide(c0, c1, c2, c3, c4, c5, c6, c7)
      == Wide(b0 | c0, b1 | c1, b2 | c2, b3 | c3, b4 | c4, b5 | c5, b6 | c6, b7 | c7)
  {
  }

  lemma OrWord(a: seq<bv8>, b: seq<bv8>)
    requires |a| == 8 && |b| == 8
    ensures ApplyWord(Or, LoadLittle(a), LoadLittle(b)) == LoadLittle(Zip(Or, a, b))
  {
    calc {
      ApplyWord(Or, LoadLittle(a), LoadLittle(b));
      ApplyWord(Or, Wide(a[0], a[1], a[2], a[3], a[4], a[5], a[6], a[7]),
        Wide(b[0], b[1], b[2], b[3], b[4], b[5], b[6], b[7]));
      Wide(a[0], a[1], a[2], a[3], a[4], a[5], a[6], a[7]) | Wide(b[0], b[1], b[2], b[3], b[4], b[5], b[6], b[7]);
      { OrWide(a[0], a[1], a[2], a[3], a[4], a[5], a[6], a[7], b[0], b[1], b[2], b[3], b[4], b[5], b[6], b[7]); }
      Wide(a[0] | b[0], a[1] | b[1], a[2] | b[2], a[3] | b[3], a[4] | b[4], a[5] | b[5], a[6] | b[6], a[7] | b[7]);
      LoadLittle([a[0] | b[0], a[1] | b[1], a[2] | b[2], a[3] | b[3], a[4] | b[4], a[5] | b[5], a[6] | b[6],
          a[7] | b[7]]);
      { ZipIs(Or, a, b); }
      LoadLittle(Zip(Or, a, b));
    }
  }

  lemma XorWide(b0: bv8, b1: bv8, b2: bv8, b3: bv8, b4: bv8, b5: bv8, b6: bv8, b7: bv8,
               c0: bv8, c1: bv8, c2: bv8, c3: bv8, c4: bv8, c5: bv8, c6: bv8, c7: bv8)
    ensures Wide(b0, b1, b2, b3, b4, b5, b6, b7) ^ Wide(c0, c1, c2, c3, c4, c5, c6, c7)
      == Wide(b0 ^ c0, b1 ^ c1, b2 ^ c2, b3 ^ c3, b4 ^ c4, b5 ^ c5, b6 ^ c6, b7 ^ c7)
  {
  }

  lemma XorWord(a: seq<bv8>, b: seq<bv8>)
    requires |a| == 8 && |b| == 8
    ensures ApplyWord(Xor, LoadLittle(a), LoadLittle(b)) == LoadLittle(Zip(Xor, a, b))
  {
    calc {
      ApplyWord(Xor, LoadLittle(a), LoadLittle(b));
      ApplyWord(Xor, Wide(a[0], a[1], a[2], a[3], a[4], a[5], a[6], a[7]),
        Wide(b[0], b[1], b[2], b[3], b[4], b[5], b[6], b[7]));
      Wide(a[0], a[1], a[2], a[3], a[4], a[5], a[6], a[7]) ^ Wide(b[0], b[1], b[2], b[3], b[4], b[5], b[6], b[7]);
      { XorWide(a[0], a[1], a[2], a[3], a[4], a[5], a[6], a[7], b[0], b[1], b[2], b[3], b[4], b[5], b[6], b[7]); }
      Wide(a[0] ^ b[0], a[1] ^ b[1], a[2] ^ b[2], a[3] ^ b[3], a[4] ^ b[4], a[5] ^ b[5], a[6] ^ b[6], a[7] ^ b[7]);
      LoadLittle([a[0] ^ b[0], a[1] ^ b[1], a[2] ^ b[2], a[3] ^ b[3], a[4] ^ b[4], a[5] ^ b[5], a[6] ^ b[6],
          a[7] ^ b[7]]);
      { ZipIs(Xor, a, b); }
      LoadLittle(Zip(Xor, a, b));
    }
  }

  lemma NotWide(b0: bv8, b1: bv8, b2: bv8, b3: bv8, b4: bv8, b5: bv8, b6: bv8, b7: bv8)
    ensures !Wide(b0, b1, b2, b3, b4, b5, b6, b7) == Wide(!b0, !b1, !b2, !b3, !b4, !b5, !b6, !b7)
  {
  }

  function Flip(w: bv64): bv64 { !w }

  lemma NotWord(a: seq<bv8>)
    requires |a| == 8
    ensures Flip(LoadLittle(a)) == LoadLittle(Negated(a))
  {
    calc {
      Flip(LoadLittle(a));
      !Wide(a[0], a[1], a[2], a[3], a[4], a[5], a[6], a[7]);
      { NotWide(a[0], a[1], a[2], a[3], a[4], a[5], a[6], a[7]); }
      Wide(!a[0], !a[1], !a[2], !a[3], !a[4], !a[5], !a[6], !a[7]);
      LoadLittle([!a[0], !a[1], !a[2], !a[3], !a[4], !a[5], !a[6], !a[7]]);
      { assert [!a[0], !a[1], !a[2], !a[3], !a[4], !a[5], !a[6], !a[7]] == Negated(a); }
      LoadLittle(Negated(a));
    }
  }

  lemma LowBytesOfWide(b0: bv8, b1: bv8, b2: bv8, b3: bv8, b4: bv8, b5: bv8, b6: bv8, b7: bv8)
    ensures ByteOf(Wide(b0, b1, b2, b3, b4, b5, b6, b7), 0) == b0
    ensures ByteOf(Wide(b0, b1, b2, b3, b4, b5, b6, b7), 1) == b1
    ensures ByteOf(Wide(b0, b1, b2, b3, b4, b5, b6, b7), 2) == b2
    ensures ByteOf(Wide(b0, b1, b2, b3, b4, b5, b6, b7), 3) == b3
  {
  }

  lemma HighBytesOfWide(b0: bv8, b1: bv8, b2: bv8, b3: bv8, b4: bv8, b5: bv8, b6: bv8, b7: bv8)
    ensures ByteOf(Wide(b0, b1, b2, b3, b4, b5, b6, b7), 4) == b4
    ensures ByteOf(Wide(b0, b1, b2, b3, b4, b5, b6, b7), 5) == b5
    ensures ByteOf(Wide(b0, b1, b2, b3, b4, b5, b6, b7), 6) == b6
    ensures ByteOf(Wide(b0, b1, b2, b3, b4, b5, b6, b7), 7) == b7
  {
  }

  lemma ByteOfLoad(s: seq<bv8>, k: nat)
    requires |s| == 8 && k < 8
    ensures ByteOf(LoadLittle(s), k) == s[k]
  {
    hide ByteOf, Wide;
    LowBytesOfWide(s[0], s[1], s[2], s[3], s[4], s[5], s[6], s[7]);
    HighBytesOfWide(s[0], s[1], s[2], s[3], s[4], s[5], s[6], s[7]);
  }

  // ---------------------------------------------------------------------------
  // The fast path
  // ---------------------------------------------------------------------------

  method StoreWord(res: array<bv8>, off: nat, w: bv64, ghost bytes: seq<bv8>)
    requires off + 8 <= res.Length && |bytes| == 8 && w == LoadLittle(bytes)
    modifies res
    ensures forall t :: 0 <= t < res.Length ==> res[t] == if off <= t < off + 8 then bytes[t - off] else old(res[t])
  {
    hide LoadLittle, ByteOf;
    for k := 0 to 8
      invariant forall t :: 0 <= t < res.Length ==> res[t] == if off <= t < off + k then bytes[t - off] else old(res[t])
    {
      ByteOfLoad(bytes, k);
      res[off + k] := ByteOf(w, k);
    }
  }

  method OperateWord(op: Op, res: array<bv8>, off: nat, src: seq<bv8>)
    requires off + 8 <= res.Length && off + 8 <= |src| && op != Not
    modifies res
    ensures forall t :: 0 <= t < res.Length ==> res[t] == if off <= t < off + 8 then Apply(op, old(res[t]),
        src[t]) else old(res[t])
  {
    hide LoadLittle, ApplyWord;
    var a, b := res[off..off + 8], src[off..off + 8];
    var w := ApplyWord(op, LoadLittle(a), LoadLittle(b));
    match op {
      case And => AndWord(a, b);
      case Or => OrWord(a, b);
      case Xor => XorWord(a, b);
    }
    StoreWord(res, off, w, Zip(op, a, b));
  }

  method NegateWord(res: array<bv8>, off: nat)
    requires off + 8 <= res.Length
    modifies res
    ensures forall t :: 0 <= t < res.Length ==> res[t] == if off <= t < off + 8 then !old(res[t]) else old(res[t])
  {
    hide LoadLittle, Flip;
    var a := res[off..off + 8];
    NotWord(a);
    StoreWord(res, off, Flip(LoadLittle(a)), Negated(a));
  }

  /** Four words of one more string. */
  method OperateFour(op: Op, res: array<bv8>, off: nat, src: seq<bv8>)
    requires off + 32 <= res.Length && off + 32 <= |src| && op != Not
    modifies res
    ensures forall t :: 0 <= t < res.Length ==> res[t] == if off <= t < off + 32 then Apply(op, old(res[t]),
        src[t]) else old(res[t])
  {
    OperateWord(op, res, off, src);
    OperateWord(op, res, off + 8, src);
    OperateWord(op, res, off + 16, src);
    OperateWord(op, res, off + 24, src);
  }

  method NegateFour(res: array<bv8>, off: nat)
    requires off + 32 <= res.Length
    modifies res
    ensures forall t :: 0 <= t < res.Length ==> res[t] == if off <= t < off + 32 then !old(res[t]) else old(res[t])
  {
    NegateWord(res, off);
    NegateWord(res, off + 8);
    NegateWord(res, off + 16);
    NegateWord(res, off + 24);
  }

  /** 32 bytes that hold the first string become the result over all strings. */
  method OperateBlock(op: Op, srcs: seq<seq<bv8>>, res: array<bv8>, off: nat)
    requires srcs != [] && off + 32 <= res.Length && (op == Not ==> |srcs| == 1)
    requires forall i :: 0 <= i < |srcs| ==> off + 32 <= |srcs[i]|
    requires forall t :: off <= t < off + 32 ==> res[t] == ByteAt(srcs[0], t)
    modifies res
    ensures forall t :: off <= t < off + 32 ==> res[t] == Fold(op, srcs, t, |srcs|)
    ensures forall t :: 0 <= t < res.Length && !(off <= t < off + 32) ==> res[t] == old(res[t])
  {
    if op == Not {
      NegateFour(res, off);
    } else {
      for i := 1 to |srcs|
        invariant forall t :: off <= t < off + 32 ==> res[t] == Fold(op, srcs, t, i)
        invariant forall t :: 0 <= t < res.Length && !(off <= t < off + 32) ==> res[t] == old(res[t])
      {
        OperateFour(op, res, off, srcs[i]);
      }
    }
  }

  /** Blocks of 32 bytes as long as every string has data; says where it stopped. */
  method FastPath(op: Op, srcs: seq<seq<bv8>>, res: array<bv8>, minlen: nat) returns (j: nat)
    requires srcs != [] && minlen <= res.Length && (op == Not ==> |srcs| == 1)
    requires forall i :: 0 <= i < |srcs| ==> minlen <= |srcs[i]|
    modifies res
    ensures j <= minlen
    ensures forall t :: 0 <= t < j ==> res[t] == Fold(op, srcs, t, |srcs|)
  {
    for t := 0 to minlen
      invariant forall q :: 0 <= q < t ==> res[q] == ByteAt(srcs[0], q)
    {
      res[t] := srcs[0][t];
    }
    j := 0;
    while minlen - j >= 32
      invariant j <= minlen
      invariant forall t :: 0 <= t < j ==> res[t] == Fold(op, srcs, t, |srcs|)
      invariant forall t :: j <= t < minlen ==> res[t] == ByteAt(srcs[0], t)
    {
      OperateBlock(op, srcs, res, j);
      j := j + 32;
    }
  }

  // ---------------------------------------------------------------------------
  // The byte loop
  // ---------------------------------------------------------------------------

  /** Whether further strings can no longer change the byte. */
  predicate Settled(op: Op, output: bv8) { (op == And && output == 0) || (op == Or && output == 0xff) }

  lemma SettledStays(op: Op, output: bv8, b: bv8)
    requires Settled(op, output)
    ensures Apply(op, output, b) == output
  {
  }

  lemma {:induction false} SettledFold(op: Op, srcs: seq<seq<bv8>>, j: nat, n: nat, m: nat)
    requires 1 <= n <= m <= |srcs| && Settled(op, Fold(op, srcs, j, n))
    ensures Fold(op, srcs, j, m) == Fold(op, srcs, j, n)
    decreases m
  {
    if n < m {
      SettledFold(op, srcs, j, n, m - 1);
      SettledStays(op, Fold(op, srcs, j, m - 1), ByteAt(srcs[m - 1], j));
    }
  }

  /** One byte of the result; the loop over the strings ends early once the byte is settled. */
  method OperateByte(op: Op, srcs: seq<seq<bv8>>, j: nat) returns (output: bv8)
    requires srcs != [] && (op == Not ==> |srcs| == 1)
    ensures output == Fold(op, srcs, j, |srcs|)
  {
    output := ByteAt(srcs[0], j);
    if op == Not {
      output := !output;
    }
    for i := 1 to |srcs|
      invariant output == Fold(op, srcs, j, i)
    {
      output := Apply(op, output, ByteAt(srcs[i], j));
      if Settled(op, output) {
        SettledFold(op, srcs, j, i + 1, |srcs|);
        break;
      }
    }
  }

  // ---------------------------------------------------------------------------
  // BITOP
  // ---------------------------------------------------------------------------

  ghost predicate IsMaxLen(srcs: seq<seq<bv8>>, n: nat) {
    (forall i :: 0 <= i < |srcs| ==> |srcs[i]| <= n) && (n == 0 || exists i :: 0 <= i < |srcs| && |srcs[i]| == n)
  }

  /** The longest and the shortest length; a missing key is an empty string. */
  method Lengths(srcs: seq<seq<bv8>>) returns (maxlen: nat, minlen: nat)
    ensures IsMaxLen(srcs, maxlen)
    ensures forall i :: 0 <= i < |srcs| ==> minlen <= |srcs[i]|
    ensures srcs != [] ==> exists i :: 0 <= i < |srcs| && |srcs[i]| == minlen
  {
    maxlen, minlen := 0, 0;
    for j := 0 to |srcs|
      invariant forall i :: 0 <= i < j ==> minlen <= |srcs[i]| <= maxlen
      invariant maxlen == 0 || exists i :: 0 <= i < j && |srcs[i]| == maxlen
      invariant j == 0 || exists i :: 0 <= i < j && |srcs[i]| == minlen
    {
      if |srcs[j]| > maxlen {
        maxlen := |srcs[j]|;
      }
      if j == 0 || |srcs[j]| < minlen {
        minlen := |srcs[j]|;
      }
    }
  }

  /** The result is as long as the longest string, and every byte of it is the operation over all strings. */
  method BitOpCommand(op: Op, srcs: seq<seq<bv8>>) returns (res: array<bv8>)
    requires srcs != [] && (op == Not ==> |srcs| == 1)
    ensures IsMaxLen(srcs, res.Length)
    ensures forall j :: 0 <= j < res.Length ==> res[j] == Fold(op, srcs, j, |srcs|)
    ensures forall p :: 0 <= p < 8 * res.Length ==> BitAt(res[..], p) == Means(op, srcs, p)
  {
    var maxlen, minlen := Lengths(srcs);
    res := new bv8[maxlen](_ => 0);
    if maxlen == 0 {
      return;
    }
    var j := 0;
    if minlen >= 32 && |srcs| <= 16 {
      j := FastPath(op, srcs, res, minlen);
    }
    while j < maxlen
      invariant j <= maxlen
      invariant forall t :: 0 <= t < j ==> res[t] == Fold(op, srcs, t, |srcs|)
    {
      res[j] := OperateByte(op, srcs, j);
      j := j + 1;
    }
    ResultMeans(op, srcs, res[..]);
  }

  lemma {:induction false} ResultMeans(op: Op, srcs: seq<seq<bv8>>, res: seq<bv8>)
    requires srcs != [] && (op == Not ==> |srcs| == 1)
    requires forall j :: 0 <= j < |res| ==> res[j] == Fold(op, srcs, j, |srcs|)
    ensures forall p :: 0 <= p < 8 * |res| ==> BitAt(res, p) == Means(op, srcs, p)
  {
    hide Means, Fold, BitOf;
    forall p | 0 <= p < 8 * |res| ensures BitAt(res, p) == Means(op, srcs, p) {
      FoldBit(op, srcs, p / 8, p % 8, |srcs|);
      assert srcs[..|srcs|] == srcs && 8 * (p / 8) + p % 8 == p;
    }
  }
}
