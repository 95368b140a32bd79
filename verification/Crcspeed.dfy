/**
 Table-driven CRC, eight bytes per step, for any byte step that is linear and
 slides a word past the register. The step is a ghost parameter: the routines
 only ever see the tables generated from a slow one-byte function.
 */
module Crcspeed {

  import opened Slicing
  import opened Crc64Words
  import opened Memory

  function Word(b: bv8): bv64 { b as bv64 }

  ghost function Words(s: seq<bv8>): (w: seq<bv64>)
    ensures |w| == |s|
  {
    seq(|s|, i requires 0 <= i < |s| => Word(s[i]))
  }

  /** The register after the bytes of s, one byte step each. */
  ghost function After(step: bv64 -> bv64, crc: bv64, s: seq<bv8>): bv64 {
    Stepped(Xor, step, crc, Words(s))
  }

  lemma AfterNone(step: bv64 -> bv64, crc: bv64)
    ensures After(step, crc, []) == crc
  {
  }

  lemma {:induction false} AfterByte(step: bv64 -> bv64, crc: bv64, s: seq<bv8>, n: nat)
    requires n < |s|
    ensures After(step, crc, s[..n + 1]) == step(Xor(After(step, crc, s[..n]), Word(s[n])))
  {
    var w := Words(s[..n + 1]);
    assert w[..n] == Words(s[..n]) && w[n] == Word(s[n]);
  }

  lemma {:induction false} AfterConcat(step: bv64 -> bv64, crc: bv64, a: seq<bv8>, b: seq<bv8>)
    ensures After(step, crc, a + b) == After(step, After(step, crc, a), b)
  {
    assert Words(a + b) == Words(a) + Words(b);
    SteppedConcat(Xor, step, crc, Words(a), Words(b));
  }

  ghost predicate IsByteStep(step: bv64 -> bv64) {
    Slides(Xor, step, LowByte, DropByte)
  }

  // ---------------------------------------------------------------------------
  // Words in memory
  // ---------------------------------------------------------------------------

  /** The bytes of a word in the opposite order. */
  function Rev8(a: bv64): bv64 {
    var b := ((a >> 8) & 0xff00ff00ff00ff) | ((a & 0xff00ff00ff00ff) << 8);
    var c := ((b >> 16) & 0xffff0000ffff) | ((b & 0xffff0000ffff) << 16);
    (c >> 32) | (c << 32)
  }

  lemma WideBytes(b0: bv8, b1: bv8, b2: bv8, b3: bv8, b4: bv8, b5: bv8, b6: bv8, b7: bv8)
    ensures var w := Wide(b0, b1, b2, b3, b4, b5, b6, b7);
      && ByteOf(w, 0) == b0 && ByteOf(w, 1) == b1 && ByteOf(w, 2) == b2 && ByteOf(w, 3) == b3
      && ByteOf(w, 4) == b4 && ByteOf(w, 5) == b5 && ByteOf(w, 6) == b6 && ByteOf(w, 7) == b7
  {
  }

  lemma WideReversed(b0: bv8, b1: bv8, b2: bv8, b3: bv8, b4: bv8, b5: bv8, b6: bv8, b7: bv8)
    ensures Rev8(Wide(b0, b1, b2, b3, b4, b5, b6, b7)) == Wide(b7, b6, b5, b4, b3, b2, b1, b0)
  {
  }

  lemma LoadedBytes(s: seq<bv8>)
    requires |s| == 8
    ensures ByteOf(LoadLittle(s), 0) == s[0] && ByteOf(LoadLittle(s), 1) == s[1]
    ensures ByteOf(LoadLittle(s), 2) == s[2] && ByteOf(LoadLittle(s), 3) == s[3]
    ensures ByteOf(LoadLittle(s), 4) == s[4] && ByteOf(LoadLittle(s), 5) == s[5]
    ensures ByteOf(LoadLittle(s), 6) == s[6] && ByteOf(LoadLittle(s), 7) == s[7]
    ensures LoadBig(s) == Rev8(LoadLittle(s))
  {
    WideBytes(s[0], s[1], s[2], s[3], s[4], s[5], s[6], s[7]);
    WideReversed(s[0], s[1], s[2], s[3], s[4], s[5], s[6], s[7]);
  }

  lemma DroppedBytes(w: bv64)
    ensures DropByte(w) == w >> 8 && DropByte(w >> 8) == w >> 16 && DropByte(w >> 16) == w >> 24
    ensures DropByte(w >> 24) == w >> 32 && DropByte(w >> 32) == w >> 40 && DropByte(w >> 40) == w >> 48
    ensures DropByte(w >> 48) == w >> 56 && DropByte(w >> 56) == 0
  {
  }

  lemma LowBytes(w: bv64)
    ensures LowByte(w) == Word(ByteOf(w, 0)) && LowByte(w >> 8) == Word(ByteOf(w, 1))
    ensures LowByte(w >> 16) == Word(ByteOf(w, 2)) && LowByte(w >> 24) == Word(ByteOf(w, 3))
    ensures LowByte(w >> 32) == Word(ByteOf(w, 4)) && LowByte(w >> 40) == Word(ByteOf(w, 5))
    ensures LowByte(w >> 48) == Word(ByteOf(w, 6)) && LowByte(w >> 56) == Word(ByteOf(w, 7))
  {
  }

  ghost function BytesOf(w: bv64): (s: seq<bv64>)
    ensures |s| == 8
  {
    [Word(ByteOf(w, 0)), Word(ByteOf(w, 1)), Word(ByteOf(w, 2)), Word(ByteOf(w, 3)),
     Word(ByteOf(w, 4)), Word(ByteOf(w, 5)), Word(ByteOf(w, 6)), Word(ByteOf(w, 7))]
  }

  lemma {:induction false} SpellsBytes(w: bv64)
    ensures Spells(LowByte, DropByte, 0, w, BytesOf(w))
  {
    DroppedBytes(w);
    LowBytes(w);
    SpellsEight(LowByte, DropByte, 0, w, w >> 8, w >> 16, w >> 24, w >> 32, w >> 40, w >> 48, w >> 56,
      Word(ByteOf(w, 0)), Word(ByteOf(w, 1)), Word(ByteOf(w, 2)), Word(ByteOf(w, 3)),
      Word(ByteOf(w, 4)), Word(ByteOf(w, 5)), Word(ByteOf(w, 6)), Word(ByteOf(w, 7)));
  }

  lemma {:induction false} SpellsLoaded(s: seq<bv8>)
    requires |s| == 8
    ensures Spells(LowByte, DropByte, 0, LoadLittle(s), Words(s))
  {
    var w := LoadLittle(s);
    SpellsBytes(w);
    LoadedBytes(s);
    assert BytesOf(w) == Words(s);
  }

  // ---------------------------------------------------------------------------
  // Tables
  // ---------------------------------------------------------------------------

  function Index(b: bv8): (i: int)
    ensures 0 <= i < 256
  {
    b as int
  }

  lemma NextIndex(b: bv8)
    requires b != 255
    ensures Index(b + 1) == Index(b) + 1
  {
  }

  /** The byte with a given value. */
  function ByteWith(n: int): (b: bv8)
    requires 0 <= n < 256
    ensures Index(b) == n
    decreases n
  {
    if n == 0 then 0
    else
      var b := ByteWith(n - 1);
      NextIndex(b);
      b + 1
  }

  lemma {:induction false} ByteWithIndex(b: bv8)
    ensures ByteWith(Index(b)) == b
    decreases b
  {
    if b != 0 {
      ByteWithIndex(b - 1);
      NextIndex(b - 1);
      assert b - 1 + 1 == b;
    }
  }

  lemma SameIndex(a: bv8, b: bv8)
    requires Index(a) == Index(b)
    ensures a == b
  {
    hide Index, ByteWith;
    ByteWithIndex(a);
    ByteWithIndex(b);
  }

  /** The entries of all tables for byte b: the byte carried down 1, 2, ..., 8 steps. */
  ghost predicate Column(step: bv64 -> bv64, table: array2<bv64>, b: bv8)
    requires table.Length0 == 8 && table.Length1 == 256
    reads table
  {
    forall k :: 0 <= k < 8 ==> table[k, Index(b)] == Iter(step, k + 1, Word(b))
  }

  ghost predicate LittleTable(step: bv64 -> bv64, table: array2<bv64>)
    reads table
  {
    && table.Length0 == 8 && table.Length1 == 256
    && forall b: bv8 :: Column(step, table, b)
  }

  /** The little-endian tables with every entry byte-reversed. */
  ghost predicate BigTable(step: bv64 -> bv64, table: array2<bv64>)
    reads table
  {
    && table.Length0 == 8 && table.Length1 == 256
    && forall k, b: bv8 :: 0 <= k < 8 ==> table[k, Index(b)] == Rev8(Iter(step, k + 1, Word(b)))
  }

  ghost predicate RowZero(step: bv64 -> bv64, table: array2<bv64>)
    reads table
  {
    && table.Length0 == 8 && table.Length1 == 256
    && forall b: bv8 :: table[0, Index(b)] == step(Word(b))
  }

  lemma LowByteIndex(crc: bv64)
    ensures Word(ByteOf(crc, 0)) == LowByte(crc)
  {
  }

  /** One lookup: the entry for the low byte, mixed with the rest moved down. */
  function NextRegister(ghost step: bv64 -> bv64, crc: bv64, entry: bv64): (r: bv64)
    requires IsByteStep(step)
    requires entry == step(LowByte(crc))
    ensures r == step(crc)
  {
    assert At1(crc);
    entry ^ (crc >> 8)
  }

  /** Steps the register by one byte position, through the first table. */
  method Advance(ghost step: bv64 -> bv64, table: array2<bv64>, crc: bv64) returns (r: bv64)
    requires IsByteStep(step)
    requires RowZero(step, table)
    ensures r == step(crc)
  {
    LowByteIndex(crc);
    r := NextRegister(step, crc, table[0, Index(ByteOf(crc, 0))]);
  }

  /** The entry of table k for index n, from the entry of the table before. */
  method FillEntry(ghost step: bv64 -> bv64, table: array2<bv64>, n: int, ghost b: bv8, k: nat, before: bv64)
    returns (crc: bv64)
    requires IsByteStep(step) && RowZero(step, table)
    requires 0 <= n < 256 && 0 < k < 8 && before == Iter(step, k, Word(b))
    modifies table
    ensures RowZero(step, table) && crc == table[k, n] == Iter(step, k + 1, Word(b))
    ensures forall j, m :: 0 <= j < 8 && 0 <= m < 256 && (j != k || m != n) ==> table[j, m] == old(table[j, m])
  {
    hide IsByteStep, Word, Index, Iter;
    crc := Advance(step, table, before);
    IterLast(step, k, Word(b));
    table[k, n] := crc;
  }

  method FillColumn(ghost step: bv64 -> bv64, table: array2<bv64>, n: int, ghost b: bv8)
    requires IsByteStep(step)
    requires RowZero(step, table)
    requires n == Index(b)
    modifies table
    ensures RowZero(step, table)
    ensures Column(step, table, b)
    ensures forall k, m :: 0 <= k < 8 && 0 <= m < 256 && m != n ==> table[k, m] == old(table[k, m])
  {
    var crc := table[0, n];
    assert crc == Iter(step, 1, Word(b));
    hide IsByteStep, Word, Iter, RowZero;
    for k := 1 to 8
      invariant crc == Iter(step, k, Word(b))
      invariant RowZero(step, table)
      invariant forall j, m :: 0 <= j < 8 && 0 <= m < 256 && m != n ==> table[j, m] == old(table[j, m])
      invariant forall j :: 0 <= j < k ==> table[j, n] == Iter(step, j + 1, Word(b))
    {
      crc := FillEntry(step, table, n, b, k, crc);
    }
  }

  method LittleInit(crcfn: (bv64, seq<bv8>) -> bv64, ghost step: bv64 -> bv64, table: array2<bv64>)
    requires table.Length0 == 8 && table.Length1 == 256
    requires IsByteStep(step)
    requires forall b: bv8 :: crcfn(0, [b]) == step(Word(b))
    modifies table
    ensures LittleTable(step, table)
  {
    for n := 0 to 256
      invariant forall b: bv8 :: Index(b) < n ==> table[0, Index(b)] == step(Word(b))
    {
      var v := ByteWith(n);
      table[0, n] := crcfn(0, [v]);
      forall b: bv8 | Index(b) == n ensures b == v {
        SameIndex(b, v);
      }
    }
    for n := 0 to 256
      invariant RowZero(step, table)
      invariant forall b: bv8 :: Index(b) < n ==> Column(step, table, b)
    {
      label before:
      ghost var v := ByteWith(n);
      FillColumn(step, table, n, v);
      forall b: bv8 | Index(b) < n + 1 ensures Column(step, table, b) {
        if Index(b) < n {
          assert old@before(Column(step, table, b));
        } else {
          SameIndex(b, v);
        }
      }
    }
  }

  // ---------------------------------------------------------------------------
  // The little-endian routine
  // ---------------------------------------------------------------------------

  lemma MixedByte(crc: bv64, b: bv8)
    ensures DropByte(Xor(crc, Word(b))) == DropByte(crc)
    ensures crc ^ (b as bv64) == Xor(crc, Word(b))
  {
  }

  /** The register one byte further on: next is the index of the byte, crc where the run began. */
  method LittleNext(ghost step: bv64 -> bv64, table: array2<bv64>, ghost crc: bv64, now: bv64, buf: seq<bv8>, next: nat)
    returns (r: bv64)
    requires next < |buf|
    requires IsByteStep(step)
    requires LittleTable(step, table)
    requires now == After(step, crc, buf[..next])
    ensures r == After(step, crc, buf[..next + 1])
  {
    AfterByte(step, crc, buf, next);
    r := LittleByte(step, table, now, buf[next]);
  }

  method LittleByte(ghost step: bv64 -> bv64, table: array2<bv64>, crc: bv64, b: bv8) returns (r: bv64)
    requires IsByteStep(step)
    requires LittleTable(step, table)
    ensures r == step(Xor(crc, Word(b)))
  {
    var v := Xor(crc, Word(b));
    MixedByte(crc, b);
    LowByteIndex(v);
    assert Column(step, table, ByteOf(v, 0));
    assert Iter(step, 1, LowByte(v)) == step(LowByte(v));
    r := NextRegister(step, v, table[0, Index(ByteOf(v, 0))]);
  }

  method Entry(ghost step: bv64 -> bv64, table: array2<bv64>, k: nat, b: bv8) returns (e: bv64)
    requires k < 8
    requires LittleTable(step, table)
    ensures e == Iter(step, k + 1, Word(b))
  {
    assert Column(step, table, b);
    e := table[k, Index(b)];
  }

  /** Mixes in the table entry of byte k of a word whose bytes are p. */
  method MixSlice(ghost step: bv64 -> bv64, table: array2<bv64>, acc: bv64, b: bv8, ghost p: seq<bv64>, k: nat)
    returns (r: bv64)
    requires LittleTable(step, table)
    requires |p| == 8 && k < 8 && p[k] == Word(b)
    ensures Slices(Xor, step, acc, p[k..]) == Slices(Xor, step, r, p[k + 1..])
  {
    var e := Entry(step, table, 7 - k, b);
    SliceOne(Xor, step, acc, p, k);
    r := Xor(acc, e);
  }

  method MixTwo(ghost step: bv64 -> bv64, table: array2<bv64>, acc: bv64, b: bv8, c: bv8, ghost p: seq<bv64>, k: nat)
    returns (r: bv64)
    requires LittleTable(step, table)
    requires |p| == 8 && k < 7 && p[k] == Word(b) && p[k + 1] == Word(c)
    ensures Slices(Xor, step, acc, p[k..]) == Slices(Xor, step, r, p[k + 2..])
  {
    r := MixSlice(step, table, acc, b, p, k);
    r := MixSlice(step, table, r, c, p, k + 1);
  }

  lemma BytesAre(v: bv64)
    ensures var p := BytesOf(v);
      && |p| == 8 && p[0] == Word(ByteOf(v, 0)) && p[1] == Word(ByteOf(v, 1)) && p[2] == Word(ByteOf(v, 2))
      && p[3] == Word(ByteOf(v, 3)) && p[4] == Word(ByteOf(v, 4)) && p[5] == Word(ByteOf(v, 5))
      && p[6] == Word(ByteOf(v, 6)) && p[7] == Word(ByteOf(v, 7))
  {
  }

  /** The eight lookups for a word that already holds register and message. */
  method LookupWord(ghost step: bv64 -> bv64, table: array2<bv64>, v: bv64) returns (r: bv64)
    requires IsByteStep(step)
    requires LittleTable(step, table)
    ensures r == Iter(step, 8, v)
  {
    hide ByteOf, BytesOf, LowByte, DropByte, Xor, Word, LittleTable, Slices, Iter, Slides, Spells;
    ghost var p := BytesOf(v);
    BytesAre(v);
    SpellsBytes(v);
    XorNeutral();
    FirstSlice(Xor, step, LowByte, DropByte, 0, v, p);
    r := Entry(step, table, 7, ByteOf(v, 0));
    r := MixSlice(step, table, r, ByteOf(v, 1), p, 1);
    r := MixTwo(step, table, r, ByteOf(v, 2), ByteOf(v, 3), p, 2);
    r := MixTwo(step, table, r, ByteOf(v, 4), ByteOf(v, 5), p, 4);
    r := MixTwo(step, table, r, ByteOf(v, 6), ByteOf(v, 7), p, 6);
    assert p[8..] == [];
    NoSlices(Xor, step, r);
  }

  method LittleWord(ghost step: bv64 -> bv64, table: array2<bv64>, crc: bv64, s: seq<bv8>) returns (r: bv64)
    requires |s| == 8
    requires IsByteStep(step)
    requires LittleTable(step, table)
    ensures r == After(step, crc, s)
  {
    SpellsLoaded(s);
    XorNeutral();
    SteppedWord(Xor, step, LowByte, DropByte, 0, crc, LoadLittle(s), Words(s));
    r := LookupWord(step, table, Xor(crc, LoadLittle(s)));
  }

  /** The register eight bytes further on. */
  method LittleNextWord(ghost step: bv64 -> bv64, table: array2<bv64>, ghost crc: bv64, now: bv64, buf: seq<bv8>,
      next: nat)
    returns (r: bv64)
    requires next + 8 <= |buf|
    requires IsByteStep(step)
    requires LittleTable(step, table)
    requires now == After(step, crc, buf[..next])
    ensures r == After(step, crc, buf[..next + 8])
  {
    hide After, IsByteStep, LittleTable;
    AfterConcat(step, crc, buf[..next], buf[next..next + 8]);
    assert buf[..next] + buf[next..next + 8] == buf[..next + 8];
    r := LittleWord(step, table, now, buf[next..next + 8]);
  }

  /** The CRC of buf, which starts at the given address, continued from crc. */
  method Little(ghost step: bv64 -> bv64, table: array2<bv64>, crc: bv64, buf: seq<bv8>, address: nat) returns (r: bv64)
    requires IsByteStep(step)
    requires LittleTable(step, table)
    ensures r == After(step, crc, buf)
  {
    r := crc;
    var next: nat, len: nat := 0, |buf|;
    assert buf[..0] == [];
    hide After, IsByteStep, LittleTable;
    AfterNone(step, crc);
    while len != 0 && (address + next) % 8 != 0
      invariant next + len == |buf|
      invariant r == After(step, crc, buf[..next])
      decreases len
    {
      r := LittleNext(step, table, crc, r, buf, next);
      next, len := next + 1, len - 1;
    }
    while len >= 8
      invariant next + len == |buf|
      invariant r == After(step, crc, buf[..next])
      decreases len
    {
      r := LittleNextWord(step, table, crc, r, buf, next);
      next, len := next + 8, len - 8;
    }
    while len != 0
      invariant next + len == |buf|
      invariant r == After(step, crc, buf[..next])
      decreases len
    {
      r := LittleNext(step, table, crc, r, buf, next);
      next, len := next + 1, len - 1;
    }
    assert buf[..next] == buf;
  }

  // ---------------------------------------------------------------------------
  // The big-endian routine: the same registers, byte-reversed
  // ---------------------------------------------------------------------------

  function RaiseByte(w: bv64): bv64 { w << 8 }

  lemma Rev8Involution(a: bv64)
    ensures Rev8(Rev8(a)) == a
  {
  }

  lemma Rev8Xor(a: bv64, b: bv64)
    ensures Rev8(Xor(a, b)) == Xor(Rev8(a), Rev8(b))
  {
  }

  lemma Rev8Drop(a: bv64)
    ensures Rev8(DropByte(a)) == RaiseByte(Rev8(a))
  {
    calc {
      Rev8(DropByte(a));
      Rev8(a >> 8);
      { Rev8DropWords(a); }
      Rev8(a) << 8;
    }
  }

  lemma Rev8DropWords(a: bv64)
    ensures Rev8(a >> 8) == Rev8(a) << 8
  {
  }

  lemma Rev8Bytes(v: bv64)
    ensures ByteOf(Rev8(v), 0) == ByteOf(v, 7) && ByteOf(Rev8(v), 1) == ByteOf(v, 6)
    ensures ByteOf(Rev8(v), 2) == ByteOf(v, 5) && ByteOf(Rev8(v), 3) == ByteOf(v, 4)
    ensures ByteOf(Rev8(v), 4) == ByteOf(v, 3) && ByteOf(Rev8(v), 5) == ByteOf(v, 2)
    ensures ByteOf(Rev8(v), 6) == ByteOf(v, 1) && ByteOf(Rev8(v), 7) == ByteOf(v, 0)
  {
  }

  lemma TopByteIndex(m: bv64, b: bv8)
    ensures Word(ByteOf(Rev8(m), 7) ^ b) == LowByte(Xor(m, Word(b)))
  {
  }

  method BigInit(crcfn: (bv64, seq<bv8>) -> bv64, ghost step: bv64 -> bv64, table: array2<bv64>)
    requires table.Length0 == 8 && table.Length1 == 256
    requires IsByteStep(step)
    requires forall b: bv8 :: crcfn(0, [b]) == step(Word(b))
    modifies table
    ensures BigTable(step, table)
  {
    LittleInit(crcfn, step, table);
    label filled:
    for k := 0 to 8
      invariant forall j, n :: 0 <= j < k && 0 <= n < 256 ==> table[j, n] == Rev8(old@filled(table[j, n]))
      invariant forall j, n :: k <= j < 8 && 0 <= n < 256 ==> table[j, n] == old@filled(table[j, n])
    {
      for n := 0 to 256
        invariant forall j, m :: 0 <= j < k && 0 <= m < 256 ==> table[j, m] == Rev8(old@filled(table[j, m]))
        invariant forall m :: 0 <= m < n ==> table[k, m] == Rev8(old@filled(table[k, m]))
        invariant forall m :: n <= m < 256 ==> table[k, m] == old@filled(table[k, m])
        invariant forall j, m :: k < j < 8 && 0 <= m < 256 ==> table[j, m] == old@filled(table[j, m])
      {
        table[k, n] := Rev8(table[k, n]);
      }
    }
    forall k, b: bv8 | 0 <= k < 8 ensures table[k, Index(b)] == Rev8(Iter(step, k + 1, Word(b))) {
      assert old@filled(Column(step, table, b));
    }
  }

  method BigLookup(ghost step: bv64 -> bv64, table: array2<bv64>, b: bv8) returns (e: bv64)
    requires BigTable(step, table)
    ensures e == Rev8(step(Word(b)))
  {
    e := table[0, Index(b)];
    assert Iter(step, 1, Word(b)) == step(Word(b));
  }

  method BigByte(ghost step: bv64 -> bv64, table: array2<bv64>, crc: bv64, ghost m: bv64, b: bv8) returns (r: bv64)
    requires IsByteStep(step)
    requires BigTable(step, table)
    requires crc == Rev8(m)
    ensures r == Rev8(step(Xor(m, Word(b))))
  {
    var e := BigLookup(step, table, ByteOf(crc, 7) ^ b);
    TopByteIndex(m, b);
    BigByteStep(step, m, b);
    r := Xor(e, RaiseByte(crc));
  }

  lemma {:induction false} BigByteStep(step: bv64 -> bv64, m: bv64, b: bv8)
    requires IsByteStep(step)
    ensures var v := Xor(m, Word(b));
      Xor(Rev8(step(LowByte(v))), RaiseByte(Rev8(m))) == Rev8(step(v))
  {
    var v := Xor(m, Word(b));
    calc {
      Xor(Rev8(step(LowByte(v))), RaiseByte(Rev8(m)));
      { Rev8Drop(m); MixedByte(m, b); }
      Xor(Rev8(step(LowByte(v))), Rev8(DropByte(v)));
      { Rev8Xor(step(LowByte(v)), DropByte(v)); }
      Rev8(Xor(step(LowByte(v)), DropByte(v)));
      { assert At1(v); }
      Rev8(step(v));
    }
  }

  /** Mixes in the entry of the lowest byte of w, given the result for the rest of w. */
  method BigSlice(ghost step: bv64 -> bv64, table: array2<bv64>, acc: bv64, n: nat, b: bv8, ghost w: bv64,
      ghost h: bv64)
    returns (r: bv64)
    requires IsByteStep(step)
    requires BigTable(step, table)
    requires n < 8
    requires Word(b) == LowByte(w) && h == DropByte(w)
    requires acc == Rev8(Iter(step, n, h))
    ensures r == Rev8(Iter(step, n + 1, w))
  {
    var e := table[n, Index(b)];
    r := Xor(acc, e);
    ghost var first, rest := Iter(step, n + 1, LowByte(w)), Iter(step, n, h);
    calc {
      Rev8(Iter(step, n + 1, w));
      { IterSplits(Xor, step, LowByte, DropByte, n, w); }
      Rev8(Xor(first, rest));
      { Rev8Xor(first, rest); }
      Xor(Rev8(first), Rev8(rest));
      { XorComm(Rev8(first), Rev8(rest)); }
      r;
    }
  }

  method BigLookupWord(ghost step: bv64 -> bv64, table: array2<bv64>, u: bv64, ghost v: bv64) returns (r: bv64)
    requires IsByteStep(step)
    requires BigTable(step, table)
    requires u == Rev8(v)
    ensures r == Rev8(Iter(step, 8, v))
  {
    DroppedBytes(v);
    LowBytes(v);
    Rev8Bytes(v);
    r := 0;
    r := BigSlice(step, table, r, 0, ByteOf(u, 0), v >> 56, 0);
    r := BigSlice(step, table, r, 1, ByteOf(u, 1), v >> 48, v >> 56);
    r := BigSlice(step, table, r, 2, ByteOf(u, 2), v >> 40, v >> 48);
    r := BigSlice(step, table, r, 3, ByteOf(u, 3), v >> 32, v >> 40);
    r := BigSlice(step, table, r, 4, ByteOf(u, 4), v >> 24, v >> 32);
    r := BigSlice(step, table, r, 5, ByteOf(u, 5), v >> 16, v >> 24);
    r := BigSlice(step, table, r, 6, ByteOf(u, 6), v >> 8, v >> 16);
    r := BigSlice(step, table, r, 7, ByteOf(u, 7), v, v >> 8);
  }

  method BigWord(ghost step: bv64 -> bv64, table: array2<bv64>, crc: bv64, ghost m: bv64, s: seq<bv8>) returns (r: bv64)
    requires |s| == 8
    requires IsByteStep(step)
    requires BigTable(step, table)
    requires crc == Rev8(m)
    ensures r == Rev8(After(step, m, s))
  {
    LoadedBytes(s);
    SpellsLoaded(s);
    XorNeutral();
    SteppedWord(Xor, step, LowByte, DropByte, 0, m, LoadLittle(s), Words(s));
    Rev8Xor(m, LoadLittle(s));
    r := BigLookupWord(step, table, Xor(crc, LoadBig(s)), Xor(m, LoadLittle(s)));
  }

  method BigNext(ghost step: bv64 -> bv64, table: array2<bv64>, ghost crc: bv64, now: bv64, buf: seq<bv8>, next: nat)
    returns (r: bv64)
    requires next < |buf|
    requires IsByteStep(step)
    requires BigTable(step, table)
    requires now == Rev8(After(step, crc, buf[..next]))
    ensures r == Rev8(After(step, crc, buf[..next + 1]))
  {
    AfterByte(step, crc, buf, next);
    r := BigByte(step, table, now, After(step, crc, buf[..next]), buf[next]);
  }

  method BigNextWord(ghost step: bv64 -> bv64, table: array2<bv64>, ghost crc: bv64, now: bv64, buf: seq<bv8>,
      next: nat)
    returns (r: bv64)
    requires next + 8 <= |buf|
    requires IsByteStep(step)
    requires BigTable(step, table)
    requires now == Rev8(After(step, crc, buf[..next]))
    ensures r == Rev8(After(step, crc, buf[..next + 8]))
  {
    hide After, IsByteStep, BigTable, Rev8;
    AfterConcat(step, crc, buf[..next], buf[next..next + 8]);
    assert buf[..next] + buf[next..next + 8] == buf[..next + 8];
    r := BigWord(step, table, now, After(step, crc, buf[..next]), buf[next..next + 8]);
  }

  method Big(ghost step: bv64 -> bv64, table: array2<bv64>, crc: bv64, buf: seq<bv8>, address: nat) returns (r: bv64)
    requires IsByteStep(step)
    requires BigTable(step, table)
    ensures r == After(step, crc, buf)
  {
    hide After, IsByteStep, BigTable, Rev8;
    AfterNone(step, crc);
    r := Rev8(crc);
    var next: nat, len: nat := 0, |buf|;
    assert buf[..0] == [];
    while len != 0 && (address + next) % 8 != 0
      invariant next + len == |buf|
      invariant r == Rev8(After(step, crc, buf[..next]))
      decreases len
    {
      r := BigNext(step, table, crc, r, buf, next);
      next, len := next + 1, len - 1;
    }
    while len >= 8
      invariant next + len == |buf|
      invariant r == Rev8(After(step, crc, buf[..next]))
      decreases len
    {
      r := BigNextWord(step, table, crc, r, buf, next);
      next, len := next + 8, len - 8;
    }
    while len != 0
      invariant next + len == |buf|
      invariant r == Rev8(After(step, crc, buf[..next]))
      decreases len
    {
      r := BigNext(step, table, crc, r, buf, next);
      next, len := next + 1, len - 1;
    }
    assert buf[..next] == buf;
    Rev8Involution(After(step, crc, buf));
    r := Rev8(r);
  }
}
