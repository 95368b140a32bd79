/**
 The stream a rewrite writes, as the sequence of its writes: headers that
 announce a number of arguments, and arguments. Every header is written before
 the items it announces, from a running count of the items that are left.
 */
module AofRewrite {

  import opened AofDataset
  import opened AofFeed
  import opened AofFormat
  import opened AofLoader
  import opened Sds
  import opened Wrappers

  datatype Token = Head(n: nat) | Arg(s: string)

  function TokenText(t: Token): string {
    match t
    case Head(n) => Header('*', n)
    case Arg(s) => Bulk(s)
  }

  function Args(ss: seq<string>): (r: seq<Token>)
    ensures |r| == |ss| && forall i :: 0 <= i < |ss| ==> r[i] == Token.Arg(ss[i])
  {
    seq(|ss|, i requires 0 <= i < |ss| => Token.Arg(ss[i]))
  }

  function CommandTokens(argv: Argv): seq<Token> { [Head(|argv|)] + Args(argv) }

  /** A stream in which every header is followed by as many arguments as it announces. */
  function StreamTokens(cmds: seq<Argv>): seq<Token> {
    if cmds == [] then [] else CommandTokens(cmds[0]) + StreamTokens(cmds[1..])
  }

  lemma {:induction false} StreamConcat(a: seq<Argv>, b: seq<Argv>)
    ensures StreamTokens(a + b) == StreamTokens(a) + StreamTokens(b)
  {
    if a == [] {
      assert a + b == b;
    } else {
      assert (a + b)[1..] == a[1..] + b;
      StreamConcat(a[1..], b);
    }
  }

  lemma {:induction false} ArgsText(ss: seq<string>)
    ensures Flat(TokenText, Args(ss)) == Bulks(ss)
  {
    if ss != [] {
      assert Args(ss)[1..] == Args(ss[1..]);
      ArgsText(ss[1..]);
    }
  }

  /** The bytes of such a stream are the encoding of its commands. */
  lemma {:induction false} StreamText(cmds: seq<Argv>)
    ensures Flat(TokenText, StreamTokens(cmds)) == Encode(cmds)
  {
    if cmds != [] {
      var argv := cmds[0];
      ArgsText(argv);
      assert CommandTokens(argv)[1..] == Args(argv);
      assert Flat(TokenText, CommandTokens(argv)) == EncodeCommand(argv);
      FlatConcat(TokenText, CommandTokens(argv), StreamTokens(cmds[1..]));
      StreamText(cmds[1..]);
    }
  }

  // ---------------------------------------------------------------------------
  // Collections
  // ---------------------------------------------------------------------------

  /** What is still to be written when r items of the current command are outstanding. */
  ghost function ToWrite(c: Collection, key: string, items: seq<Item>, r: nat, chunk: nat): seq<Token>
    requires r <= |items| && chunk > 0
  {
    Args(ArgsOf(items[..r])) + StreamTokens(Chunks(c, key, items[r..], chunk))
  }

  lemma Associate<T>(a: seq<T>, b: seq<T>, c: seq<T>)
    ensures a + b + c == a + (b + c)
  {
  }

  function HeadTokens(c: Collection, key: string, n: nat): seq<Token> {
    [Head(2 + n * Width(c)), Token.Arg(CommandName(c)), Token.Arg(key)]
  }

  lemma {:induction false} ChunkTokens(c: Collection, key: string, items: seq<Item>)
    requires AreItems(c, items)
    ensures CommandTokens(ChunkCommand(c, key, items)) == HeadTokens(c, key, |items|) + Args(ArgsOf(items))
  {
    var args := ArgsOf(items);
    ItemsOfArgs(c, items);
    ArgsTwo(CommandName(c), key, args);
    Associate([Head(2 + |items| * Width(c))], [Token.Arg(CommandName(c)), Token.Arg(key)], Args(args));
  }

  lemma ArgsTwo(a: string, b: string, rest: seq<string>)
    ensures Args([a, b] + rest) == [Token.Arg(a), Token.Arg(b)] + Args(rest)
    ensures |[a, b] + rest| == 2 + |rest|
  {
  }

  lemma {:induction false} HeaderWritten(c: Collection, key: string, items: seq<Item>, chunk: nat)
    requires AreItems(c, items) && items != [] && chunk > 0
    ensures var n := Min(chunk, |items|);
      StreamTokens(Chunks(c, key, items, chunk)) == HeadTokens(c, key, n) + ToWrite(c, key, items, n, chunk)
  {
    var n := Min(chunk, |items|);
    ChunkTokens(c, key, items[..n]);
    Associate(HeadTokens(c, key, n), Args(ArgsOf(items[..n])), StreamTokens(Chunks(c, key, items[n..], chunk)));
  }

  lemma NoneOutstanding(c: Collection, key: string, items: seq<Item>, chunk: nat)
    requires chunk > 0
    ensures ToWrite(c, key, items, 0, chunk) == StreamTokens(Chunks(c, key, items, chunk))
  {
    assert items[..0] == [] && items[0..] == items;
    assert Args([]) == [];
  }

  lemma {:induction false} ItemWritten(c: Collection, key: string, items: seq<Item>, r: nat, chunk: nat)
    requires 0 < r <= |items| && chunk > 0
    ensures ToWrite(c, key, items, r, chunk) == Args(items[0]) + ToWrite(c, key, items[1..], r - 1, chunk)
  {
    assert items[..r][1..] == items[1..][..r - 1] && items[1..][r - 1..] == items[r..];
    assert Args(ArgsOf(items[..r])) == Args(items[0]) + Args(ArgsOf(items[1..][..r - 1]));
  }

  /** The items still announced when count of the current command are written and left remain. */
  function Outstanding(count: nat, left: nat, chunk: nat): (r: nat)
    requires count < chunk
    ensures r <= left
  {
    if count == 0 then 0 else Min(chunk - count, left)
  }

  function NextCount(count: nat, chunk: nat): (r: nat)
    requires count < chunk
    ensures r < chunk
  {
    if count + 1 == chunk then 0 else count + 1
  }

  /** What one step writes: a header if the last command is complete, and the next item. */
  function NextTokens(c: Collection, key: string, item: Item, left: nat, count: nat, chunk: nat): seq<Token> {
    if count == 0 then HeadTokens(c, key, Min(chunk, left)) + Args(item) else Args(item)
  }

  ghost function AllTokens(c: Collection, key: string, items: seq<Item>, count: nat, chunk: nat): seq<Token>
    requires count < chunk
    decreases |items|
  {
    if items == [] then []
    else NextTokens(c, key, items[0], |items|, count, chunk) + AllTokens(c, key, items[1..], NextCount(count, chunk),
        chunk)
  }

  lemma {:induction false} NextTokensAre(c: Collection, key: string, items: seq<Item>, count: nat, chunk: nat)
    requires AreItems(c, items) && items != [] && count < chunk
    ensures ToWrite(c, key, items, Outstanding(count, |items|, chunk), chunk)
      == NextTokens(c, key, items[0], |items|, count, chunk)
         + ToWrite(c, key, items[1..], Outstanding(NextCount(count, chunk), |items| - 1, chunk), chunk)
  {
    var r := if count == 0 then Min(chunk, |items|) else Outstanding(count, |items|, chunk);
    assert r - 1 == Outstanding(NextCount(count, chunk), |items| - 1, chunk);
    ItemWritten(c, key, items, r, chunk);
    if count == 0 {
      NoneOutstanding(c, key, items, chunk);
      HeaderWritten(c, key, items, chunk);
      Associate(HeadTokens(c, key, r), Args(items[0]), ToWrite(c, key, items[1..], r - 1, chunk));
    }
  }

  /** Step by step, the writes are those of whole commands: every header counts what follows it. */
  lemma NoChunks(c: Collection, key: string, chunk: nat)
    requires chunk > 0
    ensures StreamTokens(Chunks(c, key, [], chunk)) == []
  {
  }

  lemma {:induction false} AllTokensAre(c: Collection, key: string, items: seq<Item>, count: nat, chunk: nat)
    requires AreItems(c, items) && count < chunk
    ensures AllTokens(c, key, items, count, chunk) == ToWrite(c, key, items, Outstanding(count, |items|, chunk), chunk)
    decreases |items|
  {
    hide ToWrite, NextTokens;
    if items == [] {
      NoneOutstanding(c, key, [], chunk);
      NoChunks(c, key, chunk);
    } else {
      NextTokensAre(c, key, items, count, chunk);
      AllTokensAre(c, key, items[1..], NextCount(count, chunk), chunk);
    }
  }

  lemma {:induction false} NextWritten(out: seq<Token>, c: Collection, key: string, items: seq<Item>, i: nat,
      count: nat, chunk: nat)
    requires i < |items| && count < chunk
    ensures out + AllTokens(c, key, items[i..], count, chunk)
      == out + NextTokens(c, key, items[i], |items| - i, count, chunk)
         + AllTokens(c, key, items[i + 1..], NextCount(count, chunk), chunk)
  {
    assert items[i..][1..] == items[i + 1..];
    Associate(out, NextTokens(c, key, items[i], |items| - i, count, chunk),
              AllTokens(c, key, items[i + 1..], NextCount(count, chunk), chunk));
  }

  method WriteNext(out0: seq<Token>, c: Collection, key: string, item: Item, left: nat, count: nat, chunk: nat)
    returns (out: seq<Token>)
    ensures out == out0 + NextTokens(c, key, item, left, count, chunk)
  {
    out := out0;
    if count == 0 {
      var n := if left > chunk then chunk else left;
      out := out + HeadTokens(c, key, n);
    }
    out := out + Args(item);
  }

  /** Writes the items of a collection in commands of at most chunk items. */
  method RewriteCollection(out0: seq<Token>, c: Collection, key: string, items: seq<Item>, chunk: nat)
    returns (out: seq<Token>)
    requires AreItems(c, items) && chunk > 0
    ensures out == out0 + StreamTokens(Chunks(c, key, items, chunk))
  {
    hide AllTokens, NextTokens, StreamTokens, Chunks, ToWrite;
    out := out0;
    var count := 0;
    assert items[0..] == items;
    for i := 0 to |items|
      invariant 0 <= count < chunk
      invariant out + AllTokens(c, key, items[i..], count, chunk) == out0 + AllTokens(c, key, items, 0, chunk)
    {
      NextWritten(out, c, key, items, i, count, chunk);
      out := WriteNext(out, c, key, items[i], |items| - i, count, chunk);
      count := count + 1;
      if count == chunk {
        count := 0;
      }
    }
    AllTokensAre(c, key, items, 0, chunk);
    NoneOutstanding(c, key, items, chunk);
    NoTokens(c, key, count, chunk);
    assert items[|items|..] == [] && out + [] == out;
  }

  lemma NoTokens(c: Collection, key: string, count: nat, chunk: nat)
    requires count < chunk
    ensures AllTokens(c, key, [], count, chunk) == []
  {
  }

  // ---------------------------------------------------------------------------
  // Keys and databases
  // ---------------------------------------------------------------------------

  /** Goes through a collection: a list in order, the others in an order of their own. */
  method Enumerate(v: Value) returns (items: seq<Item>)
    requires !v.Str?
    ensures Lists(v, items)
  {
    match v
    case List(xs) =>
      items := seq(|xs|, i requires 0 <= i < |xs| => [xs[i]]);
    case SetOf(ms) =>
      items := EnumerateSet(ms);
    case ZSet(zs) =>
      items := EnumerateZSet(zs);
    case Hash(hs) =>
      items := EnumerateHash(hs);
  }

  method EnumerateSet(ms: set<string>) returns (items: seq<Item>)
    ensures Lists(SetOf(ms), items)
  {
    items := [];
    var todo := ms;
    while todo != {}
      invariant todo <= ms && AreItems(SetKind, items)
      invariant forall i :: 0 <= i < |items| ==> items[i][0] in ms
      invariant forall x :: x in ms && x !in todo ==> [x] in items
    {
      var x :| x in todo;
      items := items + [[x]];
      todo := todo - {x};
    }
  }

  method EnumerateZSet(zs: map<string, string>) returns (items: seq<Item>)
    ensures Lists(ZSet(zs), items)
  {
    items := [];
    var todo := zs.Keys;
    while todo != {}
      invariant todo <= zs.Keys && AreItems(ZSetKind, items)
      invariant forall i :: 0 <= i < |items| ==> items[i][1] in zs && zs[items[i][1]] == items[i][0]
      invariant forall x :: x in zs && x !in todo ==> [zs[x], x] in items
    {
      var x :| x in todo;
      items := items + [[zs[x], x]];
      todo := todo - {x};
    }
  }

  method EnumerateHash(hs: map<string, string>) returns (items: seq<Item>)
    ensures Lists(Hash(hs), items)
  {
    items := [];
    var todo := hs.Keys;
    while todo != {}
      invariant todo <= hs.Keys && AreItems(HashKind, items)
      invariant forall i :: 0 <= i < |items| ==> items[i][0] in hs && hs[items[i][0]] == items[i][1]
      invariant forall x :: x in hs && x !in todo ==> [x, hs[x]] in items
    {
      var x :| x in todo;
      items := items + [[x, hs[x]]];
      todo := todo - {x};
    }
  }

  function KeyCommands(key: string, e: Entry, items: seq<Item>, chunk: nat): seq<Argv>
    requires chunk > 0
  {
    ValueCommands(key, e.value, items, chunk) + ExpireCommands(key, e.expire)
  }

  lemma OneCommand(argv: Argv)
    ensures StreamTokens([argv]) == CommandTokens(argv)
  {
    assert [argv][1..] == [];
    assert StreamTokens([]) == [];
    assert CommandTokens(argv) + [] == CommandTokens(argv);
  }

  method RewriteKey(out0: seq<Token>, key: string, e: Entry, chunk: nat) returns (out: seq<Token>, items: seq<Item>)
    requires chunk > 0
    ensures !e.value.Str? ==> Lists(e.value, items)
    ensures out == out0 + StreamTokens(KeyCommands(key, e, items, chunk))
  {
    items := [];
    if e.value.Str? {
      OneCommand(["SET", key, e.value.s]);
      out := out0 + [Head(3), Token.Arg("SET"), Token.Arg(key), Token.Arg(e.value.s)];
    } else {
      items := Enumerate(e.value);
      out := RewriteCollection(out0, CollectionOf(e.value), key, items, chunk);
    }
    ghost var a, b := ValueCommands(key, e.value, items, chunk), ExpireCommands(key, e.expire);
    assert out == out0 + StreamTokens(a);
    StreamConcat(a, b);
    Associate(out0, StreamTokens(a), StreamTokens(b));
    if e.expire.Some? {
      OneCommand(["PEXPIREAT", key, Decimal(e.expire.value)]);
      out := out + [Head(3), Token.Arg("PEXPIREAT"), Token.Arg(key), Token.Arg(Decimal(e.expire.value))];
    } else {
      assert out + StreamTokens([]) == out;
    }
  }

  // Sizes the format can carry.

  ghost predicate Small(s: string) { |s| <= MAX_LONG }

  ghost predicate SmallValue(v: Value) {
    match v
    case Str(s) => Small(s)
    case List(xs) => forall i :: 0 <= i < |xs| ==> Small(xs[i])
    case SetOf(ms) => forall x :: x in ms ==> Small(x)
    case ZSet(zs) => forall x :: x in zs ==> Small(x) && Small(zs[x])
    case Hash(hs) => forall x :: x in hs ==> Small(x) && Small(hs[x])
  }

  ghost predicate SmallEntry(key: string, e: Entry) {
    Small(key) && SmallValue(e.value) && (e.expire.Some? ==> e.expire.value <= MAX_LONG)
  }

  ghost predicate SmallDbs(dbs: seq<Db>) {
    |dbs| <= MAX_INT && forall j, k :: 0 <= j < |dbs| && k in dbs[j] ==> SmallEntry(k, dbs[j][k])
  }

  ghost predicate SmallArgs(args: seq<string>) { forall i :: 0 <= i < |args| ==> Small(args[i]) }

  ghost predicate Plain(argv: Argv) { WellSized(argv) && |argv| >= 2 }

  ghost predicate AllPlain(cmds: seq<Argv>) { forall i :: 0 <= i < |cmds| ==> Plain(cmds[i]) }

  /** Only databases below n are selected. */
  ghost predicate SelectsBelow(n: nat, cmds: seq<Argv>) {
    forall i :: 0 <= i < |cmds| && IsSelect(cmds[i]) ==> 0 <= Number(cmds[i][1]) < n
  }

  lemma {:induction false} ChunksSelectNothing(c: Collection, key: string, items: seq<Item>, chunk: nat)
    requires chunk > 0
    ensures SelectsBelow(0, Chunks(c, key, items, chunk))
    decreases |items|
  {
    if items != [] {
      var n := Min(chunk, |items|);
      assert ChunkCommand(c, key, items[..n])[0] == CommandName(c);
      ChunksSelectNothing(c, key, items[n..], chunk);
    }
  }

  lemma {:induction false} KeySelectsNothing(key: string, e: Entry, items: seq<Item>, chunk: nat)
    requires chunk > 0
    ensures SelectsBelow(0, KeyCommands(key, e, items, chunk))
  {
    if !e.value.Str? {
      ChunksSelectNothing(CollectionOf(e.value), key, items, chunk);
    }
  }

  lemma {:induction false} ItemsSmall(v: Value, items: seq<Item>)
    requires !v.Str? && Lists(v, items) && SmallValue(v)
    ensures forall i :: 0 <= i < |items| ==> SmallArgs(items[i])
  {
  }

  lemma {:induction false} ArgsSmall(items: seq<Item>)
    requires forall i :: 0 <= i < |items| ==> SmallArgs(items[i])
    ensures SmallArgs(ArgsOf(items))
  {
    if items != [] {
      ArgsSmall(items[1..]);
    }
  }

  lemma {:induction false} ChunksPlain(c: Collection, key: string, items: seq<Item>, chunk: nat)
    requires AreItems(c, items) && 0 < chunk && 2 * chunk + 2 <= MAX_INT && Small(key)
    requires forall i :: 0 <= i < |items| ==> SmallArgs(items[i])
    ensures AllPlain(Chunks(c, key, items, chunk))
    decreases |items|
  {
    if items != [] {
      var n := Min(chunk, |items|);
      ArgsSmall(items[..n]);
      ItemsOfArgs(c, items[..n]);
      var argv := ChunkCommand(c, key, items[..n]);
      assert Small(CommandName(c));
      assert |argv| == 2 + n * Width(c) <= 2 * chunk + 2;
      assert Plain(argv);
      ChunksPlain(c, key, items[n..], chunk);
    }
  }

  lemma {:induction false} KeyPlain(key: string, e: Entry, items: seq<Item>, chunk: nat)
    requires SmallEntry(key, e) && 0 < chunk && 2 * chunk + 2 <= MAX_INT
    requires !e.value.Str? ==> Lists(e.value, items)
    ensures AllPlain(KeyCommands(key, e, items, chunk))
  {
    if e.value.Str? {
      assert Plain(["SET", key, e.value.s]);
    } else {
      ItemsSmall(e.value, items);
      ChunksPlain(CollectionOf(e.value), key, items, chunk);
    }
    if e.expire.Some? {
      DecimalFitsLine(e.expire.value);
      assert Plain(["PEXPIREAT", key, Decimal(e.expire.value)]);
    }
  }

  // ---------------------------------------------------------------------------
  // The whole file
  // ---------------------------------------------------------------------------

  ghost predicate GoodDb(db: Db) { forall k :: k in db ==> GoodEntry(db[k]) }

  /** Everything fits the integers of the format. */
  ghost predicate Fits(db: Db, chunk: nat) { 2 * chunk + 2 <= MAX_INT && forall k :: k in db ==> SmallEntry(k, db[k]) }

  function Restricted(db: Db, keys: set<string>): Db { map k | k in db && k in keys :: db[k] }

  function WithDb(s: State, db: Db): State
    requires s.current < |s.dbs|
  {
    s.(dbs := s.dbs[s.current := db])
  }

  lemma {:induction false} KeyAdded(s: State, db: Db, done: set<string>, key: string, items: seq<Item>, chunk: nat)
    requires s.current < |s.dbs| && GoodDb(db) && key in db && key !in done && chunk > 0
    requires !db[key].value.Str? ==> Lists(db[key].value, items)
    ensures ExecAll(WithDb(s, Restricted(db, done)), KeyCommands(key, db[key], items, chunk))
      == WithDb(s, Restricted(db, done + {key}))
  {
    var t := WithDb(s, Restricted(db, done));
    KeyRebuilt(t, key, db[key], items, chunk);
    assert Restricted(db, done)[key := db[key]] == Restricted(db, done + {key});
    assert t.dbs[s.current := Restricted(db, done + {key})] == s.dbs[s.current := Restricted(db, done + {key})];
  }

  /** Writes every key of a database; replaying that on the empty database gives the database. */
  method RewriteDb(out0: seq<Token>, db: Db, ghost s: State, chunk: nat) returns (out: seq<Token>,
      ghost cmds: seq<Argv>)
    requires s.current < |s.dbs| && s.dbs[s.current] == map[] && GoodDb(db) && chunk > 0
    ensures out == out0 + StreamTokens(cmds) && (Fits(db, chunk) ==> AllPlain(cmds)) && SelectsBelow(0, cmds)
    ensures ExecAll(s, cmds) == WithDb(s, db)
  {
    out, cmds := out0, [];
    var todo := db.Keys;
    assert Restricted(db, {}) == map[] && s.dbs[s.current := map[]] == s.dbs;
    assert out0 + StreamTokens([]) == out0;
    while todo != {}
      invariant todo <= db.Keys
      invariant out == out0 + StreamTokens(cmds) && (Fits(db, chunk) ==> AllPlain(cmds)) && SelectsBelow(0, cmds)
      invariant ExecAll(s, cmds) == WithDb(s, Restricted(db, db.Keys - todo))
    {
      var key :| key in todo;
      assert db.Keys - todo + {key} == db.Keys - (todo - {key});
      ghost var more;
      out, more := RewriteNext(out, db, db.Keys - todo, key, s, chunk);
      ExecAllConcat(s, cmds, more);
      StreamConcat(cmds, more);
      Associate(out0, StreamTokens(cmds), StreamTokens(more));
      cmds := cmds + more;
      todo := todo - {key};
    }
    assert db.Keys - todo == db.Keys && Restricted(db, db.Keys) == db;
  }

  /** Writes one more key. */
  method RewriteNext(out0: seq<Token>, db: Db, ghost done: set<string>, key: string, ghost s: State, chunk: nat)
    returns (out: seq<Token>, ghost cmds: seq<Argv>)
    requires s.current < |s.dbs| && GoodDb(db) && key in db && key !in done && chunk > 0
    ensures out == out0 + StreamTokens(cmds) && (Fits(db, chunk) ==> AllPlain(cmds)) && SelectsBelow(0, cmds)
    ensures ExecAll(WithDb(s, Restricted(db, done)), cmds) == WithDb(s, Restricted(db, done + {key}))
  {
    var items;
    out, items := RewriteKey(out0, key, db[key], chunk);
    cmds := KeyCommands(key, db[key], items, chunk);
    if Fits(db, chunk) {
      KeyPlain(key, db[key], items, chunk);
    }
    KeySelectsNothing(key, db[key], items, chunk);
    KeyAdded(s, db, done, key, items, chunk);
  }

  /** n empty databases. */
  function NoData(n: nat): seq<Db> { seq(n, _ => map[]) }

  function Fresh(n: nat): State { State(NoData(n), 0) }

  ghost function Filled(dbs: seq<Db>, j: nat): seq<Db>
    requires j <= |dbs|
  {
    dbs[..j] + NoData(|dbs| - j)
  }

  lemma {:induction false} SelectRuns(s: State, j: nat)
    requires s.current < |s.dbs| && j < |s.dbs|
    ensures ExecAll(s, [SelectCommand(j)]) == s.(current := j)
  {
    assert [SelectCommand(j)][1..] == [];
    assert Decimal(j) + "" == Decimal(j);
    NumberOfDecimal(j, "");
  }

  lemma {:induction false} DbAdded(dbs: seq<Db>, j: nat)
    requires j < |dbs|
    ensures Filled(dbs, j)[j] == map[] && Filled(dbs, j)[j := dbs[j]] == Filled(dbs, j + 1)
    ensures dbs[j] == map[] ==> Filled(dbs, j + 1) == Filled(dbs, j)
  {
  }

  method WriteSelect(out0: seq<Token>, j: nat) returns (out: seq<Token>)
    requires j <= MAX_INT
    ensures out == out0 + StreamTokens([SelectCommand(j)]) && AllPlain([SelectCommand(j)])
    ensures SelectsBelow(j + 1, [SelectCommand(j)])
  {
    OneCommand(SelectCommand(j));
    DecimalFitsLine(j);
    NumberOfDecimal(j, "");
    assert Decimal(j) + "" == Decimal(j);
    assert Plain(SelectCommand(j));
    out := out0 + [Head(2), Token.Arg("SELECT"), Token.Arg(Decimal(j))];
  }

  /** Writes a SELECT and the keys of database j. */
  method RewriteSelected(out0: seq<Token>, dbs: seq<Db>, j: nat, ghost current: nat, chunk: nat)
    returns (out: seq<Token>, ghost cmds: seq<Argv>)
    requires j < |dbs| <= MAX_INT && current < |dbs| && GoodDb(dbs[j]) && chunk > 0
    ensures out == out0 + StreamTokens(cmds) && (Fits(dbs[j], chunk) ==> AllPlain(cmds)) && SelectsBelow(j + 1, cmds)
    ensures ExecAll(State(Filled(dbs, j), current), cmds) == State(Filled(dbs, j + 1), j)
  {
    ghost var s := State(Filled(dbs, j), current);
    ghost var select := [SelectCommand(j)];
    SelectRuns(s, j);
    DbAdded(dbs, j);
    ghost var more;
    out := WriteSelect(out0, j);
    out, more := RewriteDb(out, dbs[j], s.(current := j), chunk);
    ExecAllConcat(s, select, more);
    StreamConcat(select, more);
    Associate(out0, StreamTokens(select), StreamTokens(more));
    cmds := select + more;
  }

  /** The stream of the first j databases. */
  ghost predicate Rewritten(dbs: seq<Db>, j: nat, cmds: seq<Argv>, current: nat, chunk: nat)
    requires j <= |dbs|
  {
    && current < |dbs| && SelectsBelow(|dbs|, cmds)
    && ((forall i :: 0 <= i < |dbs| ==> Fits(dbs[i], chunk)) ==> AllPlain(cmds))
    && ExecAll(Fresh(|dbs|), cmds) == State(Filled(dbs, j), current)
  }

  /** Writes one more database, unless it is empty. */
  method RewriteNextDb(out0: seq<Token>, dbs: seq<Db>, j: nat, ghost cmds0: seq<Argv>, ghost current0: nat, chunk: nat)
    returns (out: seq<Token>, ghost cmds: seq<Argv>, ghost current: nat)
    requires j < |dbs| <= MAX_INT && WellFormed(dbs) && chunk > 0
    requires out0 == StreamTokens(cmds0) && Rewritten(dbs, j, cmds0, current0, chunk)
    ensures out == StreamTokens(cmds) && Rewritten(dbs, j + 1, cmds, current, chunk)
  {
    out, cmds, current := out0, cmds0, current0;
    DbAdded(dbs, j);
    if dbs[j] != map[] {
      ghost var more;
      out, more := RewriteSelected(out, dbs, j, current, chunk);
      ExecAllConcat(Fresh(|dbs|), cmds, more);
      StreamConcat(cmds, more);
      cmds, current := cmds + more, j;
    }
  }

  /** Writes all databases that are not empty. */
  method RewriteAll(dbs: seq<Db>, chunk: nat) returns (out: seq<Token>, ghost cmds: seq<Argv>)
    requires 0 < |dbs| <= MAX_INT && WellFormed(dbs) && chunk > 0
    ensures out == StreamTokens(cmds) && SelectsBelow(|dbs|, cmds)
    ensures (forall j :: 0 <= j < |dbs| ==> Fits(dbs[j], chunk)) ==> AllPlain(cmds)
    ensures ExecAll(Fresh(|dbs|), cmds).dbs == dbs
  {
    out, cmds := [], [];
    ghost var current := 0;
    assert Filled(dbs, 0) == NoData(|dbs|);
    for j := 0 to |dbs|
      invariant out == StreamTokens(cmds) && Rewritten(dbs, j, cmds, current, chunk)
    {
      out, cmds, current := RewriteNextDb(out, dbs, j, cmds, current, chunk);
    }
    assert Filled(dbs, |dbs|) == dbs;
  }

  /** A stream of plain commands loads completely and runs as it was written. */
  lemma {:induction false} PlainLoads(cmds: seq<Argv>)
    requires AllPlain(cmds)
    ensures var o := Load(KindOf, Encode(cmds), FILE_START, START);
      o.status == LoadedOk && o.session.executed == cmds
  {
    LoadWhole(KindOf, cmds);
    DataRuns(START, cmds);
    assert [] + cmds == cmds;
  }

  /** The commands that loading a file runs. */
  ghost function Loaded(bytes: string): seq<Argv> { Load(KindOf, bytes, FILE_START, START).session.executed }

  /**
   For every dataset and every chunk size: the file loads without error, and
   the commands it runs rebuild the dataset on empty databases.
   */
  method RewriteFile(dbs: seq<Db>, chunk: nat) returns (bytes: string)
    requires dbs != [] && WellFormed(dbs) && SmallDbs(dbs) && 0 < chunk && 2 * chunk + 2 <= MAX_INT
    ensures Load(KindOf, bytes, FILE_START, START).status == LoadedOk
    ensures AllPlain(Loaded(bytes)) && SelectsBelow(|dbs|, Loaded(bytes))
    ensures ExecAll(Fresh(|dbs|), Loaded(bytes)).dbs == dbs
  {
    forall j | 0 <= j < |dbs| ensures Fits(dbs[j], chunk) {
    }
    ghost var cmds;
    var out;
    out, cmds := RewriteAll(dbs, chunk);
    bytes := Flat(TokenText, out);
    StreamText(cmds);
    PlainLoads(cmds);
  }
}
