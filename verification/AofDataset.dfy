/**
 Datasets and the commands a rewrite emits for them: what each command does,
 and which commands rebuild a key.
 */
module AofDataset {

  import opened AofFormat
  import opened Wrappers

  /** Scores are kept in their printed form. */
  datatype Value =
    | Str(s: string)
    | List(items: seq<string>)
    | SetOf(members: set<string>)
    | ZSet(scores: map<string, string>)
    | Hash(fields: map<string, string>)

  datatype Entry = Entry(value: Value, expire: Option<nat>)

  type Db = map<string, Entry>

  /** The databases, and the one the client has selected. */
  datatype State = State(dbs: seq<Db>, current: nat)

  predicate NonEmpty(v: Value) {
    match v
    case Str(_) => true
    case List(items) => items != []
    case SetOf(members) => members != {}
    case ZSet(scores) => scores != map[]
    case Hash(fields) => fields != map[]
  }

  /** Not an empty collection, and an expire that is a 64-bit number. */
  predicate GoodEntry(e: Entry) { NonEmpty(e.value) && (e.expire.Some? ==> e.expire.value <= MAX_LONG) }

  ghost predicate WellFormed(dbs: seq<Db>) {
    forall j, k :: 0 <= j < |dbs| && k in dbs[j] ==> GoodEntry(dbs[j][k])
  }

  // ---------------------------------------------------------------------------
  // Commands that add to a collection
  // ---------------------------------------------------------------------------

  datatype Collection = ListKind | SetKind | ZSetKind | HashKind

  function CommandName(c: Collection): string {
    match c
    case ListKind => "RPUSH"
    case SetKind => "SADD"
    case ZSetKind => "ZADD"
    case HashKind => "HMSET"
  }

  /** How many arguments one item takes. */
  function Width(c: Collection): (w: nat)
    ensures w == 1 || w == 2
  {
    if c == ListKind || c == SetKind then 1 else 2
  }

  type Item = seq<string>

  /** One item: an element, a member, a score and a member, or a field and its value. */
  function AddItem(c: Collection, v: Option<Value>, item: Item): Option<Value>
    requires |item| == Width(c)
  {
    match c
    case ListKind =>
      if v.None? then Some(List(item)) else if v.value.List? then Some(List(v.value.items + item)) else v
    case SetKind =>
      if v.None? then Some(SetOf({item[0]})) else if v.value.SetOf? then Some(SetOf(v.value.members + {item[0]})) else v
    case ZSetKind =>
      if v.None? then Some(ZSet(map[item[1] := item[0]]))
      else if v.value.ZSet? then Some(ZSet(v.value.scores[item[1] := item[0]])) else v
    case HashKind =>
      if v.None? then Some(Hash(map[item[0] := item[1]]))
      else if v.value.Hash? then Some(Hash(v.value.fields[item[0] := item[1]])) else v
  }

  ghost predicate AreItems(c: Collection, items: seq<Item>) {
    forall i :: 0 <= i < |items| ==> |items[i]| == Width(c)
  }

  function AddItems(c: Collection, v: Option<Value>, items: seq<Item>): (r: Option<Value>)
    requires AreItems(c, items)
    ensures items != [] || v.Some? ==> r.Some?
    decreases |items|
  {
    if items == [] then v else AddItems(c, AddItem(c, v, items[0]), items[1..])
  }

  lemma {:induction false} AddItemsConcat(c: Collection, v: Option<Value>, a: seq<Item>, b: seq<Item>)
    requires AreItems(c, a) && AreItems(c, b)
    ensures AreItems(c, a + b) && AddItems(c, v, a + b) == AddItems(c, AddItems(c, v, a), b)
    decreases |a|
  {
    if a == [] {
      assert a + b == b;
    } else {
      assert (a + b)[1..] == a[1..] + b;
      AddItemsConcat(c, AddItem(c, v, a[0]), a[1..], b);
    }
  }

  /** The arguments cut into items, and items laid out as arguments. */
  function ItemsOf(c: Collection, args: seq<string>): (r: seq<Item>)
    requires |args| % Width(c) == 0
    ensures AreItems(c, r)
    decreases |args|
  {
    if args == [] then [] else [args[..Width(c)]] + ItemsOf(c, args[Width(c)..])
  }

  function ArgsOf(items: seq<Item>): seq<string> {
    if items == [] then [] else items[0] + ArgsOf(items[1..])
  }

  lemma {:induction false} ItemsOfArgs(c: Collection, items: seq<Item>)
    requires AreItems(c, items)
    ensures |ArgsOf(items)| == |items| * Width(c) && |ArgsOf(items)| % Width(c) == 0
    ensures ItemsOf(c, ArgsOf(items)) == items
  {
    if items != [] {
      var args, w := ArgsOf(items), Width(c);
      ItemsOfArgs(c, items[1..]);
      assert args[..w] == items[0] && args[w..] == ArgsOf(items[1..]);
    }
  }

  lemma {:induction false} ArgsConcat(a: seq<Item>, b: seq<Item>)
    ensures ArgsOf(a + b) == ArgsOf(a) + ArgsOf(b)
  {
    if a == [] {
      assert a + b == b;
    } else {
      assert (a + b)[1..] == a[1..] + b;
      ArgsConcat(a[1..], b);
    }
  }

  // ---------------------------------------------------------------------------
  // Running commands
  // ---------------------------------------------------------------------------

  function Lookup(s: State, key: string): Option<Entry>
    requires s.current < |s.dbs|
  {
    if key in s.dbs[s.current] then Some(s.dbs[s.current][key]) else None
  }

  function Store(s: State, key: string, e: Entry): State
    requires s.current < |s.dbs|
  {
    s.(dbs := s.dbs[s.current := s.dbs[s.current][key := e]])
  }

  /** Adds items to the value of a key, which keeps its expire. */
  function Add(s: State, c: Collection, key: string, items: seq<Item>): (r: State)
    requires s.current < |s.dbs| && AreItems(c, items) && items != []
    ensures r.current == s.current && |r.dbs| == |s.dbs|
  {
    var e := Lookup(s, key);
    if e.None? then Store(s, key, Entry(AddItems(c, None, items).value, None))
    else Store(s, key, e.value.(value := AddItems(c, Some(e.value.value), items).value))
  }

  function AddCommand(s: State, c: Collection, argv: Argv): (r: State)
    requires s.current < |s.dbs|
    ensures r.current == s.current && |r.dbs| == |s.dbs|
  {
    if |argv| > 2 && |argv[2..]| % Width(c) == 0 then Add(s, c, argv[1], ItemsOf(c, argv[2..])) else s
  }

  /** What a command does; commands a rewrite does not emit are left alone. */
  function Exec(s: State, argv: Argv): (r: State)
    requires s.current < |s.dbs|
    ensures r.current < |r.dbs| == |s.dbs|
  {
    if argv == [] then s
    else if argv[0] == "SELECT" then
      if |argv| == 2 && 0 <= Number(argv[1]) < |s.dbs| then s.(current := Number(argv[1])) else s
    else if argv[0] == "SET" then
      if |argv| == 3 then Store(s, argv[1], Entry(Str(argv[2]), None)) else s
    else if argv[0] == "PEXPIREAT" then
      if |argv| == 3 && 0 <= Number(argv[2]) <= MAX_LONG && Lookup(s, argv[1]).Some?
      then Store(s, argv[1], Lookup(s, argv[1]).value.(expire := Some(Number(argv[2])))) else s
    else if argv[0] == "RPUSH" then AddCommand(s, ListKind, argv)
    else if argv[0] == "SADD" then AddCommand(s, SetKind, argv)
    else if argv[0] == "ZADD" then AddCommand(s, ZSetKind, argv)
    else if argv[0] == "HMSET" then AddCommand(s, HashKind, argv)
    else s
  }

  function ExecAll(s: State, cmds: seq<Argv>): (r: State)
    requires s.current < |s.dbs|
    ensures r.current < |r.dbs| == |s.dbs|
    decreases |cmds|
  {
    if cmds == [] then s else ExecAll(Exec(s, cmds[0]), cmds[1..])
  }

  lemma {:induction false} ExecAllConcat(s: State, a: seq<Argv>, b: seq<Argv>)
    requires s.current < |s.dbs|
    ensures ExecAll(s, a + b) == ExecAll(ExecAll(s, a), b)
    decreases |a|
  {
    if a == [] {
      assert a + b == b;
    } else {
      assert (a + b)[1..] == a[1..] + b;
      ExecAllConcat(Exec(s, a[0]), a[1..], b);
    }
  }

  // ---------------------------------------------------------------------------
  // The commands for a key
  // ---------------------------------------------------------------------------

  function Min(a: nat, b: nat): nat { if a < b then a else b }

  function ChunkCommand(c: Collection, key: string, items: seq<Item>): Argv {
    [CommandName(c), key] + ArgsOf(items)
  }

  /** The items in commands of at most chunk items each. */
  function Chunks(c: Collection, key: string, items: seq<Item>, chunk: nat): seq<Argv>
    requires chunk > 0
    decreases |items|
  {
    if items == [] then []
    else
      var n := Min(chunk, |items|);
      [ChunkCommand(c, key, items[..n])] + Chunks(c, key, items[n..], chunk)
  }

  lemma {:induction false} ExecChunk(s: State, c: Collection, key: string, items: seq<Item>)
    requires s.current < |s.dbs| && AreItems(c, items) && items != []
    ensures Exec(s, ChunkCommand(c, key, items)) == Add(s, c, key, items)
  {
    var argv := ChunkCommand(c, key, items);
    ItemsOfArgs(c, items);
    assert argv[2..] == ArgsOf(items) && argv[0] == CommandName(c) && argv[1] == key;
    assert Exec(s, argv) == AddCommand(s, c, argv);
  }

  // What each command means, in the words of the databases themselves.

  /** A command stores this entry under a key of the current database, and does nothing else. */
  ghost predicate Puts(s: State, argv: Argv, k: string, e: Entry)
    requires s.current < |s.dbs|
  {
    Exec(s, argv) == State(s.dbs[s.current := s.dbs[s.current][k := e]], s.current)
  }

  lemma {:induction false} OneItem(s: State, c: Collection, k: string, item: Item)
    requires s.current < |s.dbs| && |item| == Width(c)
    ensures AddItem(c, None, item).Some?
    ensures k !in s.dbs[s.current] ==>
      Puts(s, [CommandName(c), k] + item, k, Entry(AddItem(c, None, item).value, None))
    ensures k in s.dbs[s.current] ==>
      var e := s.dbs[s.current][k];
      var v := AddItem(c, Some(e.value), item);
      v.Some? && Puts(s, [CommandName(c), k] + item, k, e.(value := v.value))
  {
    var items := [item];
    assert items[1..] == [] && ArgsOf(items) == item + [] == item;
    ExecChunk(s, c, k, items);
    AddOne(c, None, item);
    if k in s.dbs[s.current] {
      AddOne(c, Some(s.dbs[s.current][k].value), item);
    }
  }

  lemma AddOne(c: Collection, v: Option<Value>, item: Item)
    requires |item| == Width(c)
    ensures AddItems(c, v, [item]) == AddItem(c, v, item)
  {
    assert [item][1..] == [];
    assert AddItems(c, AddItem(c, v, item), []) == AddItem(c, v, item);
  }

  lemma StringsMean(s: State, k: string, a: string)
    requires s.current < |s.dbs|
    ensures Puts(s, ["SET", k, a], k, Entry(Str(a), None))
  {
  }

  /** Each of these adds to a collection of its type, or starts one; an expire stays. */
  lemma {:induction false} CollectionsMean(s: State, k: string, a: string, b: string)
    requires s.current < |s.dbs|
    ensures k !in s.dbs[s.current] ==>
      && Puts(s, ["RPUSH", k, a], k, Entry(List([a]), None))
      && Puts(s, ["SADD", k, a], k, Entry(SetOf({a}), None))
      && Puts(s, ["ZADD", k, a, b], k, Entry(ZSet(map[b := a]), None))
      && Puts(s, ["HMSET", k, a, b], k, Entry(Hash(map[a := b]), None))
    ensures k in s.dbs[s.current] ==>
      match s.dbs[s.current][k]
      case Entry(Str(_), _) => true
      case Entry(List(l), x) => Puts(s, ["RPUSH", k, a], k, Entry(List(l + [a]), x))
      case Entry(SetOf(m), x) => Puts(s, ["SADD", k, a], k, Entry(SetOf(m + {a}), x))
      case Entry(ZSet(z), x) => Puts(s, ["ZADD", k, a, b], k, Entry(ZSet(z[b := a]), x))
      case Entry(Hash(h), x) => Puts(s, ["HMSET", k, a, b], k, Entry(Hash(h[a := b]), x))
  {
    hide Exec;
    OneItem(s, ListKind, k, [a]);
    OneItem(s, SetKind, k, [a]);
    OneItem(s, ZSetKind, k, [a, b]);
    OneItem(s, HashKind, k, [a, b]);
    assert ["RPUSH", k] + [a] == ["RPUSH", k, a] && ["SADD", k] + [a] == ["SADD", k, a];
    assert ["ZADD", k] + [a, b] == ["ZADD", k, a, b] && ["HMSET", k] + [a, b] == ["HMSET", k, a, b];
  }

  lemma {:induction false} OthersMean(s: State, k: string, t: nat, j: nat)
    requires s.current < |s.dbs| && t <= MAX_LONG && j < |s.dbs|
    ensures k in s.dbs[s.current] ==>
      Puts(s, ["PEXPIREAT", k, Decimal(t)], k, s.dbs[s.current][k].(expire := Some(t)))
    ensures Exec(s, ["SELECT", Decimal(j)]) == State(s.dbs, j)
  {
    assert Decimal(t) + "" == Decimal(t) && Decimal(j) + "" == Decimal(j);
    NumberOfDecimal(t, "");
    NumberOfDecimal(j, "");
  }

  lemma {:induction false} AddTwice(s: State, c: Collection, key: string, a: seq<Item>, b: seq<Item>)
    requires s.current < |s.dbs| && AreItems(c, a) && AreItems(c, b) && a != [] && b != []
    ensures AreItems(c, a + b) && Add(Add(s, c, key, a), c, key, b) == Add(s, c, key, a + b)
  {
    var e := Lookup(s, key);
    AddItemsConcat(c, if e.None? then None else Some(e.value.value), a, b);
    var db, cur := s.dbs[s.current], s.current;
    forall x: Entry, y: Entry ensures Store(Store(s, key, x), key, y) == Store(s, key, y) {
      assert db[key := x][key := y] == db[key := y];
      assert s.dbs[cur := db[key := x]][cur := db[key := y]] == s.dbs[cur := db[key := y]];
    }
  }

  /** However the items are cut into commands, running the commands adds all the items. */
  lemma {:induction false} ExecChunks(s: State, c: Collection, key: string, items: seq<Item>, chunk: nat)
    requires s.current < |s.dbs| && AreItems(c, items) && items != [] && chunk > 0
    ensures ExecAll(s, Chunks(c, key, items, chunk)) == Add(s, c, key, items)
    decreases |items|
  {
    var n := Min(chunk, |items|);
    var first, rest := items[..n], items[n..];
    ExecChunk(s, c, key, first);
    if rest == [] {
      assert items[..n] == items;
    } else {
      ExecChunks(Add(s, c, key, first), c, key, rest, chunk);
      AddTwice(s, c, key, first, rest);
      assert first + rest == items;
    }
  }

  function CollectionOf(v: Value): Collection
    requires !v.Str?
  {
    match v
    case List(_) => ListKind
    case SetOf(_) => SetKind
    case ZSet(_) => ZSetKind
    case Hash(_) => HashKind
  }

  /** The items are those of the value: in order for a list, in any order otherwise. */
  ghost predicate Lists(v: Value, items: seq<Item>)
    requires !v.Str?
  {
    && AreItems(CollectionOf(v), items)
    && match v
      case List(xs) => |items| == |xs| && forall i :: 0 <= i < |xs| ==> items[i] == [xs[i]]
      case SetOf(ms) => (forall i :: 0 <= i < |items| ==> items[i][0] in ms) && forall x :: x in ms ==> [x] in items
      case ZSet(zs) =>
        && (forall i :: 0 <= i < |items| ==> items[i][1] in zs && zs[items[i][1]] == items[i][0])
        && forall x :: x in zs ==> [zs[x], x] in items
      case Hash(hs) =>
        && (forall i :: 0 <= i < |items| ==> items[i][0] in hs && hs[items[i][0]] == items[i][1])
        && forall x :: x in hs ==> [x, hs[x]] in items
  }

  lemma {:induction false} ListAdded(p: seq<string>, xs: seq<string>, items: seq<Item>)
    requires |items| == |xs| && forall i :: 0 <= i < |xs| ==> items[i] == [xs[i]]
    ensures AddItems(ListKind, Some(List(p)), items) == Some(List(p + xs))
    decreases |xs|
  {
    if xs == [] {
      assert p + xs == p;
    } else {
      ListAdded(p + items[0], xs[1..], items[1..]);
      assert p + items[0] + xs[1..] == p + xs;
    }
  }

  lemma {:induction false} SetAdded(p: set<string>, ms: set<string>, items: seq<Item>) returns (q: set<string>)
    requires AreItems(SetKind, items) && p <= ms && forall i :: 0 <= i < |items| ==> items[i][0] in ms
    ensures AddItems(SetKind, Some(SetOf(p)), items) == Some(SetOf(q)) && p <= q <= ms
    ensures forall i :: 0 <= i < |items| ==> items[i][0] in q
    decreases |items|
  {
    if items == [] {
      q := p;
    } else {
      q := SetAdded(p + {items[0][0]}, ms, items[1..]);
    }
  }

  lemma {:induction false} ZSetAdded(p: map<string, string>, zs: map<string, string>, items: seq<Item>)
      returns (q: map<string, string>)
    requires AreItems(ZSetKind, items) && PartOf(p, zs)
    requires forall i :: 0 <= i < |items| ==> items[i][1] in zs && zs[items[i][1]] == items[i][0]
    ensures AddItems(ZSetKind, Some(ZSet(p)), items) == Some(ZSet(q)) && PartOf(p, q) && PartOf(q, zs)
    ensures forall i :: 0 <= i < |items| ==> items[i][1] in q
    decreases |items|
  {
    if items == [] {
      q := p;
    } else {
      q := ZSetAdded(p[items[0][1] := items[0][0]], zs, items[1..]);
    }
  }

  lemma {:induction false} HashAdded(p: map<string, string>, hs: map<string, string>, items: seq<Item>)
      returns (q: map<string, string>)
    requires AreItems(HashKind, items) && PartOf(p, hs)
    requires forall i :: 0 <= i < |items| ==> items[i][0] in hs && hs[items[i][0]] == items[i][1]
    ensures AddItems(HashKind, Some(Hash(p)), items) == Some(Hash(q)) && PartOf(p, q) && PartOf(q, hs)
    ensures forall i :: 0 <= i < |items| ==> items[i][0] in q
    decreases |items|
  {
    if items == [] {
      q := p;
    } else {
      q := HashAdded(p[items[0][0] := items[0][1]], hs, items[1..]);
    }
  }

  ghost predicate PartOf(p: map<string, string>, q: map<string, string>) {
    forall k :: k in p ==> k in q && q[k] == p[k]
  }

  function Empty(c: Collection): Value {
    match c
    case ListKind => List([])
    case SetKind => SetOf({})
    case ZSetKind => ZSet(map[])
    case HashKind => Hash(map[])
  }

  lemma StartsEmpty(c: Collection, items: seq<Item>)
    requires AreItems(c, items) && items != []
    ensures AddItems(c, None, items) == AddItems(c, Some(Empty(c)), items)
  {
    var item := items[0];
    assert [] + item == item && {} + {item[0]} == {item[0]};
    assert AddItem(c, None, item) == AddItem(c, Some(Empty(c)), item);
  }

  /** Adding the items of a collection, in whatever order they are listed, gives the collection. */
  lemma {:induction false} ItemsRebuild(v: Value, items: seq<Item>)
    requires !v.Str? && NonEmpty(v) && Lists(v, items)
    ensures items != [] && AddItems(CollectionOf(v), None, items) == Some(v)
  {
    match v
    case List(xs) =>
      StartsEmpty(ListKind, items);
      ListAdded([], xs, items);
      assert [] + xs == xs;
    case SetOf(ms) =>
      SetRebuilds(ms, items);
    case ZSet(zs) =>
      ZSetRebuilds(zs, items);
    case Hash(hs) =>
      HashRebuilds(hs, items);
  }

  lemma {:induction false} SetRebuilds(ms: set<string>, items: seq<Item>)
    requires ms != {} && Lists(SetOf(ms), items)
    ensures items != [] && AddItems(SetKind, None, items) == Some(SetOf(ms))
  {
    var x :| x in ms;
    assert [x] in items;
    StartsEmpty(SetKind, items);
    var q := SetAdded({}, ms, items);
    forall y | y in ms ensures y in q {
      assert [y] in items;
    }
    assert q == ms;
  }

  lemma {:induction false} ZSetRebuilds(zs: map<string, string>, items: seq<Item>)
    requires zs != map[] && Lists(ZSet(zs), items)
    ensures items != [] && AddItems(ZSetKind, None, items) == Some(ZSet(zs))
  {
    var x :| x in zs;
    assert [zs[x], x] in items;
    StartsEmpty(ZSetKind, items);
    var q := ZSetAdded(map[], zs, items);
    forall y | y in zs ensures y in q {
      assert [zs[y], y] in items;
    }
    assert q == zs;
  }

  lemma {:induction false} HashRebuilds(hs: map<string, string>, items: seq<Item>)
    requires hs != map[] && Lists(Hash(hs), items)
    ensures items != [] && AddItems(HashKind, None, items) == Some(Hash(hs))
  {
    var x :| x in hs;
    assert [x, hs[x]] in items;
    StartsEmpty(HashKind, items);
    var q := HashAdded(map[], hs, items);
    forall y | y in hs ensures y in q {
      assert [y, hs[y]] in items;
    }
    assert q == hs;
  }

  // ---------------------------------------------------------------------------
  // The commands for a key
  // ---------------------------------------------------------------------------

  /** What a rewrite emits for the value of a key, and for its expire. */
  function ValueCommands(key: string, v: Value, items: seq<Item>, chunk: nat): seq<Argv>
    requires chunk > 0
  {
    if v.Str? then [["SET", key, v.s]] else Chunks(CollectionOf(v), key, items, chunk)
  }

  function ExpireCommands(key: string, expire: Option<nat>): seq<Argv> {
    if expire.Some? then [["PEXPIREAT", key, Decimal(expire.value)]] else []
  }

  lemma {:induction false} ExecExpire(s: State, key: string, v: Value, t: nat)
    requires s.current < |s.dbs| && t <= MAX_LONG
    ensures ExecAll(Store(s, key, Entry(v, None)), [["PEXPIREAT", key, Decimal(t)]]) == Store(s, key, Entry(v, Some(t)))
  {
    var argv := ["PEXPIREAT", key, Decimal(t)];
    assert [argv][1..] == [];
    assert Decimal(t) + "" == Decimal(t);
    NumberOfDecimal(t, "");
    var db, cur := s.dbs[s.current], s.current;
    var x, y := Entry(v, None), Entry(v, Some(t));
    assert db[key := x][key := y] == db[key := y];
    assert s.dbs[cur := db[key := x]][cur := db[key := y]] == s.dbs[cur := db[key := y]];
  }

  /** On a database without the key, the commands emitted for it store exactly its value and expire. */
  lemma {:induction false} KeyRebuilt(s: State, key: string, e: Entry, items: seq<Item>, chunk: nat)
    requires s.current < |s.dbs| && key !in s.dbs[s.current] && GoodEntry(e) && chunk > 0
    requires !e.value.Str? ==> Lists(e.value, items)
    ensures ExecAll(s, ValueCommands(key, e.value, items, chunk) + ExpireCommands(key, e.expire)) == Store(s, key, e)
  {
    var a, b := ValueCommands(key, e.value, items, chunk), ExpireCommands(key, e.expire);
    ExecAllConcat(s, a, b);
    if e.value.Str? {
      assert a[1..] == [];
    } else {
      ItemsRebuild(e.value, items);
      ExecChunks(s, CollectionOf(e.value), key, items, chunk);
    }
    assert ExecAll(s, a) == Store(s, key, Entry(e.value, None));
    if e.expire.Some? {
      ExecExpire(s, key, e.value, e.expire.value);
    }
  }
}
