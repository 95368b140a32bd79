/**
 The protocol's model with real contents: a file holds commands and the SELECT,
 MULTI and EXEC between them, loading it runs each command in the database that
 was last selected, and commands change databases.
 */
module AofDataModel {

  import opened AofDataset
  import opened AofFeed
  import opened AofFormat
  import opened AofLoader
  import opened AofRewrite
  import opened Wrappers
  import Memory = AofMemory
  import Protocol = AofProtocol

  /** A command in a database; there is no such database beyond the last. */
  function ApplyTo(d: seq<Db>, p: (nat, Argv)): seq<Db> {
    if p.0 < |d| then AofDataset.Exec(State(d, p.0), p.1).dbs else d
  }

  function RunBy(cs: seq<Argv>): seq<Argv> { RunAll(KindOf, START, cs).executed }

  /** The commands that loading a file runs, each with its database. */
  function Heard(cs: seq<Argv>): seq<(nat, Argv)> { Trace(0, RunBy(cs)) }

  /** The database that is selected at the end of a file. */
  function DbOf(cs: seq<Argv>): nat { DbAfter(0, RunBy(cs)) }

  predicate Storable(n: nat, argv: Argv) { WellSized(argv) && (IsSelect(argv) ==> 0 <= Number(argv[1]) < n) }

  predicate AllStorable(n: nat, cs: seq<Argv>) { forall i :: 0 <= i < |cs| ==> Storable(n, cs[i]) }

  /** No transaction is open at its end or begins inside another, and all commands can be written and run. */
  predicate SoundFile(n: nat, cs: seq<Argv>) {
    !RunAll(KindOf, START, cs).inMulti && Unnested(KindOf, START, cs) && AllStorable(n, cs)
  }

  /** A server with n databases. */
  function DataModel(n: nat): Protocol.Model<seq<Db>, (nat, Argv), Argv> {
    Protocol.Model((d: seq<Db>, p: (nat, Argv)) => ApplyTo(d, p), NoData(n), (cs: seq<Argv>) => Heard(cs),
                   (cs: seq<Argv>) => SoundFile(n, cs))
  }

  // ---------------------------------------------------------------------------
  // Feeding
  // ---------------------------------------------------------------------------

  /** Text that makes the loader run cmds is behind any sound file heard as their trace. */
  lemma {:induction false} TextHeard(n: nat, g: seq<Argv>, text: seq<Argv>, cmds: seq<Argv>)
    requires SoundFile(n, g) && AllStorable(n, text) && Unnested(KindOf, RunAll(KindOf, START, g), text)
    requires var s := RunAll(KindOf, START, g);
      RunAll(KindOf, s, text) == s.(executed := s.executed + cmds)
    ensures SoundFile(n, g + text) && Heard(g + text) == Heard(g) + Trace(DbOf(g), cmds)
    ensures DbOf(g + text) == DbAfter(DbOf(g), cmds)
  {
    RunAllConcat(KindOf, START, g, text);
    UnnestedConcat(KindOf, START, g, text);
    TraceConcat(0, RunBy(g), cmds);
  }

  lemma {:induction false} AppendedText(n: nat, g: seq<Argv>, selected: int, db: nat, argv: Argv)
    requires db < n <= MAX_INT && IsData(argv) && WellSized(argv) && SoundFile(n, g)
    ensures var w := Appended(selected, db, argv);
      && SoundFile(n, g + w) && Heard(g + w) == Heard(g) + Trace(DbOf(g), w) && DbOf(g + w) == DbAfter(DbOf(g), w)
  {
    var w := Appended(selected, db, argv);
    SelectIsStorable(n, db);
    DataRuns(RunAll(KindOf, START, g), w);
    NoMulti(KindOf, RunAll(KindOf, START, g), w);
    TextHeard(n, g, w, w);
  }

  lemma {:induction false} SelectIsStorable(n: nat, db: nat)
    requires db < n <= MAX_INT
    ensures Storable(n, SelectCommand(db))
  {
    DecimalFitsLine(db);
    NumberOfDecimal(db, "");
    assert Decimal(db) + "" == Decimal(db);
  }

  /** Behind a file that is in the selected database, one feed is heard as what was fed. */
  lemma {:induction false} FeedHeard(n: nat, g: seq<Argv>, selected: int, db: nat, argv: Argv)
    requires db < n <= MAX_INT && IsData(argv) && WellSized(argv) && SoundFile(n, g)
    requires selected >= 0 ==> DbOf(g) == selected
    ensures var w := Appended(selected, db, argv);
      SoundFile(n, g + w) && Heard(g + w) == Heard(g) + [(db, argv)] && DbOf(g + w) == db
  {
    AppendedText(n, g, selected, db, argv);
    AppendedRuns(DbOf(g), selected, db, argv);
  }

  lemma {:induction false} OneHeard(cur: nat, selected: int, db: nat, argv: Argv)
    requires IsData(argv)
    ensures |Trace(cur, Appended(selected, db, argv))| == 1
  {
    assert [argv][1..] == [];
    if db != selected {
      AppendedRuns(cur, -1, db, argv);
      assert Appended(-1, db, argv) == Appended(selected, db, argv);
    }
  }

  /** Of a SELECT without its command nothing is heard. */
  lemma {:induction false} PartOfFeed(n: nat, g: seq<Argv>, selected: int, db: nat, argv: Argv, j: nat)
    requires db < n <= MAX_INT && SoundFile(n, g) && j < |Appended(selected, db, argv)|
    ensures Heard(g + Appended(selected, db, argv)[..j]) == Heard(g)
  {
    var w, select := Appended(selected, db, argv), [SelectCommand(db)];
    if j == 0 {
      assert w[..j] == [] && g + [] == g;
    } else {
      assert w[..j] == select && select[1..] == [];
      SelectIsStorable(n, db);
      DataRuns(RunAll(KindOf, START, g), select);
      NoMulti(KindOf, RunAll(KindOf, START, g), select);
      TextHeard(n, g, select, select);
      assert Trace(DbOf(g), select) == [];
    }
  }

  lemma {:induction false} FeedQuiet(n: nat, selected: int, db: nat, argv: Argv)
    requires db < n <= MAX_INT
    ensures Protocol.Quiet(DataModel(n), Appended(selected, db, argv))
  {
    var m, w := DataModel(n), Appended(selected, db, argv);
    forall g: seq<Argv>, j: nat | m.sound(g) && j < |w| ensures m.read(g + w[..j]) == m.read(g) {
      PartOfFeed(n, g, selected, db, argv, j);
    }
  }

  /** Behind any other file it is still heard as one command. */
  lemma {:induction false} FeedMovable(n: nat, selected: int, db: nat, argv: Argv)
    requires db < n <= MAX_INT && IsData(argv) && WellSized(argv)
    ensures Protocol.Movable(DataModel(n), Appended(selected, db, argv), 1)
  {
    var m, w := DataModel(n), Appended(selected, db, argv);
    FeedQuiet(n, selected, db, argv);
    forall g: seq<Argv> | m.sound(g)
      ensures m.sound(g + w) && m.read(g) <= m.read(g + w) && |m.read(g + w)| == |m.read(g)| + 1
    {
      AppendedText(n, g, selected, db, argv);
      OneHeard(DbOf(g), selected, db, argv);
    }
  }

  /**
   Commands that were left in the buffer stand at the head of the next file,
   where no database is selected: the first one runs in its database exactly
   if its SELECT is with it, or it belongs to database 0.
   */
  lemma {:induction false} LeftoverDatabase(selected: int, db: nat, argv: Argv)
    requires IsData(argv)
    ensures Heard(Appended(selected, db, argv)) == [(db, argv)] <==> selected != db || db == 0
  {
    var w := Appended(selected, db, argv);
    DataRuns(START, w);
    assert [] + w == w && RunBy(w) == w;
    if selected != db {
      AppendedRuns(0, -1, db, argv);
      assert Appended(-1, db, argv) == w;
    } else {
      assert [argv][1..] == [];
      assert Trace(0, [argv]) == [(0, argv)];
    }
  }

  // ---------------------------------------------------------------------------
  // Transactions
  // ---------------------------------------------------------------------------

  predicate GoodBody(n: nat, body: seq<(nat, Argv)>) {
    forall i :: 0 <= i < |body| ==> body[i].0 < n && IsData(body[i].1) && WellSized(body[i].1)
  }

  function BodyText(selected: int, body: seq<(nat, Argv)>): seq<Argv> { [MULTI] + AppendedAll(selected, body) + [EXEC] }

  lemma {:induction false} BodyStorable(n: nat, selected: int, body: seq<(nat, Argv)>)
    requires n <= MAX_INT && GoodBody(n, body)
    ensures AllStorable(n, AppendedAll(selected, body))
    decreases |body|
  {
    if body != [] {
      SelectIsStorable(n, body[0].0);
      BodyStorable(n, SelectedAfter(selected, body[0].0), body[1..]);
    }
  }

  lemma {:induction false} BodyUnnested(s: Session, cs: seq<Argv>)
    requires !s.inMulti && forall i :: 0 <= i < |cs| ==> KindOf(cs[i]) == Other
    ensures Unnested(KindOf, s, [MULTI] + cs + [EXEC])
  {
    var rest := cs + [EXEC];
    assert [MULTI] + cs + [EXEC] == [MULTI] + rest && ([MULTI] + rest)[1..] == rest;
    NoMulti(KindOf, Run(KindOf, s, MULTI), rest);
  }

  lemma {:induction false} BodyAppended(n: nat, g: seq<Argv>, selected: int, body: seq<(nat, Argv)>)
    requires n <= MAX_INT && GoodBody(n, body) && SoundFile(n, g)
    ensures var w, cs := BodyText(selected, body), AppendedAll(selected, body);
      && SoundFile(n, g + w) && Heard(g + w) == Heard(g) + Trace(DbOf(g), cs) && DbOf(g + w) == DbAfter(DbOf(g), cs)
  {
    var cs, s := AppendedAll(selected, body), RunAll(KindOf, START, g);
    BodyStorable(n, selected, body);
    AppendedKinds(selected, body);
    AofLoader.Transaction(KindOf, s, MULTI, cs, EXEC);
    BodyUnnested(s, cs);
    StartQueue(g);
    TextHeard(n, g, BodyText(selected, body), cs);
  }

  /** Outside a transaction nothing is queued. */
  lemma {:induction false} StartQueue(g: seq<Argv>)
    ensures !RunAll(KindOf, START, g).inMulti ==> RunAll(KindOf, START, g).queue == []
  {
    QueueIsEmpty(START, g);
  }

  lemma {:induction false} QueueIsEmpty(s: Session, g: seq<Argv>)
    requires !s.inMulti ==> s.queue == []
    ensures !RunAll(KindOf, s, g).inMulti ==> RunAll(KindOf, s, g).queue == []
    decreases |g|
  {
    if g != [] {
      QueueIsEmpty(Run(KindOf, s, g[0]), g[1..]);
    }
  }

  lemma {:induction false} BodyHeard(n: nat, g: seq<Argv>, selected: int, body: seq<(nat, Argv)>)
    requires n <= MAX_INT && GoodBody(n, body) && SoundFile(n, g)
    requires selected >= 0 ==> DbOf(g) == selected
    ensures var w, after := BodyText(selected, body), SelectedAfterAll(selected, body);
      && SoundFile(n, g + w) && Heard(g + w) == Heard(g) + body
      && (after >= 0 ==> DbOf(g + w) == after)
  {
    BodyAppended(n, g, selected, body);
    AppendedAllRuns(DbOf(g), selected, body);
    assert Trace(DbOf(g), AppendedAll(selected, body)) == body;
  }

  lemma {:induction false} BodySize(cur: nat, selected: int, body: seq<(nat, Argv)>)
    requires forall i :: 0 <= i < |body| ==> IsData(body[i].1)
    ensures |Trace(cur, AppendedAll(selected, body))| == |body|
    decreases |body|
  {
    if body != [] {
      var first := Appended(selected, body[0].0, body[0].1);
      var after := SelectedAfter(selected, body[0].0);
      OneHeard(cur, selected, body[0].0, body[0].1);
      TraceConcat(cur, first, AppendedAll(after, body[1..]));
      BodySize(DbAfter(cur, first), after, body[1..]);
    }
  }

  /** Part of a transaction runs nothing. */
  lemma {:induction false} PartOfBody(s: Session, selected: int, body: seq<(nat, Argv)>, j: nat)
    requires !s.inMulti && forall i :: 0 <= i < |body| ==> IsData(body[i].1)
    requires j < |BodyText(selected, body)|
    ensures RunAll(KindOf, s, BodyText(selected, body)[..j]).executed == s.executed
  {
    var cs := AppendedAll(selected, body);
    AppendedKinds(selected, body);
    if j > 0 {
      assert BodyText(selected, body)[..j] == [MULTI] + cs[..j - 1];
      RunAllConcat(KindOf, s, [MULTI], cs[..j - 1]);
      assert [MULTI][1..] == [];
      Queued(KindOf, AofLoader.Run(KindOf, s, MULTI), cs[..j - 1]);
    }
  }

  lemma {:induction false} BodyQuiet(n: nat, selected: int, body: seq<(nat, Argv)>)
    requires GoodBody(n, body)
    ensures Protocol.Quiet(DataModel(n), BodyText(selected, body))
  {
    var m, w := DataModel(n), BodyText(selected, body);
    forall g: seq<Argv>, j: nat | m.sound(g) && j < |w| ensures m.read(g + w[..j]) == m.read(g) {
      RunAllConcat(KindOf, START, g, w[..j]);
      PartOfBody(RunAll(KindOf, START, g), selected, body, j);
    }
  }

  lemma {:induction false} BodyMovable(n: nat, selected: int, body: seq<(nat, Argv)>)
    requires n <= MAX_INT && GoodBody(n, body)
    ensures Protocol.Movable(DataModel(n), BodyText(selected, body), |body|)
  {
    var m, w := DataModel(n), BodyText(selected, body);
    BodyQuiet(n, selected, body);
    forall g: seq<Argv> | m.sound(g)
      ensures m.sound(g + w) && m.read(g) <= m.read(g + w) && |m.read(g + w)| == |m.read(g)| + |body|
    {
      BodyAppended(n, g, selected, body);
      BodySize(DbOf(g), selected, body);
    }
  }

  // ---------------------------------------------------------------------------
  // Loading
  // ---------------------------------------------------------------------------

  /** Executing commands with their SELECTs is applying each in its database. */
  lemma {:induction false} Executes(n: nat, d: seq<Db>, cur: nat, cmds: seq<Argv>)
    requires |d| == n && cur < n && AllStorable(n, cmds)
    ensures ExecAll(State(d, cur), cmds) == State(Protocol.Replay(DataModel(n), d, Trace(cur, cmds)), DbAfter(cur,
        cmds))
    decreases |cmds|
  {
    if cmds != [] {
      var s := AofDataset.Exec(State(d, cur), cmds[0]);
      if IsSelect(cmds[0]) {
        Executes(n, d, SelectedBy(cmds[0]), cmds[1..]);
      } else {
        assert s == State(ApplyTo(d, (cur, cmds[0])), cur);
        Executes(n, s.dbs, cur, cmds[1..]);
        assert Trace(cur, cmds)[1..] == Trace(cur, cmds[1..]);
      }
    }
  }

  /** The commands of a file that are executed were in it. */
  lemma {:induction false} ExecutedStorable(n: nat, s: Session, cs: seq<Argv>)
    requires AllStorable(n, s.executed) && AllStorable(n, s.queue) && AllStorable(n, cs)
    ensures var t := RunAll(KindOf, s, cs);
      AllStorable(n, t.executed) && AllStorable(n, t.queue)
    decreases |cs|
  {
    if cs != [] {
      ExecutedStorable(n, Run(KindOf, s, cs[0]), cs[1..]);
    }
  }

  /** A sound file, written to bytes and loaded, runs what it is heard as. */
  lemma {:induction false} FileLoads(n: nat, d: seq<Db>, cs: seq<Argv>)
    requires SoundFile(n, cs) && |d| == n && n > 0
    ensures Load(KindOf, Encode(cs), FILE_START, START).status == LoadedOk
    ensures Loaded(Encode(cs)) == RunBy(cs)
    ensures ExecAll(State(d, 0), Loaded(Encode(cs))).dbs == Protocol.Replay(DataModel(n), d, Heard(cs))
  {
    assert Loadable(KindOf, cs);
    LoadWhole(KindOf, cs);
    ExecutedStorable(n, START, cs);
    Executes(n, d, 0, RunBy(cs));
  }

  /** What a rewrite writes is a file that rebuilds the dataset. */
  lemma {:induction false} RewriteDumps(dbs: seq<Db>, cmds: seq<Argv>)
    requires dbs != [] && AllPlain(cmds) && SelectsBelow(|dbs|, cmds)
    requires ExecAll(Fresh(|dbs|), cmds).dbs == dbs
    ensures Memory.Dumps(DataModel(|dbs|), cmds, dbs)
  {
    var n := |dbs|;
    DataRuns(START, cmds);
    NoMulti(KindOf, START, cmds);
    assert [] + cmds == cmds;
    Executes(n, NoData(n), 0, cmds);
  }

  // ---------------------------------------------------------------------------
  // Datasets that a rewrite can write
  // ---------------------------------------------------------------------------

  ghost predicate GoodPair(key: string, e: Entry) { GoodEntry(e) && SmallEntry(key, e) }

  ghost predicate GoodPairs(db: Db) { forall k :: k in db ==> GoodPair(k, db[k]) }

  ghost predicate GoodData(n: nat, d: seq<Db>) { |d| == n && forall j :: 0 <= j < |d| ==> GoodPairs(d[j]) }

  ghost predicate GoodValue(v: Option<Value>) { v.Some? ==> NonEmpty(v.value) && SmallValue(v.value) }

  lemma {:induction false} ItemAdded(c: Collection, v: Option<Value>, item: Item)
    requires |item| == Width(c) && SmallArgs(item) && GoodValue(v)
    ensures GoodValue(AddItem(c, v, item))
  {
    match c
    case ListKind =>
      assert v.Some? && v.value.List? ==>
        NonEmpty(List(v.value.items + item)) && SmallValue(List(v.value.items + item));
    case SetKind =>
      assert v.Some? && v.value.SetOf? ==> item[0] in v.value.members + {item[0]};
    case ZSetKind =>
      assert v.Some? && v.value.ZSet? ==> item[1] in v.value.scores[item[1] := item[0]];
      assert item[1] in map[item[1] := item[0]];
    case HashKind =>
      assert v.Some? && v.value.Hash? ==> item[0] in v.value.fields[item[0] := item[1]];
      assert item[0] in map[item[0] := item[1]];
  }

  lemma {:induction false} ItemsAdded(c: Collection, v: Option<Value>, items: seq<Item>)
    requires AreItems(c, items) && GoodValue(v) && forall i :: 0 <= i < |items| ==> SmallArgs(items[i])
    ensures GoodValue(AddItems(c, v, items))
    decreases |items|
  {
    if items != [] {
      ItemAdded(c, v, items[0]);
      ItemsAdded(c, AddItem(c, v, items[0]), items[1..]);
    }
  }

  lemma {:induction false} ItemsOfSmall(c: Collection, args: seq<string>)
    requires |args| % Width(c) == 0 && SmallArgs(args)
    ensures forall i :: 0 <= i < |ItemsOf(c, args)| ==> SmallArgs(ItemsOf(c, args)[i])
    decreases |args|
  {
    if args != [] {
      ItemsOfSmall(c, args[Width(c)..]);
    }
  }

  lemma {:induction false} Stored(s: State, key: string, e: Entry)
    requires s.current < |s.dbs| && GoodData(|s.dbs|, s.dbs) && GoodPair(key, e)
    ensures GoodData(|s.dbs|, Store(s, key, e).dbs)
  {
    assert GoodPairs(s.dbs[s.current][key := e]);
  }

  lemma {:induction false} AddedGood(s: State, c: Collection, argv: Argv)
    requires s.current < |s.dbs| && GoodData(|s.dbs|, s.dbs) && WellSized(argv)
    ensures GoodData(|s.dbs|, AddCommand(s, c, argv).dbs)
  {
    if |argv| > 2 && |argv[2..]| % Width(c) == 0 {
      var key, items, e := argv[1], ItemsOf(c, argv[2..]), Lookup(s, argv[1]);
      ItemsOfSmall(c, argv[2..]);
      assert e.Some? ==> GoodPair(key, e.value);
      var v := if e.Some? then Some(e.value.value) else None;
      ItemsAdded(c, v, items);
      var f := if e.None? then Entry(AddItems(c, None, items).value, None) else e.value.(value := AddItems(c, v,
          items).value);
      Stored(s, key, f);
    }
  }

  lemma {:induction false} ApplyGood(n: nat, d: seq<Db>, p: (nat, Argv))
    requires GoodData(n, d) && WellSized(p.1)
    ensures GoodData(n, ApplyTo(d, p))
  {
    if p.0 < n {
      var s, argv := State(d, p.0), p.1;
      if argv[0] == "SET" && |argv| == 3 {
        Stored(s, argv[1], Entry(Str(argv[2]), None));
      } else if argv[0] == "PEXPIREAT" && |argv| == 3 && 0 <= Number(argv[2]) <= MAX_LONG && Lookup(s, argv[1]).Some? {
        assert GoodPair(argv[1], Lookup(s, argv[1]).value);
        Stored(s, argv[1], Lookup(s, argv[1]).value.(expire := Some(Number(argv[2]))));
      } else {
        AddedGood(s, ListKind, argv);
        AddedGood(s, SetKind, argv);
        AddedGood(s, ZSetKind, argv);
        AddedGood(s, HashKind, argv);
      }
    }
  }

  ghost predicate AllSized(ps: seq<(nat, Argv)>) { forall i :: 0 <= i < |ps| ==> WellSized(ps[i].1) }

  lemma {:induction false} ReplayGood(n: nat, d: seq<Db>, ps: seq<(nat, Argv)>)
    requires GoodData(n, d) && AllSized(ps)
    ensures GoodData(n, Protocol.Replay(DataModel(n), d, ps))
    decreases |ps|
  {
    if ps != [] {
      ApplyGood(n, d, ps[0]);
      ReplayGood(n, ApplyTo(d, ps[0]), ps[1..]);
    }
  }

  lemma {:induction false} TraceSized(db: nat, cmds: seq<Argv>)
    requires forall i :: 0 <= i < |cmds| ==> WellSized(cmds[i])
    ensures AllSized(Trace(db, cmds))
    decreases |cmds|
  {
    if cmds != [] {
      TraceSized(if IsSelect(cmds[0]) then SelectedBy(cmds[0]) else db, cmds[1..]);
    }
  }

  lemma {:induction false} HeardSized(n: nat, cs: seq<Argv>)
    requires SoundFile(n, cs)
    ensures AllSized(Heard(cs))
  {
    ExecutedStorable(n, START, cs);
    TraceSized(0, RunBy(cs));
  }
}
