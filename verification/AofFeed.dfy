/**
 Feeding commands to the append-only file. Only the commands themselves are
 written; a SELECT is inserted when the database differs from the one the file
 was last known to be in. Whoever loads an INCR file starts in database 0.
 */
module AofFeed {

  import opened AofAnnotated
  import opened AofFormat
  import opened AofLoader
  import opened Sds

  // ---------------------------------------------------------------------------
  // One command
  // ---------------------------------------------------------------------------

  function SelectCommand(db: nat): Argv { ["SELECT", Decimal(db)] }

  const MULTI: Argv := ["MULTI"]
  const EXEC: Argv := ["EXEC"]

  predicate IsSelect(argv: Argv) { |argv| == 2 && argv[0] == "SELECT" }

  /** The kind of a command, as far as loading cares. */
  function KindOf(argv: Argv): Kind {
    if argv == MULTI then Multi else if argv == EXEC then Exec else Other
  }

  /** A command that changes data: not one of those the feeding code adds by itself. */
  predicate IsData(argv: Argv) { argv != [] && !IsSelect(argv) && argv != MULTI && argv != EXEC }

  /** What one feed appends; -1 stands for no database. */
  function Appended(selected: int, db: int, argv: Argv): seq<Argv> {
    if db >= 0 && db != selected then [SelectCommand(db), argv] else [argv]
  }

  function SelectedAfter(selected: int, db: int): int {
    if db >= 0 then db else selected
  }

  lemma {:induction false} SelectText(db: nat)
    ensures EncodeCommand(SelectCommand(db)) == "*2\r\n$6\r\nSELECT\r\n" + Bulk(Decimal(db))
  {
    TwoBulks("SELECT", Decimal(db));
    SelectLiteral();
    FourParts(Header('*', 2), Bulk("SELECT"), Bulk(Decimal(db)));
  }

  lemma FourParts(a: string, b: string, c: string)
    requires a == "*2\r\n" && b == "$6\r\nSELECT\r\n"
    ensures a + b + c == "*2\r\n$6\r\nSELECT\r\n" + c
  {
  }

  lemma SelectLiteral()
    ensures Header('*', 2) == "*2\r\n"
    ensures Bulk("SELECT") == "$6\r\nSELECT\r\n"
  {
    assert Decimal(2) == "2" && Decimal(6) == "6";
  }

  /** What the commands around a transaction look like in the file. */
  lemma {:induction false} TransactionText()
    ensures EncodeCommand(MULTI) == "*1\r\n$5\r\nMULTI\r\n"
    ensures EncodeCommand(EXEC) == "*1\r\n$4\r\nEXEC\r\n"
  {
    assert Decimal(1) == "1" && Decimal(4) == "4" && Decimal(5) == "5";
    assert Bulk("MULTI") == "$5\r\nMULTI\r\n" && Bulk("EXEC") == "$4\r\nEXEC\r\n";
    OneBulk("MULTI");
    OneBulk("EXEC");
  }

  lemma OneBulk(a: string)
    ensures EncodeCommand([a]) == "*1\r\n" + Bulk(a)
  {
    hide Bulk;
    assert Decimal(1) == "1";
    assert [a][1..] == [];
    assert Flat(Bulk, [a]) == Bulk(a) + "";
  }

  lemma {:induction false} TwoBulks(a: string, b: string)
    ensures EncodeCommand([a, b]) == Header('*', 2) + Bulk(a) + Bulk(b)
  {
    assert [a, b][1..] == [b] && [b][1..] == [];
    assert Flat(Bulk, [b]) == Bulk(b) + "";
    ThreeParts(Header('*', 2), Bulk(a), Bulk(b));
  }

  lemma ThreeParts(a: string, b: string, c: string)
    ensures a + (b + (c + "")) == a + b + c
  {
  }

  /** A time stamp is written when it has changed since the last one. */
  function Stamps(timestamps: bool, last: nat, now: nat): seq<Item> {
    if timestamps && last < now then [Annotation("#TS:" + Decimal(now) + "\r\n")] else []
  }

  class Appender {
    var buf: string
    var selectedDb: int
    var curTimestamp: nat
    const timestamps: bool

    constructor (timestamps: bool)
      ensures buf == "" && selectedDb == -1 && curTimestamp == 0 && this.timestamps == timestamps
    {
      buf, selectedDb, curTimestamp := "", -1, 0;
      this.timestamps := timestamps;
    }

    method Feed(db: int, argv: Argv, now: nat)
      requires db >= -1
      modifies this
      ensures buf == old(buf) + TextOf(Stamps(timestamps, old(curTimestamp), now))
        + Encode(Appended(old(selectedDb), db, argv))
      ensures selectedDb == SelectedAfter(old(selectedDb), db)
      ensures curTimestamp == if timestamps && old(curTimestamp) < now then now else old(curTimestamp)
    {
      var text := "";
      EncodeOne(argv);
      if db != -1 && db != selectedDb {
        text := SelectBytes(db);
        EncodeTwo(SelectCommand(db), argv);
        selectedDb := db;
      }
      text := CatCommand(text, argv);
      var stamp := Stamp(now);
      buf := buf + stamp + text;
    }

    method Stamp(now: nat) returns (ts: string)
      modifies this`curTimestamp
      ensures ts == TextOf(Stamps(timestamps, old(curTimestamp), now))
      ensures curTimestamp == if timestamps && old(curTimestamp) < now then now else old(curTimestamp)
    {
      ts := "";
      if timestamps {
        if curTimestamp < now {
          ts := "#TS:" + Decimal(now) + "\r\n";
          OneText(Annotation(ts));
          curTimestamp := now;
        }
      }
    }
  }

  lemma OneText(item: Item)
    ensures TextOf([item]) == Text(item)
  {
    assert [item][1..] == [];
    assert Flat(Text, [item]) == Text(item) + "";
  }

  lemma StampIsNote(timestamps: bool, last: nat, now: nat, i: nat)
    requires now <= MAX_LONG && i < |Stamps(timestamps, last, now)|
    ensures Stamps(timestamps, last, now)[i].Annotation? && IsNote(Stamps(timestamps, last, now)[i].line)
  {
    DecimalFitsLine(now);
  }

  function Commands(cmds: seq<Argv>): seq<Item> { seq(|cmds|, i requires 0 <= i < |cmds| => Command(cmds[i])) }

  lemma {:induction false} CommandsText(cmds: seq<Argv>)
    ensures TextOf(Commands(cmds)) == Encode(cmds) && CommandsOf(Commands(cmds)) == cmds
  {
    hide EncodeCommand;
    if cmds != [] {
      CommandsText(cmds[1..]);
      assert Commands(cmds)[1..] == Commands(cmds[1..]);
      assert [cmds[0]] + cmds[1..] == cmds;
    }
  }

  lemma {:induction false} CommandsConcat(a: seq<Item>, b: seq<Item>)
    ensures CommandsOf(a + b) == CommandsOf(a) + CommandsOf(b)
  {
    if a == [] {
      assert a + b == b;
    } else {
      assert (a + b)[1..] == a[1..] + b;
      CommandsConcat(a[1..], b);
      var first := if a[0].Command? then [a[0].argv] else [];
      assert first + (CommandsOf(a[1..]) + CommandsOf(b)) == first + CommandsOf(a[1..]) + CommandsOf(b);
    }
  }

  /** One feed: perhaps a time stamp, perhaps a SELECT, and the command. */
  datatype Call = Call(db: int, argv: Argv, now: nat)

  ghost predicate GoodCall(f: Call) { f.db >= -1 && f.db <= MAX_INT && WellSized(f.argv) && f.now <= MAX_LONG }

  function FedItems(timestamps: bool, last: nat, selected: int, f: Call): seq<Item> {
    Stamps(timestamps, last, f.now) + Commands(Appended(selected, f.db, f.argv))
  }

  lemma {:induction false} FedItemsAre(timestamps: bool, last: nat, selected: int, f: Call)
    requires GoodCall(f)
    ensures var items := FedItems(timestamps, last, selected, f);
      && TextOf(items) == TextOf(Stamps(timestamps, last, f.now)) + Encode(Appended(selected, f.db, f.argv))
      && CommandsOf(items) == Appended(selected, f.db, f.argv)
      && Good(KindOf, items)
  {
    hide Text, EncodeCommand, IsNote;
    var stamps, cmds := Stamps(timestamps, last, f.now), Appended(selected, f.db, f.argv);
    CommandsText(cmds);
    FlatConcat(Text, stamps, Commands(cmds));
    CommandsConcat(stamps, Commands(cmds));
    assert stamps != [] ==> stamps[1..] == [];
    assert CommandsOf(stamps) == [] && [] + cmds == cmds;
    FedItemsGood(timestamps, last, selected, f);
  }

  lemma {:induction false} FedItemsGood(timestamps: bool, last: nat, selected: int, f: Call)
    requires GoodCall(f)
    ensures Good(KindOf, FedItems(timestamps, last, selected, f))
  {
    hide IsNote, Decimal;
    var stamps := Stamps(timestamps, last, f.now);
    forall i | 0 <= i < |stamps| ensures GoodItem(KindOf, stamps[i]) {
      StampIsNote(timestamps, last, f.now, i);
    }
    if f.db >= 0 {
      DecimalFitsLine(f.db);
    }
  }

  ghost function Pairs(fed: seq<Call>): seq<(int, Argv)> {
    seq(|fed|, i requires 0 <= i < |fed| => (fed[i].db, fed[i].argv))
  }

  lemma NoneFed()
    ensures TextOf([]) == "" && Good(KindOf, []) && CommandsOf([]) == [] && Encode([]) == ""
    ensures AppendedAll(-1, Pairs([])) == [] && SelectedAfterAll(-1, Pairs([])) == -1
  {
  }

  lemma FedIsGood(f: Call)
    requires GoodCall(f)
    ensures f.db >= -1
  {
  }

  lemma {:induction false} AppendedLast(selected: int, body: seq<(int, Argv)>, x: (int, Argv))
    ensures AppendedAll(selected, body + [x])
      == AppendedAll(selected, body) + Appended(SelectedAfterAll(selected, body), x.0, x.1)
    ensures SelectedAfterAll(selected, body + [x]) == SelectedAfter(SelectedAfterAll(selected, body), x.0)
    decreases |body|
  {
    hide Appended;
    if body == [] {
      assert body + [x] == [x] && [x][1..] == [];
      assert Appended(selected, x.0, x.1) + [] == Appended(selected, x.0, x.1);
      assert [] + Appended(selected, x.0, x.1) == Appended(selected, x.0, x.1);
    } else {
      assert (body + [x])[1..] == body[1..] + [x];
      var next := SelectedAfter(selected, body[0].0);
      AppendedLast(next, body[1..], x);
      var a, b := Appended(selected, body[0].0, body[0].1), AppendedAll(next, body[1..]);
      var c := Appended(SelectedAfterAll(next, body[1..]), x.0, x.1);
      assert a + (b + c) == a + b + c;
    }
  }

  lemma {:induction false} OneMoreFed(timestamps: bool, last: nat, items: seq<Item>, fed: seq<Call>, i: nat)
    requires i < |fed| && GoodCall(fed[i]) && Good(KindOf, items)
    requires CommandsOf(items) == AppendedAll(-1, Pairs(fed[..i]))
    ensures var f, selected := fed[i], SelectedAfterAll(-1, Pairs(fed[..i]));
      var more := items + FedItems(timestamps, last, selected, f);
      && Good(KindOf, more)
      && TextOf(more)
        == TextOf(items) + TextOf(Stamps(timestamps, last, f.now)) + Encode(Appended(selected, f.db, f.argv))
      && CommandsOf(more) == AppendedAll(-1, Pairs(fed[..i + 1]))
      && SelectedAfter(selected, f.db) == SelectedAfterAll(-1, Pairs(fed[..i + 1]))
      && (TextOf(items) == Encode(CommandsOf(items)) && !timestamps ==> TextOf(more) == Encode(CommandsOf(more)))
  {
    hide Appended, AppendedAll, CommandsOf, Flat, GoodItem, FedItems, Text, EncodeCommand;
    hide SelectedAfter, SelectedAfterAll;
    var f, selected := fed[i], SelectedAfterAll(-1, Pairs(fed[..i]));
    var added := FedItems(timestamps, last, selected, f);
    assert Pairs(fed[..i + 1]) == Pairs(fed[..i]) + [(f.db, f.argv)];
    AppendedLast(-1, Pairs(fed[..i]), (f.db, f.argv));
    FedItemsAre(timestamps, last, selected, f);
    FlatConcat(Text, items, added);
    CommandsConcat(items, added);
    var a, b, c := TextOf(items), TextOf(Stamps(timestamps, last, f.now)), Encode(Appended(selected, f.db, f.argv));
    assert a + (b + c) == a + b + c;
    if !timestamps {
      NoStamp(last, f.now);
      assert a + "" == a;
      FlatConcat(EncodeCommand, CommandsOf(items), Appended(selected, f.db, f.argv));
    }
  }

  lemma NoStamp(last: nat, now: nat)
    ensures TextOf(Stamps(false, last, now)) == ""
  {
  }

  /**
   Whatever is fed, with time stamps or without: the buffer holds exactly the
   commands that would be fed without them, and annotations. So a file cut
   anywhere loads as its whole commands.
   */
  method FeedAll(timestamps: bool, fed: seq<Call>) returns (a: Appender, ghost items: seq<Item>)
    requires forall i :: 0 <= i < |fed| ==> GoodCall(fed[i])
    ensures a.buf == TextOf(items) && Good(KindOf, items)
    ensures CommandsOf(items) == AppendedAll(-1, Pairs(fed))
    ensures !timestamps ==> a.buf == Encode(AppendedAll(-1, Pairs(fed)))
    ensures forall cut :: 0 <= cut <= |a.buf| ==>
      var o := Load(KindOf, a.buf[..cut], FILE_START, START);
      o.status != Failed && o.session == RunAll(KindOf, START, CommandsOf(items[..Whole(items, cut)]))
  {
    hide Good, TextOf, CommandsOf, AppendedAll, GoodCall, Encode, Pairs, Load, RunAll, Appended, FedItems, Whole;
    a := new Appender(timestamps);
    items := [];
    NoneFed();
    for i := 0 to |fed|
      invariant fresh(a) && a.timestamps == timestamps
      invariant a.buf == TextOf(items) && Good(KindOf, items)
      invariant CommandsOf(items) == AppendedAll(-1, Pairs(fed[..i]))
      invariant a.selectedDb == SelectedAfterAll(-1, Pairs(fed[..i]))
      invariant !timestamps ==> a.buf == Encode(CommandsOf(items))
    {
      OneMoreFed(timestamps, a.curTimestamp, items, fed, i);
      items := items + FedItems(timestamps, a.curTimestamp, a.selectedDb, fed[i]);
      FedIsGood(fed[i]);
      a.Feed(fed[i].db, fed[i].argv, fed[i].now);
    }
    assert fed[..|fed|] == fed;
    forall cut | 0 <= cut <= |a.buf|
      ensures var o := Load(KindOf, a.buf[..cut], FILE_START, START);
        o.status != Failed && o.session == RunAll(KindOf, START, CommandsOf(items[..Whole(items, cut)]))
    {
      AnnotatedCut(KindOf, items, cut);
    }
  }

  /** The SELECT command, printed in one go. */
  method SelectBytes(db: nat) returns (text: string)
    ensures text == EncodeCommand(SelectCommand(db))
  {
    var seldb := Decimal(db);
    text := "*2\r\n$6\r\nSELECT\r\n$" + Decimal(|seldb|) + "\r\n" + seldb + "\r\n";
    SelectText(db);
    BulkParts("*2\r\n$6\r\nSELECT\r\n", Decimal(|seldb|), seldb);
  }

  lemma BulkParts(a: string, n: string, s: string)
    ensures a + "$" + n + "\r\n" + s + "\r\n" == a + (['$'] + n + CRLF + s + CRLF)
    ensures "*2\r\n$6\r\nSELECT\r\n$" == "*2\r\n$6\r\nSELECT\r\n" + "$"
  {
  }

  lemma EncodeOne(a: Argv)
    ensures Encode([a]) == EncodeCommand(a)
  {
    assert [a][1..] == [];
    assert Flat(EncodeCommand, [a]) == EncodeCommand(a) + "";
  }

  lemma EncodeTwo(a: Argv, b: Argv)
    ensures Encode([a, b]) == EncodeCommand(a) + EncodeCommand(b)
  {
    EncodeOne(b);
    assert [a, b][1..] == [b];
  }

  // ---------------------------------------------------------------------------
  // Files
  // ---------------------------------------------------------------------------

  /** An INCR file: the commands in it, and the data commands fed while it was current with their databases. */
  datatype File = File(cmds: seq<Argv>, fed: seq<(int, Argv)>)

  datatype Log = Log(files: seq<File>, selected: int)

  datatype Op =
    | One(db: int, argv: Argv)
    | Transaction(body: seq<(int, Argv)>)
    | Rewrite(switched: bool)

  ghost predicate GoodOp(op: Op) {
    match op
    case One(db, argv) => db >= -1 && IsData(argv)
    case Transaction(body) => forall i :: 0 <= i < |body| ==> body[i].0 >= -1 && IsData(body[i].1)
    case Rewrite(_) => true
  }

  /** What feeding several commands appends, and the selected database afterwards. */
  function AppendedAll(selected: int, body: seq<(int, Argv)>): seq<Argv>
    decreases |body|
  {
    if body == [] then []
    else Appended(selected, body[0].0, body[0].1) + AppendedAll(SelectedAfter(selected, body[0].0), body[1..])
  }

  function SelectedAfterAll(selected: int, body: seq<(int, Argv)>): (r: int)
    ensures selected >= -1 ==> r >= -1
    decreases |body|
  {
    if body == [] then selected else SelectedAfterAll(SelectedAfter(selected, body[0].0), body[1..])
  }

  function Extend(f: File, cmds: seq<Argv>, fed: seq<(int, Argv)>): File {
    File(f.cmds + cmds, f.fed + fed)
  }

  /** A rewrite forgets the selected database; a new file is started only if it could be opened. */
  function Step(l: Log, op: Op): (r: Log)
    requires l.files != []
    ensures r.files != []
  {
    var n := |l.files| - 1;
    match op
    case One(db, argv) =>
      Log(l.files[n := Extend(l.files[n], Appended(l.selected, db, argv), [(db, argv)])], SelectedAfter(l.selected, db))
    case Transaction(body) =>
      Log(l.files[n := Extend(l.files[n], [MULTI] + AppendedAll(l.selected, body) + [EXEC], body)],
          SelectedAfterAll(l.selected, body))
    case Rewrite(switched) =>
      Log(if switched then l.files + [File([], [])] else l.files, -1)
  }

  function StepAll(l: Log, ops: seq<Op>): (r: Log)
    requires l.files != []
    ensures r.files != []
    decreases |ops|
  {
    if ops == [] then l else StepAll(Step(l, ops[0]), ops[1..])
  }

  function Switches(ops: seq<Op>): nat {
    if ops == [] then 0 else (if ops[0].Rewrite? && ops[0].switched then 1 else 0) + Switches(ops[1..])
  }

  /** A new file is started by exactly those rewrites that could open one. */
  lemma {:induction false} FilesStarted(l: Log, ops: seq<Op>)
    requires l.files != []
    ensures |StepAll(l, ops).files| == |l.files| + Switches(ops)
    decreases |ops|
  {
    if ops != [] {
      FilesStarted(Step(l, ops[0]), ops[1..]);
    }
  }

  const EMPTY_LOG := Log([File([], [])], -1)

  // ---------------------------------------------------------------------------
  // Replaying a file
  // ---------------------------------------------------------------------------

  /** The data commands of a run, each with the database it runs in. */
  function Trace(db: nat, cmds: seq<Argv>): seq<(nat, Argv)>
    decreases |cmds|
  {
    if cmds == [] then []
    else if IsSelect(cmds[0]) then Trace(SelectedBy(cmds[0]), cmds[1..])
    else [(db, cmds[0])] + Trace(db, cmds[1..])
  }

  function SelectedBy(argv: Argv): nat
    requires IsSelect(argv)
  {
    var n := Number(argv[1]);
    if n < 0 then 0 else n
  }

  function DbAfter(db: nat, cmds: seq<Argv>): nat
    decreases |cmds|
  {
    if cmds == [] then db else DbAfter(if IsSelect(cmds[0]) then SelectedBy(cmds[0]) else db, cmds[1..])
  }

  /** Every fed command runs, in order, and in the database it was fed with if it was fed with one. */
  ghost predicate RunsAsFed(trace: seq<(nat, Argv)>, fed: seq<(int, Argv)>) {
    && |trace| == |fed|
    && forall i :: 0 <= i < |fed| ==> trace[i].1 == fed[i].1 && (fed[i].0 >= 0 ==> trace[i].0 == fed[i].0)
  }

  ghost function Executed(f: File): seq<Argv> { RunAll(KindOf, START, f.cmds).executed }

  ghost predicate Faithful(f: File) {
    && !RunAll(KindOf, START, f.cmds).inMulti
    && RunsAsFed(Trace(0, Executed(f)), f.fed)
  }

  ghost predicate Consistent(l: Log) {
    && l.files != [] && l.selected >= -1
    && (forall i :: 0 <= i < |l.files| ==> Faithful(l.files[i]))
    && (l.selected >= 0 ==> DbAfter(0, Executed(l.files[|l.files| - 1])) == l.selected)
  }

  lemma {:induction false} TraceConcat(db: nat, a: seq<Argv>, b: seq<Argv>)
    ensures Trace(db, a + b) == Trace(db, a) + Trace(DbAfter(db, a), b)
    ensures DbAfter(db, a + b) == DbAfter(DbAfter(db, a), b)
    decreases |a|
  {
    if a == [] {
      assert a + b == b;
    } else {
      assert (a + b)[1..] == a[1..] + b;
      TraceConcat(if IsSelect(a[0]) then SelectedBy(a[0]) else db, a[1..], b);
    }
  }

  lemma SelectedByCommand(db: nat)
    ensures SelectedBy(SelectCommand(db)) == db
  {
    NumberOfDecimal(db, "");
    assert Decimal(db) + "" == Decimal(db);
  }

  /** One feed runs its command in its database, if the selected database was what the file says. */
  lemma {:induction false} AppendedRuns(cur: nat, selected: int, db: int, argv: Argv)
    requires IsData(argv) && (selected >= 0 ==> cur == selected)
    ensures var cs := Appended(selected, db, argv);
      && Trace(cur, cs) == [(if db >= 0 then db else cur, argv)]
      && DbAfter(cur, cs) == (if db >= 0 then db else cur)
  {
    TraceOne(cur, argv);
    if db >= 0 && db != selected {
      SelectedByCommand(db);
      TraceOne(db, argv);
      TraceTwo(cur, SelectCommand(db), argv);
    }
  }

  lemma TraceOne(cur: nat, argv: Argv)
    requires IsData(argv)
    ensures Trace(cur, [argv]) == [(cur, argv)] && DbAfter(cur, [argv]) == cur
  {
    assert [argv][1..] == [];
    assert Trace(cur, []) == [] && DbAfter(cur, []) == cur;
  }

  lemma TraceTwo(cur: nat, select: Argv, argv: Argv)
    requires IsSelect(select)
    ensures Trace(cur, [select, argv]) == Trace(SelectedBy(select), [argv])
    ensures DbAfter(cur, [select, argv]) == DbAfter(SelectedBy(select), [argv])
  {
    assert [select, argv][1..] == [argv];
  }

  lemma {:induction false} AppendedAllRuns(cur: nat, selected: int, body: seq<(int, Argv)>)
    requires GoodOp(Transaction(body)) && (selected >= 0 ==> cur == selected)
    ensures var cs := AppendedAll(selected, body);
      && RunsAsFed(Trace(cur, cs), body)
      && (SelectedAfterAll(selected, body) >= 0 ==> DbAfter(cur, cs) == SelectedAfterAll(selected, body))
    decreases |body|
  {
    if body != [] {
      var db, argv := body[0].0, body[0].1;
      var first := Appended(selected, db, argv);
      AppendedRuns(cur, selected, db, argv);
      AppendedAllRuns(DbAfter(cur, first), SelectedAfter(selected, db), body[1..]);
      TraceConcat(cur, first, AppendedAll(SelectedAfter(selected, db), body[1..]));
    }
  }

  lemma {:induction false} DataRuns(s: Session, cmds: seq<Argv>)
    requires !s.inMulti && forall i :: 0 <= i < |cmds| ==> KindOf(cmds[i]) == Other
    ensures RunAll(KindOf, s, cmds) == s.(executed := s.executed + cmds)
    decreases |cmds|
  {
    if cmds == [] {
      assert s.executed + cmds == s.executed;
    } else {
      DataRuns(Run(KindOf, s, cmds[0]), cmds[1..]);
      assert s.executed + [cmds[0]] + cmds[1..] == s.executed + cmds;
    }
  }

  lemma {:induction false} AppendedKinds(selected: int, body: seq<(int, Argv)>)
    requires GoodOp(Transaction(body))
    ensures forall i :: 0 <= i < |AppendedAll(selected, body)| ==> KindOf(AppendedAll(selected, body)[i]) == Other
    decreases |body|
  {
    if body != [] {
      AppendedKinds(SelectedAfter(selected, body[0].0), body[1..]);
    }
  }

  /** Appending commands that the loader runs as cmds extends a faithful file faithfully. */
  lemma {:induction false} ExtendFaithful(f: File, text: seq<Argv>, cmds: seq<Argv>, fed: seq<(int, Argv)>)
    requires Faithful(f)
    requires var s := RunAll(KindOf, START, f.cmds);
      var t := RunAll(KindOf, s, text);
      !t.inMulti && t.executed == s.executed + cmds
    requires RunsAsFed(Trace(DbAfter(0, Executed(f)), cmds), fed)
    ensures Faithful(Extend(f, text, fed))
    ensures Executed(Extend(f, text, fed)) == Executed(f) + cmds
  {
    hide RunAll, Trace, DbAfter;
    RunAllConcat(KindOf, START, f.cmds, text);
    TraceConcat(0, Executed(f), cmds);
  }

  lemma {:induction false} OneConsistent(l: Log, db: int, argv: Argv)
    requires Consistent(l) && GoodOp(One(db, argv))
    ensures Consistent(Step(l, One(db, argv)))
  {
    hide RunAll, Trace, DbAfter;
    var f := l.files[|l.files| - 1];
    var cur := DbAfter(0, Executed(f));
    var cs := Appended(l.selected, db, argv);
    AppendedRuns(cur, l.selected, db, argv);
    DataRuns(RunAll(KindOf, START, f.cmds), cs);
    ExtendFaithful(f, cs, cs, [(db, argv)]);
    TraceConcat(0, Executed(f), cs);
  }

  lemma {:induction false} TransactionConsistent(l: Log, body: seq<(int, Argv)>)
    requires Consistent(l) && GoodOp(Transaction(body))
    ensures Consistent(Step(l, Transaction(body)))
  {
    hide RunAll, Trace, DbAfter, AppendedAll;
    var f := l.files[|l.files| - 1];
    var cur := DbAfter(0, Executed(f));
    var cs := AppendedAll(l.selected, body);
    AppendedAllRuns(cur, l.selected, body);
    AppendedKinds(l.selected, body);
    AofLoader.Transaction(KindOf, RunAll(KindOf, START, f.cmds), MULTI, cs, EXEC);
    ExtendFaithful(f, [MULTI] + cs + [EXEC], cs, body);
    TraceConcat(0, Executed(f), cs);
  }

  lemma {:induction false} StepConsistent(l: Log, op: Op)
    requires Consistent(l) && GoodOp(op)
    ensures Consistent(Step(l, op))
  {
    match op
    case One(db, argv) => OneConsistent(l, db, argv);
    case Transaction(body) => TransactionConsistent(l, body);
    case Rewrite(_) =>
  }

  /** After any feeds and rewrites, every INCR file runs its commands in the databases they were fed with. */
  lemma {:induction false} RunConsistent(l: Log, ops: seq<Op>)
    requires Consistent(l) && forall i :: 0 <= i < |ops| ==> GoodOp(ops[i])
    ensures Consistent(StepAll(l, ops))
    decreases |ops|
  {
    if ops != [] {
      StepConsistent(l, ops[0]);
      RunConsistent(Step(l, ops[0]), ops[1..]);
    }
  }

  /** The same on the bytes: loading an INCR file succeeds and runs every command as it was fed. */
  lemma {:induction false} FilesLoadAsFed(ops: seq<Op>, i: nat)
    requires forall k :: 0 <= k < |ops| ==> GoodOp(ops[k])
    requires i < |StepAll(EMPTY_LOG, ops).files|
    requires Loadable(KindOf, StepAll(EMPTY_LOG, ops).files[i].cmds)
    ensures var f := StepAll(EMPTY_LOG, ops).files[i];
      var o := Load(KindOf, Encode(f.cmds), FILE_START, START);
      o.status == LoadedOk && RunsAsFed(Trace(0, o.session.executed), f.fed)
  {
    RunConsistent(EMPTY_LOG, ops);
    var f := StepAll(EMPTY_LOG, ops).files[i];
    LoadWhole(KindOf, f.cmds);
  }

  lemma {:induction false} LoadWhole(kind: Argv -> Kind, cmds: seq<Argv>)
    requires Loadable(kind, cmds)
    ensures var o := Load(kind, Encode(cmds), FILE_START, START);
      && o.session == RunAll(kind, START, cmds)
      && o.status == if o.session.inMulti then Truncated else LoadedOk
  {
    var n := |Encode(cmds)|;
    LoadCut(kind, cmds, n);
    CompleteAll(cmds);
    assert Encode(cmds)[..n] == Encode(cmds);
    assert cmds[..|cmds|] == cmds;
  }

  lemma {:induction false} PrefixIsShorter(cmds: seq<Argv>, k: nat)
    requires k <= |cmds|
    ensures |Encode(cmds[..k])| <= |Encode(cmds)|
  {
    hide Flat, EncodeCommand;
    FlatConcat(EncodeCommand, cmds[..k], cmds[k..]);
    assert cmds[..k] + cmds[k..] == cmds;
  }

  lemma {:induction false} CompleteAll(cmds: seq<Argv>)
    ensures Complete(cmds, |Encode(cmds)|) == |cmds|
  {
    CompleteIs(cmds, |Encode(cmds)|);
    var k := Complete(cmds, |Encode(cmds)|);
    if k < |cmds| {
      PrefixIsShorter(cmds, k + 1);
    }
  }
}
