/**
 The whole append-only file of a server with its databases: commands are fed
 with the SELECTs they need, files are bytes, a rewrite dumps the databases in
 chunks, and loading starts every file in database 0.
 */
module AofRedis {

  import opened AofDataModel
  import opened AofDataset
  import opened AofFeed
  import opened AofFormat
  import opened AofLoader
  import opened AofManifest
  import opened AofManifestText
  import opened AofMemory
  import opened AofProtocol
  import opened AofRewrite
  import opened AofServer
  import opened AofTorn
  import opened Wrappers

  // ---------------------------------------------------------------------------
  // What is on disk
  // ---------------------------------------------------------------------------

  /** The databases after the bytes of these files have been loaded, one after the other. */
  ghost function LoadAll(d: seq<Db>, files: map<Name, seq<Argv>>, names: seq<Name>): (r: seq<Db>)
    requires d != [] && AllExist(files, names)
    ensures |r| == |d|
    decreases |names|
  {
    if names == [] then d
    else LoadAll(ExecAll(AofDataset.State(d, 0), Loaded(Encode(files[names[0]]))).dbs, files, names[1..])
  }

  ghost predicate AllLoad(files: map<Name, seq<Argv>>, names: seq<Name>) {
    forall i :: 0 <= i < |names| ==>
      names[i] in files && Load(KindOf, Encode(files[names[i]]), FILE_START, START).status == LoadedOk
  }

  lemma {:induction false} FilesLoad(n: nat, d: seq<Db>, files: map<Name, seq<Argv>>, names: seq<Name>)
    requires |d| == n && n > 0 && AllExist(files, names) && AllSound(DataModel(n), files, names)
    ensures AllLoad(files, names)
    ensures LoadAll(d, files, names) == Replay(DataModel(n), d, Contents(DataModel(n), files, names))
    decreases |names|
  {
    if names != [] {
      var m, f := DataModel(n), files[names[0]];
      FileLoads(n, d, f);
      var e := ExecAll(AofDataset.State(d, 0), Loaded(Encode(f))).dbs;
      FilesLoad(n, e, files, names[1..]);
      ReplayConcat(m, d, Heard(f), Contents(m, files, names[1..]));
    }
  }

  /** What the disk holds loads without error, to the effect of the logged commands. */
  ghost predicate DiskLoads(n: nat, disk: Disk<Argv>, logged: seq<(nat, Argv)>)
    requires n > 0
  {
    disk.manifest.Some? ==>
      var l := disk.manifest.value;
      && AllExist(disk.files, Live(l)) && AllLoad(disk.files, Live(l))
      && LoadAll(NoData(n), disk.files, Live(l)) == Effect(DataModel(n), logged)
  }

  lemma {:induction false} GoodDiskLoads(n: nat, disk: Disk<Argv>, logged: seq<(nat, Argv)>)
    requires n > 0 && DiskGood(DataModel(n), disk, logged)
    ensures DiskLoads(n, disk, logged) && (disk.manifest.None? ==> logged == [])
  {
    if disk.manifest.Some? {
      FilesLoad(n, NoData(n), disk.files, Live(disk.manifest.value));
    }
  }

  lemma {:induction false} ContentsSized(n: nat, files: map<Name, seq<Argv>>, names: seq<Name>)
    requires AllExist(files, names) && AllSound(DataModel(n), files, names)
    ensures AllSized(Contents(DataModel(n), files, names))
    decreases |names|
  {
    if names != [] {
      HeardSized(n, files[names[0]]);
      ContentsSized(n, files, names[1..]);
    }
  }

  /** Whatever was loaded can be written by a rewrite. */
  lemma {:induction false} LoadedIsGood(n: nat, disk: Disk<Argv>, logged: seq<(nat, Argv)>)
    requires DiskGood(DataModel(n), disk, logged)
    ensures GoodData(n, Effect(DataModel(n), logged))
  {
    if disk.manifest.Some? {
      var names := Live(disk.manifest.value);
      ContentsSized(n, disk.files, names);
      ReplayGood(n, NoData(n), Contents(DataModel(n), disk.files, names));
    }
  }

  lemma GoodDataIsSmall(n: nat, d: seq<Db>)
    requires GoodData(n, d) && n <= MAX_INT
    ensures WellFormed(d) && SmallDbs(d)
  {
    forall j, k | 0 <= j < |d| && k in d[j] ensures GoodEntry(d[j][k]) && SmallEntry(k, d[j][k]) {
      assert GoodPairs(d[j]) && GoodPair(k, d[j][k]);
    }
  }

  lemma NoDataIsGood(n: nat)
    ensures GoodData(n, NoData(n))
  {
  }

  /** What a child, or a server that starts from nothing, writes to its BASE file. */
  method Dump(n: nat, d: seq<Db>, chunk: nat) returns (cs: seq<Argv>)
    requires 0 < n <= MAX_INT && GoodData(n, d) && 0 < chunk && 2 * chunk + 2 <= MAX_INT
    ensures Dumps(DataModel(n), cs, d)
  {
    GoodDataIsSmall(n, d);
    var bytes := RewriteFile(d, chunk);
    var o := LoadFile(KindOf, bytes);
    cs := o.session.executed;
    RewriteDumps(d, cs);
  }

  // ---------------------------------------------------------------------------
  // The server
  // ---------------------------------------------------------------------------

  type RedisModel = Model<seq<Db>, (nat, Argv), Argv>

  type RedisView = View<seq<Db>, (nat, Argv), Argv>

  datatype Event =
    | FeedOne(db: nat, argv: Argv)
    | FeedAll(body: seq<(nat, Argv)>)
    | FlushSome(k: nat)
    | Start(pid: nat, short: bool, partial: nat, opens: bool, how: Commit, forks: bool)
    | ChildWrites(cs: seq<Argv>)
    | ChildExits(renames: bool, how: Commit, disabled: bool, again: Commit)
    | ChildDies
    | Die
    | DieWriting(cut: nat)
    | StartUp(newBudget: nat, how: Commit, disabled: bool, again: Commit)

  /** The child has written some dump of its snapshot, and the server takes notice. */
  ghost predicate ChildEnds(m: RedisModel, v: RedisView, e: Event, v': RedisView)
    requires v.state.child.Some? && e.ChildExits?
  {
    exists cs ::
      && Dumps(m, cs, v.state.child.value.snapshot)
      && Happens(m, v, DoChildDone(cs, e.renames, e.how, e.disabled, e.again), v')
  }

  /** The server starts, with some dump of no data at hand for a first file. */
  ghost predicate ComesUp(m: RedisModel, v: RedisView, e: Event, v': RedisView)
    requires e.StartUp?
  {
    exists first ::
      && Dumps(m, first, m.empty)
      && Happens(m, v, DoRestart(first, e.newBudget, e.how, e.disabled, e.again), v')
  }

  class Redis {
    const n: nat
    const chunk: nat
    const s: AofServer.Server<seq<Db>, (nat, Argv), Argv>
    var selected: int

    ghost predicate Sized() { 0 < n <= MAX_INT && 0 < chunk && 2 * chunk + 2 <= MAX_INT && s.m == DataModel(n) }

    /** The database last fed for is the one a loader of the current file will be in. */
    ghost predicate Aligned()
      reads this, s, s.manifest
    {
      s.up && selected >= 0 ==> DbOf(TapeOf(s.State())) == selected
    }

    ghost predicate Writable()
      reads this, s
    {
      s.up ==> GoodData(n, s.dataset) && (s.child.Some? ==> GoodData(n, s.child.value.snapshot))
    }

    ghost predicate Valid()
      reads this, s, s.manifest
    {
      Sized() && s.Valid() && Aligned() && Writable()
    }

    constructor (n: nat, chunk: nat)
      requires 0 < n <= MAX_INT && 0 < chunk && 2 * chunk + 2 <= MAX_INT
      ensures Valid() && fresh(s) && fresh(s.manifest) && this.n == n && this.chunk == chunk
      ensures !s.up && !s.broken && selected == -1
      ensures s.State().disk == Disk(map[], None) && s.State().book == EmptyBook()
    {
      this.n, this.chunk, selected := n, chunk, -1;
      s := new AofServer.Server(DataModel(n));
    }

    /** Runs a command in a database and feeds it to the file. */
    method Feed(db: nat, argv: Argv)
      requires Valid() && s.up && db < n && IsData(argv) && WellSized(argv)
      modifies this, s
      ensures Valid() && s.up && s.manifest == old(s.manifest) && s.broken == old(s.broken)
      ensures s.Seen() == old(s.Seen()).(state :=
        Fed(s.m, old(s.State()), [(db, argv)], AofFeed.Appended(old(selected), db, argv)))
      ensures selected == db && (old(s.IsClean()) ==> s.IsClean())
    {
      var w := AofFeed.Appended(selected, db, argv);
      TapeIsSound(s.m, s.State());
      FeedHeard(n, TapeOf(s.State()), selected, db, argv);
      FeedMovable(n, selected, db, argv);
      ReplayGood(n, s.dataset, [(db, argv)]);
      s.Feed([(db, argv)], w);
      selected := SelectedAfter(selected, db);
    }

    /** Runs a transaction and feeds it. */
    method FeedTransaction(body: seq<(nat, Argv)>)
      requires Valid() && s.up && GoodBody(n, body)
      modifies this, s
      ensures Valid() && s.up && s.manifest == old(s.manifest) && s.broken == old(s.broken)
      ensures s.Seen() == old(s.Seen()).(state := Fed(s.m, old(s.State()), body, BodyText(old(selected), body)))
      ensures selected == SelectedAfterAll(old(selected), body) && (old(s.IsClean()) ==> s.IsClean())
    {
      var w := BodyText(selected, body);
      TapeIsSound(s.m, s.State());
      BodyHeard(n, TapeOf(s.State()), selected, body);
      BodyMovable(n, selected, body);
      ReplayGood(n, s.dataset, body);
      s.Feed(body, w);
      selected := SelectedAfterAll(selected, body);
    }

    method Flush(k: nat)
      requires Valid() && s.up
      modifies s
      ensures Valid() && s.manifest == old(s.manifest) && s.broken == old(s.broken)
      ensures old(s.IsClean()) ==> s.IsClean()
      ensures Happens(s.m, old(s.Seen()), DoFlush(k), s.Seen())
    {
      RunningShape(s.m, s.State());
      WrittenRuns(s.m, s.State(), if k <= |s.buf| then k else |s.buf|);
      s.Flush(if k <= |s.buf| then k else |s.buf|);
    }

    /** Forgets the selected database, flushes, switches files and forks. */
    method StartRewrite(pid: nat, short: bool, partial: nat, opens: bool, how: Commit, forks: bool)
      requires Valid() && s.up
      modifies this, s
      ensures Valid() && (s.manifest == old(s.manifest) || fresh(s.manifest)) && (s.broken ==> old(s.broken))
      ensures old(s.IsClean()) && !short ==> s.IsClean()
      ensures selected == if old(s.child).None? then -1 else old(selected)
      ensures Happens(s.m, old(s.Seen()), DoStart(pid, short, partial, opens, how, forks), s.Seen())
    {
      if s.child.None? {
        selected := -1;
      }
      s.StartRewrite(pid, short, partial, opens, how, forks);
    }

    /** The child wrote its snapshot and exited with success. */
    method ChildDone(renames: bool, how: Commit, disabled: bool, again: Commit)
      requires Valid() && s.up && s.child.Some?
      modifies this, s, s.manifest
      ensures Valid() && (s.manifest == old(s.manifest) || fresh(s.manifest))
      ensures s.broken ==> renames && how == Commit.FailsLate
      ensures old(s.IsClean()) ==> s.IsClean()
      ensures selected == old(selected)
      ensures ChildEnds(s.m, old(s.Seen()), ChildExits(renames, how, disabled, again), s.Seen())
    {
      hide Running, CrashSafe, Dumps, Effect, GoodData, Concat, AllGone;
      var cs := Dump(n, s.child.value.snapshot, chunk);
      s.ChildDone(cs, renames, how, disabled, again);
    }

    /** What the child has written so far. */
    method ChildWrote(cs: seq<Argv>)
      requires Valid() && s.up
      modifies s
      ensures Valid() && s.manifest == old(s.manifest) && s.broken == old(s.broken)
      ensures old(s.IsClean()) ==> s.IsClean()
      ensures Happens(s.m, old(s.Seen()), DoChildWrites(cs), s.Seen())
    {
      hide Running, CrashSafe, GoodData, Concat;
      if s.child.Some? {
        s.WriteTempFile(s.child.value.pid, cs);
      }
    }

    /** The child exited with an error or was killed. */
    method ChildFailed()
      requires Valid() && s.up
      modifies s
      ensures Valid() && s.manifest == old(s.manifest) && s.broken == old(s.broken)
      ensures old(s.IsClean()) ==> s.IsClean()
      ensures Happens(s.m, old(s.Seen()), DoChildFailed, s.Seen())
    {
      hide Running, CrashSafe, GoodData, Concat;
      if s.child.Some? {
        s.ChildFailed();
      }
    }

    method Crash()
      requires Valid() && s.up
      modifies s
      ensures Valid() && s.manifest == old(s.manifest) && s.broken == old(s.broken)
      ensures old(s.IsClean()) ==> s.IsClean()
      ensures Happens(s.m, old(s.Seen()), DoCrash, s.Seen())
    {
      hide Running, CrashSafe, GoodData, Concat;
      s.Crash();
    }

    /** A new process: loads the files, or makes the first ones. */
    method Restart(newBudget: nat, how: Commit, disabled: bool, again: Commit)
      requires Valid() && !s.up
      modifies this, s
      ensures Valid() && fresh(s.manifest) && s.broken == old(s.broken)
      ensures old(s.IsClean()) ==> s.IsClean()
      ensures selected == -1
      ensures ComesUp(s.m, old(s.Seen()), StartUp(newBudget, how, disabled, again), s.Seen())
    {
      hide Running, CrashSafe, Dumps, Effect, GoodData, Concat, OldGone, DiskGood, Lost;
      SafeMeans(s.m, s.disk, s.book, s.broken);
      if !s.broken {
        LoadedIsGood(n, s.disk, s.book.logged);
      }
      NoDataIsGood(n);
      var first := Dump(n, NoData(n), chunk);
      selected := -1;
      s.Restart(first, newBudget, how, disabled, again);
    }
  }

  // ---------------------------------------------------------------------------
  // Dying in a write
  // ---------------------------------------------------------------------------

  /** What the next start makes of a write that stopped at a byte. */
  ghost predicate StartsFrom(n: nat, s: RedisState, cut: nat)
    requires n > 0 && InWrite(s, cut) && s.disk.manifest.Some? && s.disk.manifest.value.incr != []
  {
    var l, more := s.disk.manifest.value, Concat(Cut(s.heard, WholeFeeds(s, cut)));
    LoadBytes(NoData(n), TornBytes(s, cut), Live(l))
    == if LastIncr(l) == s.current || CleanCut(TapeOf(s), cut)
       then Some(Effect(DataModel(n), s.book.logged + more)) else None
  }

  ghost predicate Recovers(s: RedisState, cut: nat) {
    && s.disk.manifest.Some? && s.disk.manifest.value.incr != []
    && Recoverable(LastIncr(s.disk.manifest.value) == s.current, TapeOf(s), cut)
  }

  /** What the disk holds after the next start has truncated the current file. */
  function TruncatedDisk(s: RedisState, cut: nat): Disk<Argv> {
    s.disk.(files := s.disk.files[s.current := Kept(TapeOf(s), cut)])
  }

  lemma {:induction false} TruncatedIsTorn(n: nat, s: RedisState, cut: nat)
    requires n > 0 && Running(DataModel(n), s) && !s.broken && InWrite(s, cut)
    ensures s.disk.manifest.Some? && s.disk.manifest.value.incr != [] && StartsFrom(n, s, cut)
    ensures Recovers(s, cut) ==>
      var f, kept, k := FileOf(s), Kept(TapeOf(s), cut), WholeFeeds(s, cut);
      && |f| <= |kept| && f + kept[|f|..] == kept && k <= |s.buf|
      && SoundFile(n, kept) && Heard(kept) == Heard(f) + Concat(Cut(s.heard, k))
  {
    TornRestart(n, s, cut);
    if Recovers(s, cut) {
      KeptIsHeard(n, s, cut);
    }
  }

  /**
   The process dies in a write that stopped at a byte. If the next start can
   load and write to the file, the disk is left as that start truncates it.
   */
  method DieInWrite(r: Redis, cut: nat) returns (ok: bool)
    requires r.Valid() && r.s.up && !r.s.broken && InWrite(r.s.State(), cut)
    modifies r.s
    ensures r.Valid() && r.s.manifest == old(r.s.manifest) && !r.s.broken
    ensures ok <==> Recovers(old(r.s.State()), cut)
    ensures var s := old(r.s.State());
      s.disk.manifest.Some? && s.disk.manifest.value.incr != [] && StartsFrom(r.n, s, cut)
    ensures ok ==> !r.s.up && r.s.disk == TruncatedDisk(old(r.s.State()), cut)
    ensures ok ==> r.s.book.logged == old(r.s.book.logged) + Concat(Cut(old(r.s.heard),
        WholeFeeds(old(r.s.State()), cut)))
    ensures !ok ==> r.s.Seen() == old(r.s.Seen())
    ensures old(r.s.IsClean()) ==> r.s.IsClean()
  {
    hide Running, CrashSafe, StartsFrom, Recoverable, Kept, InWrite, WholeFeeds, SoundFile, Heard, Concat;
    var s := r.s;
    TruncatedIsTorn(r.n, s.State(), cut);
    RunningShape(s.m, s.State());
    var f := s.disk.files[s.current];
    var tape := f + Concat(s.wire);
    ok := Recoverable(LastIncr(s.disk.manifest.value) == s.current, tape, cut);
    if ok {
      s.CrashInWrite(Kept(tape, cut)[|f|..], WholeFeeds(s.State(), cut));
    }
  }

  // ---------------------------------------------------------------------------
  // Runs
  // ---------------------------------------------------------------------------

  /** Commands are data commands that fit the format, for one of the n databases. */
  predicate GoodEvent(n: nat, e: Event) {
    match e
    case FeedOne(db, argv) => db < n && IsData(argv) && WellSized(argv)
    case FeedAll(body) => GoodBody(n, body)
    case _ => true
  }

  predicate ShortFlush(e: Event) { e.Start? && e.short }

  predicate LateCommit(e: Event) { e.ChildExits? && e.renames && e.how == Commit.FailsLate }

  /** What an event does to the server and to the database it last fed for; what cannot happen does nothing. */
  ghost predicate Occurs(n: nat, sel: int, v: RedisView, e: Event, sel': int, v': RedisView)
    requires n > 0
  {
    var m, s := DataModel(n), v.state;
    if !v.up then
      if e.StartUp? then sel' == -1 && ComesUp(m, v, e, v') else sel' == sel && v' == v
    else
      match e
      case FeedOne(db, argv) =>
        && sel' == db
        && v' == v.(state := AofMemory.Fed(m, s, [(db, argv)], AofFeed.Appended(sel, db, argv)))
      case FeedAll(body) =>
        && sel' == SelectedAfterAll(sel, body)
        && v' == v.(state := AofMemory.Fed(m, s, body, BodyText(sel, body)))
      case FlushSome(k) => sel' == sel && Happens(m, v, DoFlush(k), v')
      case Start(pid, short, partial, opens, how, forks) =>
        && sel' == (if s.child.None? then -1 else sel)
        && Happens(m, v, DoStart(pid, short, partial, opens, how, forks), v')
      case ChildWrites(cs) => sel' == sel && Happens(m, v, DoChildWrites(cs), v')
      case ChildExits(_, _, _, _) => sel' == sel && if s.child.Some? then ChildEnds(m, v, e, v') else v' == v
      case ChildDies => sel' == sel && Happens(m, v, DoChildFailed, v')
      case Die => sel' == sel && Happens(m, v, DoCrash, v')
      case DieWriting(cut) => sel' == sel && DiesWriting(n, v, cut, v')
      case StartUp(_, _, _, _) => sel' == sel && v' == v
  }

  /** The server dies in a write that stops at a byte, and the next start truncates the file, if it can go on. */
  ghost predicate DiesWriting(n: nat, v: RedisView, cut: nat, v': RedisView)
    requires n > 0
  {
    if !InWrite(v.state, cut) || (!v.state.broken && !Recovers(v.state, cut)) then v' == v
    else !v'.up && (!v.state.broken ==> v'.state.disk == TruncatedDisk(v.state, cut))
  }

  /** What happens while the server runs. */
  method StepUp(r: Redis, e: Event)
    requires r.Valid() && r.s.up && GoodEvent(r.n, e) && !e.DieWriting?
    modifies r, r.s, r.s.manifest
    ensures r.Valid() && (r.s.manifest == old(r.s.manifest) || fresh(r.s.manifest))
    ensures !old(r.s.broken) && !LateCommit(e) ==> !r.s.broken
    ensures old(r.s.IsClean()) && !ShortFlush(e) ==> r.s.IsClean()
    ensures Occurs(r.n, old(r.selected), old(r.s.Seen()), e, r.selected, r.s.Seen())
  {
    hide Running, CrashSafe, ChildEnds, Happens, GoodData, AofMemory.Fed, Concat, BodyText;
    match e
    case FeedOne(db, argv) => r.Feed(db, argv);
    case FeedAll(body) => r.FeedTransaction(body);
    case FlushSome(k) => r.Flush(k);
    case Start(pid, short, partial, opens, how, forks) => r.StartRewrite(pid, short, partial, opens, how, forks);
    case ChildWrites(cs) => r.ChildWrote(cs);
    case ChildExits(renames, how, disabled, again) =>
      if r.s.child.Some? {
        r.ChildDone(renames, how, disabled, again);
      }
    case ChildDies => r.ChildFailed();
    case Die => r.Crash();
    case StartUp(_, _, _, _) =>
  }

  /** The server stands before a write that will stop at a byte and leave a file that the next start refuses, or
      leaves in an open transaction. */
  ghost predicate Tears(n: nat, s: RedisState, cut: nat) {
    && n > 0 && InWrite(s, cut) && s.disk.manifest.Some? && s.disk.manifest.value.incr != []
    && !Recovers(s, cut) && StartsFrom(n, s, cut)
  }

  /** Dies in a write that stops at a byte, if there is such a write and the next start can go on from it. */
  method StepDying(r: Redis, cut: nat) returns (torn: bool)
    requires r.Valid() && r.s.up
    modifies r.s
    ensures r.Valid() && r.s.manifest == old(r.s.manifest) && r.s.broken == old(r.s.broken)
    ensures old(r.s.IsClean()) ==> r.s.IsClean()
    ensures torn ==> r.s.up && !r.s.broken && Tears(r.n, r.s.State(), cut)
    ensures DiesWriting(r.n, old(r.s.Seen()), cut, r.s.Seen())
  {
    torn := false;
    RunningShape(r.s.m, r.s.State());
    var f := r.s.disk.files[r.s.current];
    var bytes := Encode(f + Concat(r.s.wire));
    if |Encode(f)| <= cut <= |bytes| {
      BrokenIsMissing(r.s.m, r.s.disk, r.s.book, r.s.broken);
      if BaseMissing(r.s.disk) {
        r.s.Crash();
      } else {
        var ok := DieInWrite(r, cut);
        torn := !ok;
      }
    }
  }

  method Step(r: Redis, e: Event) returns (torn: bool)
    requires r.Valid() && GoodEvent(r.n, e)
    modifies r, r.s, r.s.manifest
    ensures r.Valid() && (r.s.manifest == old(r.s.manifest) || fresh(r.s.manifest))
    ensures !old(r.s.broken) && !LateCommit(e) ==> !r.s.broken
    ensures old(r.s.IsClean()) && !ShortFlush(e) ==> r.s.IsClean()
    ensures torn ==> e.DieWriting? && r.s.up && !r.s.broken && Tears(r.n, r.s.State(), e.cut)
    ensures Occurs(r.n, old(r.selected), old(r.s.Seen()), e, r.selected, r.s.Seen())
  {
    hide Running, CrashSafe, ComesUp, DiesWriting, Happens, ChildEnds, GoodEvent;
    torn := false;
    if r.s.up {
      if e.DieWriting? {
        torn := StepDying(r, e.cut);
      } else {
        StepUp(r, e);
      }
    } else if e.StartUp? {
      r.Restart(e.newBudget, e.how, e.disabled, e.again);
    }
  }

  /** Nothing on disk, nothing fed, no server running. */
  ghost predicate FromNothing(x: (int, RedisView)) {
    x.0 == -1 && !x.1.up && x.1.state.disk == Disk(map[], None) && x.1.state.book == EmptyBook()
  }

  /** One event after the other leads from view to view. */
  ghost predicate Trace(n: nat, views: seq<(int, RedisView)>, events: seq<Event>)
    requires n > 0
  {
    && |views| <= |events| + 1
    && forall i :: 0 < i < |views| ==> Occurs(n, views[i - 1].0, views[i - 1].1, events[i - 1], views[i].0, views[i].1)
  }

  lemma TraceStart(n: nat, events: seq<Event>, x: (int, RedisView))
    requires n > 0
    ensures Trace(n, [x], events)
  {
  }

  lemma TraceMore(n: nat, views: seq<(int, RedisView)>, events: seq<Event>, x: (int, RedisView))
    requires n > 0 && 0 < |views| <= |events| && Trace(n, views, events)
    requires var y := views[|views| - 1]; Occurs(n, y.0, y.1, events[|views| - 1], x.0, x.1)
    ensures Trace(n, views + [x], events)
  {
    hide Occurs;
  }

  /**
   A server with n databases, from nothing, after any commands, transactions,
   flushes, rewrites, crashes at any disk action and at any byte of a write,
   and restarts: the bytes of the files that the manifest names load without
   error, each from database 0, and give exactly the databases that all flushed
   commands give, unless a flush before a rewrite fell short, or the commit of
   a rewrite was reported to have failed after it took effect. The run ends
   early in front of a write that stops at a byte from which the next start
   cannot go on, and then it says what that start does.
   */
  method Run(n: nat, chunk: nat, events: seq<Event>)
    returns (r: Redis, torn: Option<nat>, ghost views: seq<(int, RedisView)>)
    requires 0 < n <= MAX_INT && 0 < chunk && 2 * chunk + 2 <= MAX_INT
    requires forall i :: 0 <= i < |events| ==> GoodEvent(n, events[i])
    ensures r.n == n && (if r.s.broken then Lost(r.s.disk) else DiskLoads(n, r.s.disk, r.s.book.logged))
    ensures r.s.up ==> r.s.dataset == Effect(DataModel(n), r.s.book.memory + Concat(r.s.buf))
    ensures (forall i :: 0 <= i < |events| ==> !LateCommit(events[i])) ==> !r.s.broken
    ensures (forall i :: 0 <= i < |events| ==> !ShortFlush(events[i])) ==>
      r.s.book.logged == r.s.book.flushed && (r.s.up ==> r.s.book.memory == r.s.book.flushed)
    ensures torn.Some? ==>
      DieWriting(torn.value) in events && r.s.up && !r.s.broken && Tears(n, r.s.State(), torn.value)
    ensures 0 < |views| <= |events| + 1 && (torn.None? ==> |views| == |events| + 1)
    ensures FromNothing(views[0]) && views[|views| - 1] == (r.selected, r.s.Seen())
    ensures torn.Some? ==> |views| > 1 && events[|views| - 2] == DieWriting(torn.value)
    ensures Trace(n, views, events)
  {
    hide Occurs, Tears, Trace, Running, CrashSafe, GoodEvent, GoodData, LateCommit, ShortFlush, DiskLoads, Lost;
    r := new Redis(n, chunk);
    torn := None;
    views := [(r.selected, r.s.Seen())];
    TraceStart(n, events, (r.selected, r.s.Seen()));
    var i := 0;
    while i < |events| && torn.None?
      invariant 0 <= i <= |events|
      invariant fresh(r) && fresh(r.s) && fresh(r.s.manifest) && r.n == n && r.Valid()
      invariant (forall j :: 0 <= j < i ==> !LateCommit(events[j])) ==> !r.s.broken
      invariant (forall j :: 0 <= j < i ==> !ShortFlush(events[j])) ==> r.s.IsClean()
      invariant torn.Some? ==>
        DieWriting(torn.value) in events && r.s.up && !r.s.broken && Tears(n, r.s.State(), torn.value)
      invariant |views| == i + 1 && FromNothing(views[0]) && views[i] == (r.selected, r.s.Seen())
      invariant torn.Some? ==> i > 0 && events[i - 1] == DieWriting(torn.value)
      invariant Trace(n, views, events)
      decreases |events| - i
    {
      var ends := Step(r, events[i]);
      TraceMore(n, views, events, (r.selected, r.s.Seen()));
      views := views + [(r.selected, r.s.Seen())];
      if ends {
        torn := Some(events[i].cut);
      }
      i := i + 1;
    }
    SafeMeans(r.s.m, r.s.disk, r.s.book, r.s.broken);
    if !r.s.broken {
      GoodDiskLoads(n, r.s.disk, r.s.book.logged);
    }
    if r.s.up {
      RunningShape(r.s.m, r.s.State());
    }
  }

  /** Whatever manifest is on a good disk, the loader accepts its text and reads the same lists exactly if the
      configured name can be read back and every line fits. */
  lemma {:induction false} ManifestIsAccepted<D, P, C>(prefix: string, m: Model<D, P, C>, disk: Disk<C>, logged: seq<P>)
    requires DiskGood(m, disk, logged) && disk.manifest.Some?
    requires GoodPrefix(prefix) && SmallNumbers(disk.manifest.value)
    ensures ReadManifest(ManifestText(prefix, disk.manifest.value)) == Some(ReadOf(prefix, disk.manifest.value)) <==>
      ReadsBack(prefix) && AllFit(prefix, Entries(disk.manifest.value))
  {
    ManifestRoundTrip(prefix, disk.manifest.value);
  }
}
