/**
 What a running server knows: the disk, the manifest in memory, the dataset,
 the buffer and the child. Every step of the server is a change of this state,
 and every change keeps what makes a crash harmless.
 */
module AofMemory {

  import opened AofManifest
  import opened AofProtocol
  import opened Wrappers

  datatype Child<D> = Child(pid: nat, snapshot: D)

  /** What has to hold whenever the process dies. */
  ghost predicate Durable<D, P, C>(m: Model<D, P, C>, disk: Disk<C>, book: Book<P>, broken: bool) {
    && EmptyIsSound(m) && Orderly(book)
    && (if broken then Lost(disk) else DiskGood(m, disk, book.logged))
  }

  /** The manifest in memory is good, and the one on disk follows it. */
  ghost predicate OnDisk<D, P, C>(m: Model<D, P, C>, disk: Disk<C>, mem: Lists, current: Name, book: Book<P>,
      broken: bool) {
    && EmptyIsSound(m) && Orderly(book)
    && DiskGood(m, Disk(disk.files, Some(mem)), book.logged)
    && current == LastIncr(mem) && current in disk.files
    && disk.manifest.Some?
    && (if broken then Lost(disk) else Follows(disk.files, mem, disk.manifest.value))
  }

  ghost predicate Buffered<D, P, C(!new)>(
    m: Model<D, P, C>, f: seq<C>, dataset: D, buf: seq<seq<P>>, wire: seq<seq<C>>, heard: seq<seq<P>>, memory: seq<P>) {
    && Lined(m, f, wire, heard)
    && SameSizes(heard, buf) && AllMovable(m, wire, buf)
    && dataset == Effect(m, memory + Concat(buf))
  }

  ghost predicate ChildOk<D, P, C>(
    m: Model<D, P, C>, f: seq<C>, child: Option<Child<D>>, book: Book<P>, aligned: bool, broken: bool) {
    child.Some? ==>
      && !broken
      && child.value.snapshot == Effect(m, book.forked)
      && ChildOrderly(book, m.read(f))
      && (book.left == [] ==> aligned)
  }

  lemma {:induction false} OnDiskIsDurable<D, P, C>(
      m: Model<D, P, C>, disk: Disk<C>, mem: Lists, current: Name, book: Book<P>, broken: bool)
    requires OnDisk(m, disk, mem, current, book, broken)
    ensures Durable(m, disk, book, broken)
  {
    if !broken {
      FollowsGood(m, disk.files, mem, disk.manifest.value, book.logged);
    }
  }

  // ---------------------------------------------------------------------------
  // Feeding and flushing
  // ---------------------------------------------------------------------------

  lemma {:induction false} FeedKeeps<D, P, C(!new)>(
      m: Model<D, P, C>, f: seq<C>, dataset: D, buf: seq<seq<P>>, wire: seq<seq<C>>, heard: seq<seq<P>>, memory: seq<P>,
      ps: seq<P>, w: seq<C>)
    requires Buffered(m, f, dataset, buf, wire, heard, memory) && Movable(m, w, |ps|)
    requires m.sound(f + Concat(wire) + w) && m.read(f + Concat(wire) + w) == m.read(f + Concat(wire)) + ps
    ensures Buffered(m, f, Replay(m, dataset, ps), buf + [ps], wire + [w], heard + [ps], memory)
  {
    hide Lined, Concat, Replay, Movable;
    LinedMore(m, f, wire, heard, w, ps);
    ConcatMore(buf, ps);
    ReplayConcat(m, m.empty, memory + Concat(buf), ps);
    Regroup(memory, Concat(buf), ps);
  }

  function WrittenDisk<C>(disk: Disk<C>, current: Name, cs: seq<C>): Disk<C>
    requires current in disk.files
  {
    disk.(files := disk.files[current := disk.files[current] + cs])
  }

  lemma {:induction false} WriteKeepsBuffer<D, P, C(!new)>(
      m: Model<D, P, C>, f: seq<C>, dataset: D, buf: seq<seq<P>>, wire: seq<seq<C>>, heard: seq<seq<P>>,
          memory: seq<P>, k: nat)
    requires Buffered(m, f, dataset, buf, wire, heard, memory) && k <= |buf|
    ensures Buffered(m, f + Concat(wire[..k]), dataset, buf[k..], wire[k..], heard[k..], memory + Concat(buf[..k]))
    ensures f + Concat(wire) == f + Concat(wire[..k]) + Concat(wire[k..])
    ensures |Concat(buf[..k])| == |Concat(heard[..k])|
    ensures m.read(f + Concat(wire[..k])) == m.read(f) + Concat(heard[..k]) && m.sound(f + Concat(wire[..k]))
  {
    LinedSplit(m, f, wire, heard, k);
    assert SameSizes(heard[..k], buf[..k]);
    ConcatSizes(heard[..k], buf[..k]);
    ConcatSplit(buf, k);
    ConcatSplit(wire, k);
    Regroup(memory, Concat(buf[..k]), Concat(buf[k..]));
    Regroup(f, Concat(wire[..k]), Concat(wire[k..]));
  }

  lemma {:induction false} WriteKeepsDisk<D, P, C>(
      m: Model<D, P, C>, disk: Disk<C>, mem: Lists, current: Name, book: Book<P>, broken: bool,
      cs: seq<C>, ps: seq<P>, hs: seq<P>)
    requires OnDisk(m, disk, mem, current, book, broken) && |ps| == |hs|
    requires m.sound(disk.files[current] + cs) && m.read(disk.files[current] + cs) == m.read(disk.files[current]) + hs
    ensures OnDisk(m, WrittenDisk(disk, current, cs), mem, current, Wrote(book, ps, hs), broken)
  {
    Appended(m, disk.files, mem, book.logged, cs, hs);
    WroteOrderly(book, ps, hs, []);
    LiveIs(mem);
  }

  lemma {:induction false} WriteKeepsChild<D, P, C>(
      m: Model<D, P, C>, f: seq<C>, child: Option<Child<D>>, book: Book<P>, broken: bool,
      cs: seq<C>, buf: seq<seq<P>>, heard: seq<seq<P>>, k: nat)
    requires ChildOk(m, f, child, book, heard == buf, broken) && Orderly(book)
    requires k <= |buf| == |heard| && |Concat(buf[..k])| == |Concat(heard[..k])|
    requires m.read(f + cs) == m.read(f) + Concat(heard[..k])
    ensures ChildOk(m, f + cs, child, Wrote(book, Concat(buf[..k]), Concat(heard[..k])), heard[k..] == buf[k..], broken)
  {
    WroteOrderly(book, Concat(buf[..k]), Concat(heard[..k]), m.read(f));
  }

  // ---------------------------------------------------------------------------
  // Files
  // ---------------------------------------------------------------------------

  /** These files agree with the old ones wherever it matters. */
  ghost predicate Harmless<C>(disk: Disk<C>, mem: Lists, broken: bool, files: map<Name, seq<C>>) {
    && SameFiles(disk.files, files, Live(mem))
    && (var late := IncrFile(mem.incrSeq + 1);
        late in disk.files && disk.files[late] == [] ==> late in files && files[late] == [])
    && (broken ==> Lost(disk.(files := files)))
  }

  lemma {:induction false} HarmlessKeeps<D, P, C>(
      m: Model<D, P, C>, disk: Disk<C>, mem: Lists, current: Name, book: Book<P>, broken: bool, files: map<Name,
          seq<C>>)
    requires OnDisk(m, disk, mem, current, book, broken) && Harmless(disk, mem, broken, files)
    ensures OnDisk(m, disk.(files := files), mem, current, book, broken)
    ensures files[current] == disk.files[current]
  {
    OtherFiles(m, Disk(disk.files, Some(mem)), book.logged, files);
    LiveIs(mem);
    assert Live(mem)[|Live(mem)| - 1] == current;
  }

  /** The next INCR file is created, or one left over from an earlier attempt is emptied. */
  lemma {:induction false} CreateKeeps<D, P, C>(
      m: Model<D, P, C>, disk: Disk<C>, mem: Lists, current: Name, book: Book<P>, broken: bool)
    requires OnDisk(m, disk, mem, current, book, broken)
    ensures OnDisk(m, disk.(files := disk.files[IncrFile(mem.incrSeq + 1) := []]), mem, current, book, broken)
    ensures current != IncrFile(mem.incrSeq + 1)
  {
    LiveIs(mem);
    HarmlessKeeps(m, disk, mem, current, book, broken, disk.files[IncrFile(mem.incrSeq + 1) := []]);
  }

  lemma {:induction false} TempWriteKeeps<D, P, C>(
      m: Model<D, P, C>, disk: Disk<C>, mem: Lists, current: Name, book: Book<P>, broken: bool, pid: nat, cs: seq<C>)
    requires OnDisk(m, disk, mem, current, book, broken)
    ensures OnDisk(m, disk.(files := disk.files[TempFile(pid) := cs]), mem, current, book, broken)
    ensures current != TempFile(pid)
  {
    LiveIs(mem);
    HarmlessKeeps(m, disk, mem, current, book, broken, disk.files[TempFile(pid) := cs]);
  }

  lemma {:induction false} TempRemoveKeeps<D, P, C>(
      m: Model<D, P, C>, disk: Disk<C>, mem: Lists, current: Name, book: Book<P>, broken: bool, pid: nat)
    requires OnDisk(m, disk, mem, current, book, broken)
    ensures OnDisk(m, disk.(files := disk.files - {TempFile(pid)}), mem, current, book, broken)
    ensures current != TempFile(pid)
  {
    LiveIs(mem);
    HarmlessKeeps(m, disk, mem, current, book, broken, disk.files - {TempFile(pid)});
  }

  lemma UsableMem<D, P, C>(m: Model<D, P, C>, disk: Disk<C>, mem: Lists, current: Name, book: Book<P>, broken: bool)
    requires OnDisk(m, disk, mem, current, book, broken)
    ensures Usable(mem) && AllExist(disk.files, Live(mem)) && current == LastIncr(mem)
  {
  }

  /** The child's file moves to the next BASE name. */
  lemma {:induction false} RenameKeeps<D, P, C>(
      m: Model<D, P, C>, disk: Disk<C>, mem: Lists, current: Name, book: Book<P>, pid: nat)
    requires OnDisk(m, disk, mem, current, book, false) && TempFile(pid) in disk.files
    ensures var files := (disk.files - {TempFile(pid)})[BaseFile(mem.baseSeq + 1) := disk.files[TempFile(pid)]];
      OnDisk(m, disk.(files := files), mem, current, book, false) && files[current] == disk.files[current]
  {
    hide OnDisk, DiskGood, Good;
    UsableMem(m, disk, mem, current, book, false);
    LiveIs(mem);
    var files := (disk.files - {TempFile(pid)})[BaseFile(mem.baseSeq + 1) := disk.files[TempFile(pid)]];
    HarmlessKeeps(m, disk, mem, current, book, false, files);
  }

  lemma {:induction false} UnlinkBaseKeeps<D, P, C>(
      m: Model<D, P, C>, disk: Disk<C>, mem: Lists, current: Name, book: Book<P>)
    requires OnDisk(m, disk, mem, current, book, false)
    ensures OnDisk(m, disk.(files := disk.files - {BaseFile(mem.baseSeq + 1)}), mem, current, book, false)
    ensures current != BaseFile(mem.baseSeq + 1)
  {
    LiveIs(mem);
    HarmlessKeeps(m, disk, mem, current, book, false, disk.files - {BaseFile(mem.baseSeq + 1)});
  }

  /** The first retired file is deleted and dropped from the lists in memory. */
  lemma {:induction false} UnlinkKeeps<D, P, C>(
      m: Model<D, P, C>, disk: Disk<C>, mem: Lists, current: Name, book: Book<P>)
    requires OnDisk(m, disk, mem, current, book, false) && mem.history != []
    ensures var files := disk.files - {mem.history[0].name};
      && OnDisk(m, disk.(files := files), mem.(history := mem.history[1..]), current, book, false)
      && files[current] == disk.files[current]
  {
    HistoryIsNotLive(mem, mem.history[0]);
    FirstDropped(m, disk.files, mem, book.logged);
    assert forall i :: 0 <= i < |mem.history[1..]| ==> mem.history[1..][i] == mem.history[i + 1];
  }

  // ---------------------------------------------------------------------------
  // Manifests
  // ---------------------------------------------------------------------------

  /** The manifest in memory is written. */
  lemma {:induction false} PersistedKeeps<D, P, C>(
      m: Model<D, P, C>, disk: Disk<C>, mem: Lists, current: Name, book: Book<P>, broken: bool)
    requires OnDisk(m, disk, mem, current, book, broken)
    ensures OnDisk(m, disk.(manifest := Some(mem)), mem, current, book, false)
  {
    assert Follows(disk.files, mem, mem);
  }

  /** A manifest with one more INCR file is written; memory takes it over, or has not heard of it. */
  lemma {:induction false} SwitchKeeps<D, P, C>(
      m: Model<D, P, C>, disk: Disk<C>, mem: Lists, current: Name, book: Book<P>, broken: bool)
    requires OnDisk(m, disk, mem, current, book, broken)
    requires IncrFile(mem.incrSeq + 1) in disk.files && disk.files[IncrFile(mem.incrSeq + 1)] == []
    ensures var l := WithNewIncr(mem);
      && OnDisk(m, disk.(manifest := Some(l)), l, IncrFile(l.incrSeq), book, false)
      && OnDisk(m, disk.(manifest := Some(l)), mem, current, book, false)
  {
    var l := WithNewIncr(mem);
    CommittedIncr(m, disk.files, mem, book.logged);
    assert Follows(disk.files, l, l);
    assert Follows(disk.files, mem, l);
  }

  /** The new BASE file holds the child's snapshot. */
  ghost predicate HasNewBase<D, P, C>(m: Model<D, P, C>, files: map<Name, seq<C>>, mem: Lists, forked: seq<P>) {
    var base := BaseFile(mem.baseSeq + 1);
    base in files && m.sound(files[base]) && Effect(m, m.read(files[base])) == Effect(m, forked)
  }

  /** The manifest of a finished rewrite is written and taken over. */
  lemma {:induction false} TakeOverKeeps<D, P, C>(
      m: Model<D, P, C>, disk: Disk<C>, mem: Lists, current: Name, book: Book<P>)
    requires OnDisk(m, disk, mem, current, book, false) && HasNewBase(m, disk.files, mem, book.forked)
    requires ChildOrderly(book, m.read(disk.files[current]))
    ensures var l, b := AfterRewrite(mem), Committed(book, m.read(disk.files[current]));
      && OnDisk(m, disk.(manifest := Some(l)), l, current, b, false)
      && Durable(m, disk.(manifest := Some(l)), b, false)
  {
    var l, b := AfterRewrite(mem), Committed(book, m.read(disk.files[current]));
    LiveIs(mem);
    assert Live(mem)[|Live(mem)| - 1] == current;
    CommittedRewrite(m, disk.files, mem, book.forked);
    AfterRewriteGood(mem);
    CommittedExact(book, m.read(disk.files[current]));
    assert Follows(disk.files, l, l);
    OnDiskIsDurable(m, disk.(manifest := Some(l)), l, current, b, false);
  }

  /** It is written, reported to have failed, and the new BASE file deleted. */
  lemma {:induction false} LateFailureBreaks<D, P, C>(
      m: Model<D, P, C>, disk: Disk<C>, mem: Lists, current: Name, book: Book<P>)
    requires OnDisk(m, disk, mem, current, book, false)
    ensures OnDisk(m, Disk(disk.files - {BaseFile(mem.baseSeq + 1)}, Some(AfterRewrite(mem))), mem, current, book, true)
    ensures current != BaseFile(mem.baseSeq + 1)
  {
    UnlinkBaseKeeps(m, disk, mem, current, book);
    LateFailure(disk.files, mem);
  }

  /** The first manifest of a fresh server is written. */
  lemma {:induction false} FirstKeeps<D, P, C>(m: Model<D, P, C>, disk: Disk<C>, book: Book<P>)
    requires Durable(m, disk, book, false) && disk.manifest.None?
    requires BaseFile(1) in disk.files && m.sound(disk.files[BaseFile(1)])
    requires Effect(m, m.read(disk.files[BaseFile(1)])) == m.empty
    requires IncrFile(1) in disk.files && disk.files[IncrFile(1)] == []
    ensures var l := WithNewIncr(WithNewBase(NO_FILES));
      OnDisk(m, disk.(manifest := Some(l)), l, IncrFile(1), book, false)
  {
    var l := WithNewIncr(WithNewBase(NO_FILES));
    CommittedFirst(m, disk.files);
    assert Follows(disk.files, l, l);
  }

  /** The manifest on disk has been loaded. */
  lemma {:induction false} LoadedKeeps<D, P, C>(m: Model<D, P, C>, disk: Disk<C>, book: Book<P>)
    requires Durable(m, disk, book, false) && disk.manifest.Some?
    ensures OnDisk(m, disk, disk.manifest.value, LastIncr(disk.manifest.value), Restarted(book), false)
  {
    var l := disk.manifest.value;
    LiveIs(l);
    assert Live(l)[|Live(l)| - 1] == LastIncr(l);
    assert Follows(disk.files, l, l);
  }

  // ---------------------------------------------------------------------------
  // The state of a running server
  // ---------------------------------------------------------------------------

  /**
   buf is what was fed and not yet flushed, feed by feed; wire are the pieces
   of file made for it, and heard is what a loader will hear from them. The
   manifest on disk is broken if a file that it names has been deleted.
   */
  datatype State<!D, !P, !C> = State(
    disk: Disk<C>, mem: Lists, current: Name, broken: bool,
    dataset: D, buf: seq<seq<P>>, wire: seq<seq<C>>, heard: seq<seq<P>>,
    child: Option<Child<D>>, book: Book<P>)

  function FileOf<D, P, C>(s: State<D, P, C>): seq<C> {
    if s.current in s.disk.files then s.disk.files[s.current] else []
  }

  /** What the current file will hold once the buffer is flushed. */
  function TapeOf<D, P, C>(s: State<D, P, C>): seq<C> { FileOf(s) + Concat(s.wire) }

  // The next two are used only where Open (always true) is mentioned: left to
  // unfold on their own they bring in every fact about every file.
  ghost predicate Open(b: bool) { b == b }

  /** What a running server keeps. */
  ghost predicate Running<D, P, C(!new)>(m: Model<D, P, C>, s: State<D, P, C>) {
    forall b {:trigger Open(b)} ::
      && Open(b)
      && OnDisk(m, s.disk, s.mem, s.current, s.book, s.broken)
      && Buffered(m, s.disk.files[s.current], s.dataset, s.buf, s.wire, s.heard, s.book.memory)
      && ChildOk(m, s.disk.files[s.current], s.child, s.book, s.heard == s.buf, s.broken)
  }

  /** What holds when the process dies. */
  ghost predicate CrashSafe<D, P, C>(m: Model<D, P, C>, disk: Disk<C>, book: Book<P>, broken: bool) {
    forall b {:trigger Open(b)} :: Open(b) && Durable(m, disk, book, broken)
  }

  lemma SafeMeans<D, P, C>(m: Model<D, P, C>, disk: Disk<C>, book: Book<P>, broken: bool)
    requires CrashSafe(m, disk, book, broken)
    ensures if broken then Lost(disk) else DiskGood(m, disk, book.logged)
  {
    assert Open(true);
  }

  /** The BASE file that the manifest on disk names is not there. */
  predicate BaseMissing<C>(disk: Disk<C>) {
    disk.manifest.Some? && (disk.manifest.value.base.None? || disk.manifest.value.base.value.name !in disk.files)
  }

  lemma BrokenIsMissing<D, P, C>(m: Model<D, P, C>, disk: Disk<C>, book: Book<P>, broken: bool)
    requires CrashSafe(m, disk, book, broken)
    ensures broken <==> BaseMissing(disk)
  {
    assert Open(true);
    if !broken && disk.manifest.Some? {
      var l := disk.manifest.value;
      assert l.base.Some? && Live(l)[0] == l.base.value.name;
    }
  }

  /** Disk, memory and buffer say what was flushed and fed. */
  ghost predicate Clean<D, P, C>(s: State<D, P, C>) {
    && s.book.logged == s.book.flushed && s.book.memory == s.book.flushed
    && s.heard == s.buf && (s.child.Some? ==> s.book.left == [])
  }

  /** What is plain to see of a running server. */
  lemma {:induction false} RunningShape<D, P, C(!new)>(m: Model<D, P, C>, s: State<D, P, C>)
    requires Running(m, s)
    ensures s.current in s.disk.files && s.disk.manifest.Some?
    ensures s.mem.incr != [] && s.current == LastIncr(s.mem)
    ensures |s.buf| == |s.wire| == |s.heard|
    ensures s.dataset == Effect(m, s.book.memory + Concat(s.buf))
    ensures s.child.Some? ==> !s.broken && s.child.value.snapshot == Effect(m, s.book.forked)
    ensures CrashSafe(m, s.disk, s.book, s.broken)
  {
    assert Open(true);
    OnDiskIsDurable(m, s.disk, s.mem, s.current, s.book, s.broken);
  }

  lemma {:induction false} FileIsSound<D, P, C(!new)>(m: Model<D, P, C>, s: State<D, P, C>)
    requires Running(m, s)
    ensures m.sound(FileOf(s))
  {
    assert Open(true);
  }

  lemma {:induction false} TapeIsSound<D, P, C(!new)>(m: Model<D, P, C>, s: State<D, P, C>)
    requires Running(m, s)
    ensures m.sound(TapeOf(s))
  {
    assert Open(true);
    LinedSplit(m, FileOf(s), s.wire, s.heard, |s.wire|);
    assert s.wire[..|s.wire|] == s.wire;
  }

  function Fed<D, P, C>(m: Model<D, P, C>, s: State<D, P, C>, ps: seq<P>, w: seq<C>): State<D, P, C> {
    s.(dataset := Replay(m, s.dataset, ps), buf := s.buf + [ps], wire := s.wire + [w], heard := s.heard + [ps])
  }

  lemma {:induction false} FedRuns<D, P, C(!new)>(m: Model<D, P, C>, s: State<D, P, C>, ps: seq<P>, w: seq<C>)
    requires Running(m, s) && Movable(m, w, |ps|)
    requires m.sound(TapeOf(s) + w) && m.read(TapeOf(s) + w) == m.read(TapeOf(s)) + ps
    ensures Running(m, Fed(m, s, ps, w)) && TapeOf(Fed(m, s, ps, w)) == TapeOf(s) + w
  {
    assert Open(true);
    FeedKeeps(m, FileOf(s), s.dataset, s.buf, s.wire, s.heard, s.book.memory, ps, w);
    ConcatMore(s.wire, w);
    Regroup(FileOf(s), Concat(s.wire), w);
  }

  function Cut<T>(ss: seq<T>, k: nat): seq<T> { if k <= |ss| then ss[..k] else ss }

  function Rest<T>(ss: seq<T>, k: nat): seq<T> { if k <= |ss| then ss[k..] else [] }

  /** The first k pieces of the buffer reach the file. */
  function Written<D, P, C>(s: State<D, P, C>, k: nat): State<D, P, C> {
    s.(disk := s.disk.(files := s.disk.files[s.current := FileOf(s) + Concat(Cut(s.wire, k))]),
       buf := Rest(s.buf, k), wire := Rest(s.wire, k), heard := Rest(s.heard, k),
       book := Wrote(s.book, Concat(Cut(s.buf, k)), Concat(Cut(s.heard, k))))
  }

  lemma WrittenIs<D, P, C>(s: State<D, P, C>, k: nat)
    requires s.current in s.disk.files
    ensures Written(s, k)
      == State(s.disk.(files := s.disk.files[s.current := s.disk.files[s.current] + Concat(Cut(s.wire, k))]), s.mem,
               s.current, s.broken, s.dataset, Rest(s.buf, k), Rest(s.wire, k), Rest(s.heard, k), s.child,
               Wrote(s.book, Concat(Cut(s.buf, k)), Concat(Cut(s.heard, k))))
  {
    hide Concat, Wrote, Cut, Rest;
  }

  lemma {:induction false} WrittenRuns<D, P, C(!new)>(m: Model<D, P, C>, s: State<D, P, C>, k: nat)
    requires Running(m, s) && k <= |s.buf|
    ensures Running(m, Written(s, k)) && TapeOf(Written(s, k)) == TapeOf(s)
    ensures Clean(s) ==> Clean(Written(s, k))
  {
    assert Open(true);
    var f, cs := FileOf(s), Concat(Cut(s.wire, k));
    WriteKeepsBuffer(m, f, s.dataset, s.buf, s.wire, s.heard, s.book.memory, k);
    WriteKeepsDisk(m, s.disk, s.mem, s.current, s.book, s.broken, cs, Concat(Cut(s.buf, k)), Concat(Cut(s.heard, k)));
    WriteKeepsChild(m, f, s.child, s.book, s.broken, cs, s.buf, s.heard, k);
  }

  // ---------------------------------------------------------------------------
  // Dying in a write
  // ---------------------------------------------------------------------------

  /** Of the buffer, written up to any command, a loader hears the pieces that are whole. */
  lemma {:induction false} PartIsHeard<D, P, C(!new)>(m: Model<D, P, C>, s: State<D, P, C>, j: nat)
    requires Running(m, s) && j <= |Concat(s.wire)|
    ensures m.read(FileOf(s) + Concat(s.wire)[..j]) == m.read(FileOf(s)) + Concat(Cut(s.heard, Whole(s.wire, j)))
    ensures Whole(s.wire, j) <= |s.buf| == |s.heard|
  {
    assert Open(true);
    LinedPrefix(m, FileOf(s), s.wire, s.buf, s.heard, j);
  }

  /** The files around the current one in the manifest on disk. */
  ghost predicate LiveAround<D, P, C>(m: Model<D, P, C>, s: State<D, P, C>, before: seq<Name>, behind: seq<Name>) {
    && s.disk.manifest.Some? && Usable(s.disk.manifest.value)
    && Live(s.disk.manifest.value) == before + [s.current] + behind
    && (behind == [] <==> LastIncr(s.disk.manifest.value) == s.current)
    && AllExist(s.disk.files, before) && AllSound(m, s.disk.files, before)
    && s.current !in before && s.current !in behind
    && |behind| <= 1 && (forall i :: 0 <= i < |behind| ==> behind[i] in s.disk.files && s.disk.files[behind[i]] == [])
    && Effect(m, Contents(m, s.disk.files, before) + m.read(FileOf(s))) == Effect(m, s.book.logged)
  }

  lemma {:induction false} AroundCurrent<D, P, C(!new)>(m: Model<D, P, C>, s: State<D, P, C>)
    returns (before: seq<Name>, behind: seq<Name>)
    requires Running(m, s) && !s.broken
    ensures LiveAround(m, s, before, behind)
  {
    assert Open(true);
    var l := s.disk.manifest.value;
    BeforeIs(m, s.disk.files, s.mem, s.book.logged);
    BehindIs(s.disk.files, s.mem, l);
    before, behind := Before(s.mem), BehindIn(s.mem, l);
  }

  /** The process dies when the current file has got cs, of which k pieces of the buffer are heard. */
  function Torn<D, P, C>(s: State<D, P, C>, cs: seq<C>, k: nat): State<D, P, C> {
    s.(disk := s.disk.(files := s.disk.files[s.current := FileOf(s) + cs]),
       book := Wrote(s.book, Concat(Cut(s.buf, k)), Concat(Cut(s.heard, k))))
  }

  lemma {:induction false} TornIsSafe<D, P, C(!new)>(m: Model<D, P, C>, s: State<D, P, C>, cs: seq<C>, k: nat)
    requires Running(m, s) && k <= |s.buf|
    requires m.sound(FileOf(s) + cs) && m.read(FileOf(s) + cs) == m.read(FileOf(s)) + Concat(Cut(s.heard, k))
    ensures CrashSafe(m, Torn(s, cs, k).disk, Torn(s, cs, k).book, s.broken)
    ensures Clean(s) ==> Torn(s, cs, k).book.logged == Torn(s, cs, k).book.flushed
  {
    assert Open(true);
    var ps, hs := Concat(Cut(s.buf, k)), Concat(Cut(s.heard, k));
    assert SameSizes(Cut(s.heard, k), Cut(s.buf, k));
    ConcatSizes(Cut(s.heard, k), Cut(s.buf, k));
    WriteKeepsDisk(m, s.disk, s.mem, s.current, s.book, s.broken, cs, ps, hs);
    OnDiskIsDurable(m, Torn(s, cs, k).disk, s.mem, s.current, Torn(s, cs, k).book, s.broken);
  }

  function WithFiles<D, P, C>(s: State<D, P, C>, files: map<Name, seq<C>>): State<D, P, C> {
    s.(disk := s.disk.(files := files))
  }

  lemma {:induction false} CreatedRuns<D, P, C(!new)>(m: Model<D, P, C>, s: State<D, P, C>)
    requires Running(m, s)
    ensures Running(m, WithFiles(s, s.disk.files[IncrFile(s.mem.incrSeq + 1) := []]))
    ensures s.current != IncrFile(s.mem.incrSeq + 1)
  {
    assert Open(true);
    CreateKeeps(m, s.disk, s.mem, s.current, s.book, s.broken);
  }

  lemma {:induction false} TempWrittenRuns<D, P, C(!new)>(m: Model<D, P, C>, s: State<D, P, C>, pid: nat, cs: seq<C>)
    requires Running(m, s)
    ensures Running(m, WithFiles(s, s.disk.files[TempFile(pid) := cs]))
    ensures s.current != TempFile(pid)
  {
    assert Open(true);
    TempWriteKeeps(m, s.disk, s.mem, s.current, s.book, s.broken, pid, cs);
  }

  lemma {:induction false} TempRemovedRuns<D, P, C(!new)>(m: Model<D, P, C>, s: State<D, P, C>, pid: nat)
    requires Running(m, s)
    ensures Running(m, WithFiles(s, s.disk.files - {TempFile(pid)}))
    ensures s.current != TempFile(pid)
  {
    assert Open(true);
    TempRemoveKeeps(m, s.disk, s.mem, s.current, s.book, s.broken, pid);
  }

  lemma {:induction false} ChildGoneRuns<D, P, C(!new)>(m: Model<D, P, C>, s: State<D, P, C>)
    requires Running(m, s)
    ensures Running(m, s.(child := None))
  {
    assert Open(true);
  }

  /** Loading the file rebuilds the dataset. */
  predicate Dumps<D(==), P, C>(m: Model<D, P, C>, f: seq<C>, d: D) { m.sound(f) && Effect(m, m.read(f)) == d }

  function Renamed<C>(files: map<Name, seq<C>>, before: Name, after: Name): map<Name, seq<C>>
    requires before in files
  {
    (files - {before})[after := files[before]]
  }

  lemma {:induction false} RenamedRuns<D, P, C(!new)>(m: Model<D, P, C>, s: State<D, P, C>, pid: nat)
    requires Running(m, s) && !s.broken && TempFile(pid) in s.disk.files
    ensures var files := Renamed(s.disk.files, TempFile(pid), BaseFile(s.mem.baseSeq + 1));
      && Running(m, WithFiles(s, files)) && s.current in files && files[s.current] == FileOf(s)
      && (s.child.Some? && Dumps(m, s.disk.files[TempFile(pid)], s.child.value.snapshot) ==> HasNewBase(m, files,
          s.mem, s.book.forked))
  {
    assert Open(true);
    RenameKeeps(m, s.disk, s.mem, s.current, s.book, pid);
  }

  lemma {:induction false} BaseUnlinkedRuns<D, P, C(!new)>(m: Model<D, P, C>, s: State<D, P, C>)
    requires Running(m, s) && !s.broken
    ensures Running(m, WithFiles(s, s.disk.files - {BaseFile(s.mem.baseSeq + 1)}))
    ensures s.current != BaseFile(s.mem.baseSeq + 1)
  {
    assert Open(true);
    UnlinkBaseKeeps(m, s.disk, s.mem, s.current, s.book);
  }

  /** The first retired file is deleted and dropped from the lists in memory. */
  function Unlinked<D, P, C>(s: State<D, P, C>): State<D, P, C>
    requires s.mem.history != []
  {
    WithFiles(s, s.disk.files - {s.mem.history[0].name}).(mem := s.mem.(history := s.mem.history[1..]))
  }

  lemma {:induction false} UnlinkedRuns<D, P, C(!new)>(m: Model<D, P, C>, s: State<D, P, C>)
    requires Running(m, s) && !s.broken && s.mem.history != []
    ensures Running(m, Unlinked(s)) && TapeOf(Unlinked(s)) == TapeOf(s)
  {
    assert Open(true);
    UnlinkKeeps(m, s.disk, s.mem, s.current, s.book);
  }

  lemma {:induction false} PersistedRuns<D, P, C(!new)>(m: Model<D, P, C>, s: State<D, P, C>)
    requires Running(m, s)
    ensures Running(m, s.(disk := s.disk.(manifest := Some(s.mem)), broken := false))
  {
    assert Open(true);
    PersistedKeeps(m, s.disk, s.mem, s.current, s.book, s.broken);
  }

  /** The server turns to the next INCR file; what is in the buffer will stand behind other commands. */
  function Switched<D, P, C>(s: State<D, P, C>, heard: seq<seq<P>>): State<D, P, C> {
    var l := WithNewIncr(s.mem);
    s.(disk := s.disk.(manifest := Some(l)), mem := l, current := IncrFile(l.incrSeq), broken := false, heard := heard)
  }

  lemma {:induction false} SwitchedRuns<D, P, C(!new)>(m: Model<D, P, C>, s: State<D, P, C>)
      returns (heard: seq<seq<P>>)
    requires Running(m, s) && s.child.None?
    requires IncrFile(s.mem.incrSeq + 1) in s.disk.files && s.disk.files[IncrFile(s.mem.incrSeq + 1)] == []
    ensures Running(m, Switched(s, heard)) && |heard| == |s.buf|
  {
    assert Open(true);
    SwitchKeeps(m, s.disk, s.mem, s.current, s.book, s.broken);
    heard := Relined(m, [], s.wire, s.buf);
  }

  /** The manifest with the next INCR file is on disk, and memory takes the commit for failed. */
  lemma {:induction false} LateSwitchRuns<D, P, C(!new)>(m: Model<D, P, C>, s: State<D, P, C>)
    requires Running(m, s)
    requires IncrFile(s.mem.incrSeq + 1) in s.disk.files && s.disk.files[IncrFile(s.mem.incrSeq + 1)] == []
    ensures Running(m, s.(disk := s.disk.(manifest := Some(WithNewIncr(s.mem))), broken := false))
  {
    assert Open(true);
    SwitchKeeps(m, s.disk, s.mem, s.current, s.book, s.broken);
  }

  /** A child is forked. */
  function WithChild<D, P, C>(s: State<D, P, C>, pid: nat): State<D, P, C> {
    s.(child := Some(Child(pid, s.dataset)), book := Forked(s.book, Concat(s.buf)))
  }

  lemma {:induction false} WithChildRuns<D, P, C(!new)>(m: Model<D, P, C>, s: State<D, P, C>, pid: nat)
    requires Running(m, s) && s.child.None? && !s.broken && FileOf(s) == []
    ensures Running(m, WithChild(s, pid))
    ensures Clean(s) && s.buf == [] ==> Clean(WithChild(s, pid))
  {
    assert Open(true);
    ForkedOrderly(s.book, Concat(s.buf));
    if Concat(s.buf) == [] {
      NothingHeard(s.heard, s.buf);
    }
  }

  lemma {:induction false} NothingHeard<T>(a: seq<seq<T>>, b: seq<seq<T>>)
    requires SameSizes(a, b) && Concat(b) == []
    ensures a == b
  {
    if b != [] {
      NothingHeard(a[1..], b[1..]);
      assert a == [a[0]] + a[1..] && b == [b[0]] + b[1..];
    }
  }

  /** The manifest of a finished rewrite is on disk and in memory. */
  function TakenOver<D, P, C>(m: Model<D, P, C>, s: State<D, P, C>): State<D, P, C> {
    var l := AfterRewrite(s.mem);
    s.(disk := s.disk.(manifest := Some(l)), mem := l, book := Committed(s.book, m.read(FileOf(s))))
  }

  lemma {:induction false} TakenOverRuns<D, P, C(!new)>(m: Model<D, P, C>, s: State<D, P, C>)
    requires Running(m, s) && s.child.Some? && HasNewBase(m, s.disk.files, s.mem, s.book.forked)
    ensures Running(m, TakenOver(m, s)) && CrashSafe(m, TakenOver(m, s).disk, TakenOver(m, s).book, false)
    ensures s.book.memory == s.book.flushed ==> (TakenOver(m, s).book.logged == s.book.flushed <==> s.book.left == [])
    ensures Clean(s) ==> Clean(TakenOver(m, s))
  {
    assert Open(true);
    TakeOverKeeps(m, s.disk, s.mem, s.current, s.book);
    CommittedExact(s.book, m.read(FileOf(s)));
  }

  /** A commit of a rewrite that was forked with an empty buffer changes nothing in what the disk says. */
  lemma {:induction false} TakenOverIsClean<D, P, C(!new)>(m: Model<D, P, C>, s: State<D, P, C>)
    requires Running(m, s) && s.child.Some?
    ensures Clean(s) ==> TakenOver(m, s).book.logged == s.book.flushed
    ensures s.book.memory == s.book.flushed ==> (TakenOver(m, s).book.logged == s.book.flushed <==> s.book.left == [])
  {
    assert Open(true);
    CommittedExact(s.book, m.read(FileOf(s)));
  }

  /** It is on disk, memory takes the commit for failed, and the new BASE file is deleted. */
  function LateBroken<D, P, C>(s: State<D, P, C>): State<D, P, C> {
    s.(disk := Disk(s.disk.files - {BaseFile(s.mem.baseSeq + 1)}, Some(AfterRewrite(s.mem))), broken := true)
  }

  lemma {:induction false} LateBrokenRuns<D, P, C(!new)>(m: Model<D, P, C>, s: State<D, P, C>)
    requires Running(m, s) && !s.broken
    ensures Running(m, LateBroken(s).(child := None))
    ensures s.current != BaseFile(s.mem.baseSeq + 1)
  {
    assert Open(true);
    LateFailureBreaks(m, s.disk, s.mem, s.current, s.book);
  }

  // ---------------------------------------------------------------------------
  // Starting
  // ---------------------------------------------------------------------------

  lemma NothingYetIsSafe<D, P, C>(m: Model<D, P, C>)
    requires EmptyIsSound(m)
    ensures CrashSafe(m, Disk(map[], None), EmptyBook(), false)
  {
    assert Open(true);
  }

  /** What loading finds: a missing file, or the effect of the logged commands. */
  lemma {:induction false} LoadFinds<D, P, C>(m: Model<D, P, C>, disk: Disk<C>, book: Book<P>, broken: bool)
    requires CrashSafe(m, disk, book, broken)
    ensures var l := if disk.manifest.Some? then disk.manifest.value else NO_FILES;
      && (AllExist(disk.files, Live(l)) <==> !broken)
      && (!broken ==> Effect(m, Contents(m, disk.files, Live(l))) == Effect(m, book.logged))
    ensures CrashSafe(m, disk, Restarted(book), broken)
  {
    assert Open(true);
    if broken {
      LostIsNotGood(m, disk, book.logged);
    } else if disk.manifest.None? {
      assert Live(NO_FILES) == [];
    }
  }

  /** A server that has loaded the files a manifest names, and opened the last. */
  function Started<D, P, C>(m: Model<D, P, C>, disk: Disk<C>, l: Lists, current: Name, book: Book<P>): State<D, P, C> {
    State(disk, l, current, false, Effect(m, book.logged), [], [], [], None, Restarted(book))
  }

  lemma {:induction false} StartedRuns<D, P, C(!new)>(m: Model<D, P, C>, disk: Disk<C>, book: Book<P>)
    requires CrashSafe(m, disk, book, false) && disk.manifest.Some?
    ensures var l := disk.manifest.value;
      && l.incr != [] && LastIncr(l) in disk.files
      && Running(m, Started(m, disk, l, LastIncr(l), book))
  {
    assert Open(true);
    var l := disk.manifest.value;
    LoadedKeeps(m, disk, book);
    LiveIs(l);
    assert Live(l)[|Live(l)| - 1] == LastIncr(l);
    assert book.logged + [] == book.logged;
  }

  /** Before the first manifest, files may come and go as long as the first INCR file stays empty. */
  lemma {:induction false} UnlistedIsSafe<D, P, C>(
      m: Model<D, P, C>, disk: Disk<C>, book: Book<P>, files: map<Name, seq<C>>)
    requires CrashSafe(m, disk, book, false) && disk.manifest.None?
    requires IncrFile(1) in files ==>
      files[IncrFile(1)] == [] || (IncrFile(1) in disk.files && files[IncrFile(1)] == disk.files[IncrFile(1)])
    ensures CrashSafe(m, disk.(files := files), book, false)
  {
    assert Open(true);
  }

  lemma {:induction false} FirstRuns<D, P, C(!new)>(m: Model<D, P, C>, disk: Disk<C>, book: Book<P>)
    requires CrashSafe(m, disk, book, false) && disk.manifest.None?
    requires BaseFile(1) in disk.files && m.sound(disk.files[BaseFile(1)])
    requires Effect(m, m.read(disk.files[BaseFile(1)])) == m.empty
    requires IncrFile(1) in disk.files
    ensures var l := WithNewIncr(WithNewBase(NO_FILES));
      && Running(m, Started(m, disk.(manifest := Some(l)), l, IncrFile(1), book))
      && CrashSafe(m, disk.(manifest := Some(l)), book, false)
  {
    assert Open(true);
    var l := WithNewIncr(WithNewBase(NO_FILES));
    FirstKeeps(m, disk, Restarted(book));
    assert book.logged + [] == book.logged;
    OnDiskIsDurable(m, disk.(manifest := Some(l)), l, IncrFile(1), Restarted(book), false);
  }
}
