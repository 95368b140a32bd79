/**
 A crash in the middle of a write: the file ends at any byte. What the next
 start makes of it, and what it leaves behind.
 */
module AofTorn {

  import opened AofDataModel
  import opened AofDataset
  import opened AofFeed
  import opened AofFormat
  import opened AofLoader
  import opened AofManifest
  import opened AofRewrite
  import opened Sds
  import opened Wrappers
  import Memory = AofMemory
  import opened Protocol = AofProtocol

  // ---------------------------------------------------------------------------
  // Loading the files of a manifest
  // ---------------------------------------------------------------------------

  /** The databases after loading these files, one after the other, from database 0; nothing if a file is missing
      or does not load. A file that had to be truncated is accepted only as the last one. */
  function LoadBytes(d: seq<Db>, bytes: map<Name, string>, names: seq<Name>): (r: Option<seq<Db>>)
    requires d != []
    decreases |names|
  {
    if names == [] then Some(d)
    else if names[0] !in bytes then None
    else
      var o := Load(KindOf, bytes[names[0]], FILE_START, START);
      if o.status == Failed || (o.status == Truncated && |names| > 1) then None
      else LoadBytes(ExecAll(State(d, 0), o.session.executed).dbs, bytes, names[1..])
  }

  /** The loop over the files of a manifest. */
  method LoadFiles(n: nat, bytes: map<Name, string>, names: seq<Name>) returns (r: Option<seq<Db>>)
    requires n > 0
    ensures r == LoadBytes(NoData(n), bytes, names)
  {
    var d := NoData(n);
    var num := 0;
    while num < |names|
      invariant 0 <= num <= |names| && d != []
      invariant LoadBytes(NoData(n), bytes, names) == LoadBytes(d, bytes, names[num..])
    {
      var name := names[num];
      assert names[num..][1..] == names[num + 1..];
      num := num + 1;
      var last := num == |names|;
      if name !in bytes {
        return None;
      }
      var o := LoadFile(KindOf, bytes[name]);
      if o.status == Failed || (o.status == Truncated && !last) {
        return None;
      }
      d := ExecAll(State(d, 0), o.session.executed).dbs;
    }
    r := Some(d);
  }

  // ---------------------------------------------------------------------------
  // One file
  // ---------------------------------------------------------------------------

  /** The commands wholly in front of a cut. */
  function Done(cs: seq<Argv>, cut: nat): seq<Argv> { cs[..Complete(cs, cut)] }

  predicate AtBoundary(cs: seq<Argv>, cut: nat) { cut == |Encode(Done(cs, cut))| }

  /** A transaction is open at the cut. */
  predicate OpenAt(cs: seq<Argv>, cut: nat) { RunAll(KindOf, START, Done(cs, cut)).inMulti }

  /** A cut that cannot be told from the end of a file. */
  predicate CleanCut(cs: seq<Argv>, cut: nat) { AtBoundary(cs, cut) && !OpenAt(cs, cut) }

  /** What truncation leaves of the file. */
  function Kept(cs: seq<Argv>, cut: nat): seq<Argv> {
    var done := Done(cs, cut);
    if AtBoundary(cs, cut) && OpenAt(cs, cut) then done[..LastMulti(KindOf, done)] else done
  }

  lemma {:induction false} PrefixSound(n: nat, cs: seq<Argv>, k: nat)
    requires SoundFile(n, cs) && k <= |cs|
    ensures AllStorable(n, cs[..k]) && Unnested(KindOf, START, cs[..k])
  {
    assert cs == cs[..k] + cs[k..];
    UnnestedConcat(KindOf, START, cs[..k], cs[k..]);
  }

  /** A file cut anywhere loads without a format error, and what runs is what is heard of its whole commands. */
  lemma {:induction false} TornFile(n: nat, d: seq<Db>, cs: seq<Argv>, cut: nat)
    requires SoundFile(n, cs) && cut <= |Encode(cs)| && |d| == n && n > 0
    ensures var o := Load(KindOf, Encode(cs)[..cut], FILE_START, START);
      && o.status == (if CleanCut(cs, cut) then LoadedOk else Truncated)
      && ExecAll(State(d, 0), o.session.executed).dbs == Replay(DataModel(n), d, Heard(Done(cs, cut)))
      && o.validUpTo == |Encode(Kept(cs, cut))|
  {
    hide Load, Encode, Replay, ExecAll, RunAll, LastMulti;
    LoadCut(KindOf, cs, cut);
    PrefixSound(n, cs, Complete(cs, cut));
    ExecutedStorable(n, START, Done(cs, cut));
    Executes(n, d, 0, RunBy(Done(cs, cut)));
  }

  lemma {:induction false} EncodePrefix(cs: seq<Argv>, k: nat)
    requires k <= |cs|
    ensures |Encode(cs[..k])| <= |Encode(cs)| && Encode(cs)[..|Encode(cs[..k])|] == Encode(cs[..k])
  {
    assert cs == cs[..k] + cs[k..];
    FlatConcat(EncodeCommand, cs[..k], cs[k..]);
  }

  /** Kept is a prefix of the commands in front of the cut, and its bytes are those up to where the file is cut. */
  lemma {:induction false} KeptBytes(cs: seq<Argv>, cut: nat)
    ensures Kept(cs, cut) == cs[..|Kept(cs, cut)|] && |Kept(cs, cut)| <= |cs|
    ensures |Encode(Kept(cs, cut))| <= |Encode(cs)| && Encode(cs)[..|Encode(Kept(cs, cut))|] == Encode(Kept(cs, cut))
  {
    var done := Done(cs, cut);
    assert forall k :: 0 <= k <= |done| ==> done[..k] == cs[..k];
    assert Kept(cs, cut) == cs[..|Kept(cs, cut)|];
    EncodePrefix(cs, |Kept(cs, cut)|);
  }

  /** After the truncation the same commands are heard, and the file can be written to again, exactly if the cut
      was not inside a command of an open transaction. */
  lemma {:induction false} KeptSound(n: nat, cs: seq<Argv>, cut: nat)
    requires SoundFile(n, cs)
    ensures SoundFile(n, Kept(cs, cut)) <==> AtBoundary(cs, cut) || !OpenAt(cs, cut)
    ensures Heard(Kept(cs, cut)) == Heard(Done(cs, cut))
  {
    var done := Done(cs, cut);
    PrefixSound(n, cs, Complete(cs, cut));
    if AtBoundary(cs, cut) && OpenAt(cs, cut) {
      OpenSince(KindOf, done);
      var k := LastMulti(KindOf, done);
      assert done[..k] == cs[..k];
      PrefixSound(n, cs, k);
    }
  }

  /** A cut behind f leaves f and less than all of w. */
  lemma {:induction false} CutBehindFile(f: seq<Argv>, w: seq<Argv>, cut: nat) returns (j: nat)
    requires |Encode(f)| <= cut < |Encode(f + w)|
    ensures j < |w| && (f + w)[..Complete(f + w, cut)] == f + w[..j]
  {
    var k := Complete(f + w, cut);
    CompleteIs(f + w, cut);
    if k < |f| {
      assert (f + w)[..k + 1] == f[..k + 1];
      PrefixIsShorter(f, k + 1);
    }
    j := k - |f|;
    assert (f + w)[..k] == f + w[..j];
  }

  /** A transaction that a crash tore at any byte is loaded as if it had not been written. */
  lemma {:induction false} TornTransaction(n: nat, f: seq<Argv>, selected: int, body: seq<(nat, Argv)>, cut: nat)
    requires n <= MAX_INT && GoodBody(n, body) && SoundFile(n, f)
    requires |Encode(f)| <= cut < |Encode(f + BodyText(selected, body))|
    ensures var o := Load(KindOf, Encode(f + BodyText(selected, body))[..cut], FILE_START, START);
      o.status != Failed && o.session.executed == RunBy(f)
  {
    var w := BodyText(selected, body);
    BodyAppended(n, f, selected, body);
    var j := CutBehindFile(f, w, cut);
    LoadCut(KindOf, f + w, cut);
    RunAllConcat(KindOf, START, f, w[..j]);
    PartOfBody(RunAll(KindOf, START, f), selected, body, j);
  }

  /** So is a command; of its SELECT alone nothing is heard. */
  lemma {:induction false} TornCommand(n: nat, f: seq<Argv>, selected: int, db: nat, argv: Argv, cut: nat)
    requires db < n <= MAX_INT && IsData(argv) && WellSized(argv) && SoundFile(n, f)
    requires |Encode(f)| <= cut < |Encode(f + AofFeed.Appended(selected, db, argv))|
    ensures var o := Load(KindOf, Encode(f + AofFeed.Appended(selected, db, argv))[..cut], FILE_START, START);
      o.status != Failed && Trace(0, o.session.executed) == Heard(f)
  {
    hide Load, Encode, RunAll, Trace, Complete, AofFeed.Appended;
    var w := AofFeed.Appended(selected, db, argv);
    AppendedText(n, f, selected, db, argv);
    var j := CutBehindFile(f, w, cut);
    assert Loadable(KindOf, f + w);
    LoadCut(KindOf, f + w, cut);
    PartOfFeed(n, f, selected, db, argv, j);
  }

  /** What is written behind an open transaction is not run by the next load, and is cut away by it together with
      the transaction, unless it closes the transaction. */
  lemma {:induction false} BehindOpenTransaction(n: nat, kept: seq<Argv>, more: seq<Argv>)
    requires Unnested(KindOf, START, kept) && RunAll(KindOf, START, kept).inMulti && AllStorable(n, kept + more)
    requires forall i :: 0 <= i < |more| ==> KindOf(more[i]) == Other
    ensures var o := Load(KindOf, Encode(kept + more), FILE_START, START);
      && o.status == Truncated && o.session.executed == RunBy(kept)
      && o.validUpTo == |Encode(kept[..LastMulti(KindOf, kept)])|
  {
    var cs := kept + more;
    assert Loadable(KindOf, cs);
    WholeCut(cs);
    LoadCut(KindOf, cs, |Encode(cs)|);
    assert Encode(cs)[..|Encode(cs)|] == Encode(cs);
    RunAllConcat(KindOf, START, kept, more);
    Queued(KindOf, RunAll(KindOf, START, kept), more);
    LastMultiIn(kept, more);
  }

  /** All commands are in front of a cut at the end. */
  lemma {:induction false} WholeCut(cs: seq<Argv>)
    ensures cs[..Complete(cs, |Encode(cs)|)] == cs
    decreases |cs|
  {
    if cs != [] {
      WholeCut(cs[1..]);
      assert |cs[1..][..Complete(cs[1..], |Encode(cs[1..])|)]| == |cs[1..]|;
    }
  }

  lemma {:induction false} LastMultiIn(a: seq<Argv>, b: seq<Argv>)
    requires forall i :: 0 <= i < |b| ==> KindOf(b[i]) != Multi
    requires RunAll(KindOf, START, a).inMulti
    ensures (a + b)[..LastMulti(KindOf, a + b)] == a[..LastMulti(KindOf, a)]
    decreases |b|
  {
    if b == [] {
      assert a + b == a;
    } else {
      var n := |b| - 1;
      assert (a + b)[..|a| + n] == a + b[..n] && (a + b)[|a| + n] == b[n];
      LastMultiIn(a, b[..n]);
    }
  }

  // ---------------------------------------------------------------------------
  // All files
  // ---------------------------------------------------------------------------

  ghost function BytesOf(files: map<Name, seq<Argv>>): map<Name, string> {
    map name | name in files :: Encode(files[name])
  }

  /** Sound files load, whatever is loaded after them. */
  lemma {:induction false} SoundFilesLoad(
      n: nat, d: seq<Db>, files: map<Name, seq<Argv>>, bytes: map<Name, string>, names: seq<Name>, rest: seq<Name>)
    requires |d| == n && n > 0 && AllExist(files, names) && AllSound(DataModel(n), files, names)
    requires forall i :: 0 <= i < |names| ==> names[i] in bytes && bytes[names[i]] == Encode(files[names[i]])
    ensures var e := Replay(DataModel(n), d, Contents(DataModel(n), files, names));
      |e| == n && LoadBytes(d, bytes, names + rest) == LoadBytes(e, bytes, rest)
    decreases |names|
  {
    var m := DataModel(n);
    if names == [] {
      assert names + rest == rest;
    } else {
      var f := files[names[0]];
      FileLoads(n, d, f);
      var e := ExecAll(State(d, 0), Loaded(Encode(f))).dbs;
      assert (names + rest)[0] == names[0] && (names + rest)[1..] == names[1..] + rest;
      SoundFilesLoad(n, e, files, bytes, names[1..], rest);
      ReplayConcat(m, d, Heard(f), Contents(m, files, names[1..]));
    }
  }

  lemma EmptyLoads(d: seq<Db>, bytes: map<Name, string>, name: Name)
    requires d != [] && name in bytes && bytes[name] == ""
    ensures LoadBytes(d, bytes, [name]) == Some(d)
  {
    var o := Load(KindOf, "", FILE_START, START);
    assert o.status == LoadedOk && o.session.executed == [];
    assert [name][1..] == [];
  }

  lemma FirstOf(d: seq<Db>, bytes: map<Name, string>, name: Name, rest: seq<Name>)
    requires d != [] && name in bytes
    ensures var o := Load(KindOf, bytes[name], FILE_START, START);
      LoadBytes(d, bytes, [name] + rest)
      == if o.status == Failed || (o.status == Truncated && rest != []) then None
         else LoadBytes(ExecAll(State(d, 0), o.session.executed).dbs, bytes, rest)
  {
    assert ([name] + rest)[1..] == rest;
  }

  /** A cut file, with nothing behind it or an empty file. */
  lemma {:induction false} TornThenEmpty(
      n: nat, d: seq<Db>, cs: seq<Argv>, cut: nat, bytes: map<Name, string>, name: Name, behind: seq<Name>)
    requires SoundFile(n, cs) && cut <= |Encode(cs)| && |d| == n && n > 0
    requires name in bytes && bytes[name] == Encode(cs)[..cut] && |behind| <= 1
    requires forall i :: 0 <= i < |behind| ==> behind[i] in bytes && bytes[behind[i]] == ""
    ensures LoadBytes(d, bytes, [name] + behind)
      == if behind == [] || CleanCut(cs, cut) then Some(Replay(DataModel(n), d, Heard(Done(cs, cut)))) else None
  {
    TornFile(n, d, cs, cut);
    FirstOf(d, bytes, name, behind);
    if behind != [] {
      assert behind == [behind[0]];
      EmptyLoads(Replay(DataModel(n), d, Heard(Done(cs, cut))), bytes, behind[0]);
    }
  }

  // ---------------------------------------------------------------------------
  // Dying in a write
  // ---------------------------------------------------------------------------

  type RedisState = Memory.State<seq<Db>, (nat, Argv), Argv>

  /** A number of bytes that the current file may have while the buffer is written to it. */
  ghost predicate InWrite(s: RedisState, cut: nat) { |Encode(Memory.FileOf(s))| <= cut <= |Encode(Memory.TapeOf(s))| }

  /** The files when the process dies then. */
  ghost function TornBytes(s: RedisState, cut: nat): map<Name, string>
    requires InWrite(s, cut)
  {
    BytesOf(s.disk.files)[s.current := Encode(Memory.TapeOf(s))[..cut]]
  }

  /** How many feeds are whole in the file then. */
  ghost function WholeFeeds(s: RedisState, cut: nat): nat
  {
    var k := Complete(Memory.TapeOf(s), cut);
    Whole(s.wire, if k < |Memory.FileOf(s)| then 0 else k - |Memory.FileOf(s)|)
  }

  /** The commands in the file then: those that were in it, and some of the buffer. */
  lemma {:induction false} DoneInWrite(s: RedisState, cut: nat) returns (j: nat)
    requires InWrite(s, cut)
    ensures j <= |Concat(s.wire)| && Done(Memory.TapeOf(s), cut) == Memory.FileOf(s) + Concat(s.wire)[..j]
    ensures WholeFeeds(s, cut) == Whole(s.wire, j)
  {
    var f, w, tape := Memory.FileOf(s), Concat(s.wire), Memory.TapeOf(s);
    if cut == |Encode(tape)| {
      WholeCut(tape);
      j := |w|;
      assert |Done(tape, cut)| == |tape|;
      assert w[..j] == w;
    } else {
      j := CutBehindFile(f, w, cut);
      assert |Done(tape, cut)| == |f| + j;
    }
  }

  /** What is heard of the current file then. */
  lemma {:induction false} HeardInWrite(n: nat, s: RedisState, cut: nat)
    requires Memory.Running(DataModel(n), s) && InWrite(s, cut)
    ensures WholeFeeds(s, cut) <= |s.buf|
    ensures Heard(Done(Memory.TapeOf(s), cut))
      == Heard(Memory.FileOf(s)) + Concat(Memory.Cut(s.heard, WholeFeeds(s, cut)))
  {
    var j := DoneInWrite(s, cut);
    Memory.PartIsHeard(DataModel(n), s, j);
  }

  /**
   A server dies while it writes its buffer, after any number of bytes. The
   next start loads the files exactly if the current file is the last one in
   the manifest on disk, or the file ends between commands outside a
   transaction; then it has the databases of the logged commands and of every
   feed that was written whole. Otherwise it refuses to start.
   */
  lemma {:induction false} TornRestart(n: nat, s: RedisState, cut: nat)
    requires n > 0 && Memory.Running(DataModel(n), s) && !s.broken && InWrite(s, cut)
    ensures s.disk.manifest.Some? && s.disk.manifest.value.incr != []
    ensures var l, more := s.disk.manifest.value, Concat(Memory.Cut(s.heard, WholeFeeds(s, cut)));
      LoadBytes(NoData(n), TornBytes(s, cut), Live(l))
      == if LastIncr(l) == s.current || CleanCut(Memory.TapeOf(s), cut)
         then Some(Effect(DataModel(n), s.book.logged + more)) else None
  {
    var m, tape := DataModel(n), Memory.TapeOf(s);
    Memory.RunningShape(m, s);
    Memory.TapeIsSound(m, s);
    var before, behind := Memory.AroundCurrent(m, s);
    TornLoads(n, s.disk.files, before, s.current, behind, tape, cut);
    HeardInWrite(n, s, cut);
    var more := Concat(Memory.Cut(s.heard, WholeFeeds(s, cut)));
    TornEffect(m, Contents(m, s.disk.files, before), m.read(Memory.FileOf(s)), s.book.logged, more);
  }

  lemma EncodeNothing()
    ensures Encode([]) == ""
  {
  }

  /** Sound files, then one that is cut, then none or an empty one. */
  lemma {:induction false} TornLoads(
      n: nat, files: map<Name, seq<Argv>>, before: seq<Name>, name: Name, behind: seq<Name>, cs: seq<Argv>, cut: nat)
    requires n > 0 && SoundFile(n, cs) && cut <= |Encode(cs)|
    requires AllExist(files, before) && AllSound(DataModel(n), files, before) && name !in before && name !in behind
    requires |behind| <= 1 && forall i :: 0 <= i < |behind| ==> behind[i] in files && files[behind[i]] == []
    ensures var d := Effect(DataModel(n), Contents(DataModel(n), files, before));
      LoadBytes(NoData(n), BytesOf(files)[name := Encode(cs)[..cut]], before + [name] + behind)
      == if behind == [] || CleanCut(cs, cut) then Some(Replay(DataModel(n), d, Heard(Done(cs, cut)))) else None
  {
    hide LoadBytes, SoundFile, Encode, CleanCut, Done, Contents, Heard, Replay;
    var bytes := BytesOf(files)[name := Encode(cs)[..cut]];
    EncodeNothing();
    assert forall i :: 0 <= i < |behind| ==> bytes[behind[i]] == "";
    SoundFilesLoad(n, NoData(n), files, bytes, before, [name] + behind);
    assert before + ([name] + behind) == before + [name] + behind;
    TornThenEmpty(n, Effect(DataModel(n), Contents(DataModel(n), files, before)), cs, cut, bytes, name, behind);
  }

  lemma {:induction false} TornEffect<D, P, C>(
      m: Model<D, P, C>, before: seq<P>, read: seq<P>, logged: seq<P>, more: seq<P>)
    requires Effect(m, before + read) == Effect(m, logged)
    ensures Replay(m, Effect(m, before), read + more) == Effect(m, logged + more)
  {
    ReplayConcat(m, m.empty, before, read + more);
    assert before + (read + more) == before + read + more;
    SameEffect(m, before + read, logged, more);
  }

  /** A transaction that is open behind a file in which none is began behind it. */
  lemma {:induction false} OpenedBehind(f: seq<Argv>, w: seq<Argv>)
    requires !RunAll(KindOf, START, f).inMulti && RunAll(KindOf, START, f + w).inMulti
    ensures LastMulti(KindOf, f + w) >= |f|
    decreases |w|
  {
    assert w == [] ==> f + w == f;
    var k := |w| - 1;
    assert f + w == f + w[..k] + [w[k]];
    RunLast(KindOf, START, f + w[..k], w[k]);
    if KindOf(w[k]) != Multi {
      OpenedBehind(f, w[..k]);
      assert (f + w)[..|f + w| - 1] == f + w[..k];
    }
  }

  /** The file can be loaded, and written to again. */
  predicate Recoverable(last: bool, tape: seq<Argv>, cut: nat) {
    (last || CleanCut(tape, cut)) && (AtBoundary(tape, cut) || !OpenAt(tape, cut))
  }

  /** What truncation leaves is what was in the file, and some of the buffer. */
  lemma {:induction false} KeptInWrite(n: nat, s: RedisState, cut: nat)
    requires Memory.Running(DataModel(n), s) && InWrite(s, cut)
    ensures var f, kept := Memory.FileOf(s), Kept(Memory.TapeOf(s), cut);
      |f| <= |kept| && kept == f + kept[|f|..]
  {
    hide Memory.Running, AtBoundary, Done, LastMulti, Memory.TapeOf, Memory.FileOf, Concat, InWrite;
    var f, tape := Memory.FileOf(s), Memory.TapeOf(s);
    var j := DoneInWrite(s, cut);
    Memory.FileIsSound(DataModel(n), s);
    var w := Concat(s.wire)[..j];
    if AtBoundary(tape, cut) && OpenAt(tape, cut) {
      OpenedBehind(f, w);
      PrefixBehind(f, w, LastMulti(KindOf, f + w));
    } else {
      PrefixBehind(f, w, |f + w|);
    }
  }

  lemma PrefixBehind(f: seq<Argv>, w: seq<Argv>, k: nat)
    requires |f| <= k <= |f + w|
    ensures (f + w)[..k] == f + (f + w)[..k][|f|..] && (f + w)[..|f + w|] == f + w
  {
  }

  /** If it can be loaded and written to, it is sound and heard as the feeds written whole. */
  lemma {:induction false} KeptIsHeard(n: nat, s: RedisState, cut: nat)
    requires Memory.Running(DataModel(n), s) && InWrite(s, cut)
    requires AtBoundary(Memory.TapeOf(s), cut) || !OpenAt(Memory.TapeOf(s), cut)
    ensures var f, kept, k := Memory.FileOf(s), Kept(Memory.TapeOf(s), cut), WholeFeeds(s, cut);
      && |f| <= |kept| && kept == f + kept[|f|..] && k <= |s.buf|
      && SoundFile(n, kept) && Heard(kept) == Heard(f) + Concat(Memory.Cut(s.heard, k))
  {
    KeptInWrite(n, s, cut);
    Memory.TapeIsSound(DataModel(n), s);
    KeptSound(n, Memory.TapeOf(s), cut);
    HeardInWrite(n, s, cut);
  }

  // ---------------------------------------------------------------------------
  // A tear that goes on in the next file
  // ---------------------------------------------------------------------------

  lemma {:induction false} SameOpen(s: Session, t: Session, cs: seq<Argv>)
    requires s.inMulti == t.inMulti
    ensures RunAll(KindOf, s, cs).inMulti == RunAll(KindOf, t, cs).inMulti
    ensures Unnested(KindOf, s, cs) == Unnested(KindOf, t, cs)
    decreases |cs|
  {
    if cs != [] {
      SameOpen(Run(KindOf, s, cs[0]), Run(KindOf, t, cs[0]), cs[1..]);
    }
  }

  /** Behind a cut outside transactions the rest of a sound file is a sound file. */
  lemma {:induction false} RestSound(n: nat, cs: seq<Argv>, cut: nat)
    requires SoundFile(n, cs) && !OpenAt(cs, cut)
    ensures SoundFile(n, cs[Complete(cs, cut)..])
  {
    var k := Complete(cs, cut);
    assert cs == cs[..k] + cs[k..];
    RunAllConcat(KindOf, START, cs[..k], cs[k..]);
    UnnestedConcat(KindOf, START, cs[..k], cs[k..]);
    SameOpen(START, RunAll(KindOf, START, cs[..k]), cs[k..]);
  }

  /**
   A write stops at a byte, what it wrote stays, and the rest goes to the next
   file: the two files load exactly if the first one ends between commands and
   outside a transaction.
   */
  lemma {:induction false} SplitBetweenFiles(n: nat, d: seq<Db>, cs: seq<Argv>, cut: nat, a: Name, b: Name)
    requires SoundFile(n, cs) && cut <= |Encode(cs)| && |d| == n && n > 0 && a != b
    ensures LoadBytes(d, map[a := Encode(cs)[..cut], b := Encode(cs)[cut..]], [a, b]).Some? <==> CleanCut(cs, cut)
  {
    var bytes := map[a := Encode(cs)[..cut], b := Encode(cs)[cut..]];
    TornFile(n, d, cs, cut);
    assert [a] + [b] == [a, b];
    FirstOf(d, bytes, a, [b]);
    if CleanCut(cs, cut) {
      RestLoads(n, Replay(DataModel(n), d, Heard(Done(cs, cut))), cs, cut, bytes, b);
    }
  }

  lemma {:induction false} RestLoads(n: nat, d: seq<Db>, cs: seq<Argv>, cut: nat, bytes: map<Name, string>, b: Name)
    requires SoundFile(n, cs) && CleanCut(cs, cut) && cut <= |Encode(cs)| && |d| == n && n > 0
    requires b in bytes && bytes[b] == Encode(cs)[cut..]
    ensures LoadBytes(d, bytes, [b]).Some?
  {
    var k := Complete(cs, cut);
    var rest := cs[k..];
    RestSound(n, cs, cut);
    assert cs == cs[..k] + rest;
    FlatConcat(EncodeCommand, cs[..k], rest);
    assert Encode(cs)[cut..] == Encode(rest);
    FileLoads(n, d, rest);
    assert [b] + [] == [b];
    FirstOf(d, bytes, b, []);
  }

  const TORN_FILE := [MULTI, ["SET", "a", "b"], EXEC]

  lemma TornFileIsSound()
    ensures SoundFile(1, TORN_FILE)
  {
    var x := ["SET", "a", "b"];
    var rest := [x, EXEC];
    assert TORN_FILE[1..] == rest && rest[1..] == [EXEC] && [EXEC][1..] == [];
    assert KindOf(x) == Other;
    var s := Run(KindOf, START, MULTI);
    var u := Run(KindOf, s, x);
    assert s.inMulti && u.inMulti && !Run(KindOf, u, EXEC).inMulti;
    assert RunAll(KindOf, u, [EXEC]) == Run(KindOf, u, EXEC) && Unnested(KindOf, u, [EXEC]);
    assert RunAll(KindOf, s, rest) == Run(KindOf, u, EXEC) && Unnested(KindOf, s, rest);
    assert forall i :: 0 <= i < |TORN_FILE| ==> Storable(1, TORN_FILE[i]);
  }

  /** A transaction of one command, torn in that command: the MULTI stays in the file, and the next command fed is
      not run by the next load, which empties the file. */
  lemma {:induction false} OpenTransactionExample()
    ensures var cut, next := |EncodeCommand(MULTI)| + 1, ["SET", "c", "d"];
      && SoundFile(1, TORN_FILE) && cut <= |Encode(TORN_FILE)| && Kept(TORN_FILE, cut) == [MULTI]
      && var o := Load(KindOf, Encode([MULTI] + [next]), FILE_START, START);
        o.status == Truncated && o.session.executed == [] && o.validUpTo == 0
  {
    var x, next := ["SET", "a", "b"], ["SET", "c", "d"];
    var cut := |EncodeCommand(MULTI)| + 1;
    TornFileIsSound();
    assert TORN_FILE[1..] == [x, EXEC] && |EncodeCommand(x)| > 1;
    assert Complete([x, EXEC], 1) == 0 && Complete(TORN_FILE, cut) == 1;
    assert TORN_FILE[..1] == [MULTI] && [MULTI][1..] == [];
    EncodeSplit([MULTI]);
    EncodeSplit(TORN_FILE);
    EncodeSplit([x, EXEC]);
    assert |Encode([MULTI])| == |EncodeCommand(MULTI)|;
    assert !AtBoundary(TORN_FILE, cut);
    assert KindOf(next) == Other && RunAll(KindOf, START, [MULTI]).inMulti;
    BehindOpenTransaction(1, [MULTI], [next]);
    assert LastMulti(KindOf, [MULTI]) == 0 && [MULTI][..0] == [];
  }

  /** One byte of a write, in a file that is not the last one of the manifest, keeps the server from starting; in
      the last one it does not. */
  lemma {:induction false} NotLastExample()
    ensures var bytes := map[BaseFile(1) := "", IncrFile(1) := "*", IncrFile(2) := ""];
      && LoadBytes(NoData(1), bytes, [BaseFile(1)] + [IncrFile(1)] + [IncrFile(2)]) == None
      && LoadBytes(NoData(1), bytes, [BaseFile(1)] + [IncrFile(1)] + []) == Some(NoData(1))
  {
    hide LoadBytes, Load;
    var a, b, c := BaseFile(1), IncrFile(1), IncrFile(2);
    var bytes := map[a := "", b := "*", c := ""];
    assert [a] + [b] + [c] == [a] + ([b] + [c]) && [a] + [b] + [] == [a] + ([b] + []);
    OneByteLoads();
    EmptyFirst(bytes, a, [b] + [c]);
    EmptyFirst(bytes, a, [b] + []);
    FirstOf(NoData(1), bytes, b, [c]);
    FirstOf(NoData(1), bytes, b, []);
    NoFiles(NoData(1), bytes);
  }

  lemma OneByteLoads()
    ensures var o := Load(KindOf, "*", FILE_START, START); o.status == Truncated && o.session.executed == []
    ensures var o := Load(KindOf, "", FILE_START, START); o.status == LoadedOk && o.session.executed == []
  {
    assert LineLength("*", LINE_MAX) == 1 && RanOut("*");
  }

  lemma EmptyFirst(bytes: map<Name, string>, name: Name, rest: seq<Name>)
    requires name in bytes && bytes[name] == ""
    ensures LoadBytes(NoData(1), bytes, [name] + rest) == LoadBytes(NoData(1), bytes, rest)
  {
    hide Load;
    OneByteLoads();
    FirstOf(NoData(1), bytes, name, rest);
  }

  lemma NoFiles(d: seq<Db>, bytes: map<Name, string>)
    requires d != []
    ensures LoadBytes(d, bytes, []) == Some(d)
  {
  }
}
