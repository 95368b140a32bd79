/**
 The append-only file as a protocol between a server, its rewrite child and the
 disk. The process may die before any single disk action; what the disk then
 holds must still replay to the effect of every command flushed so far.
 */
module AofProtocol {

  import opened AofManifest
  import opened Wrappers

  /**
   The dataset and how a command changes it; the commands that loading a file
   runs, and whether it loads without error. What a file holds need not be the
   commands themselves: a command may be written after one that selects its
   database.
   */
  datatype Model<!D, !P, !C> = Model(apply: (D, P) -> D, empty: D, read: seq<C> -> seq<P>, sound: seq<C> -> bool)

  /** An empty file loads, and runs nothing. */
  ghost predicate EmptyIsSound<D, P, C>(m: Model<D, P, C>) { m.read([]) == [] && m.sound([]) }

  function Replay<D, P, C>(m: Model<D, P, C>, d: D, ps: seq<P>): D
    decreases |ps|
  {
    if ps == [] then d else Replay(m, m.apply(d, ps[0]), ps[1..])
  }

  lemma {:induction false} ReplayConcat<D, P, C>(m: Model<D, P, C>, d: D, a: seq<P>, b: seq<P>)
    ensures Replay(m, d, a + b) == Replay(m, Replay(m, d, a), b)
    decreases |a|
  {
    if a == [] {
      assert a + b == b;
    } else {
      assert (a + b)[1..] == a[1..] + b;
      ReplayConcat(m, m.apply(d, a[0]), a[1..], b);
    }
  }

  /** The effect of commands on a fresh server. */
  function Effect<D, P, C>(m: Model<D, P, C>, ps: seq<P>): D { Replay(m, m.empty, ps) }

  lemma {:induction false} SameEffect<D, P, C>(m: Model<D, P, C>, a: seq<P>, b: seq<P>, more: seq<P>)
    requires Effect(m, a) == Effect(m, b)
    ensures Effect(m, a + more) == Effect(m, b + more)
  {
    ReplayConcat(m, m.empty, a, more);
    ReplayConcat(m, m.empty, b, more);
  }

  // ---------------------------------------------------------------------------
  // The disk
  // ---------------------------------------------------------------------------

  /** The files with what is in them, and the lists in the manifest file if there is one. */
  datatype Disk<C> = Disk(files: map<Name, seq<C>>, manifest: Option<Lists>)

  /** The files to load, in order. */
  function Live(l: Lists): seq<Name> { Names(OneOrNone(l.base) + l.incr) }

  ghost predicate AllExist<C>(files: map<Name, seq<C>>, names: seq<Name>) {
    forall i :: 0 <= i < |names| ==> names[i] in files
  }

  ghost predicate AllSound<D, P, C>(m: Model<D, P, C>, files: map<Name, seq<C>>, names: seq<Name>) {
    forall i :: 0 <= i < |names| ==> names[i] in files && m.sound(files[names[i]])
  }

  /** The commands that loading these files runs. */
  ghost function Contents<D, P, C>(m: Model<D, P, C>, files: map<Name, seq<C>>, names: seq<Name>): seq<P>
    requires AllExist(files, names)
    decreases |names|
  {
    if names == [] then [] else m.read(files[names[0]]) + Contents(m, files, names[1..])
  }

  ghost predicate SameFiles<C>(f: map<Name, seq<C>>, g: map<Name, seq<C>>, names: seq<Name>) {
    AllExist(f, names) && AllExist(g, names) && forall i :: 0 <= i < |names| ==> f[names[i]] == g[names[i]]
  }

  lemma {:induction false} ContentsSame<D, P, C>(
      m: Model<D, P, C>, f: map<Name, seq<C>>, g: map<Name, seq<C>>, names: seq<Name>)
    requires SameFiles(f, g, names)
    ensures Contents(m, f, names) == Contents(m, g, names)
    decreases |names|
  {
    if names != [] {
      assert SameFiles(f, g, names[1..]) by {
        assert forall i :: 0 <= i < |names[1..]| ==> names[1..][i] == names[i + 1];
      }
      ContentsSame(m, f, g, names[1..]);
    }
  }

  lemma {:induction false} ContentsConcat<D, P, C>(m: Model<D, P, C>, f: map<Name, seq<C>>, a: seq<Name>, b: seq<Name>)
    requires AllExist(f, a) && AllExist(f, b)
    ensures AllExist(f, a + b) && Contents(m, f, a + b) == Contents(m, f, a) + Contents(m, f, b)
    decreases |a|
  {
    assert AllExist(f, a + b);
    if a == [] {
      assert a + b == b;
    } else {
      assert (a + b)[1..] == a[1..] + b;
      ContentsConcat(m, f, a[1..], b);
    }
  }

  lemma {:induction false} ContentsOne<D, P, C>(m: Model<D, P, C>, f: map<Name, seq<C>>, name: Name)
    requires name in f
    ensures Contents(m, f, [name]) == m.read(f[name])
  {
    assert m.read(f[name]) + [] == m.read(f[name]);
  }

  /** The contents of a list of files that ends with the given one. */
  lemma {:induction false} ContentsLast<D, P, C>(m: Model<D, P, C>, f: map<Name, seq<C>>, before: seq<Name>, name: Name)
    requires AllExist(f, before) && name in f
    ensures AllExist(f, before + [name]) && Contents(m, f, before + [name]) == Contents(m, f, before) + m.read(f[name])
  {
    ContentsOne(m, f, name);
    ContentsConcat(m, f, before, [name]);
  }

  /** A manifest that can be loaded and written to: a BASE file and a last INCR file. */
  ghost predicate Usable(l: Lists) { Good(l) && l.base.Some? && l.incr != [] }

  function LastIncr(l: Lists): Name
    requires l.incr != []
  {
    l.incr[|l.incr| - 1].name
  }

  /** The files the manifest names exist and load without error, and replay to the effect of the logged commands. */
  ghost predicate DiskGood<D, P, C>(m: Model<D, P, C>, disk: Disk<C>, logged: seq<P>) {
    match disk.manifest
    case None => logged == [] && (IncrFile(1) in disk.files ==> disk.files[IncrFile(1)] == [])
    case Some(l) =>
      && Usable(l)
      && AllExist(disk.files, Live(l))
      && AllSound(m, disk.files, Live(l))
      && Effect(m, Contents(m, disk.files, Live(l))) == Effect(m, logged)
  }

  /** A file that the manifest names is missing, so nothing can be loaded. */
  ghost predicate Lost<C>(disk: Disk<C>) {
    && disk.manifest.Some? && disk.manifest.value.base.Some?
    && disk.manifest.value.base.value.name.BaseFile?
    && disk.manifest.value.base.value.name !in disk.files
  }

  lemma LostIsNotGood<D, P, C>(m: Model<D, P, C>, disk: Disk<C>, logged: seq<P>)
    requires Lost(disk)
    ensures !AllExist(disk.files, Live(disk.manifest.value)) && !DiskGood(m, disk, logged)
  {
    assert Live(disk.manifest.value)[0] == disk.manifest.value.base.value.name;
  }

  lemma {:induction false} LiveIs(l: Lists)
    requires Usable(l)
    ensures Live(l) == Live(l)[..|Live(l)| - 1] + [LastIncr(l)]
    ensures LastIncr(l) !in Live(l)[..|Live(l)| - 1]
    ensures LastIncr(l) == IncrFile(l.incrSeq)
    ensures forall i :: 0 <= i < |Live(l)| ==>
      Live(l)[i] == BaseFile(l.baseSeq) || (Live(l)[i].IncrFile? && Live(l)[i].n <= l.incrSeq)
  {
  }

  /** Changing files the manifest does not load keeps the disk good. */
  lemma {:induction false} OtherFiles<D, P, C>(
      m: Model<D, P, C>, disk: Disk<C>, logged: seq<P>, files: map<Name, seq<C>>)
    requires DiskGood(m, disk, logged)
    requires disk.manifest.Some? ==> SameFiles(disk.files, files, Live(disk.manifest.value))
    requires disk.manifest.None? && IncrFile(1) in files ==> files[IncrFile(1)] == []
    ensures DiskGood(m, disk.(files := files), logged)
  {
    if disk.manifest.Some? {
      ContentsSame(m, disk.files, files, Live(disk.manifest.value));
    }
  }

  /** Appending to the last INCR file. */
  lemma {:induction false} Appended<D, P, C>(
      m: Model<D, P, C>, files: map<Name, seq<C>>, l: Lists, logged: seq<P>, cs: seq<C>, ps: seq<P>)
    requires DiskGood(m, Disk(files, Some(l)), logged) && LastIncr(l) in files
    requires var f := files[LastIncr(l)];
      m.sound(f + cs) && m.read(f + cs) == m.read(f) + ps
    ensures var name := LastIncr(l);
      DiskGood(m, Disk(files[name := files[name] + cs], Some(l)), logged + ps)
  {
    LiveIs(l);
    var name, before := LastIncr(l), Live(l)[..|Live(l)| - 1];
    var g := files[name := files[name] + cs];
    assert AllExist(files, before) && SameFiles(files, g, before);
    ContentsSame(m, files, g, before);
    ContentsLast(m, files, before, name);
    ContentsLast(m, g, before, name);
    assert Contents(m, g, Live(l)) == Contents(m, files, Live(l)) + ps;
    SameEffect(m, Contents(m, files, Live(l)), logged, ps);
    assert AllSound(m, g, Live(l));
  }

  /** A manifest with one more, empty INCR file. */
  lemma {:induction false} CommittedIncr<D, P, C>(m: Model<D, P, C>, files: map<Name, seq<C>>, l: Lists, logged: seq<P>)
    requires DiskGood(m, Disk(files, Some(l)), logged) && EmptyIsSound(m)
    requires IncrFile(l.incrSeq + 1) in files && files[IncrFile(l.incrSeq + 1)] == []
    ensures DiskGood(m, Disk(files, Some(WithNewIncr(l))), logged)
    ensures LastIncr(WithNewIncr(l)) == IncrFile(l.incrSeq + 1)
  {
    NewIncrGood(l);
    var name := IncrFile(l.incrSeq + 1);
    assert Live(WithNewIncr(l)) == Live(l) + [name];
    ContentsLast(m, files, Live(l), name);
    assert Contents(m, files, Live(l)) + [] == Contents(m, files, Live(l));
  }

  /** The manifest of a finished rewrite: the new BASE file and the INCR file opened when it started. */
  lemma {:induction false} CommittedRewrite<D, P, C>(m: Model<D, P, C>, files: map<Name, seq<C>>, l: Lists,
      forked: seq<P>)
    requires Usable(l)
    requires BaseFile(l.baseSeq + 1) in files && m.sound(files[BaseFile(l.baseSeq + 1)])
    requires Effect(m, m.read(files[BaseFile(l.baseSeq + 1)])) == Effect(m, forked)
    requires LastIncr(l) in files && m.sound(files[LastIncr(l)])
    ensures DiskGood(m, Disk(files, Some(AfterRewrite(l))), forked + m.read(files[LastIncr(l)]))
  {
    AfterRewriteGood(l);
    var base, incr := BaseFile(l.baseSeq + 1), LastIncr(l);
    assert Live(AfterRewrite(l)) == [base] + [incr];
    ContentsOne(m, files, base);
    ContentsLast(m, files, [base], incr);
    SameEffect(m, m.read(files[base]), forked, m.read(files[incr]));
  }

  /** The first manifest of a fresh server. */
  lemma {:induction false} CommittedFirst<D, P, C>(m: Model<D, P, C>, files: map<Name, seq<C>>)
    requires EmptyIsSound(m)
    requires BaseFile(1) in files && m.sound(files[BaseFile(1)]) && Effect(m, m.read(files[BaseFile(1)])) == m.empty
    requires IncrFile(1) in files && files[IncrFile(1)] == []
    ensures DiskGood(m, Disk(files, Some(WithNewIncr(WithNewBase(NO_FILES)))), [])
  {
    var l := WithNewIncr(WithNewBase(NO_FILES));
    assert l == Lists(Some(NewBaseInfo(1)), [], [NewIncrInfo(1)], 1, 1);
    assert Live(l) == [BaseFile(1)] + [IncrFile(1)];
    ContentsOne(m, files, BaseFile(1));
    ContentsLast(m, files, [BaseFile(1)], IncrFile(1));
    assert m.read(files[BaseFile(1)]) + [] == m.read(files[BaseFile(1)]);
  }

  lemma {:induction false} HistoryIsNotLive(l: Lists, i: Info)
    requires Usable(l) && i in l.history
    ensures forall k :: 0 <= k < |Live(l)| ==> Live(l)[k] != i.name
    ensures LastIncr(l) != i.name && i.name != IncrFile(l.incrSeq + 1)
  {
    assert forall k :: 0 <= k < |l.history| ==> IsOld(l, l.history[k]);
    assert IsOld(l, i);
    LiveIs(l);
  }

  /** The lists in memory when the first retired file has been deleted. */
  lemma {:induction false} FirstDropped<D, P, C>(m: Model<D, P, C>, files: map<Name, seq<C>>, l: Lists, logged: seq<P>)
    requires DiskGood(m, Disk(files, Some(l)), logged) && l.history != []
    ensures DiskGood(m, Disk(files - {l.history[0].name}, Some(l.(history := l.history[1..]))), logged)
  {
    var r, name := l.(history := l.history[1..]), l.history[0].name;
    HistoryIsNotLive(l, l.history[0]);
    assert forall k :: 0 <= k < |r.history| ==> IsOld(l, l.history[k + 1]) && IsOld(r, r.history[k]);
    assert Good(r) && Live(r) == Live(l);
    assert SameFiles(files, files - {name}, Live(l));
    ContentsSame(m, files, files - {name}, Live(l));
  }

  // ---------------------------------------------------------------------------
  // The manifest in memory and the one on disk
  // ---------------------------------------------------------------------------

  /**
   The manifest on disk may still list files that memory has deleted, and may
   already list an INCR file, still empty, whose commit was reported to have
   failed.
   */
  ghost predicate Follows<C>(files: map<Name, seq<C>>, mem: Lists, l: Lists) {
    && Good(l) && l.base == mem.base && l.baseSeq == mem.baseSeq
    && (forall i :: 0 <= i < |mem.history| ==> mem.history[i] in l.history)
    && (|| (l.incr == mem.incr && l.incrSeq == mem.incrSeq)
        || (&& l.incr == mem.incr + [NewIncrInfo(mem.incrSeq + 1)] && l.incrSeq == mem.incrSeq + 1
            && IncrFile(mem.incrSeq + 1) in files && files[IncrFile(mem.incrSeq + 1)] == []))
  }

  lemma {:induction false} FollowsGood<D, P, C>(
      m: Model<D, P, C>, files: map<Name, seq<C>>, mem: Lists, l: Lists, logged: seq<P>)
    requires EmptyIsSound(m) && DiskGood(m, Disk(files, Some(mem)), logged) && Follows(files, mem, l)
    ensures DiskGood(m, Disk(files, Some(l)), logged)
  {
    if l.incr == mem.incr {
      assert Live(l) == Live(mem);
    } else {
      var name := IncrFile(mem.incrSeq + 1);
      assert Live(l) == Live(mem) + [name];
      ContentsLast(m, files, Live(mem), name);
      assert Contents(m, files, Live(mem)) + [] == Contents(m, files, Live(mem));
    }
  }

  /** The files in front of the one that is written. */
  function Before(l: Lists): seq<Name>
    requires Live(l) != []
  {
    Live(l)[..|Live(l)| - 1]
  }

  /** What is behind that file in the manifest on disk: nothing, or an INCR file that is still empty. */
  function BehindIn(mem: Lists, l: Lists): seq<Name> {
    if l.incr == mem.incr then [] else [IncrFile(mem.incrSeq + 1)]
  }

  lemma {:induction false} BeforeIs<D, P, C>(m: Model<D, P, C>, files: map<Name, seq<C>>, mem: Lists, logged: seq<P>)
    requires DiskGood(m, Disk(files, Some(mem)), logged) && LastIncr(mem) in files
    ensures Live(mem) == Before(mem) + [LastIncr(mem)] && LastIncr(mem) !in Before(mem)
    ensures AllExist(files, Before(mem)) && AllSound(m, files, Before(mem))
    ensures Effect(m, Contents(m, files, Before(mem)) + m.read(files[LastIncr(mem)])) == Effect(m, logged)
  {
    LiveIs(mem);
    assert AllExist(files, Before(mem));
    ContentsLast(m, files, Before(mem), LastIncr(mem));
  }

  lemma {:induction false} BehindIs<C>(files: map<Name, seq<C>>, mem: Lists, l: Lists)
    requires Usable(mem) && Follows(files, mem, l)
    ensures Usable(l) && Live(l) == Live(mem) + BehindIn(mem, l)
    ensures BehindIn(mem, l) == [] <==> LastIncr(l) == LastIncr(mem)
    ensures LastIncr(mem) !in BehindIn(mem, l)
    ensures forall i :: 0 <= i < |BehindIn(mem, l)| ==> BehindIn(mem, l)[i] in files && files[BehindIn(mem, l)[i]] == []
  {
    LiveIs(mem);
    if l.incr == mem.incr {
      assert Live(l) == Live(mem);
    } else {
      assert Live(l) == Live(mem) + [IncrFile(mem.incrSeq + 1)];
    }
  }

  // ---------------------------------------------------------------------------
  // The buffer
  // ---------------------------------------------------------------------------

  function Concat<T>(ss: seq<seq<T>>): seq<T> {
    if ss == [] then [] else ss[0] + Concat(ss[1..])
  }

  lemma {:induction false} ConcatPlus<T>(a: seq<seq<T>>, b: seq<seq<T>>)
    ensures Concat(a + b) == Concat(a) + Concat(b)
  {
    if a == [] {
      assert a + b == b;
    } else {
      assert (a + b)[1..] == a[1..] + b;
      ConcatPlus(a[1..], b);
    }
  }

  lemma {:induction false} ConcatMore<T>(a: seq<seq<T>>, s: seq<T>)
    ensures Concat(a + [s]) == Concat(a) + s
  {
    ConcatPlus(a, [s]);
    assert [s][1..] == [] && s + [] == s;
  }

  lemma {:induction false} ConcatSplit<T>(a: seq<seq<T>>, k: nat)
    requires k <= |a|
    ensures Concat(a) == Concat(a[..k]) + Concat(a[k..])
  {
    assert a == a[..k] + a[k..];
    ConcatPlus(a[..k], a[k..]);
  }

  ghost predicate SameSizes<T, U>(a: seq<seq<T>>, b: seq<seq<U>>) {
    |a| == |b| && forall i :: 0 <= i < |a| ==> |a[i]| == |b[i]|
  }

  lemma {:induction false} ConcatSizes<T, U>(a: seq<seq<T>>, b: seq<seq<U>>)
    requires SameSizes(a, b)
    ensures |Concat(a)| == |Concat(b)|
  {
    if a != [] {
      ConcatSizes(a[1..], b[1..]);
    }
  }

  /**
   What a loader will hear from the pieces of the buffer once they are written
   behind f: piece by piece, the file stays sound and runs these commands.
   */
  ghost predicate Lined<D, P, C>(m: Model<D, P, C>, f: seq<C>, wire: seq<seq<C>>, heard: seq<seq<P>>)
    decreases |wire|
  {
    && m.sound(f) && |wire| == |heard|
    && (wire != [] ==>
      && m.read(f + wire[0]) == m.read(f) + heard[0]
      && Lined(m, f + wire[0], wire[1..], heard[1..]))
  }

  lemma {:induction false} ConcatFirst<T>(a: seq<T>, ss: seq<seq<T>>, k: nat)
    requires 0 < k <= |ss|
    ensures a + Concat(ss[..k]) == a + ss[0] + Concat(ss[1..][..k - 1])
    ensures ss[1..][k - 1..] == ss[k..]
  {
    assert ss[..k][1..] == ss[1..][..k - 1];
    Regroup(a, ss[0], Concat(ss[1..][..k - 1]));
  }

  lemma Regroup<T>(a: seq<T>, b: seq<T>, c: seq<T>)
    ensures a + (b + c) == a + b + c
  {
  }

  lemma {:induction false} LinedSplit<D, P, C>(m: Model<D, P, C>, f: seq<C>, wire: seq<seq<C>>, heard: seq<seq<P>>,
      k: nat)
    requires Lined(m, f, wire, heard) && k <= |wire|
    ensures m.read(f + Concat(wire[..k])) == m.read(f) + Concat(heard[..k])
    ensures Lined(m, f + Concat(wire[..k]), wire[k..], heard[k..])
    decreases k
  {
    if k == 0 {
      assert f + [] == f && m.read(f) + [] == m.read(f);
      assert wire[0..] == wire && heard[0..] == heard;
    } else {
      LinedSplit(m, f + wire[0], wire[1..], heard[1..], k - 1);
      ConcatFirst(f, wire, k);
      ConcatFirst(m.read(f), heard, k);
    }
  }

  lemma {:induction false} LinedMore<D, P, C>(
      m: Model<D, P, C>, f: seq<C>, wire: seq<seq<C>>, heard: seq<seq<P>>, w: seq<C>, ps: seq<P>)
    requires Lined(m, f, wire, heard) && m.sound(f + Concat(wire) + w)
    requires m.read(f + Concat(wire) + w) == m.read(f + Concat(wire)) + ps
    ensures Lined(m, f, wire + [w], heard + [ps])
    decreases |wire|
  {
    if wire == [] {
      assert f + [] == f && (wire + [w])[1..] == [] && (heard + [ps])[1..] == [];
    } else {
      assert f + Concat(wire) == f + wire[0] + Concat(wire[1..]);
      LinedMore(m, f + wire[0], wire[1..], heard[1..], w, ps);
      assert (wire + [w])[1..] == wire[1..] + [w] && (heard + [ps])[1..] == heard[1..] + [ps];
    }
  }

  /** Behind any sound file, nothing is heard of the piece before it is written whole. */
  ghost predicate Quiet<D, P, C(!new)>(m: Model<D, P, C>, w: seq<C>) {
    forall g: seq<C>, j: nat {:trigger m.read(g + w[..j])} ::
      m.sound(g) && j < |w| ==> m.read(g + w[..j]) == m.read(g)
  }

  /** Written behind any sound file, the piece adds n commands, though maybe not the ones it was made for; part of
      it adds nothing. */
  ghost predicate Movable<D, P, C(!new)>(m: Model<D, P, C>, w: seq<C>, n: nat) {
    && Quiet(m, w)
    && forall g: seq<C> {:trigger m.read(g + w)} ::
      m.sound(g) ==> m.sound(g + w) && m.read(g) <= m.read(g + w) && |m.read(g + w)| == |m.read(g)| + n
  }

  ghost predicate AllMovable<D, P, C(!new)>(m: Model<D, P, C>, wire: seq<seq<C>>, buf: seq<seq<P>>) {
    |wire| == |buf| && forall i :: 0 <= i < |wire| ==> Movable(m, wire[i], |buf[i]|)
  }

  /** How many pieces are whole in the first j commands of the buffer. */
  ghost function Whole<C>(wire: seq<seq<C>>, j: nat): (k: nat)
    ensures k <= |wire|
  {
    if wire == [] || j < |wire[0]| then 0 else 1 + Whole(wire[1..], j - |wire[0]|)
  }

  lemma {:induction false} WholeIs<C>(wire: seq<seq<C>>, j: nat)
    requires j <= |Concat(wire)|
    ensures var k := Whole(wire, j);
      var done := |Concat(wire[..k])|;
      && done <= j && Concat(wire)[..done] == Concat(wire[..k])
      && (k < |wire| ==> j - done < |wire[k]| && Concat(wire)[..j] == Concat(wire[..k]) + wire[k][..j - done])
      && (k == |wire| ==> j == done)
  {
    if wire != [] && j >= |wire[0]| {
      var rest, k := wire[1..], Whole(wire, j);
      WholeIs(rest, j - |wire[0]|);
      assert wire[..k][1..] == rest[..k - 1];
      assert Concat(wire[..k]) == wire[0] + Concat(rest[..k - 1]);
      if k < |wire| {
        var more := wire[k][..j - |Concat(wire[..k])|];
        assert Concat(wire)[..j] == wire[0] + Concat(rest)[..j - |wire[0]|];
        Regroup(wire[0], Concat(rest[..k - 1]), more);
      }
    }
  }

  /** Of a buffer written up to any command, a loader hears the pieces that are whole. */
  lemma {:induction false} LinedPrefix<D, P, C(!new)>(
      m: Model<D, P, C>, f: seq<C>, wire: seq<seq<C>>, buf: seq<seq<P>>, heard: seq<seq<P>>, j: nat)
    requires Lined(m, f, wire, heard) && AllMovable(m, wire, buf) && j <= |Concat(wire)|
    ensures m.read(f + Concat(wire)[..j]) == m.read(f) + Concat(heard[..Whole(wire, j)])
  {
    var k := Whole(wire, j);
    WholeIs(wire, j);
    LinedSplit(m, f, wire, heard, k);
    var g, done := f + Concat(wire[..k]), |Concat(wire[..k])|;
    if k < |wire| {
      assert Movable(m, wire[k], |buf[k]|);
      Regroup(f, Concat(wire[..k]), wire[k][..j - done]);
      assert m.read(g + wire[k][..j - done]) == m.read(g);
    } else {
      assert wire[..k] == wire && Concat(wire)[..j] == Concat(wire);
    }
  }

  /** A buffer that ends up behind another file than the one it was made for. */
  lemma {:induction false} Relined<D, P, C(!new)>(m: Model<D, P, C>, f: seq<C>, wire: seq<seq<C>>, buf: seq<seq<P>>)
    returns (heard: seq<seq<P>>)
    requires m.sound(f) && AllMovable(m, wire, buf)
    ensures Lined(m, f, wire, heard) && SameSizes(heard, buf)
    decreases |wire|
  {
    if wire == [] {
      heard := [];
    } else {
      assert Movable(m, wire[0], |buf[0]|);
      var first := m.read(f + wire[0])[|m.read(f)|..];
      assert m.read(f + wire[0]) == m.read(f) + first;
      var rest := Relined(m, f + wire[0], wire[1..], buf[1..]);
      heard := [first] + rest;
      assert heard[1..] == rest;
    }
  }

  // ---------------------------------------------------------------------------
  // What was flushed and what the disk says
  // ---------------------------------------------------------------------------

  /**
   The commands flushed so far, those the disk replays to, and those the
   dataset in memory is the effect of, apart from the buffer. For a child: the
   commands in its snapshot, those flushed before the fork and after it, and
   those in the buffer at the fork.
   */
  datatype Book<P> = Book(flushed: seq<P>, logged: seq<P>, memory: seq<P>,
                          forked: seq<P>, before: seq<P>, since: seq<P>, left: seq<P>)

  function EmptyBook<P>(): Book<P> { Book([], [], [], [], [], [], []) }

  /** Commands reach the file, from which a loader will hear others if the buffer was moved. */
  function Wrote<P>(b: Book<P>, ps: seq<P>, heard: seq<P>): Book<P> {
    b.(flushed := b.flushed + ps, logged := b.logged + heard, memory := b.memory + ps, since := b.since + ps)
  }

  /** A child is forked with these commands in the buffer. */
  function Forked<P>(b: Book<P>, rest: seq<P>): Book<P> {
    b.(forked := b.memory + rest, before := b.flushed, since := [], left := rest)
  }

  /** The child's file is followed by one that reads as this. */
  function Committed<P>(b: Book<P>, read: seq<P>): Book<P> { b.(logged := b.forked + read) }

  /** A new process has loaded what the disk says. */
  function Restarted<P>(b: Book<P>): Book<P> { b.(memory := b.logged) }

  /** Nothing that was flushed is ever missing. */
  ghost predicate Orderly<P>(b: Book<P>) { |b.logged| >= |b.flushed| && |b.memory| >= |b.flushed| }

  /** What holds for a child whose INCR file reads as this. */
  ghost predicate ChildOrderly<P>(b: Book<P>, read: seq<P>) {
    && |b.since| == |read| && (b.left == [] ==> b.since == read)
    && b.flushed == b.before + b.since && |b.forked| >= |b.before|
    && (b.memory == b.flushed ==> b.forked == b.before + b.left)
  }

  lemma {:induction false} WroteOrderly<P>(b: Book<P>, ps: seq<P>, heard: seq<P>, read: seq<P>)
    requires Orderly(b) && |ps| == |heard|
    ensures Orderly(Wrote(b, ps, heard))
    ensures ChildOrderly(b, read) && (b.left == [] ==> ps == heard) ==> ChildOrderly(Wrote(b, ps, heard), read + heard)
  {
    assert b.before + b.since + ps == b.before + (b.since + ps);
    if b.memory + ps == b.flushed + ps {
      assert b.memory == (b.memory + ps)[..|b.memory|] == (b.flushed + ps)[..|b.flushed|] == b.flushed;
    }
  }

  lemma {:induction false} ForkedOrderly<P>(b: Book<P>, rest: seq<P>)
    requires Orderly(b)
    ensures Orderly(Forked(b, rest)) && ChildOrderly(Forked(b, rest), [])
  {
    assert b.flushed + [] == b.flushed;
  }

  /**
   A rewrite started by a server whose memory is right leaves a right disk
   exactly if the buffer was empty at the fork.
   */
  lemma {:induction false} CommittedExact<P>(b: Book<P>, read: seq<P>)
    requires Orderly(b) && ChildOrderly(b, read)
    ensures Orderly(Committed(b, read))
    ensures b.memory == b.flushed ==> (Committed(b, read).logged == b.flushed <==> b.left == [])
  {
    if b.memory == b.flushed && b.left == [] {
      assert b.before + [] == b.before;
    }
  }

  // ---------------------------------------------------------------------------
  // When the disk is wrong
  // ---------------------------------------------------------------------------

  /** The dataset that remembers every command: no two runs have the same effect. */
  function LogModel<P, C>(read: seq<C> -> seq<P>, sound: seq<C> -> bool): Model<seq<P>, P, C> {
    Model((d: seq<P>, p: P) => d + [p], [], read, sound)
  }

  lemma {:induction false} LogReplay<P, C>(read: seq<C> -> seq<P>, sound: seq<C> -> bool, d: seq<P>, ps: seq<P>)
    ensures Replay(LogModel(read, sound), d, ps) == d + ps
    decreases |ps|
  {
    if ps == [] {
      assert d + ps == d;
    } else {
      LogReplay(read, sound, d + [ps[0]], ps[1..]);
      assert d + [ps[0]] + ps[1..] == d + ps;
    }
  }

  /** A disk that replays to the logged commands replays to the flushed ones exactly if these are the same. */
  lemma {:induction false} LogExact<P, C>(
      read: seq<C> -> seq<P>, sound: seq<C> -> bool, disk: Disk<C>, logged: seq<P>, flushed: seq<P>)
    requires DiskGood(LogModel(read, sound), disk, logged)
    ensures DiskGood(LogModel(read, sound), disk, flushed) <==> flushed == logged
  {
    LogReplay(read, sound, [], logged);
    LogReplay(read, sound, [], flushed);
    assert [] + logged == logged && [] + flushed == flushed;
  }

  /**
   Commands left in the buffer at the fork are in the snapshot and go to the
   new INCR file as well. On the disk that the rewrite then leaves, the
   dataset that remembers every command is right exactly if none were left.
   */
  lemma {:induction false} LeftoverBuffer<P, C>(
      read: seq<C> -> seq<P>, sound: seq<C> -> bool, files: map<Name, seq<C>>, l: Lists, b: Book<P>)
    requires Usable(l) && LastIncr(l) in files && sound(files[LastIncr(l)])
    requires var base := BaseFile(l.baseSeq + 1);
      base in files && sound(files[base]) && read(files[base]) == b.forked
    requires Orderly(b) && ChildOrderly(b, read(files[LastIncr(l)])) && b.memory == b.flushed
    ensures DiskGood(LogModel(read, sound), Disk(files, Some(AfterRewrite(l))), b.flushed) <==> b.left == []
  {
    var m, f := LogModel(read, sound), read(files[LastIncr(l)]);
    CommittedRewrite(m, files, l, b.forked);
    CommittedExact(b, f);
    LogExact(read, sound, Disk(files, Some(AfterRewrite(l))), b.forked + f, b.flushed);
  }

  /** A commit that is reported to have failed after it took effect: deleting the new BASE file loses the dataset. */
  lemma {:induction false} LateFailure<C>(files: map<Name, seq<C>>, l: Lists)
    requires Usable(l)
    ensures Lost(Disk(files - {BaseFile(l.baseSeq + 1)}, Some(AfterRewrite(l))))
  {
    AfterRewriteGood(l);
  }
}
