/**
 Writing the append-only buffer to the current INCR file: retried writes, short
 writes that are undone by truncation or, failing that, kept, and the fsync
 that follows.
 */
module AofFlush {

  // ---------------------------------------------------------------------------
  // Files
  // ---------------------------------------------------------------------------

  /** An open file: its bytes, the position of the next write, and whether writes always go to the end. */
  datatype File = File(data: string, offset: nat, append: bool)

  function Zeros(n: nat): (s: string)
    ensures |s| == n
  {
    seq(n, i => '\0')
  }

  function Resized(data: string, size: nat): (r: string)
    ensures |r| == size
  {
    if size <= |data| then data[..size] else data + Zeros(size - |data|)
  }

  function WriteTo(f: File, bytes: string): File {
    var pos := if f.append then |f.data| else f.offset;
    var after := if pos + |bytes| < |f.data| then f.data[pos + |bytes|..] else "";
    f.(data := Resized(f.data, pos) + bytes + after, offset := pos + |bytes|)
  }

  /** Truncation leaves the write position where it is. */
  function TruncateTo(f: File, size: nat): File { f.(data := Resized(f.data, size)) }

  /** The next write goes to the end of the file. */
  predicate AtEnd(f: File) { f.append || f.offset == |f.data| }

  /** A write appends its bytes exactly if the file is at its end. */
  lemma {:induction false} WriteAppends(f: File, bytes: string)
    requires bytes != ""
    ensures WriteTo(f, bytes).data == f.data + bytes <==> AtEnd(f)
    ensures AtEnd(f) ==> AtEnd(WriteTo(f, bytes))
  {
    if !AtEnd(f) {
      assert |WriteTo(f, bytes).data| != |f.data + bytes|;
    }
  }

  /** Undoing a short write on a file that is not in append mode leaves a gap before the next write. */
  lemma {:induction false} GapAfterUndo(f: File, short: string, bytes: string)
    requires AtEnd(f) && short != "" && bytes != ""
    ensures var g := TruncateTo(WriteTo(f, short), |f.data|);
      && g.data == f.data
      && (WriteTo(g, bytes).data == f.data + bytes <==> f.append)
  {
    WriteAppends(f, short);
    var g := TruncateTo(WriteTo(f, short), |f.data|);
    assert WriteTo(f, short).data == f.data + short;
    WriteAppends(g, bytes);
  }

  lemma GapExample()
    ensures WriteTo(TruncateTo(WriteTo(File("", 0, false), "a"), 0), "ab").data == "\0ab"
  {
  }

  // ---------------------------------------------------------------------------
  // Flushing
  // ---------------------------------------------------------------------------

  /** What one write call does. */
  datatype Outcome = Wrote(n: nat) | Interrupted | Failed

  datatype Policy = No | EverySec | Always

  /** What the outside world does during one flush; when the outcomes run out, writes succeed. */
  datatype World = World(now: int, syncing: bool, outcomes: seq<Outcome>, truncates: bool, childActive: bool,
      fsyncs: bool)

  /** What writing n bytes reports when done of them are written: all of them, or what was written before a
      failure, or -1 if that is nothing. */
  function WrittenFrom(outcomes: seq<Outcome>, done: nat, n: nat): (r: int)
    requires done <= n
    ensures done <= r <= n || (done == 0 && r == -1)
    ensures Failed !in outcomes ==> r == n
    ensures n > 0 ==> r != 0
    decreases |outcomes|
  {
    if done == n || outcomes == [] then n
    else match outcomes[0]
      case Interrupted => WrittenFrom(outcomes[1..], done, n)
      case Failed => if done == 0 then -1 else done
      case Wrote(k) => WrittenFrom(outcomes[1..], if k < n - done then done + k else n, n)
  }

  lemma WrittenStep(outcomes: seq<Outcome>, k: nat, done: nat, n: nat)
    requires done < n && k <= |outcomes|
    ensures WrittenFrom(outcomes[k..], done, n)
      == if k == |outcomes| then n
         else match outcomes[k]
           case Interrupted => WrittenFrom(outcomes[k + 1..], done, n)
           case Failed => if done == 0 then -1 else done
           case Wrote(m) => WrittenFrom(outcomes[k + 1..], if m < n - done then done + m else n, n)
  {
    assert k < |outcomes| ==> outcomes[k..][1..] == outcomes[k + 1..];
  }

  lemma WrittenAll(outcomes: seq<Outcome>, n: nat)
    ensures WrittenFrom(outcomes, n, n) == n
  {
  }

  function WrittenBy(outcomes: seq<Outcome>, n: nat): int { WrittenFrom(outcomes, 0, n) }

  /** What a flush does to the file: nothing that lasts, n bytes more, or n bytes that are truncated away again. */
  datatype Act = Idle | Keeps(n: nat) | Undoes(n: nat)

  function WriteAct(w: World, n: nat): (a: Act)
    ensures a.Keeps? || a.Undoes? ==> 0 < a.n <= n
  {
    var r := WrittenBy(w.outcomes, n);
    if r <= 0 then Idle else if r < n && w.truncates then Undoes(r) else Keeps(r)
  }

  /** The state that decides where bytes go: the file, the buffer, the recorded size of the file, when the flush
      was first put off (0 if it is not), and, for the record, everything fed. */
  datatype Snap = Snap(file: File, buf: string, size: nat, postponed: int, fed: string)

  function Start(file: File): Snap { Snap(file, "", |file.data|, 0, file.data) }

  /** Nothing fed is lost, repeated or reordered, and the recorded size is right. */
  predicate Sound(s: Snap) { s.file.data + s.buf == s.fed && s.size == |s.file.data| }

  datatype Op = DoFeed(bytes: string) | DoFlush(force: bool, w: World)

  /** A flush waits for a running fsync, but not for longer than two seconds. */
  predicate Waits(s: Snap, policy: Policy, force: bool, w: World) {
    policy == EverySec && !force && w.syncing && (s.postponed == 0 || w.now - s.postponed < 2)
  }

  function ActOf(s: Snap, policy: Policy, op: Op): (a: Act)
    ensures a.Keeps? || a.Undoes? ==> 0 < a.n <= |s.buf|
  {
    if op.DoFeed? || s.buf == "" || Waits(s, policy, op.force, op.w) then Idle else WriteAct(op.w, |s.buf|)
  }

  function Applied(s: Snap, a: Act): Snap
    requires a.Keeps? || a.Undoes? ==> a.n <= |s.buf|
  {
    match a
    case Idle => s
    case Keeps(n) => s.(file := WriteTo(s.file, s.buf[..n]), buf := s.buf[n..], size := s.size + n)
    case Undoes(n) => s.(file := TruncateTo(WriteTo(s.file, s.buf[..n]), s.size))
  }

  function Next(s: Snap, policy: Policy, op: Op): Snap {
    match op
    case DoFeed(bytes) => s.(buf := s.buf + bytes, fed := s.fed + bytes)
    case DoFlush(force, w) =>
      if s.buf == "" then s
      else if Waits(s, policy, force, w) then s.(postponed := if s.postponed == 0 then w.now else s.postponed)
      else Applied(s, ActOf(s, policy, op)).(postponed := 0)
  }

  /** A flush writes at once, unless an fsync runs under the every-second policy and it is not forced: then it is
      put off, but not for two seconds or more. */
  lemma {:induction false} PutOff(s: Snap, policy: Policy, force: bool, w: World)
    requires s.buf != ""
    ensures var t := Next(s, policy, DoFlush(force, w));
      if policy != EverySec || force || !w.syncing then t == Applied(s, WriteAct(w, |s.buf|)).(postponed := 0)
      else if s.postponed == 0 then t == s.(postponed := w.now)
      else if w.now < s.postponed + 2 then t == s
      else t == Applied(s, WriteAct(w, |s.buf|)).(postponed := 0)
  {
    hide WriteAct;
  }

  // ---------------------------------------------------------------------------
  // Syncing
  // ---------------------------------------------------------------------------

  /** How much of the file an fsync was started for, and when that was last tried. */
  datatype Sync = Sync(offset: nat, last: int)

  predicate WritesAll(s: Snap, policy: Policy, force: bool, w: World) {
    s.buf != "" && !Waits(s, policy, force, w) && WrittenBy(w.outcomes, |s.buf|) == |s.buf|
  }

  /** There is something to sync: the whole buffer was just written, or it is empty and the last sync fell behind. */
  predicate ToSync(s: Snap, y: Sync, policy: Policy, force: bool, w: World) {
    WritesAll(s, policy, force, w) || (s.buf == "" && y.offset != s.size)
  }

  /** No fsync while a child writes to disk, if the server is configured so. */
  predicate Suppressed(noFsyncOnRewrite: bool, w: World) { noFsyncOnRewrite && w.childActive }

  predicate Syncs(s: Snap, y: Sync, policy: Policy, noFsyncOnRewrite: bool, op: Op) {
    && op.DoFlush?
    && ToSync(s, y, policy, op.force, op.w)
    && !Suppressed(noFsyncOnRewrite, op.w)
    && match policy {
      case Always => op.w.fsyncs
      case EverySec => op.w.now > y.last && !op.w.syncing
      case No => false
    }
  }

  /** Behind a running fsync the time of the last one moves on, although nothing is synced. */
  predicate Misses(s: Snap, y: Sync, policy: Policy, noFsyncOnRewrite: bool, op: Op) {
    && op.DoFlush? && policy == EverySec
    && WritesAll(s, policy, op.force, op.w)
    && !Suppressed(noFsyncOnRewrite, op.w)
    && op.w.now > y.last && op.w.syncing
  }

  function NextSync(s: Snap, y: Sync, policy: Policy, noFsyncOnRewrite: bool, op: Op): Sync {
    if Syncs(s, y, policy, noFsyncOnRewrite, op) then Sync(Next(s, policy, op).size, op.w.now)
    else if Misses(s, y, policy, noFsyncOnRewrite, op) then y.(last := op.w.now)
    else y
  }

  /** A server that must have everything on disk exits when it cannot write or sync. */
  predicate Exits(s: Snap, y: Sync, policy: Policy, noFsyncOnRewrite: bool, op: Op) {
    && op.DoFlush? && policy == Always
    && (if s.buf != "" && WrittenBy(op.w.outcomes, |s.buf|) != |s.buf| then true
        else ToSync(s, y, policy, op.force, op.w) && !Suppressed(noFsyncOnRewrite, op.w) && !op.w.fsyncs)
  }

  /** What an attempt to sync a file of this size does. */
  function Tried(policy: Policy, noFsyncOnRewrite: bool, y: Sync, size: nat, w: World): Sync {
    if Suppressed(noFsyncOnRewrite, w) then y
    else match policy
      case Always => if w.fsyncs then Sync(size, w.now) else y
      case EverySec => if w.now > y.last then Sync(if w.syncing then y.offset else size, w.now) else y
      case No => y
  }

  /** A flush of an empty buffer. */
  lemma EmptyFlush(s: Snap, y: Sync, policy: Policy, noFsync: bool, force: bool, w: World)
    requires s.buf == ""
    ensures
      var lags := y.offset != s.size && (policy == Always || (policy == EverySec && w.now > y.last && !w.syncing));
      && NextSync(s, y, policy, noFsync, DoFlush(force, w))
        == (if lags then Tried(policy, noFsync, y, s.size, w) else y)
      && Exits(s, y, policy, noFsync, DoFlush(force, w))
        == (lags && policy == Always && !(noFsync && w.childActive) && !w.fsyncs)
  {
  }

  lemma WaitingFlush(s: Snap, y: Sync, policy: Policy, noFsync: bool, force: bool, w: World)
    requires s.buf != "" && Waits(s, policy, force, w)
    ensures NextSync(s, y, policy, noFsync, DoFlush(force, w)) == y && !Exits(s, y, policy, noFsync, DoFlush(force, w))
  {
    hide WrittenBy;
  }

  lemma WrittenFlush(s: Snap, y: Sync, policy: Policy, noFsync: bool, force: bool, w: World)
    requires s.buf != "" && !Waits(s, policy, force, w)
    ensures var all, t := WrittenBy(w.outcomes, |s.buf|) == |s.buf|, Applied(s, WriteAct(w, |s.buf|));
      && NextSync(s, y, policy, noFsync, DoFlush(force, w)) == (if all then Tried(policy, noFsync, y, t.size, w) else y)
      && Exits(s, y, policy, noFsync, DoFlush(force, w))
        == (policy == Always && (!all || (!Suppressed(noFsync, w) && !w.fsyncs)))
  {
    hide WrittenBy, WriteAct, Applied;
  }

  lemma WholeBuffer(s: Snap, w: World)
    requires s.buf != ""
    ensures (Applied(s, WriteAct(w, |s.buf|)).buf == "") == (WrittenBy(w.outcomes, |s.buf|) == |s.buf|)
  {
  }

  class Log {
    var file: File
    var buf: string
    var lastIncrSize: nat
    var fsyncOffset: nat
    var writeOk: bool
    var postponedStart: int
    var lastFsync: int
    var exited: bool
    const policy: Policy
    const noFsyncOnRewrite: bool
    ghost var fed: string

    ghost function Snapshot(): Snap
      reads this
    {
      Snap(file, buf, lastIncrSize, postponedStart, fed)
    }

    ghost function Synced(): Sync
      reads this
    {
      Sync(fsyncOffset, lastFsync)
    }

    /** What is known to be on disk is no more than what was written. */
    ghost predicate Valid()
      reads this
    {
      fsyncOffset <= lastIncrSize
    }

    constructor (file: File, policy: Policy, noFsyncOnRewrite: bool)
      ensures Valid() && !exited && Snapshot() == Start(file) && Synced() == Sync(|file.data|, 0) && writeOk
      ensures this.policy == policy && this.noFsyncOnRewrite == noFsyncOnRewrite
    {
      this.file, this.policy, this.noFsyncOnRewrite := file, policy, noFsyncOnRewrite;
      buf, lastIncrSize, fsyncOffset := "", |file.data|, |file.data|;
      writeOk, postponedStart, lastFsync, exited := true, 0, 0, false;
      fed := file.data;
    }

    method Feed(bytes: string)
      modifies this`buf, this`fed
      ensures Snapshot() == Next(old(Snapshot()), policy, DoFeed(bytes))
    {
      buf := buf + bytes;
      fed := fed + bytes;
    }

    /** Writes until all is written or a write fails; -1 if it fails before any byte is written. */
    method Write(bytes: string, outcomes: seq<Outcome>) returns (total: int)
      modifies this`file
      ensures total == WrittenBy(outcomes, |bytes|)
      ensures file == if total <= 0 then old(file) else WriteTo(old(file), bytes[..total])
    {
      hide WriteTo, WrittenFrom;
      var done, k := 0, 0;
      assert outcomes[0..] == outcomes;
      while done < |bytes|
        invariant 0 <= done <= |bytes| && 0 <= k <= |outcomes|
        invariant WrittenFrom(outcomes[k..], done, |bytes|) == WrittenBy(outcomes, |bytes|)
        invariant file == if done == 0 then old(file) else WriteTo(old(file), bytes[..done])
        decreases |outcomes| - k, |bytes| - done
      {
        var outcome := if k < |outcomes| then outcomes[k] else Wrote(|bytes|);
        WrittenStep(outcomes, k, done, |bytes|);
        k := if k < |outcomes| then k + 1 else k;
        match outcome
        case Interrupted =>
        case Failed => return if done == 0 then -1 else done;
        case Wrote(n) =>
          var next := if n < |bytes| - done then done + n else |bytes|;
          if next > done {
            WriteMore(old(file), bytes, done, next);
            file := WriteTo(file, bytes[done..next]);
          }
          done := next;
      }
      WrittenAll(outcomes[k..], |bytes|);
      return done;
    }

    /** The fsync that follows a write, or makes up for one that was skipped. */
    method TryFsync(w: World)
      requires Valid()
      modifies this`fsyncOffset, this`lastFsync, this`exited
      ensures Valid()
      ensures exited == (old(exited) || (policy == Always && !(noFsyncOnRewrite && w.childActive) && !w.fsyncs))
      ensures Synced() == Tried(policy, noFsyncOnRewrite, old(Synced()), lastIncrSize, w)
    {
      if noFsyncOnRewrite && w.childActive {
        return;
      }
      if policy == Always {
        if !w.fsyncs {
          exited := true;
          return;
        }
        fsyncOffset := lastIncrSize;
        lastFsync := w.now;
      } else if policy == EverySec && w.now > lastFsync {
        if !w.syncing {
          fsyncOffset := lastIncrSize;
        }
        lastFsync := w.now;
      }
    }

    /** Handles a write that did not write everything; total is what it reported. */
    method Recover(total: int, w: World)
      requires Valid() && -1 <= total < |buf| && total != 0
      modifies this`file, this`buf, this`lastIncrSize, this`writeOk, this`exited
      ensures Valid() && exited == (old(exited) || policy == Always)
      ensures file == if total > 0 && w.truncates then TruncateTo(old(file), old(lastIncrSize)) else old(file)
      ensures policy != Always ==> !writeOk
      ensures policy != Always ==>
        var n := if total > 0 && !w.truncates then total else 0;
        buf == old(buf)[n..] && lastIncrSize == old(lastIncrSize) + n
    {
      var nwritten := total;
      if nwritten != -1 && w.truncates {
        file := TruncateTo(file, lastIncrSize);
        nwritten := -1;
      }
      if policy == Always {
        exited := true;
        return;
      }
      writeOk := false;
      if nwritten > 0 {
        lastIncrSize := lastIncrSize + nwritten;
        buf := buf[nwritten..];
      }
    }

    /** Writes the buffer and handles the outcome. */
    method WriteBuffer(w: World)
      requires Valid() && !exited && buf != ""
      modifies this`file, this`buf, this`lastIncrSize, this`fsyncOffset, this`writeOk, this`postponedStart,
          this`lastFsync, this`exited
      ensures Valid()
      ensures var all := WrittenBy(w.outcomes, |old(buf)|) == |old(buf)|;
        && exited == (policy == Always && (!all || (!Suppressed(noFsyncOnRewrite, w) && !w.fsyncs)))
        && (!exited ==> writeOk == all)
        && (!exited ==>
          Synced() == if all then Tried(policy, noFsyncOnRewrite, old(Synced()), lastIncrSize, w) else old(Synced()))
      ensures !exited ==> Snapshot() == Applied(old(Snapshot()), WriteAct(w, |old(buf)|)).(postponed := 0)
    {
      hide WriteTo, TruncateTo, WrittenFrom, Tried;
      var n := Write(buf, w.outcomes);
      postponedStart := 0;
      if n != |buf| {
        Recover(n, w);
        return;
      }
      assert buf[..n] == buf;
      writeOk := true;
      lastIncrSize := lastIncrSize + n;
      buf := "";
      TryFsync(w);
    }

    /** One flush: unless the server exits, the file gets what the writes and the truncation leave of the buffer. */
    method Flush(force: bool, w: World)
      requires Valid() && !exited
      modifies this`file, this`buf, this`lastIncrSize, this`fsyncOffset, this`writeOk, this`postponedStart,
          this`lastFsync, this`exited
      ensures Valid()
      ensures exited == Exits(old(Snapshot()), old(Synced()), policy, noFsyncOnRewrite, DoFlush(force, w))
      ensures !exited ==> Snapshot() == Next(old(Snapshot()), policy, DoFlush(force, w))
      ensures !exited ==> Synced() == NextSync(old(Snapshot()), old(Synced()), policy, noFsyncOnRewrite,
        DoFlush(force, w))
      ensures !exited ==> writeOk == if old(buf) == "" || old(Waits(Snapshot(), policy, force, w)) then old(writeOk)
        else WrittenBy(w.outcomes, |old(buf)|) == |old(buf)|
      ensures !exited && buf != "" ==> old(Waits(Snapshot(), policy, force, w)) || !writeOk
      ensures !exited && policy == Always && !(noFsyncOnRewrite && w.childActive) ==>
        buf == "" && fsyncOffset == lastIncrSize
    {
      hide WriteTo, TruncateTo, WrittenFrom, WriteAct, NextSync, Exits;
      if buf == "" {
        EmptyFlush(Snapshot(), Synced(), policy, noFsyncOnRewrite, force, w);
        if policy == EverySec && fsyncOffset != lastIncrSize && w.now > lastFsync && !w.syncing {
          TryFsync(w);
        } else if policy == Always && fsyncOffset != lastIncrSize {
          TryFsync(w);
        }
        return;
      }
      if Waits(Snapshot(), policy, force, w) {
        WaitingFlush(Snapshot(), Synced(), policy, noFsyncOnRewrite, force, w);
      } else {
        WrittenFlush(Snapshot(), Synced(), policy, noFsyncOnRewrite, force, w);
      }
      if policy == EverySec && !force && w.syncing {
        if postponedStart == 0 {
          postponedStart := w.now;
          return;
        } else if w.now - postponedStart < 2 {
          return;
        }
      }
      WriteBuffer(w);
      WholeBuffer(old(Snapshot()), w);
    }

    method Do(op: Op)
      requires Valid() && !exited
      modifies this
      ensures Valid() && exited == Exits(old(Snapshot()), old(Synced()), policy, noFsyncOnRewrite, op)
      ensures !exited ==> Snapshot() == Next(old(Snapshot()), policy, op)
      ensures !exited ==> Synced() == NextSync(old(Snapshot()), old(Synced()), policy, noFsyncOnRewrite, op)
    {
      match op
      case DoFeed(bytes) => Feed(bytes);
      case DoFlush(force, w) => Flush(force, w);
    }
  }

  lemma {:induction false} WriteMore(f: File, bytes: string, done: nat, next: nat)
    requires done < next <= |bytes|
    ensures WriteTo(if done == 0 then f else WriteTo(f, bytes[..done]), bytes[done..next]) == WriteTo(f, bytes[..next])
  {
    if done > 0 {
      WriteTwice(f, bytes[..done], bytes[done..next]);
    }
    assert bytes[..done] + bytes[done..next] == bytes[..next];
    assert bytes[0..next] == bytes[..next];
  }

  /** Two writes, one behind the other, are one write of both. */
  lemma {:induction false} WriteTwice(f: File, a: string, b: string)
    requires a != ""
    ensures WriteTo(WriteTo(f, a), b) == WriteTo(f, a + b)
  {
    var g, pos := WriteTo(f, a), if f.append then |f.data| else f.offset;
    assert f.append ==> |g.data| == pos + |a|;
    assert g.data[..pos + |a|] == Resized(f.data, pos) + a;
    assert Resized(g.data, pos + |a|) == Resized(f.data, pos) + a;
    assert Resized(f.data, pos) + a + b == Resized(f.data, pos) + (a + b);
    if pos + |a| < |f.data| {
      assert g.data[pos + |a|..] == f.data[pos + |a|..];
      if pos + |a| + |b| < |f.data| {
        assert g.data[pos + |a| + |b|..] == f.data[pos + |a| + |b|..];
      }
    }
  }

  // ---------------------------------------------------------------------------
  // Runs
  // ---------------------------------------------------------------------------

  function After(s: Snap, policy: Policy, ops: seq<Op>): Snap {
    if ops == [] then s else Next(After(s, policy, ops[..|ops| - 1]), policy, ops[|ops| - 1])
  }

  function SyncAfter(s: Snap, y: Sync, policy: Policy, noFsync: bool, ops: seq<Op>): Sync {
    if ops == [] then y
    else
      var front, op := ops[..|ops| - 1], ops[|ops| - 1];
      NextSync(After(s, policy, front), SyncAfter(s, y, policy, noFsync, front), policy, noFsync, op)
  }

  /** Whether the operation at this position of a run syncs the file. */
  predicate SyncsAt(s: Snap, y: Sync, policy: Policy, noFsync: bool, ops: seq<Op>, i: nat)
    requires i < |ops|
  {
    Syncs(After(s, policy, ops[..i]), SyncAfter(s, y, policy, noFsync, ops[..i]), policy, noFsync, ops[i])
  }

  /** Whether it leaves bytes in the file that were not there before. */
  predicate WritesAt(s: Snap, policy: Policy, ops: seq<Op>, i: nat)
    requires i < |ops|
  {
    After(s, policy, ops[..i + 1]).size > After(s, policy, ops[..i]).size
  }

  /** Some operation wrote, and neither it nor a later one synced. */
  ghost predicate Behind(s: Snap, y: Sync, policy: Policy, noFsync: bool, ops: seq<Op>) {
    exists i :: 0 <= i < |ops| && WritesAt(s, policy, ops, i)
      && forall j :: i <= j < |ops| ==> !SyncsAt(s, y, policy, noFsync, ops, j)
  }

  lemma {:induction false} BehindMore(s: Snap, y: Sync, policy: Policy, noFsync: bool, ops: seq<Op>)
    requires ops != []
    ensures var n := |ops| - 1;
      Behind(s, y, policy, noFsync, ops) <==>
        && !SyncsAt(s, y, policy, noFsync, ops, n)
        && (Behind(s, y, policy, noFsync, ops[..n]) || WritesAt(s, policy, ops, n))
  {
    hide Syncs, After, SyncAfter, NextSync, Next;
    var n := |ops| - 1;
    var front := ops[..n];
    forall i | 0 <= i < n
      ensures WritesAt(s, policy, front, i) == WritesAt(s, policy, ops, i)
      ensures SyncsAt(s, y, policy, noFsync, front, i) == SyncsAt(s, y, policy, noFsync, ops, i)
    {
      assert front[..i] == ops[..i] && front[..i + 1] == ops[..i + 1];
    }
    if Behind(s, y, policy, noFsync, front) && !SyncsAt(s, y, policy, noFsync, ops, n) {
      var i :| 0 <= i < n && WritesAt(s, policy, front, i)
        && forall j :: i <= j < n ==> !SyncsAt(s, y, policy, noFsync, front, j);
      assert WritesAt(s, policy, ops, i);
    }
  }

  /** After any run the synced part falls short of the file exactly if something was written since the last sync. */
  lemma {:induction false} SyncedIff(s: Snap, y: Sync, policy: Policy, noFsync: bool, ops: seq<Op>)
    requires y.offset == s.size
    ensures var offset, size := SyncAfter(s, y, policy, noFsync, ops).offset, After(s, policy, ops).size;
      offset <= size && (offset < size <==> Behind(s, y, policy, noFsync, ops))
  {
    hide Syncs, Next, Behind;
    if ops == [] {
      assert !Behind(s, y, policy, noFsync, []) by {
        NeverBehind(s, y, policy, noFsync);
      }
    } else {
      var n := |ops| - 1;
      SyncedIff(s, y, policy, noFsync, ops[..n]);
      BehindMore(s, y, policy, noFsync, ops);
      assert ops[..n + 1] == ops;
      SizeGrows(After(s, policy, ops[..n]), policy, ops[n]);
    }
  }

  lemma NeverBehind(s: Snap, y: Sync, policy: Policy, noFsync: bool)
    ensures !Behind(s, y, policy, noFsync, [])
  {
  }

  lemma SizeGrows(s: Snap, policy: Policy, op: Op)
    ensures Next(s, policy, op).size >= s.size
  {
    hide WriteTo, TruncateTo;
  }

  /** A flush in a later second, with no fsync running or suppressed, that leaves no bytes behind: all is synced. */
  lemma {:induction false} CatchesUp(s: Snap, y: Sync, noFsync: bool, ops: seq<Op>, force: bool, w: World)
    requires w.now > SyncAfter(s, y, EverySec, noFsync, ops).last && !w.syncing && !(noFsync && w.childActive)
    requires var n := |After(s, EverySec, ops).buf|; n > 0 ==> WrittenBy(w.outcomes, n) == n
    ensures var more := ops + [DoFlush(force, w)];
      && SyncAfter(s, y, EverySec, noFsync, more).offset == After(s, EverySec, more).size
      && After(s, EverySec, more).buf == ""
  {
    hide WriteTo, TruncateTo, WrittenFrom;
    assert (ops + [DoFlush(force, w)])[..|ops|] == ops;
  }

  /** Every other operation under this policy leaves the synced part as it is. */
  lemma {:induction false} SyncedOnlySo(s: Snap, y: Sync, noFsync: bool, op: Op)
    requires NextSync(s, y, EverySec, noFsync, op).offset != y.offset
    ensures op.DoFlush? && op.w.now > y.last && !op.w.syncing && !(noFsync && op.w.childActive)
    ensures NextSync(s, y, EverySec, noFsync, op) == Sync(Next(s, EverySec, op).size, op.w.now)
    ensures Next(s, EverySec, op).buf == ""
  {
    hide WriteTo, TruncateTo, WrittenFrom;
  }

  /** The states of a run, the first one included. */
  function States(s: Snap, policy: Policy, ops: seq<Op>): (r: seq<Snap>)
    ensures |r| == |ops| + 1
  {
    if ops == [] then [s] else States(s, policy, ops[..|ops| - 1]) + [After(s, policy, ops)]
  }

  /** What the operations of a run do to the file. */
  function Acts(s: Snap, policy: Policy, ops: seq<Op>): (r: seq<Act>)
    ensures |r| == |ops|
  {
    if ops == [] then []
    else
      var front, op := ops[..|ops| - 1], ops[|ops| - 1];
      Acts(s, policy, front) + [ActOf(After(s, policy, front), policy, op)]
  }

  ghost predicate AllSound(ss: seq<Snap>) { forall k :: 0 <= k < |ss| ==> Sound(ss[k]) }

  /** Some bytes were truncated away. */
  ghost predicate HasUndo(acts: seq<Act>) { exists i :: 0 <= i < |acts| && acts[i].Undoes? }

  /** Bytes were truncated away, and later bytes were written to stay. */
  ghost predicate KeepsAfterUndo(acts: seq<Act>) {
    exists i, j :: 0 <= i < j < |acts| && acts[i].Undoes? && acts[j].Keeps?
  }

  function FedBytes(ops: seq<Op>): string {
    if ops == [] then ""
    else FedBytes(ops[..|ops| - 1]) + (if ops[|ops| - 1].DoFeed? then ops[|ops| - 1].bytes else "")
  }

  lemma NextFed(s: Snap, policy: Policy, op: Op)
    ensures Next(s, policy, op).fed == s.fed + if op.DoFeed? then op.bytes else ""
    ensures Next(s, policy, op).file.append == s.file.append
  {
    assert s.fed + "" == s.fed;
  }

  lemma {:induction false} FedIs(s: Snap, policy: Policy, ops: seq<Op>)
    ensures After(s, policy, ops).fed == s.fed + FedBytes(ops) && After(s, policy, ops).file.append == s.file.append
  {
    if ops == [] {
      assert s.fed + "" == s.fed;
    } else {
      var front, op := ops[..|ops| - 1], ops[|ops| - 1];
      FedIs(s, policy, front);
      NextFed(After(s, policy, front), policy, op);
      var more := if op.DoFeed? then op.bytes else "";
      assert s.fed + FedBytes(front) + more == s.fed + (FedBytes(front) + more);
    }
  }

  /** Sound, and the next write goes to the end of the file or behind it. */
  predicate Ready(s: Snap) { Sound(s) && (s.file.append || s.file.offset >= |s.file.data|) }

  lemma {:induction false} KeepsSound(s: Snap, n: nat)
    requires Ready(s) && 0 < n <= |s.buf|
    ensures var t := Applied(s, Keeps(n)); (Sound(t) <==> AtEnd(s.file)) && (Sound(t) ==> AtEnd(t.file))
  {
    var bytes, t := s.buf[..n], Applied(s, Keeps(n));
    WriteAppends(s.file, bytes);
    if AtEnd(s.file) {
      assert s.file.data + bytes + s.buf[n..] == s.file.data + s.buf by {
        assert bytes + s.buf[n..] == s.buf;
      }
    } else {
      assert |t.file.data| == s.file.offset + n > t.size;
    }
  }

  lemma {:induction false} UndoesSound(s: Snap, n: nat)
    requires Ready(s) && 0 < n <= |s.buf|
    ensures var t := Applied(s, Undoes(n)); Ready(t) && (AtEnd(t.file) <==> s.file.append)
  {
    var f := WriteTo(s.file, s.buf[..n]);
    assert f.data[..s.size] == s.file.data;
  }

  lemma FeedSound(s: Snap, bytes: string)
    requires Sound(s)
    ensures Sound(s.(buf := s.buf + bytes, fed := s.fed + bytes))
  {
    assert s.file.data + s.buf + bytes == s.file.data + (s.buf + bytes);
  }

  /** A sound state stays sound over one operation exactly if the file is at its end or nothing is kept. */
  lemma {:induction false} NextSound(s: Snap, policy: Policy, op: Op)
    requires Ready(s)
    ensures var a, t := ActOf(s, policy, op), Next(s, policy, op);
      && (Sound(t) <==> AtEnd(s.file) || !a.Keeps?)
      && (Sound(t) ==> Ready(t))
      && (Sound(t) ==> (AtEnd(t.file) <==> s.file.append || (AtEnd(s.file) && !a.Undoes?)))
  {
    var a := ActOf(s, policy, op);
    match a
    case Idle =>
      if op.DoFeed? {
        FeedSound(s, op.bytes);
      }
    case Keeps(n) => KeepsSound(s, n);
    case Undoes(n) => UndoesSound(s, n);
  }

  lemma ActsGrow(acts: seq<Act>, a: Act)
    ensures HasUndo(acts + [a]) <==> HasUndo(acts) || a.Undoes?
    ensures KeepsAfterUndo(acts + [a]) <==> KeepsAfterUndo(acts) || (HasUndo(acts) && a.Keeps?)
  {
    var b, n := acts + [a], |acts|;
    assert b[n] == a && forall i :: 0 <= i < n ==> b[i] == acts[i];
    if HasUndo(acts) && a.Keeps? {
      var i :| 0 <= i < n && acts[i].Undoes?;
      assert b[i].Undoes? && b[n].Keeps?;
    }
    if KeepsAfterUndo(b) {
      var i, j :| 0 <= i < j < |b| && b[i].Undoes? && b[j].Keeps?;
      assert acts[i].Undoes?;
    }
    if KeepsAfterUndo(acts) {
      var i, j :| 0 <= i < j < n && acts[i].Undoes? && acts[j].Keeps?;
      assert b[i].Undoes? && b[j].Keeps?;
    }
  }

  /** The file and the buffer are what was fed at every moment of a run exactly if the file is in append mode, or
      no bytes are kept after others were truncated away. */
  lemma {:induction false} RunSound(s: Snap, policy: Policy, ops: seq<Op>)
    requires Sound(s) && AtEnd(s.file)
    ensures AllSound(States(s, policy, ops)) <==> s.file.append || !KeepsAfterUndo(Acts(s, policy, ops))
    ensures AllSound(States(s, policy, ops)) ==>
      var t := After(s, policy, ops);
      Ready(t) && (AtEnd(t.file) <==> s.file.append || !HasUndo(Acts(s, policy, ops)))
  {
    if ops != [] {
      var front, op := ops[..|ops| - 1], ops[|ops| - 1];
      var ss, t := States(s, policy, front), After(s, policy, front);
      RunSound(s, policy, front);
      ActsGrow(Acts(s, policy, front), ActOf(t, policy, op));
      assert AllSound(ss + [After(s, policy, ops)]) <==> AllSound(ss) && Sound(After(s, policy, ops)) by {
        var more := ss + [After(s, policy, ops)];
        assert forall k :: 0 <= k < |ss| ==> more[k] == ss[k];
        assert more[|ss|] == After(s, policy, ops);
      }
      if AllSound(ss) {
        FedIs(s, policy, front);
        NextSound(t, policy, op);
      }
    }
  }

  /** Whether the server exits at this position of a run that starts with a file. */
  predicate ExitsAt(file: File, policy: Policy, noFsync: bool, ops: seq<Op>, i: nat)
    requires i < |ops|
  {
    var s, y := Start(file), Sync(|file.data|, 0);
    Exits(After(s, policy, ops[..i]), SyncAfter(s, y, policy, noFsync, ops[..i]), policy, noFsync, ops[i])
  }

  /** Unless the server exits, a run ends in the state the writes lead to. */
  method Run(file: File, policy: Policy, noFsyncOnRewrite: bool, ops: seq<Op>) returns (l: Log)
    requires AtEnd(file)
    ensures l.Valid()
    ensures l.exited <==> exists i :: 0 <= i < |ops| && ExitsAt(file, policy, noFsyncOnRewrite, ops, i)
    ensures l.exited || l.Snapshot() == After(Start(file), policy, ops)
    ensures l.exited || l.Synced() == SyncAfter(Start(file), Sync(|file.data|, 0), policy, noFsyncOnRewrite, ops)
    ensures !l.exited ==> (l.fsyncOffset < l.lastIncrSize
      <==> Behind(Start(file), Sync(|file.data|, 0), policy, noFsyncOnRewrite, ops))
    ensures l.exited || l.fed == file.data + FedBytes(ops)
    ensures !l.exited && (file.append || !KeepsAfterUndo(Acts(Start(file), policy, ops))) ==>
      l.file.data + l.buf == file.data + FedBytes(ops) && l.lastIncrSize == |l.file.data|
  {
    hide WriteTo, TruncateTo, WrittenFrom, Next, NextSync, Exits, Behind, KeepsAfterUndo, Acts;
    ghost var s, y := Start(file), Sync(|file.data|, 0);
    l := new Log(file, policy, noFsyncOnRewrite);
    assert ops[..0] == [];
    for i := 0 to |ops|
      invariant fresh(l) && !l.exited && l.Valid() && l.policy == policy && l.noFsyncOnRewrite == noFsyncOnRewrite
      invariant l.Snapshot() == After(s, policy, ops[..i])
      invariant l.Synced() == SyncAfter(s, y, policy, noFsyncOnRewrite, ops[..i])
      invariant forall j :: 0 <= j < i ==> !ExitsAt(file, policy, noFsyncOnRewrite, ops, j)
    {
      assert ops[..i + 1][..i] == ops[..i];
      l.Do(ops[i]);
      if l.exited {
        assert ExitsAt(file, policy, noFsyncOnRewrite, ops, i);
        return;
      }
    }
    assert ops[..|ops|] == ops;
    assert s.file.data + s.buf == s.fed;
    RunSound(s, policy, ops);
    FedIs(s, policy, ops);
    SyncedIff(s, y, policy, noFsyncOnRewrite, ops);
    assert After(s, policy, ops) == States(s, policy, ops)[|ops|];
  }

  function ShortThenUndone(): World { World(1, false, [Wrote(1), Failed], true, false, true) }

  function AllWell(): World { World(2, false, [], true, false, true) }

  /** One flush that does this to a file, for a server that does not wait. */
  lemma FlushIs(s: Snap, w: World, a: Act)
    requires s.buf != "" && s.postponed == 0 && WriteAct(w, |s.buf|) == a
    ensures ActOf(s, No, DoFlush(true, w)) == a && Next(s, No, DoFlush(true, w)) == Applied(s, a)
  {
    hide WriteAct;
  }

  lemma GapActs()
    ensures WriteAct(ShortThenUndone(), 2) == Undoes(1) && WriteAct(AllWell(), 2) == Keeps(2)
  {
    assert [Wrote(1), Failed][1..] == [Failed];
    assert WrittenFrom([Failed], 1, 2) == 1;
  }

  lemma AfterMore(s: Snap, policy: Policy, ops: seq<Op>, op: Op)
    ensures After(s, policy, ops + [op]) == Next(After(s, policy, ops), policy, op)
    ensures Acts(s, policy, ops + [op]) == Acts(s, policy, ops) + [ActOf(After(s, policy, ops), policy, op)]
  {
    assert (ops + [op])[..|ops|] == ops;
  }

  /** Feed two bytes, flush with a short write that is undone, flush again: a NUL is in front of the two bytes. */
  lemma GapInRun()
    ensures var ops := [DoFeed("ab")] + [DoFlush(true, ShortThenUndone())] + [DoFlush(true, AllWell())];
      && After(Start(File("", 0, false)), No, ops).file.data == "\0ab"
      && KeepsAfterUndo(Acts(Start(File("", 0, false)), No, ops))
  {
    hide After, Acts, Next, ActOf, WriteAct;
    var s, w, v := Start(File("", 0, false)), ShortThenUndone(), AllWell();
    var a, b, c := DoFeed("ab"), DoFlush(true, w), DoFlush(true, v);
    var s1, s2 := Snap(File("", 0, false), "ab", 0, 0, "ab"), Snap(File("", 1, false), "ab", 0, 0, "ab");
    FedTwo();
    AfterMore(s, No, [a], b);
    AfterMore(s, No, [a] + [b], c);
    GapActs();
    FlushIs(s1, w, Undoes(1));
    assert Applied(s1, Undoes(1)) == s2;
    FlushIs(s2, v, Keeps(2));
    assert Applied(s2, Keeps(2)).file.data == "\0ab";
    var acts := Acts(s, No, [a] + [b] + [c]);
    assert |Acts(s, No, [a])| == 1 && acts == Acts(s, No, [a]) + [Undoes(1)] + [Keeps(2)];
    assert acts[1] == Undoes(1) && acts[2] == Keeps(2);
  }

  lemma FedTwo()
    ensures After(Start(File("", 0, false)), No, [DoFeed("ab")]) == Snap(File("", 0, false), "ab", 0, 0, "ab")
  {
    var s, a := Start(File("", 0, false)), DoFeed("ab");
    assert [a][..0] == [] && "" + "ab" == "ab";
    assert After(s, No, []) == s && Next(s, No, a) == Snap(File("", 0, false), "ab", 0, 0, "ab");
  }
}
