/**
 The server side of the protocol: feeding and flushing commands, starting a
 rewrite, taking over its result, deleting obsolete files, dying, restarting.
 Every disk action first spends one unit of a budget; when the budget is used
 up the process is dead before that action, so a claim that holds for every
 budget holds for a crash at every point.
 */
module AofServer {

  import opened AofManifest
  import opened AofMemory
  import opened AofProtocol
  import opened Wrappers

  /** How writing the manifest file ends; it may fail after the new file is in place. */
  datatype Commit = Works | Fails | FailsLate

  /** None of these files is there any more. */
  ghost predicate AllGone<C>(files: map<Name, seq<C>>, infos: seq<Info>) {
    forall i :: 0 <= i < |infos| ==> infos[i].name !in files
  }

  ghost predicate OldGone<C>(files: map<Name, seq<C>>, manifest: Option<Lists>) {
    manifest.Some? ==> AllGone(files, manifest.value.history)
  }

  class Server<D(==,!new), P(==,!new), C(==,!new)> {
    const m: Model<D, P, C>
    var disk: Disk<C>
    var manifest: Manifest
    var dataset: D
    var buf: seq<seq<P>>
    var wire: seq<seq<C>>
    var current: Name
    var child: Option<Child<D>>
    var budget: nat
    var up: bool
    ghost var book: Book<P>
    ghost var heard: seq<seq<P>>
    ghost var broken: bool

    ghost function State(): State<D, P, C>
      reads this, manifest
    {
      AofMemory.State(disk, manifest.Value(), current, broken, dataset, buf, wire, heard, child, book)
    }

    ghost function Seen(): View<D, P, C>
      reads this, manifest
    {
      View(up, budget, State())
    }

    ghost predicate Valid()
      reads this, manifest
    {
      CrashSafe(m, disk, book, broken) && (up ==> Running(m, State()))
    }

    /** Disk, memory and buffer say what was flushed and fed. */
    ghost predicate IsClean()
      reads this, manifest
    {
      book.logged == book.flushed && (up ==> Clean(State()))
    }

    /** A machine on which no server ran yet. */
    constructor (m: Model<D, P, C>)
      requires EmptyIsSound(m)
      ensures Valid() && !up && !broken && this.m == m && fresh(manifest)
      ensures disk == Disk(map[], None) && book == EmptyBook()
    {
      this.m := m;
      disk := Disk(map[], None);
      manifest := new Manifest(NO_FILES);
      dataset, buf, wire, current, child := m.empty, [], [], TempFile(0), None;
      budget, up := 0, false;
      book, heard, broken := EmptyBook(), [], false;
      new;
      NothingYetIsSafe(m);
    }

    method Act() returns (alive: bool)
      modifies this`budget, this`up
      ensures alive == (old(budget) > 0)
      ensures up == (old(up) && alive)
      ensures budget == if alive then old(budget) - 1 else 0
    {
      alive := budget > 0;
      if alive {
        budget := budget - 1;
      } else {
        up := false;
      }
    }

    // -------------------------------------------------------------------------
    // Feeding and flushing
    // -------------------------------------------------------------------------

    /** Runs commands and buffers the piece of file that makes a loader run them. */
    method Feed(ps: seq<P>, w: seq<C>)
      requires Valid() && up && Movable(m, w, |ps|)
      requires m.sound(TapeOf(State()) + w) && m.read(TapeOf(State()) + w) == m.read(TapeOf(State())) + ps
      modifies this`dataset, this`buf, this`wire, this`heard
      ensures Valid() && State() == Fed(m, old(State()), ps, w) && TapeOf(State()) == TapeOf(old(State())) + w
    {
      FedRuns(m, State(), ps, w);
      dataset := Replay(m, dataset, ps);
      buf, wire, heard := buf + [ps], wire + [w], heard + [ps];
    }

    /** The first k pieces of the buffer reach the file. */
    method Write(k: nat)
      requires Running(m, State()) && k <= |buf|
      modifies this`disk, this`buf, this`wire, this`heard, this`book
      ensures State() == Written(old(State()), k) && (Clean(old(State())) ==> Clean(State()))
      ensures Running(m, State()) && CrashSafe(m, disk, book, broken) && TapeOf(State()) == TapeOf(old(State()))
    {
      hide Running, CrashSafe, Clean, Concat, Wrote, Cut, Rest, Written, FileOf, TapeOf;
      RunningShape(m, State());
      WrittenRuns(m, State(), k);
      WrittenIs(State(), k);
      RunningShape(m, Written(State(), k));
      disk := disk.(files := disk.files[current := disk.files[current] + Concat(Cut(wire, k))]);
      book := Wrote(book, Concat(Cut(buf, k)), Concat(Cut(heard, k)));
      buf, wire, heard := Rest(buf, k), Rest(wire, k), Rest(heard, k);
    }

    method Flush(k: nat)
      requires Valid() && up && k <= |buf|
      modifies this`disk, this`buf, this`wire, this`heard, this`book, this`budget, this`up
      ensures Valid() && up == (old(budget) > 0) && (up ==> budget == old(budget) - 1)
      ensures State() == if up then Written(old(State()), k) else old(State())
      ensures TapeOf(State()) == TapeOf(old(State())) && (old(IsClean()) ==> IsClean())
    {
      var alive := Act();
      if alive {
        Write(k);
      }
    }

    /** The process dies in a write that got cs to the file, of which k pieces of the buffer are heard. */
    method CrashInWrite(cs: seq<C>, ghost k: nat)
      requires Valid() && up && k <= |buf|
      requires var f := FileOf(State());
        m.sound(f + cs) && m.read(f + cs) == m.read(f) + Concat(Cut(heard, k))
      modifies this`disk, this`book, this`up
      ensures Valid() && !up && disk == Torn(old(State()), cs, k).disk && book == Torn(old(State()), cs, k).book
      ensures old(IsClean()) ==> IsClean()
    {
      RunningShape(m, State());
      TornIsSafe(m, State(), cs, k);
      disk := disk.(files := disk.files[current := disk.files[current] + cs]);
      book := Wrote(book, Concat(Cut(buf, k)), Concat(Cut(heard, k)));
      up := false;
    }

    /**
     The flush before a file switch. It may fall short, and a process dying in
     it may have written part of the buffer.
     */
    method FlushAll(short: bool, partial: nat)
      requires Valid() && up
      modifies this`disk, this`buf, this`wire, this`heard, this`book, this`budget, this`up
      ensures Valid() && up == (old(budget) > 0) && (up ==> budget == old(budget) - 1)
      ensures State() == Written(old(State()), if (up && !short) || partial > |old(buf)| then |old(buf)| else partial)
      ensures Clean(old(State())) ==> Clean(State())
    {
      var alive := Act();
      Write(if (alive && !short) || partial > |buf| then |buf| else partial);
    }

    // -------------------------------------------------------------------------
    // The manifest
    // -------------------------------------------------------------------------

    /** Writes the manifest file if it changed. */
    method Persist(am: Manifest, how: Commit) returns (ok: bool)
      modifies this`disk, this`budget, this`up, am`dirty
      ensures disk == old(disk).(manifest :=
        if old(am.dirty) && old(budget) > 0 && how != Fails then Some(am.Value()) else old(disk).manifest)
      ensures ok <==> !old(am.dirty) || (old(budget) > 0 && how == Works)
      ensures am.dirty == (old(am.dirty) && !ok) && am.Value() == old(am.Value())
      ensures up == (old(up) && (!old(am.dirty) || old(budget) > 0))
      ensures budget == if old(am.dirty) && old(budget) > 0 then old(budget) - 1 else old(budget)
    {
      if !am.dirty {
        return true;
      }
      var alive := Act();
      if !alive || how == Fails {
        return false;
      }
      disk := disk.(manifest := Some(am.Value()));
      ok := how == Works;
      am.dirty := !ok;
    }

    /** Deletes the first retired file. */
    method UnlinkFirst() returns (alive: bool)
      requires Running(m, State()) && !broken && manifest.history != []
      modifies this`disk, this`budget, this`up, manifest`history
      ensures alive == (old(budget) > 0) && up == (old(up) && alive) && budget == if alive then old(budget) - 1 else 0
      ensures State() == if alive then Unlinked(old(State())) else old(State())
      ensures Running(m, State()) && TapeOf(State()) == TapeOf(old(State()))
    {
      alive := Act();
      if alive {
        UnlinkedRuns(m, State());
        disk := disk.(files := disk.files - {manifest.history[0].name});
        manifest.history := manifest.history[1..];
      }
    }

    /** Deletes the retired files, then writes the manifest without them. */
    method DeleteHistory(disabled: bool, how: Commit)
      requires Valid() && up && !broken
      modifies this`disk, this`budget, this`up, manifest
      ensures Valid() && (old(budget) > |old(manifest.history)| ==> up)
      ensures State() == old(State()).(disk := disk, mem := manifest.Value())
      ensures manifest.Value() == old(manifest.Value()).(history := manifest.history)
      ensures TapeOf(State()) == TapeOf(old(State()))
      ensures disabled || old(manifest.history) == [] ==> up && budget == old(budget) && State() == old(State())
      ensures up && !disabled ==> manifest.history == [] && AllGone(disk.files, old(manifest.history))
      ensures up && !disabled && old(manifest.history) != [] && how == Works ==>
        disk.manifest == Some(manifest.Value())
    {
      if disabled || manifest.history == [] {
        return;
      }
      ghost var all := manifest.history;
      var n := 0;
      while manifest.history != []
        invariant Running(m, State()) && up && !broken
        invariant 0 <= n <= |all| && manifest.history == all[n..]
        invariant State() == old(State()).(disk := disk, mem := old(manifest.Value()).(history := all[n..]))
        invariant TapeOf(State()) == TapeOf(old(State()))
        invariant old(budget) > |all| ==> budget > |all| - n
        invariant AllGone(disk.files, all[..n])
        decreases |all| - n
      {
        var alive := UnlinkFirst();
        if !alive {
          RunningShape(m, State());
          return;
        }
        assert all[..n + 1] == all[..n] + [all[n]];
        n := n + 1;
      }
      assert all[..n] == all;
      manifest.dirty := true;
      PersistedRuns(m, State());
      var _ := Persist(manifest, how);
      RunningShape(m, State());
    }

    // -------------------------------------------------------------------------
    // Rewriting
    // -------------------------------------------------------------------------

    /** Creates the next INCR file, or empties one left over from an earlier attempt. */
    method CreateIncr(name: Name)
      requires Running(m, State()) && name == IncrFile(manifest.incrSeq + 1)
      modifies this`disk
      ensures Running(m, State()) && State() == WithFiles(old(State()), old(disk).files[name := []])
      ensures TapeOf(State()) == TapeOf(old(State()))
    {
      CreatedRuns(m, State());
      disk := disk.(files := disk.files[name := []]);
    }

    /** Does so, unless the process dies or the file cannot be opened. */
    method TryCreate(name: Name, opens: bool) returns (created: bool)
      requires Running(m, State()) && up && name == IncrFile(manifest.incrSeq + 1)
      modifies this`disk, this`budget, this`up
      ensures Running(m, State()) && TapeOf(State()) == TapeOf(old(State()))
      ensures created <==> opens && old(budget) > 0
      ensures up == (old(budget) > 0) && (up ==> budget == old(budget) - 1)
      ensures State() == if created then WithFiles(old(State()), old(disk).files[name := []]) else old(State())
    {
      hide Running, TapeOf;
      created := Act();
      created := created && opens;
      if created {
        CreateIncr(name);
      }
    }

    /** Writes a manifest with one more INCR file and turns to that file. */
    method SwitchTo(am: Manifest, name: Name, how: Commit) returns (ok: bool)
      requires Running(m, State()) && up && child.None? && am != manifest && am.dirty
      requires am.Value() == WithNewIncr(manifest.Value()) && name == IncrFile(am.incrSeq)
      requires name in disk.files && disk.files[name] == []
      modifies this`disk, this`budget, this`up, this`manifest, this`current, this`heard, this`broken, am`dirty
      ensures Running(m, State()) && up == (old(budget) > 0) && (up ==> budget == old(budget) - 1)
      ensures (ok <==> up && how == Works) && (broken ==> old(broken)) && disk.files == old(disk).files
      ensures ok ==> manifest == am && State() == Switched(old(State()), heard) && |heard| == |old(heard)|
      ensures !ok ==> manifest == old(manifest) && State() == old(State()).(disk := disk, broken := broken)
    {
      ghost var s := State();
      RunningShape(m, s);
      ok := Persist(am, how);
      if ok {
        TurnTo(am, name, s);
      } else if up && how == FailsLate {
        LateSwitchRuns(m, s);
        broken := false;
      }
    }

    /** Turns to the next INCR file; s is the state before its manifest was written. */
    method TurnTo(am: Manifest, name: Name, ghost s: State<D, P, C>)
      requires Running(m, s) && s.child.None?
      requires State() == s.(disk := s.disk.(manifest := Some(am.Value())))
      requires am.Value() == WithNewIncr(s.mem) && name == IncrFile(am.incrSeq)
      requires name in disk.files && disk.files[name] == []
      modifies this`manifest, this`current, this`heard, this`broken
      ensures manifest == am && Running(m, State()) && State() == Switched(s, heard) && |heard| == |s.heard|
    {
      RunningShape(m, s);
      ghost var lined := SwitchedRuns(m, s);
      current, manifest, broken, heard := name, am, false, lined;
    }

    /** Starts the next INCR file; nothing changes in memory unless the new manifest is on disk. */
    method OpenNewIncr(opens: bool, how: Commit) returns (ok: bool)
      requires Valid() && up && child.None?
      modifies this`disk, this`budget, this`up, this`manifest, this`current, this`heard, this`broken
      ensures Valid() && (manifest == old(manifest) || fresh(manifest)) && (broken ==> old(broken))
      ensures ok <==> opens && how == Works && old(budget) > 1
      ensures (old(budget) > 1 ==> up && budget >= old(budget) - 2) && (up && opens && how == Works ==> ok)
      ensures ok ==> up && !broken && FileOf(State()) == [] && |heard| == |buf|
      ensures ok ==> manifest.Value() == WithNewIncr(old(manifest.Value())) && disk.manifest == Some(manifest.Value())
      ensures !ok ==>
        State() == old(State()).(disk := disk, broken := broken) && TapeOf(State()) == TapeOf(old(State()))
    {
      hide Running, CrashSafe, Concat;
      var am := manifest.Dup();
      var name := am.NewIncrName();
      var created := TryCreate(name, opens);
      ok := false;
      if created {
        ok := SwitchTo(am, name, how);
      }
      RunningShape(m, State());
    }

    /** The child gets a snapshot of the dataset. */
    method Fork(pid: nat)
      requires Running(m, State()) && child.None? && !broken && FileOf(State()) == []
      modifies this`child, this`book
      ensures Running(m, State()) && CrashSafe(m, disk, book, broken) && State() == WithChild(old(State()), pid)
    {
      WithChildRuns(m, State(), pid);
      child := Some(Child(pid, dataset));
      book := Forked(book, Concat(buf));
      RunningShape(m, State());
    }

    /** Switches to a new INCR file and forks a child. */
    method OpenAndFork(pid: nat, opens: bool, how: Commit, forks: bool)
      requires Valid() && up && child.None?
      modifies this`disk, this`budget, this`up, this`manifest, this`current, this`heard, this`broken, this`child,
          this`book
      ensures Valid() && (manifest == old(manifest) || fresh(manifest)) && (broken ==> old(broken))
      ensures old(budget) > 1 ==> up && budget >= old(budget) - 2
      ensures up ==> (child.Some? <==> opens && how == Works && forks)
      ensures child.Some? ==> child.value == Child(pid, dataset) && FileOf(State()) == [] && book == Forked(old(book),
          Concat(buf))
      ensures child.None? ==> book == old(book)
      ensures old(Clean(State())) && buf == [] ==> Clean(State())
    {
      var ok := OpenNewIncr(opens, how);
      if ok && forks {
        Fork(pid);
      }
    }

    /** Flushes, switches to a new INCR file and forks a child. The flush may fall short,
        and leave commands in the buffer. */
    method StartRewrite(pid: nat, short: bool, partial: nat, opens: bool, how: Commit, forks: bool)
      requires Valid() && up
      modifies this`disk, this`buf, this`wire, this`heard, this`book, this`budget, this`up, this`manifest, this`current,
        this`child, this`broken
      ensures Valid() && (manifest == old(manifest) || fresh(manifest)) && (broken ==> old(broken))
      ensures old(budget) > 2 ==> up && budget >= old(budget) - 3
      ensures old(child).Some? ==> Seen() == old(Seen())
      ensures up && old(child).None? ==> (child.Some? <==> opens && how == Works && forks)
      ensures var w := Written(old(State()), if short && partial <= |old(buf)| then partial else |old(buf)|);
        up && old(child).None? && child.Some? ==>
          && buf == w.buf && book == Forked(w.book, Concat(buf))
          && child.value == Child(pid, dataset) && FileOf(State()) == []
      ensures old(IsClean()) && !short ==> IsClean()
    {
      if child.None? {
        FlushAll(short, partial);
        if up {
          OpenAndFork(pid, opens, how, forks);
        }
      }
    }

    /** The child writes its own file, to which no manifest refers. */
    method WriteTempFile(pid: nat, cs: seq<C>)
      requires Running(m, State())
      modifies this`disk
      ensures Running(m, State()) && CrashSafe(m, disk, book, broken)
      ensures State() == WithFiles(old(State()), old(disk).files[TempFile(pid) := cs])
      ensures TapeOf(State()) == TapeOf(old(State()))
    {
      TempWrittenRuns(m, State(), pid, cs);
      disk := disk.(files := disk.files[TempFile(pid) := cs]);
      RunningShape(m, State());
    }

    method RemoveTempFile(pid: nat)
      requires Running(m, State()) && up
      modifies this`disk, this`child, this`budget, this`up
      ensures Running(m, State()) && up == (old(budget) > 0) && child.None? && (up ==> budget == old(budget) - 1)
      ensures disk == if up then old(disk).(files := old(disk).files - {TempFile(pid)}) else old(disk)
      ensures TapeOf(State()) == TapeOf(old(State()))
    {
      var alive := Act();
      if alive {
        TempRemovedRuns(m, State(), pid);
        disk := disk.(files := disk.files - {TempFile(pid)});
      }
      ChildGoneRuns(m, State());
      child := None;
    }

    /** Moves the child's file to the new BASE name. */
    method RenameToBase(name: Name)
      requires Running(m, State()) && !broken && child.Some? && name == BaseFile(manifest.baseSeq + 1)
      requires TempFile(child.value.pid) in disk.files && Dumps(m, disk.files[TempFile(child.value.pid)],
          child.value.snapshot)
      modifies this`disk
      ensures Running(m, State()) && FileOf(State()) == FileOf(old(State()))
      ensures HasNewBase(m, disk.files, manifest.Value(), book.forked)
      ensures State() == WithFiles(old(State()), Renamed(old(disk).files, TempFile(child.value.pid), name))
    {
      RenamedRuns(m, State(), child.value.pid);
      disk := disk.(files := Renamed(disk.files, TempFile(child.value.pid), name));
    }

    /**
     Writes the manifest of a finished rewrite. After a failure the new BASE
     file is deleted, even if the new manifest is in place already.
     */
    method CommitRewrite(am: Manifest, how: Commit) returns (ok: bool)
      requires Running(m, State()) && up && child.Some? && am != manifest && am.dirty
      requires am.Value() == AfterRewrite(manifest.Value()) && HasNewBase(m, disk.files, manifest.Value(), book.forked)
      modifies this`disk, this`budget, this`up, this`manifest, this`book, this`child, this`broken, am`dirty
      ensures Valid() && (ok <==> up && how == Works) && (old(budget) > 1 ==> up && budget >= old(budget) - 2)
      ensures manifest == if ok then am else old(manifest)
      ensures (broken <==> up && how == FailsLate) && FileOf(State()) == FileOf(old(State()))
      ensures book == old(book) || book == Committed(old(book), m.read(FileOf(old(State()))))
      ensures ok ==> State() == TakenOver(m, old(State()))
      ensures child.Some? ==> child == old(child)
    {
      hide Running, CrashSafe, HasNewBase, AfterRewrite;
      ghost var s := State();
      RunningShape(m, s);
      TakenOverRuns(m, s);
      ok := Persist(am, how);
      if ok {
        manifest := am;
        book := Committed(book, m.read(FileOf(s)));
      } else if up {
        UndoRewrite(how == FailsLate, s);
      }
    }

    /** Deletes the new BASE file; s is the state before the commit, which may have taken effect. */
    method UndoRewrite(late: bool, ghost s: State<D, P, C>)
      requires Running(m, s) && !s.broken && up
      requires State() == s.(disk := disk)
          && disk == s.disk.(manifest := if late then Some(AfterRewrite(s.mem)) else s.disk.manifest)
      requires CrashSafe(m, disk, TakenOver(m, s).book, false) || !late
      modifies this`disk, this`budget, this`up, this`book, this`child, this`broken
      ensures CrashSafe(m, disk, book, broken) && up == (old(budget) > 0) && (up ==> Running(m, State()))
      ensures up ==> budget == old(budget) - 1
      ensures up && !late ==> State() == s.(disk := disk) && disk.manifest == s.disk.manifest
      ensures up && late ==> State() == LateBroken(s).(child := None)
      ensures !up ==> State() == old(State()).(book := if late then TakenOver(m, s).book else s.book)
      ensures FileOf(State()) == FileOf(s)
    {
      RunningShape(m, s);
      var alive := Act();
      if !alive {
        if late {
          book := TakenOver(m, s).book;
        }
      } else {
        disk := disk.(files := disk.files - {BaseFile(manifest.baseSeq + 1)});
        if late {
          LateBrokenRuns(m, s);
          child, broken := None, true;
        } else {
          BaseUnlinkedRuns(m, s);
        }
        RunningShape(m, State());
      }
    }

    /** Moves the child's file into place, if that works. */
    method MoveToBase(name: Name, renames: bool) returns (ok: bool)
      requires Running(m, State()) && !broken && up && child.Some? && name == BaseFile(manifest.baseSeq + 1)
      requires TempFile(child.value.pid) in disk.files && Dumps(m, disk.files[TempFile(child.value.pid)],
          child.value.snapshot)
      modifies this`disk, this`budget, this`up
      ensures Running(m, State()) && FileOf(State()) == FileOf(old(State())) && disk.manifest == old(disk.manifest)
      ensures up == (old(budget) > 0) && (up ==> budget == old(budget) - 1) && (ok <==> renames && up)
      ensures ok ==> HasNewBase(m, disk.files, manifest.Value(), book.forked)
    {
      var alive := Act();
      ok := alive && renames;
      if ok {
        RenameToBase(name);
      }
    }

    /** Moves the child's file into place and makes the manifest for it. */
    method PrepareBase(renames: bool) returns (am: Manifest, ok: bool)
      requires Running(m, State()) && !broken && up && child.Some?
      requires TempFile(child.value.pid) in disk.files && Dumps(m, disk.files[TempFile(child.value.pid)],
          child.value.snapshot)
      modifies this`disk, this`budget, this`up
      ensures Running(m, State()) && FileOf(State()) == FileOf(old(State())) && disk.manifest == old(disk.manifest)
      ensures up == (old(budget) > 0) && (up ==> budget == old(budget) - 1) && (ok <==> renames && up)
      ensures ok ==> HasNewBase(m, disk.files, manifest.Value(), book.forked)
      ensures fresh(am) && (ok ==> am.Value() == AfterRewrite(manifest.Value()) && am.dirty)
    {
      hide Running, HasNewBase, Dumps;
      am := manifest.Dup();
      var name := am.NewBaseName();
      ok := MoveToBase(name, renames);
      if ok {
        am.MarkRewritten(true);
      }
    }

    /** Makes the child's file the new BASE file. */
    method TakeOver(renames: bool, how: Commit) returns (ok: bool)
      requires Valid() && up && child.Some? && TempFile(child.value.pid) in disk.files
      requires Dumps(m, disk.files[TempFile(child.value.pid)], child.value.snapshot)
      modifies this`disk, this`budget, this`up, this`manifest, this`book, this`child, this`broken
      ensures Valid() && (manifest == old(manifest) || fresh(manifest)) && TapeOf(State()) == TapeOf(old(State()))
      ensures (ok <==> up && renames && how == Works) && (old(budget) > 2 ==> up && budget >= old(budget) - 3)
      ensures ok ==> manifest.Value() == AfterRewrite(old(manifest.Value()))
      ensures broken <==> up && renames && how == FailsLate
      ensures book == old(book).(logged := book.logged)
      ensures ok && book.memory == book.flushed ==> (book.logged == book.flushed <==> book.left == [])
      ensures Clean(old(State())) ==> IsClean()
    {
      hide Running, CrashSafe, Dumps, HasNewBase, AfterRewrite, Concat;
      RunningShape(m, State());
      TakenOverIsClean(m, State());
      var am, prepared := PrepareBase(renames);
      ok := false;
      RunningShape(m, State());
      if prepared {
        ok := CommitRewrite(am, how);
      }
    }

    /** Deletes what a rewrite has made obsolete, and the child's file if it is still there. */
    method CleanUp(pid: nat, done: bool, disabled: bool, again: Commit)
      requires Valid() && up && (done ==> !broken)
      modifies this`disk, this`budget, this`up, this`child, manifest
      ensures Valid() && (up ==> child.None? && TapeOf(State()) == TapeOf(old(State())))
      ensures WithoutHistory(manifest.Value()) == WithoutHistory(old(manifest.Value()))
      ensures old(IsClean()) ==> IsClean()
      ensures disabled && old(budget) > 0 ==> up && budget == old(budget) - 1
      ensures up && done && !disabled ==> manifest.history == [] && AllGone(disk.files, old(manifest.history))
    {
      if done {
        DeleteHistory(disabled, again);
      }
      if up {
        RemoveTempFile(pid);
        RunningShape(m, State());
      }
    }

    /** The child exited with success, and its file holds cs. */
    method ChildDone(cs: seq<C>, renames: bool, how: Commit, disabled: bool, again: Commit)
      requires Valid() && up && child.Some? && Dumps(m, cs, child.value.snapshot)
      modifies this`disk, this`budget, this`up, this`manifest, this`book, this`child, this`broken, manifest
      ensures Valid() && (manifest == old(manifest) || fresh(manifest))
      ensures up ==> child.None? && TapeOf(State()) == TapeOf(old(State()))
      ensures up && renames && how == Works ==>
        WithoutHistory(manifest.Value()) == WithoutHistory(AfterRewrite(old(manifest.Value())))
      ensures book == old(book).(logged := book.logged)
      ensures up && renames && how == Works && book.memory == book.flushed ==>
        (book.logged == book.flushed <==> book.left == [])
      ensures (broken ==> renames && how == FailsLate) && (up && renames && how == FailsLate ==> broken)
      ensures old(IsClean()) ==> IsClean()
      ensures disabled && old(budget) > 3 ==> up
      ensures up && renames && how == Works && !disabled ==>
        manifest.history == [] && AllGone(disk.files, AfterRewrite(old(manifest.Value())).history)
    {
      var pid := child.value.pid;
      WriteTempFile(pid, cs);
      RunningShape(m, State());
      var ok := TakeOver(renames, how);
      if up {
        CleanUp(pid, ok, disabled, again);
      }
    }

    /** The child exited with an error or was killed. */
    method ChildFailed()
      requires Valid() && up && child.Some?
      modifies this`disk, this`child, this`budget, this`up
      ensures Valid() && child.None? && disk.manifest == old(disk.manifest)
      ensures TapeOf(State()) == TapeOf(old(State())) && (old(IsClean()) ==> IsClean())
    {
      RemoveTempFile(child.value.pid);
      RunningShape(m, State());
    }

    // -------------------------------------------------------------------------
    // Dying and restarting
    // -------------------------------------------------------------------------

    method Crash()
      requires Valid()
      modifies this`up
      ensures Valid() && !up && (old(IsClean()) ==> IsClean())
    {
      up := false;
    }

    /** Loads the files a manifest names, one after the other; a missing file is fatal. */
    method LoadFiles(l: Lists) returns (ok: bool, d: D)
      ensures ok == AllExist(disk.files, Live(l))
      ensures ok ==> d == Effect(m, Contents(m, disk.files, Live(l)))
    {
      var names := Live(l);
      d := m.empty;
      for i := 0 to |names|
        invariant AllExist(disk.files, names[..i])
        invariant d == Effect(m, Contents(m, disk.files, names[..i]))
      {
        if names[i] !in disk.files {
          return false, d;
        }
        var ps := m.read(disk.files[names[i]]);
        ContentsLast(m, disk.files, names[..i], names[i]);
        ReplayConcat(m, m.empty, Contents(m, disk.files, names[..i]), ps);
        assert names[..i + 1] == names[..i] + [names[i]];
        d := Replay(m, d, ps);
      }
      assert names[..|names|] == names;
      ok := true;
    }

    /** A new process reads the manifest and loads the files it names. */
    method Load() returns (ok: bool)
      requires Valid()
      modifies this`manifest, this`dataset, this`buf, this`wire, this`heard, this`child
      ensures CrashSafe(m, disk, book, broken) && fresh(manifest) && !manifest.dirty
      ensures ok == !broken
      ensures manifest.Value() == if disk.manifest.Some? then disk.manifest.value else NO_FILES
      ensures buf == [] && wire == [] && heard == [] && child.None?
      ensures ok ==> dataset == Effect(m, book.logged)
    {
      hide Running, CrashSafe, Effect;
      var l := if disk.manifest.Some? then disk.manifest.value else NO_FILES;
      manifest := new Manifest(l);
      buf, wire, heard, child := [], [], [], None;
      LoadFinds(m, disk, book, broken);
      ok, dataset := LoadFiles(l);
    }

    /** Loaded, but with no manifest on disk yet. */
    ghost predicate Unlisted()
      reads this, manifest
    {
      && CrashSafe(m, disk, book, broken) && !broken && disk.manifest.None? && !up
      && buf == [] && wire == [] && heard == [] && child.None? && dataset == Effect(m, book.logged)
    }

    /** Writes a first BASE file. */
    method CreateFirstBase(first: seq<C>) returns (alive: bool)
      requires Unlisted() && manifest.Value() == NO_FILES && m.sound(first)
      modifies this`disk, this`budget, this`up, manifest
      ensures Unlisted() && manifest.Value() == WithNewBase(NO_FILES) && manifest.dirty
      ensures alive == (old(budget) > 0) && budget == if alive then old(budget) - 1 else 0
      ensures alive ==> BaseFile(1) in disk.files && disk.files[BaseFile(1)] == first
    {
      var name := manifest.NewBaseName();
      alive := Act();
      if alive {
        UnlistedIsSafe(m, disk, book, disk.files[name := first]);
        disk := disk.(files := disk.files[name := first]);
      }
    }

    /** Opens the first INCR file. */
    method OpenFirstIncr(first: seq<C>) returns (alive: bool)
      requires Unlisted() && manifest.Value() == WithNewBase(NO_FILES) && manifest.dirty
      requires BaseFile(1) in disk.files && disk.files[BaseFile(1)] == first
      modifies this`disk, this`budget, this`up, this`current, manifest
      ensures Unlisted() && manifest.Value() == WithNewIncr(WithNewBase(NO_FILES)) && manifest.dirty
      ensures alive == (old(budget) > 0) && budget == if alive then old(budget) - 1 else 0
      ensures alive ==> BaseFile(1) in disk.files && disk.files[BaseFile(1)] == first
      ensures alive ==> current == IncrFile(1) && IncrFile(1) in disk.files
    {
      var name := manifest.LastIncrName();
      alive := Act();
      if !alive {
        return;
      }
      if name !in disk.files {
        UnlistedIsSafe(m, disk, book, disk.files[name := []]);
        disk := disk.(files := disk.files[name := []]);
      }
      current := name;
    }

    /** Writes the first manifest. */
    method WriteFirstManifest(first: seq<C>, how: Commit) returns (ok: bool)
      requires Unlisted() && manifest.Value() == WithNewIncr(WithNewBase(NO_FILES)) && manifest.dirty
      requires BaseFile(1) in disk.files && disk.files[BaseFile(1)] == first && Dumps(m, first, m.empty)
      requires current == IncrFile(1) && IncrFile(1) in disk.files
      modifies this`disk, this`budget, this`up, this`book, manifest`dirty
      ensures CrashSafe(m, disk, book, broken) && !up
      ensures ok ==> Running(m, State())
      ensures book == if ok then Restarted(old(book)) else old(book)
      ensures how == Works && old(budget) > 0 ==> ok && budget == old(budget) - 1
    {
      FirstRuns(m, disk, book);
      ghost var s := Started(m, disk.(manifest := Some(manifest.Value())), manifest.Value(), IncrFile(1), book);
      RunningShape(m, s);
      ok := Persist(manifest, how);
      if ok {
        book := Restarted(book);
      }
    }

    /** Opens the last INCR file the manifest names. */
    method OpenLastIncr(how: Commit) returns (ok: bool)
      requires CrashSafe(m, disk, book, broken) && !broken && !up && disk.manifest == Some(manifest.Value())
          && !manifest.dirty
      requires buf == [] && wire == [] && heard == [] && child.None? && dataset == Effect(m, book.logged)
      modifies this`disk, this`budget, this`up, this`current, this`book, manifest
      ensures CrashSafe(m, disk, book, broken) && !up && disk == old(disk) && manifest.Value() == old(manifest.Value())
      ensures ok == (old(budget) > 0) && (ok ==> Running(m, State()) && budget == old(budget) - 1)
      ensures book == if ok then Restarted(old(book)) else old(book)
    {
      hide Running, CrashSafe, Effect;
      StartedRuns(m, disk, book);
      RunningShape(m, Started(m, disk, manifest.Value(), LastIncr(manifest.Value()), book));
      var name := manifest.LastIncrName();
      ok := Act();
      if ok {
        current := name;
        var _ := Persist(manifest, how);
        book := Restarted(book);
      }
    }

    /** Makes the first files of a server that has none. */
    method OpenFirst(first: seq<C>, how: Commit) returns (ok: bool)
      requires Unlisted() && manifest.Value() == NO_FILES && Dumps(m, first, m.empty)
      modifies this`disk, this`budget, this`up, this`current, this`book, manifest
      ensures CrashSafe(m, disk, book, broken) && !up && (ok ==> Running(m, State()))
      ensures book == if ok then Restarted(old(book)) else old(book)
      ensures how == Works && old(budget) > 2 ==> ok && budget == old(budget) - 3
      ensures manifest.history == []
    {
      ok := CreateFirstBase(first);
      if ok {
        ok := OpenFirstIncr(first);
        if ok {
          ok := WriteFirstManifest(first, how);
        }
      }
    }

    /** Opens the last INCR file of the manifest, or makes the first files. */
    method OpenFiles(first: seq<C>, how: Commit) returns (ok: bool)
      requires CrashSafe(m, disk, book, broken) && !broken && !up && !manifest.dirty && Dumps(m, first, m.empty)
      requires manifest.Value() == if disk.manifest.Some? then disk.manifest.value else NO_FILES
      requires buf == [] && wire == [] && heard == [] && child.None? && dataset == Effect(m, book.logged)
      modifies this`disk, this`budget, this`up, this`current, this`book, manifest
      ensures CrashSafe(m, disk, book, broken) && !up && (ok ==> Running(m, State()))
      ensures book == if ok then Restarted(old(book)) else old(book)
      ensures how == Works && old(budget) > 2 ==> ok && budget >= old(budget) - 3
      ensures manifest.history == old(manifest.history)
    {
      hide Running, CrashSafe, Dumps, Effect;
      if disk.manifest.Some? {
        ok := OpenLastIncr(how);
      } else {
        ok := OpenFirst(first, how);
      }
    }

    /** Loads, opens the last file, drops the history. A manifest with a missing file keeps it from starting. */
    method Restart(first: seq<C>, newBudget: nat, how: Commit, disabled: bool, again: Commit)
      requires Valid() && !up && Dumps(m, first, m.empty)
      modifies this`disk, this`manifest, this`dataset, this`buf, this`wire, this`heard, this`current, this`child,
        this`budget, this`up, this`book
      ensures Valid() && fresh(manifest) && (broken ==> !up)
      ensures book.flushed == old(book).flushed && book.logged == old(book).logged
      ensures up ==> dataset == Effect(m, book.logged) && book.memory == book.logged && buf == [] && child.None?
      ensures var n := if old(disk).manifest.Some? then |old(disk).manifest.value.history| else 0;
        !broken && how == Works && newBudget > 3 + n ==> up && (disabled ==> budget >= newBudget - 3)
      ensures up && !disabled ==> manifest.history == [] && OldGone(disk.files, old(disk).manifest)
      ensures old(IsClean()) ==> IsClean()
    {
      hide Running, CrashSafe, Dumps, Effect, Concat;
      var ok := Load();
      if !ok {
        return;
      }
      budget := newBudget;
      ok := OpenFiles(first, how);
      if ok {
        up := true;
        RunningShape(m, State());
        DeleteHistory(disabled, again);
      }
    }
  }

  // ---------------------------------------------------------------------------
  // Runs
  // ---------------------------------------------------------------------------

  datatype Op<P, C> =
    | DoFeed(ps: seq<P>, w: seq<C>)
    | DoFlush(k: nat)
    | DoStart(pid: nat, short: bool, partial: nat, opens: bool, how: Commit, forks: bool)
    | DoChildWrites(cs: seq<C>)
    | DoChildDone(cs: seq<C>, renames: bool, how: Commit, disabled: bool, again: Commit)
    | DoChildFailed
    | DoCrash
    | DoRestart(first: seq<C>, newBudget: nat, how: Commit, disabled: bool, again: Commit)

  /** Whatever stands before it, a fed piece adds as many commands as it was made for. */
  ghost predicate GoodOp<D, P, C(!new)>(m: Model<D, P, C>, op: Op<P, C>) {
    op.DoFeed? ==> Movable(m, op.w, |op.ps|)
  }

  /** The flush before a rewrite falls short. */
  predicate FallsShort<P, C>(op: Op<P, C>) { op.DoStart? && op.short }

  /** The manifest of a finished rewrite is in place, but its commit is reported to have failed. */
  predicate FailsLate<P, C>(op: Op<P, C>) { op.DoChildDone? && op.renames && op.how == Commit.FailsLate }

  /** A server between two steps: whether it is up, how many disk actions are left, and its state. */
  datatype View<!D, !P, !C> = View(up: bool, budget: nat, state: State<D, P, C>)

  /** A rewrite was started, unless one is under way; nothing but the outside world keeps it from getting a child. */
  ghost predicate Begun<D, P, C>(v: View<D, P, C>, op: Op<P, C>, v': View<D, P, C>)
    requires op.DoStart?
  {
    var s, s' := v.state, v'.state;
    if s.child.Some? then v' == v
    else
      && (v.budget > 2 ==> v'.up)
      && (v'.up ==> (s'.child.Some? <==> op.opens && op.how == Works && op.forks))
      && (v'.up && s'.child.Some? ==>
        var w := Written(s, if op.short && op.partial <= |s.buf| then op.partial else |s.buf|);
        && s'.child.value == Child(op.pid, s'.dataset) && FileOf(s') == []
        && s'.buf == w.buf && s'.book == Forked(w.book, Concat(w.buf)))
  }

  /** The child's file took the place of the old ones, which are gone, unless that did not work. */
  ghost predicate Done<D, P, C>(v: View<D, P, C>, op: Op<P, C>, v': View<D, P, C>)
    requires op.DoChildDone?
  {
    var s, s' := v.state, v'.state;
    && s'.book == s.book.(logged := s'.book.logged)
    && (op.disabled && v.budget > 3 ==> v'.up)
    && (v'.up ==> s'.child.None? && TapeOf(s') == TapeOf(s))
    && (v'.up && op.renames && op.how == Works ==>
      && WithoutHistory(s'.mem) == WithoutHistory(AfterRewrite(s.mem))
      && (!op.disabled ==> s'.mem.history == [] && AllGone(s'.disk.files, AfterRewrite(s.mem).history)))
  }

  /** The server came up with what the disk says, or did not come up. */
  ghost predicate CameUp<D, P, C(!new)>(m: Model<D, P, C>, v: View<D, P, C>, op: Op<P, C>, v': View<D, P, C>)
    requires op.DoRestart?
  {
    var s, s' := v.state, v'.state;
    var retired := if s.disk.manifest.Some? then |s.disk.manifest.value.history| else 0;
    && s'.book.flushed == s.book.flushed && s'.book.logged == s.book.logged
    && (s'.broken ==> !v'.up)
    && (!s'.broken && op.how == Works && op.newBudget > 3 + retired ==> v'.up)
    && (v'.up ==>
      && s'.dataset == Effect(m, s'.book.logged) && s'.book.memory == s'.book.logged
      && s'.buf == [] && s'.child.None?
      && (!op.disabled ==> s'.mem.history == [] && OldGone(s'.disk.files, s.disk.manifest)))
  }

  /** What a step does; steps that are not possible do nothing. */
  ghost predicate Happens<D, P, C(!new)>(m: Model<D, P, C>, v: View<D, P, C>, op: Op<P, C>, v': View<D, P, C>) {
    var s := v.state;
    if !v.up then
      if op.DoRestart? && Dumps(m, op.first, m.empty) then CameUp(m, v, op, v') else v' == v
    else
      match op
      case DoFeed(ps, w) =>
        var fits := m.sound(TapeOf(s) + w) && m.read(TapeOf(s) + w) == m.read(TapeOf(s)) + ps;
        v' == if fits then v.(state := Fed(m, s, ps, w)) else v
      case DoFlush(k) =>
        && v'.up == (v.budget > 0)
        && v'.state == if v.budget > 0 then Written(s, if k <= |s.buf| then k else |s.buf|) else s
      case DoStart(_, _, _, _, _, _) => Begun(v, op, v')
      case DoChildWrites(cs) =>
        v' == if s.child.Some? then v.(state := WithFiles(s, s.disk.files[TempFile(s.child.value.pid) := cs])) else v
      case DoChildDone(cs, _, _, _, _) =>
        if s.child.Some? && Dumps(m, cs, s.child.value.snapshot) then Done(v, op, v') else v' == v
      case DoChildFailed =>
        if s.child.Some? then
          && v'.state.child.None? && v'.state.disk.manifest == s.disk.manifest && TapeOf(v'.state) == TapeOf(s)
        else v' == v
      case DoCrash => v' == v.(up := false)
      case DoRestart(_, _, _, _, _) => v' == v
  }

  /** A step of a server that is down. */
  method StepDown<D(==,!new), P(==,!new), C(==,!new)>(s: Server<D, P, C>, op: Op<P, C>)
    requires s.Valid() && GoodOp(s.m, op) && !s.up
    modifies s, s.manifest
    ensures s.Valid() && (s.manifest == old(s.manifest) || fresh(s.manifest))
    ensures !old(s.broken) && !FailsLate(op) ==> !s.broken
    ensures old(s.IsClean()) && !FallsShort(op) ==> s.IsClean()
    ensures Happens(s.m, old(s.Seen()), op, s.Seen())
  {
    hide Running, CrashSafe, Dumps, Effect, Written, AfterRewrite, WithoutHistory, AllGone, Concat;
    if op.DoRestart? && Dumps(s.m, op.first, s.m.empty) {
      s.Restart(op.first, op.newBudget, op.how, op.disabled, op.again);
    }
  }

  /** A step of the child, if there is one. */
  method StepChild<D(==,!new), P(==,!new), C(==,!new)>(s: Server<D, P, C>, op: Op<P, C>)
    requires s.Valid() && GoodOp(s.m, op) && s.up && (op.DoChildWrites? || op.DoChildDone? || op.DoChildFailed?)
    modifies s, s.manifest
    ensures s.Valid() && (s.manifest == old(s.manifest) || fresh(s.manifest))
    ensures !old(s.broken) && !FailsLate(op) ==> !s.broken
    ensures old(s.IsClean()) && !FallsShort(op) ==> s.IsClean()
    ensures Happens(s.m, old(s.Seen()), op, s.Seen())
  {
    hide Running, CrashSafe, Dumps, Effect, Written, AfterRewrite, WithoutHistory, AllGone, Concat;
    if s.child.Some? {
      match op
      case DoChildWrites(cs) => s.WriteTempFile(s.child.value.pid, cs);
      case DoChildDone(cs, renames, how, disabled, again) =>
        if Dumps(s.m, cs, s.child.value.snapshot) {
          s.ChildDone(cs, renames, how, disabled, again);
        }
      case DoChildFailed => s.ChildFailed();
    }
  }

  /** A step of a server that is up. */
  method StepUp<D(==,!new), P(==,!new), C(==,!new)>(s: Server<D, P, C>, op: Op<P, C>)
    requires s.Valid() && GoodOp(s.m, op) && s.up && !op.DoChildWrites? && !op.DoChildDone? && !op.DoChildFailed?
    modifies s, s.manifest
    ensures s.Valid() && (s.manifest == old(s.manifest) || fresh(s.manifest))
    ensures !old(s.broken) && !FailsLate(op) ==> !s.broken
    ensures old(s.IsClean()) && !FallsShort(op) ==> s.IsClean()
    ensures Happens(s.m, old(s.Seen()), op, s.Seen())
  {
    hide Running, CrashSafe, Dumps, Effect, Written, AfterRewrite, WithoutHistory, AllGone, Concat;
    match op
    case DoFeed(ps, w) =>
      RunningShape(s.m, s.State());
      var line := s.disk.files[s.current] + Concat(s.wire);
      if s.m.sound(line + w) && s.m.read(line + w) == s.m.read(line) + ps {
        s.Feed(ps, w);
      }
    case DoFlush(k) => s.Flush(if k <= |s.buf| then k else |s.buf|);
    case DoStart(pid, short, partial, opens, how, forks) => s.StartRewrite(pid, short, partial, opens, how, forks);
    case DoCrash => s.Crash();
    case DoRestart(_, _, _, _, _) =>
  }

  /** One step, if it is possible in the present state: the server feeds what loads as fed,
      the child dumps its snapshot. */
  method Step<D(==,!new), P(==,!new), C(==,!new)>(s: Server<D, P, C>, op: Op<P, C>)
    requires s.Valid() && GoodOp(s.m, op)
    modifies s, s.manifest
    ensures s.Valid() && (s.manifest == old(s.manifest) || fresh(s.manifest))
    ensures !old(s.broken) && !FailsLate(op) ==> !s.broken
    ensures old(s.IsClean()) && !FallsShort(op) ==> s.IsClean()
    ensures Happens(s.m, old(s.Seen()), op, s.Seen())
  {
    hide Happens, Running, CrashSafe, GoodOp;
    if !s.up {
      StepDown(s, op);
    } else if op.DoChildWrites? || op.DoChildDone? || op.DoChildFailed? {
      StepChild(s, op);
    } else {
      StepUp(s, op);
    }
  }

  /**
   From a machine on which no server ran yet, after any steps: the files the
   manifest names exist, load without error and replay to the effect of all
   flushed commands, and the dataset of a running server is the effect of the
   flushed and the buffered ones, unless a flush before a rewrite fell short or
   the commit of a rewrite was reported to have failed after it took effect.
   */
  method Run<D(==,!new), P(==,!new), C(==,!new)>(m: Model<D, P, C>, ops: seq<Op<P, C>>)
    returns (s: Server<D, P, C>, ghost views: seq<View<D, P, C>>)
    requires EmptyIsSound(m) && forall i :: 0 <= i < |ops| ==> GoodOp(m, ops[i])
    ensures s.m == m
    ensures if s.broken then Lost(s.disk) else DiskGood(m, s.disk, s.book.logged)
    ensures s.up ==> s.dataset == Effect(m, s.book.memory + Concat(s.buf))
    ensures (forall i :: 0 <= i < |ops| ==> !FailsLate(ops[i])) ==> !s.broken
    ensures (forall i :: 0 <= i < |ops| ==> !FallsShort(ops[i])) ==>
      s.book.logged == s.book.flushed && (s.up ==> s.book.memory == s.book.flushed)
    ensures |views| == |ops| + 1 && views[|ops|] == s.Seen()
    ensures !views[0].up && views[0].state.disk == Disk(map[], None) && views[0].state.book == EmptyBook()
    ensures forall i :: 0 <= i < |ops| ==> Happens(m, views[i], ops[i], views[i + 1])
  {
    hide Happens;
    s := new Server(m);
    views := [s.Seen()];
    for i := 0 to |ops|
      invariant |views| == i + 1 && views[i] == s.Seen()
      invariant !views[0].up && views[0].state.disk == Disk(map[], None) && views[0].state.book == EmptyBook()
      invariant forall j :: 0 <= j < i ==> Happens(m, views[j], ops[j], views[j + 1])
      invariant fresh(s) && fresh(s.manifest) && s.m == m && s.Valid()
      invariant (forall j :: 0 <= j < i ==> !FailsLate(ops[j])) ==> !s.broken
      invariant (forall j :: 0 <= j < i ==> !FallsShort(ops[j])) ==> s.IsClean()
    {
      Step(s, ops[i]);
      views := views + [s.Seen()];
    }
    SafeMeans(m, s.disk, s.book, s.broken);
    if s.up {
      RunningShape(m, s.State());
    }
  }

  // ---------------------------------------------------------------------------
  // Runs that go wrong
  // ---------------------------------------------------------------------------

  /** Every command is kept as it is, and the dataset remembers them all. */
  function PlainLog(): Model<seq<nat>, nat, nat> { LogModel((cs: seq<nat>) => cs, (cs: seq<nat>) => true) }

  /** A fresh server that has been fed one command. */
  method FedOnce(c: nat) returns (s: Server<seq<nat>, nat, nat>)
    ensures fresh(s) && fresh(s.manifest) && s.m == PlainLog() && s.Valid() && s.up && !s.broken && s.child.None?
    ensures s.book.flushed == [] && s.book.memory == [] && s.buf == [[c]] && s.dataset == [c] && s.budget >= 97
  {
    var m := PlainLog();
    s := new Server(m);
    s.Restart([], 100, Works, true, Works);
    RunningShape(m, s.State());
    s.Feed([c], [c]);
    assert s.dataset == Replay(m, [], [c]);
    LogReplay(m.read, m.sound, [], [c]);
  }

  lemma PlainDump(c: nat)
    ensures Dumps(PlainLog(), [c], [c])
  {
    var m := PlainLog();
    LogReplay(m.read, m.sound, [], [c]);
    assert m.read([c]) == [c] && [] + [c] == [c];
  }

  /** The flush before the rewrite writes nothing of the one command in the buffer. */
  method StartedShort(c: nat) returns (s: Server<seq<nat>, nat, nat>)
    ensures fresh(s) && fresh(s.manifest) && s.m == PlainLog() && s.Valid() && s.up && !s.broken
    ensures s.child.Some? && s.child.value.snapshot == [c] && s.budget >= 94
    ensures s.book.flushed == [] && s.book.memory == [] && s.book.left == [c] && s.buf == [[c]]
  {
    s := FedOnce(c);
    s.StartRewrite(1, true, 0, true, Works, true);
    assert Concat([[c]]) == [c] by {
      assert [[c]][1..] == [];
    }
  }

  /** The command is flushed while the child runs. */
  method FlushedShort(c: nat) returns (s: Server<seq<nat>, nat, nat>)
    ensures fresh(s) && fresh(s.manifest) && s.m == PlainLog() && s.Valid() && s.up && !s.broken
    ensures s.child.Some? && s.child.value.snapshot == [c] && s.budget >= 93
    ensures s.book.flushed == [c] && s.book.memory == [c] && s.book.left == [c]
  {
    s := StartedShort(c);
    assert Cut([[c]], 1) == [[c]] && Concat([[c]]) == [c] by {
      assert [[c]][1..] == [];
    }
    s.Flush(1);
  }

  /**
   One command, a flush before the rewrite that writes nothing, a flush, and
   the end of the rewrite: the disk does not say what was flushed.
   */
  method LeftoverExample() returns (s: Server<seq<nat>, nat, nat>)
    ensures s.m == PlainLog() && s.up && s.book.flushed == [7] && !DiskGood(s.m, s.disk, [7])
  {
    s := FlushedShort(7);
    PlainDump(7);
    s.ChildDone([7], true, Works, true, Works);
    SafeMeans(s.m, s.disk, s.book, s.broken);
    LogExact(s.m.read, s.m.sound, s.disk, s.book.logged, s.book.flushed);
  }

  /** A rewrite whose commit is reported to have failed after it took effect: the manifest names a missing file. */
  method LateExample() returns (s: Server<seq<nat>, nat, nat>)
    ensures s.m == PlainLog() && s.up && Lost(s.disk)
  {
    s := FedOnce(7);
    PlainDump(7);
    s.StartRewrite(1, false, 0, true, Works, true);
    s.ChildDone([7], true, Commit.FailsLate, true, Works);
    SafeMeans(s.m, s.disk, s.book, s.broken);
  }
}
