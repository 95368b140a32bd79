/**
 Background fsync of the append-only file: the main thread writes commands and
 queues jobs, a worker takes the jobs one at a time, fsyncs, and publishes the
 replication offset up to which data is on disk. Every method below is one
 step between two points where the other thread may run.
 */
module AofFsync {

  datatype JobKind = FsyncJob | CloseJob

  datatype Job = Job(kind: JobKind, fd: nat, offset: nat)

  /** Where the worker is with the job at the head of the queue. */
  datatype Worker = Waiting | Picked | Fsynced | Published

  /** Where the main thread is in a flush; syncing is whether an fsync was pending when it began. */
  datatype Flusher = Idle | Begun(syncing: bool) | Written(syncing: bool)

  function Count(jobs: seq<Job>, kind: JobKind): nat {
    if jobs == [] then 0 else (if jobs[0].kind == kind then 1 else 0) + Count(jobs[1..], kind)
  }

  lemma {:induction false} CountMore(jobs: seq<Job>, job: Job, kind: JobKind)
    ensures Count(jobs + [job], kind) == Count(jobs, kind) + (if job.kind == kind then 1 else 0)
  {
    if jobs == [] {
      assert [job][1..] == [];
      assert jobs + [job] == [job];
    } else {
      assert (jobs + [job])[1..] == jobs[1..] + [job];
      CountMore(jobs[1..], job, kind);
    }
  }

  /** The file that is open after a job was queued. */
  function OpenAfter(job: Job): nat { if job.kind == CloseJob then job.fd + 1 else job.fd }

  /** Jobs come in the order of the files: first those of one file, then its close, then those of the next. */
  ghost predicate InFileOrder(jobs: seq<Job>, current: int) {
    && (forall i :: 0 < i < |jobs| ==> jobs[i].fd == OpenAfter(jobs[i - 1]))
    && (jobs != [] ==> current == OpenAfter(jobs[|jobs| - 1]))
  }

  lemma {:induction false} FilesAhead(jobs: seq<Job>, current: int, i: nat)
    requires InFileOrder(jobs, current) && i < |jobs|
    ensures OpenAfter(jobs[i]) <= current
    decreases |jobs| - i
  {
    if i + 1 < |jobs| {
      FilesAhead(jobs, current, i + 1);
    }
  }

  /** What was written to a file, command by command, and how much of it is on disk. */
  datatype File = File(written: seq<nat>, synced: nat)

  ghost predicate AllAfter(ends: seq<nat>, o: nat) { forall i :: 0 <= i < |ends| ==> ends[i] > o }

  ghost predicate AllWithin(ends: seq<nat>, o: nat) { forall i :: 0 <= i < |ends| ==> ends[i] <= o }

  /** Every command of the file that ends at or before o is on disk. */
  ghost predicate OnDisk(f: File, o: nat) {
    forall i :: 0 <= i < |f.written| && f.written[i] <= o ==> i < f.synced
  }

  ghost predicate FullyOnDisk(f: File) { f.synced == |f.written| }

  ghost predicate FileValid(f: File, offset: nat) { f.synced <= |f.written| && AllWithin(f.written, offset) }

  ghost predicate FilesValid(files: seq<File>, buf: seq<nat>, offset: nat) {
    files != [] && AllWithin(buf, offset) && forall g :: 0 <= g < |files| ==> FileValid(files[g], offset)
  }

  /** Every command that ends at or before o is on disk. */
  ghost predicate Durable(files: seq<File>, buf: seq<nat>, o: nat) {
    AllAfter(buf, o) && forall g :: 0 <= g < |files| ==> OnDisk(files[g], o)
  }

  /** Commands written or fed after a job was queued end after its offset. */
  ghost predicate JobValid(files: seq<File>, buf: seq<nat>, offset: nat, job: Job) {
    && job.offset <= offset
    && AllAfter(buf, job.offset)
    && forall g :: job.fd < g < |files| ==> AllAfter(files[g].written, job.offset)
  }

  ghost predicate JobsValid(files: seq<File>, buf: seq<nat>, offset: nat, jobs: seq<Job>) {
    && InFileOrder(jobs, |files| - 1)
    && (forall i :: 0 <= i < |jobs| ==> JobValid(files, buf, offset, jobs[i]))
    && (forall i, j :: 0 <= i < j < |jobs| ==> jobs[i].offset <= jobs[j].offset)
  }

  /** The oldest file that may have data not yet on disk. */
  ghost function Oldest(files: seq<File>, jobs: seq<Job>): int { if jobs == [] then |files| - 1 else jobs[0].fd }

  ghost predicate OlderOnDisk(files: seq<File>, oldest: int) {
    forall g :: 0 <= g < |files| && g < oldest ==> FullyOnDisk(files[g])
  }

  /** What the worker has achieved for the job at the head of the queue, and for those before it. */
  ghost predicate WorkerValid(files: seq<File>, buf: seq<nat>, jobs: seq<Job>, worker: Worker, pending: nat) {
    && OlderOnDisk(files, Oldest(files, jobs))
    && (if jobs == [] then worker == Waiting else pending <= jobs[0].offset)
    && (worker == Fsynced || worker == Published ==>
      && Durable(files, buf, jobs[0].offset)
      && (jobs[0].kind == CloseJob && jobs[0].fd < |files| ==> FullyOnDisk(files[jobs[0].fd])))
    && (worker == Published ==> pending == jobs[0].offset)
  }

  // ---------------------------------------------------------------------------
  // How the steps change files and jobs
  // ---------------------------------------------------------------------------

  lemma {:induction false} FedLater(buf: seq<nat>, offset: nat, n: nat, o: nat)
    requires n > 0 && o <= offset
    ensures AllAfter(buf, o) ==> AllAfter(buf + [offset + n], o)
    ensures AllWithin(buf, offset) ==> AllWithin(buf + [offset + n], offset + n)
  {
  }

  lemma {:induction false} AdvancedFiles(files: seq<File>, buf: seq<nat>, offset: nat, n: nat)
    requires FilesValid(files, buf, offset)
    ensures FilesValid(files, buf, offset + n)
  {
    forall g | 0 <= g < |files| ensures FileValid(files[g], offset + n) {
      assert FileValid(files[g], offset);
    }
  }

  lemma {:induction false} AdvancedJobs(files: seq<File>, buf: seq<nat>, offset: nat, n: nat, jobs: seq<Job>)
    requires JobsValid(files, buf, offset, jobs)
    ensures JobsValid(files, buf, offset + n, jobs)
  {
    forall i | 0 <= i < |jobs| ensures JobValid(files, buf, offset + n, jobs[i]) {
      assert JobValid(files, buf, offset, jobs[i]);
    }
  }

  lemma {:induction false} FedJobs(files: seq<File>, buf: seq<nat>, offset: nat, n: nat, jobs: seq<Job>)
    requires JobsValid(files, buf, offset, jobs) && n > 0
    ensures JobsValid(files, buf + [offset + n], offset + n, jobs)
  {
    forall i | 0 <= i < |jobs| ensures JobValid(files, buf + [offset + n], offset + n, jobs[i]) {
      assert JobValid(files, buf, offset, jobs[i]);
      FedLater(buf, offset, n, jobs[i].offset);
    }
  }

  /** The open file with the buffer written to it. */
  function Flushed(files: seq<File>, buf: seq<nat>): seq<File>
    requires files != []
  {
    var n := |files| - 1;
    files[n := files[n].(written := files[n].written + buf)]
  }

  lemma {:induction false} FlushedDurable(files: seq<File>, buf: seq<nat>, o: nat)
    requires files != [] && Durable(files, buf, o)
    ensures Durable(Flushed(files, buf), [], o)
  {
    var n, fs := |files| - 1, Flushed(files, buf);
    forall g | 0 <= g < |fs| ensures OnDisk(fs[g], o) {
      assert OnDisk(files[g], o);
    }
  }

  lemma {:induction false} FlushedFiles(files: seq<File>, buf: seq<nat>, offset: nat)
    requires FilesValid(files, buf, offset)
    ensures FilesValid(Flushed(files, buf), [], offset)
  {
    var fs := Flushed(files, buf);
    forall g | 0 <= g < |fs| ensures FileValid(fs[g], offset) {
      assert FileValid(files[g], offset);
    }
  }

  lemma {:induction false} FlushedJobs(files: seq<File>, buf: seq<nat>, offset: nat, jobs: seq<Job>)
    requires files != [] && JobsValid(files, buf, offset, jobs)
    ensures JobsValid(Flushed(files, buf), [], offset, jobs)
  {
    var fs := Flushed(files, buf);
    forall i | 0 <= i < |jobs| ensures JobValid(fs, [], offset, jobs[i]) {
      assert JobValid(files, buf, offset, jobs[i]);
      forall g | jobs[i].fd < g < |fs| ensures AllAfter(fs[g].written, jobs[i].offset) {
        assert AllAfter(files[g].written, jobs[i].offset);
      }
    }
  }

  /** Closing a file opens the next one. */
  function WithNext(files: seq<File>, kind: JobKind): seq<File> {
    if kind == CloseJob then files + [File([], 0)] else files
  }

  lemma {:induction false} SubmittedJobs(files: seq<File>, offset: nat, jobs: seq<Job>, kind: JobKind)
    requires files != [] && JobsValid(files, [], offset, jobs)
    ensures JobsValid(WithNext(files, kind), [], offset, jobs + [Job(kind, |files| - 1, offset)])
  {
    var fs, js := WithNext(files, kind), jobs + [Job(kind, |files| - 1, offset)];
    forall i | 0 <= i < |js| ensures JobValid(fs, [], offset, js[i]) {
      if i < |jobs| {
        assert JobValid(files, [], offset, jobs[i]);
      }
    }
    assert forall i :: 0 <= i < |jobs| ==> JobValid(files, [], offset, jobs[i]);
  }

  lemma {:induction false} NextDurable(files: seq<File>, o: nat)
    requires Durable(files, [], o)
    ensures Durable(files + [File([], 0)], [], o)
  {
  }

  lemma {:induction false} SubmittedWorker(
      files: seq<File>, offset: nat, jobs: seq<Job>, kind: JobKind, worker: Worker, pending: nat)
    requires files != [] && InFileOrder(jobs, |files| - 1)
    requires WorkerValid(files, [], jobs, worker, pending) && pending <= offset
    ensures WorkerValid(WithNext(files, kind), [], jobs + [Job(kind, |files| - 1, offset)], worker, pending)
  {
    var fs, js := WithNext(files, kind), jobs + [Job(kind, |files| - 1, offset)];
    if jobs != [] {
      FilesAhead(jobs, |files| - 1, 0);
      assert js[0] == jobs[0];
      if Durable(files, [], jobs[0].offset) && kind == CloseJob {
        NextDurable(files, jobs[0].offset);
      }
    }
    assert Oldest(fs, js) == Oldest(files, jobs);
  }

  /** When the worker fsyncs a file, everything up to the offset of its job is on disk. */
  lemma {:induction false} FsyncedDurable(files: seq<File>, buf: seq<nat>, offset: nat, job: Job)
    requires job.fd < |files| && JobValid(files, buf, offset, job) && OlderOnDisk(files, job.fd)
    ensures Durable(files[job.fd := files[job.fd].(synced := |files[job.fd].written|)], buf, job.offset)
  {
    var fs := files[job.fd := files[job.fd].(synced := |files[job.fd].written|)];
    forall g | 0 <= g < |fs| ensures OnDisk(fs[g], job.offset) {
      if g < job.fd {
        assert FullyOnDisk(files[g]);
      } else if g > job.fd {
        assert AllAfter(files[g].written, job.offset);
      }
    }
  }

  lemma {:induction false} FsyncedKeeps(files: seq<File>, buf: seq<nat>, offset: nat, jobs: seq<Job>, fd: nat, o: nat)
    requires fd < |files| && FilesValid(files, buf, offset) && JobsValid(files, buf, offset, jobs) && Durable(files,
        buf, o)
    ensures var fs := files[fd := files[fd].(synced := |files[fd].written|)];
      FilesValid(fs, buf, offset) && JobsValid(fs, buf, offset, jobs) && Durable(fs, buf, o)
  {
    var fs := files[fd := files[fd].(synced := |files[fd].written|)];
    forall g | 0 <= g < |fs| ensures FileValid(fs[g], offset) && OnDisk(fs[g], o) {
      assert FileValid(files[g], offset) && OnDisk(files[g], o);
    }
    forall i | 0 <= i < |jobs| ensures JobValid(fs, buf, offset, jobs[i]) {
      assert JobValid(files, buf, offset, jobs[i]);
    }
  }

  lemma {:induction false} FinishedJobs(files: seq<File>, buf: seq<nat>, offset: nat, jobs: seq<Job>)
    requires files != [] && jobs != [] && JobsValid(files, buf, offset, jobs) && OlderOnDisk(files, jobs[0].fd)
    requires jobs[0].kind == CloseJob && jobs[0].fd < |files| ==> FullyOnDisk(files[jobs[0].fd])
    ensures JobsValid(files, buf, offset, jobs[1..]) && OlderOnDisk(files, Oldest(files, jobs[1..]))
  {
    var rest := jobs[1..];
    assert forall i :: 0 <= i < |rest| ==> rest[i] == jobs[i + 1];
    forall i | 0 < i < |rest| ensures rest[i].fd == OpenAfter(rest[i - 1]) {
      assert jobs[i + 1].fd == OpenAfter(jobs[i + 1 - 1]);
    }
    assert rest != [] ==> rest[0].fd == OpenAfter(jobs[1 - 1]);
    forall i | 0 <= i < |rest| ensures JobValid(files, buf, offset, rest[i]) {
      assert JobValid(files, buf, offset, jobs[i + 1]);
    }
    assert Oldest(files, rest) == OpenAfter(jobs[0]);
    forall g | 0 <= g < |files| && g < Oldest(files, rest) ensures FullyOnDisk(files[g]) {
    }
  }

  // ---------------------------------------------------------------------------
  // What every step does
  // ---------------------------------------------------------------------------

  datatype State = State(
    offset: nat, buf: seq<nat>, files: seq<File>, jobs: seq<Job>, worker: Worker, flusher: Flusher, pending: nat)

  datatype Op =
    | DoFeed(n: nat)
    | DoAdvance(n: nat)
    | DoFlushBegin(waits: bool, due: bool)
    | DoFlushWrite
    | DoFlushSync(due: bool)
    | DoSwitch
    | DoWorker

  /** Everything written to a file is on disk. */
  function SyncedFile(files: seq<File>, fd: nat): seq<File> {
    if fd < |files| then files[fd := File(files[fd].written, |files[fd].written|)] else files
  }

  function WorkerMoves(st: State): State {
    if st.jobs == [] then st
    else
      match st.worker
      case Waiting => st.(worker := Picked)
      case Picked => st.(files := SyncedFile(st.files, st.jobs[0].fd), worker := Fsynced)
      case Fsynced => st.(pending := st.jobs[0].offset, worker := Published)
      case Published => st.(jobs := st.jobs[1..], worker := Waiting)
  }

  /** One step of either thread; steps that are not possible do nothing. */
  function Moves(st: State, op: Op): State
    requires st.files != []
  {
    match op
    case DoFeed(n) =>
      if st.flusher == Idle && n > 0 then st.(offset := st.offset + n, buf := st.buf + [st.offset + n]) else st
    case DoAdvance(n) => if st.flusher == Idle then st.(offset := st.offset + n) else st
    case DoFlushBegin(waits, due) =>
      var syncing := Count(st.jobs, FsyncJob) > 0;
      if st.flusher != Idle then st
      else if st.buf == [] then st.(flusher := if due && !syncing then Written(false) else Idle)
      else st.(flusher := if waits && syncing then Idle else Begun(syncing))
    case DoFlushWrite =>
      if st.flusher.Begun? then
        st.(files := Flushed(st.files, st.buf), buf := [], flusher := Written(st.flusher.syncing))
      else st
    case DoFlushSync(due) =>
      if st.flusher.Written? then
        var more := if due && !st.flusher.syncing then [Job(FsyncJob, |st.files| - 1, st.offset)] else [];
        st.(jobs := st.jobs + more, flusher := Idle)
      else st
    case DoSwitch =>
      if st.flusher == Idle && st.buf == [] then
        st.(files := st.files + [File([], 0)], jobs := st.jobs + [Job(CloseJob, |st.files| - 1, st.offset)])
      else st
    case DoWorker => WorkerMoves(st)
  }

  class Sync {
    /** The replication offset, and the commands not yet written, each as the offset it ends at. */
    var offset: nat
    var buf: seq<nat>
    /** The files so far; the last one is open. */
    var files: seq<File>
    var jobs: seq<Job>
    var fsyncJobs: nat
    var closeJobs: nat
    var worker: Worker
    var flusher: Flusher
    var pending: nat

    ghost predicate Valid()
      reads this
    {
      && FilesValid(files, buf, offset)
      && JobsValid(files, buf, offset, jobs)
      && fsyncJobs == Count(jobs, FsyncJob) && closeJobs == Count(jobs, CloseJob)
      && WorkerValid(files, buf, jobs, worker, pending)
      && pending <= offset && Durable(files, buf, pending)
      && (flusher.Written? ==> buf == [])
    }

    ghost function Now(): State
      reads this
    {
      State(offset, buf, files, jobs, worker, flusher, pending)
    }

    constructor ()
      ensures Valid() && Now() == START
    {
      offset, buf, files := 0, [], [File([], 0)];
      jobs, fsyncJobs, closeJobs := [], 0, 0;
      worker, flusher, pending := Waiting, Idle, 0;
    }

    // -------------------------------------------------------------------------
    // The main thread
    // -------------------------------------------------------------------------

    /** A command that advances the replication offset by n. */
    method Feed(n: nat)
      requires Valid() && flusher == Idle && n > 0
      modifies this`offset, this`buf
      ensures Valid() && offset == old(offset) + n && buf == old(buf) + [offset]
    {
      hide Count;
      AdvancedFiles(files, buf, offset, n);
      FedJobs(files, buf, offset, n, jobs);
      FedLater(buf, offset, n, pending);
      if jobs != [] {
        assert JobValid(files, buf, offset, jobs[0]);
        FedLater(buf, offset, n, jobs[0].offset);
      }
      FedLater(buf, offset, n, offset);
      offset := offset + n;
      buf := buf + [offset];
    }

    /** The offset also advances for traffic that is not logged. */
    method Advance(n: nat)
      requires Valid() && flusher == Idle
      modifies this`offset
      ensures Valid() && offset == old(offset) + n
    {
      AdvancedFiles(files, buf, offset, n);
      AdvancedJobs(files, buf, offset, n, jobs);
      offset := offset + n;
    }

    method Submit(kind: JobKind)
      requires files != [] && fsyncJobs == Count(jobs, FsyncJob) && closeJobs == Count(jobs, CloseJob)
      modifies this`jobs, this`fsyncJobs, this`closeJobs
      ensures jobs == old(jobs) + [Job(kind, |files| - 1, offset)]
      ensures fsyncJobs == Count(jobs, FsyncJob) && closeJobs == Count(jobs, CloseJob)
    {
      var job := Job(kind, |files| - 1, offset);
      CountMore(jobs, job, FsyncJob);
      CountMore(jobs, job, CloseJob);
      jobs := jobs + [job];
      if kind == FsyncJob {
        fsyncJobs := fsyncJobs + 1;
      } else {
        closeJobs := closeJobs + 1;
      }
    }

    /** Begins a flush; waits says whether it puts the write off for a running fsync,
        due whether the last fsync is old. */
    method FlushBegin(waits: bool, due: bool)
      requires Valid() && flusher == Idle
      modifies this`flusher
      ensures Valid()
      ensures flusher == if buf == [] then (if due && Count(jobs, FsyncJob) == 0 then Written(false) else Idle)
        else if waits && Count(jobs, FsyncJob) > 0 then Idle else Begun(Count(jobs, FsyncJob) > 0)
    {
      var syncing := fsyncJobs != 0;
      if buf == [] {
        if due && !syncing {
          flusher := Written(false);
        }
      } else if !(waits && syncing) {
        flusher := Begun(syncing);
      }
    }

    method FlushWrite()
      requires Valid() && flusher.Begun?
      modifies this`files, this`buf, this`flusher
      ensures Valid() && buf == [] && flusher == Written(old(flusher).syncing)
      ensures files == Flushed(old(files), old(buf))
    {
      hide Durable, Count;
      FlushedFiles(files, buf, offset);
      FlushedJobs(files, buf, offset, jobs);
      FlushedDurable(files, buf, pending);
      if jobs != [] {
        FilesAhead(jobs, |files| - 1, 0);
        if Durable(files, buf, jobs[0].offset) {
          FlushedDurable(files, buf, jobs[0].offset);
        }
      }
      files := Flushed(files, buf);
      buf := [];
      flusher := Written(flusher.syncing);
    }

    /** Ends a flush with an fsync job, unless one was pending already or the last one is recent. */
    method FlushSync(due: bool)
      requires Valid() && flusher.Written?
      modifies this`jobs, this`fsyncJobs, this`closeJobs, this`flusher
      ensures Valid() && flusher == Idle
      ensures jobs == if due && !old(flusher).syncing then old(jobs) + [Job(FsyncJob, |files| - 1,
          offset)] else old(jobs)
    {
      hide InFileOrder, WorkerValid, Durable, Count;
      if due && !flusher.syncing {
        SubmittedJobs(files, offset, jobs, FsyncJob);
        SubmittedWorker(files, offset, jobs, FsyncJob, worker, pending);
        assert buf == [] && WithNext(files, FsyncJob) == files;
        Submit(FsyncJob);
      }
      flusher := Idle;
    }

    /** Turns to a new file and leaves the old one to the worker. */
    method Switch()
      requires Valid() && flusher == Idle && buf == []
      modifies this`jobs, this`fsyncJobs, this`closeJobs, this`files
      ensures Valid() && files == old(files) + [File([], 0)]
      ensures jobs == old(jobs) + [Job(CloseJob, |old(files)| - 1, offset)]
    {
      hide InFileOrder, WorkerValid, Durable, Count;
      SubmittedJobs(files, offset, jobs, CloseJob);
      SubmittedWorker(files, offset, jobs, CloseJob, worker, pending);
      NextDurable(files, pending);
      Submit(CloseJob);
      files := files + [File([], 0)];
    }

    // -------------------------------------------------------------------------
    // The worker
    // -------------------------------------------------------------------------

    method Pick()
      requires Valid() && worker == Waiting && jobs != []
      modifies this`worker
      ensures Valid() && worker == Picked
    {
      worker := Picked;
    }

    method Fsync()
      requires Valid() && worker == Picked
      modifies this`files, this`worker
      ensures Valid() && worker == Fsynced && Durable(files, buf, jobs[0].offset)
      ensures files == SyncedFile(old(files), jobs[0].fd)
    {
      var fd := jobs[0].fd;
      FilesAhead(jobs, |files| - 1, 0);
      assert JobValid(files, buf, offset, jobs[0]);
      FsyncedDurable(files, buf, offset, jobs[0]);
      FsyncedKeeps(files, buf, offset, jobs, fd, pending);
      files := files[fd := files[fd].(synced := |files[fd].written|)];
      worker := Fsynced;
    }

    method Publish()
      requires Valid() && worker == Fsynced
      modifies this`pending, this`worker
      ensures Valid() && worker == Published && pending == jobs[0].offset >= old(pending)
    {
      assert JobValid(files, buf, offset, jobs[0]);
      pending := jobs[0].offset;
      worker := Published;
    }

    method Finish()
      requires Valid() && worker == Published
      modifies this`jobs, this`fsyncJobs, this`closeJobs, this`worker
      ensures Valid() && worker == Waiting && jobs == old(jobs)[1..]
    {
      hide FilesValid, Durable;
      FinishedJobs(files, buf, offset, jobs);
      if jobs[0].kind == FsyncJob {
        fsyncJobs := fsyncJobs - 1;
      } else {
        closeJobs := closeJobs - 1;
      }
      jobs := jobs[1..];
      worker := Waiting;
    }

    /** One step of the worker, whatever it is at. */
    method WorkerStep()
      requires Valid()
      modifies this`files, this`worker, this`pending, this`jobs, this`fsyncJobs, this`closeJobs
      ensures Valid() && old(pending) <= pending
      ensures old(jobs) == [] ==> jobs == [] && pending == old(pending)
      ensures old(jobs) != [] ==>
        || (jobs == old(jobs) && Left(worker) < Left(old(worker)))
        || (jobs == old(jobs)[1..] && pending == old(jobs)[0].offset)
      ensures Now() == WorkerMoves(old(Now()))
    {
      hide JobsValid, FilesValid, Durable, Count, OlderOnDisk;
      if jobs != [] {
        match worker
        case Waiting => Pick();
        case Picked => Fsync();
        case Fsynced => Publish();
        case Published => Finish();
      }
    }

    /** The main thread waits until the queue is empty; then no job is left or running,
        and all closed files are on disk. */
    method Drain()
      requires Valid()
      modifies this`files, this`worker, this`pending, this`jobs, this`fsyncJobs, this`closeJobs
      ensures Valid() && jobs == [] && worker == Waiting && fsyncJobs == 0 && closeJobs == 0
      ensures pending == if old(jobs) == [] then old(pending) else old(jobs)[|old(jobs)| - 1].offset
      ensures forall g :: 0 <= g < |files| - 1 ==> FullyOnDisk(files[g])
    {
      hide Valid;
      ghost var all, k := jobs, 0;
      assert all[0..] == all;
      while jobs != []
        invariant Valid()
        invariant 0 <= k <= |all| && jobs == all[k..]
        invariant if k == 0 then all == old(jobs) && (all == [] ==> pending == old(pending))
          else jobs == [] ==> pending == all[k - 1].offset
        decreases |jobs|, Left(worker)
      {
        assert all[k..][1..] == all[k + 1..];
        WorkerStep();
        k := |all| - |jobs|;
      }
      Drained();
    }

    lemma Drained()
      requires Valid() && jobs == []
      ensures worker == Waiting && fsyncJobs == 0 && closeJobs == 0
      ensures forall g :: 0 <= g < |files| - 1 ==> FullyOnDisk(files[g])
    {
    }
  }

  /** How many steps the worker needs before it takes the next job. */
  function Left(w: Worker): nat {
    match w
    case Waiting => 3
    case Picked => 2
    case Fsynced => 1
    case Published => 0
  }

  // ---------------------------------------------------------------------------
  // Interleavings
  // ---------------------------------------------------------------------------

  method Step(s: Sync, op: Op)
    requires s.Valid()
    modifies s
    ensures s.Valid() && s.Now() == Moves(old(s.Now()), op)
    ensures old(s.pending) <= s.pending
  {
    hide Sync.Valid, Count;
    FilesThere(s);
    match op
    case DoFeed(n) => if s.flusher == Idle && n > 0 { s.Feed(n); }
    case DoAdvance(n) => if s.flusher == Idle { s.Advance(n); }
    case DoFlushBegin(waits, due) => if s.flusher == Idle { s.FlushBegin(waits, due); }
    case DoFlushWrite => if s.flusher.Begun? { s.FlushWrite(); }
    case DoFlushSync(due) => if s.flusher.Written? { s.FlushSync(due); }
    case DoSwitch => if s.flusher == Idle && s.buf == [] { s.Switch(); }
    case DoWorker => s.WorkerStep();
  }

  lemma FilesThere(s: Sync)
    requires s.Valid()
    ensures s.files != []
  {
  }

  function MovesAll(st: State, ops: seq<Op>): (r: State)
    requires st.files != []
    ensures r.files != []
  {
    if ops == [] then st else Moves(MovesAll(st, ops[..|ops| - 1]), ops[|ops| - 1])
  }

  const START := State(0, [], [File([], 0)], [], Waiting, Idle, 0)

  /** A flush with nothing queued, and four steps of the worker: all that was fed is on disk and published. */
  lemma {:induction false} OneFlushPublishes(st: State, waits: bool)
    requires st.files != [] && st.jobs == [] && st.worker == Waiting && st.flusher == Idle
    ensures var n := |st.files| - 1;
      var begun := Moves(st, DoFlushBegin(waits, true));
      var queued := Moves(Moves(begun, DoFlushWrite), DoFlushSync(true));
      var done := WorkerMoves(WorkerMoves(WorkerMoves(WorkerMoves(queued))));
      && done.pending == st.offset && done.buf == [] && done.jobs == [] && done.worker == Waiting
      && |done.files| == |st.files| && done.files[..n] == st.files[..n]
      && done.files[n].written == st.files[n].written + st.buf && FullyOnDisk(done.files[n])
  {
    var begun := Moves(st, DoFlushBegin(waits, true));
    var queued := Moves(Moves(begun, DoFlushWrite), DoFlushSync(true));
    assert queued.jobs == [Job(FsyncJob, |st.files| - 1, st.offset)];
  }

  /** In every interleaving: what has been published is on disk, and it never goes back. */
  method Run(ops: seq<Op>) returns (s: Sync, published: seq<nat>)
    ensures s.Valid() && Durable(s.files, s.buf, s.pending)
    ensures s.Now() == MovesAll(START, ops)
    ensures |published| == |ops| + 1 && published[|ops|] == s.pending
    ensures forall i, j :: 0 <= i <= j < |published| ==> published[i] <= published[j]
  {
    hide Moves;
    s := new Sync();
    published := [s.pending];
    for i := 0 to |ops|
      invariant fresh(s) && s.Valid() && s.Now() == MovesAll(START, ops[..i])
      invariant |published| == i + 1 && published[i] == s.pending
      invariant forall j, k :: 0 <= j <= k < |published| ==> published[j] <= published[k]
    {
      assert ops[..i + 1][..i] == ops[..i];
      Step(s, ops[i]);
      published := published + [s.pending];
    }
    assert ops[..|ops|] == ops;
  }
}
