/** What every interleaving of a DumpPool run keeps. */
module DumpPoolSafety {
  import opened DumpPool

  // ---------- no lost wakeup ----------

  function IsIdle(w: Worker): nat { if w == Idle then 1 else 0 }

  /** How many workers are awake and about to look at the queue. */
  function Idles(ws: seq<Worker>): nat {
    if ws == [] then 0 else IsIdle(ws[0]) + Idles(ws[1..])
  }

  lemma {:induction false} IdlesUpdate(ws: seq<Worker>, i: nat, w: Worker)
    requires i < |ws|
    ensures Idles(ws[i := w]) == Idles(ws) - IsIdle(ws[i]) + IsIdle(w)
  {
    if i == 0 {
      assert ws[i := w][1..] == ws[1..];
    } else {
      assert ws[i := w][1..] == ws[1..][i - 1 := w];
      IdlesUpdate(ws[1..], i - 1, w);
    }
  }

  lemma {:induction false} IdlesPositive(ws: seq<Worker>)
    ensures Idles(ws) > 0 <==> Idle in ws
  {
    if ws != [] {
      IdlesPositive(ws[1..]);
    }
  }

  /** While a worker sleeps, every queued task has an awake idle worker coming for it. */
  ghost predicate NoLostWakeup(s: Pool) {
    AnyAsleep(s.workers) ==> |s.tasks| <= Idles(s.workers)
  }

  // ---------- phases ----------

  ghost predicate Phases(s: Pool) {
    && |s.workers| <= MAX_THREAD_COUNT
    && (s.main == Joining ==>
          s.shutdown && s.tasks == [] && s.futures == map[] && !AnyAsleep(s.workers) && s.workers != []
          && s.script != [] && s.script[0].Shutdown?)
    && (s.main.Waiting? ==> s.script != [] && s.script[0].Wait?)
    && (s.shutdown && s.main != Joining ==> s.workers == [])
    && (s.workers == [] ==>
          s.main == Ready && s.tasks == [] && s.futures == map[] && s.results == map[] && s.files == map[])
    && (!s.shutdown ==> Exited !in s.workers)
  }

  lemma WakeKept(s: Pool, step: Step)
    requires Phases(s) && NoLostWakeup(s) && Enabled(s, step)
    ensures NoLostWakeup(Apply(s, step))
  {
    var r := Apply(s, step);
    match step
    case Post(wake) =>
      if AnyAsleep(s.workers) {
        IdlesUpdate(s.workers, wake, Idle);
      }
    case Sleep(i) => IdlesUpdate(s.workers, i, Asleep);
    case WakeUp(i) => IdlesUpdate(s.workers, i, Idle);
    case Take(i) => IdlesUpdate(s.workers, i, r.workers[i]);
    case Exit(i) => IdlesUpdate(s.workers, i, Exited);
    case Create(i) => IdlesUpdate(s.workers, i, r.workers[i]);
    case CreateFails(i) => IdlesUpdate(s.workers, i, Idle);
    case Write(i, count) => IdlesUpdate(s.workers, i, r.workers[i]);
    case Finish(i) => IdlesUpdate(s.workers, i, Idle);
    case _ =>
  }

  lemma PhasesKept(s: Pool, step: Step)
    requires Phases(s) && Enabled(s, step)
    ensures Phases(Apply(s, step))
  {
    if OfMain(step) {
      PhasesMain(s, step);
    } else {
      PhasesWorker(s, step);
    }
  }

  lemma PhasesMain(s: Pool, step: Step)
    requires Phases(s) && Enabled(s, step) && OfMain(step)
    ensures Phases(Apply(s, step))
  {}

  lemma PhasesWorker(s: Pool, step: Step)
    requires Phases(s) && Enabled(s, step) && !OfMain(step)
    ensures Phases(Apply(s, step))
  {}

  // ---------- order and identity of tasks ----------

  ghost predicate Increasing(ids: seq<nat>) {
    forall i, j | 0 <= i < j < |ids| :: ids[i] < ids[j]
  }

  /** Tasks were started in the order they were enqueued, each at most once, and before any that is queued. */
  ghost predicate Fifo(s: Pool) {
    var all := TasksOf(s.done);
    && Increasing(s.started)
    && (forall i, j | 0 <= i < j < |s.tasks| :: s.tasks[i].id < s.tasks[j].id)
    && (forall a <- s.started, t <- s.tasks :: a < t.id)
    && (forall a <- s.started :: a < |all|)
    && (forall t <- s.tasks :: t.id < |all| && all[t.id] == t)
  }

  /** One more command keeps the earlier tasks. */
  lemma TasksGrow(done: seq<Command>, c: Command)
    ensures TasksOf(done + [c])
         == TasksOf(done) + if c.Enqueue? then [Task(|TasksOf(done)|, c.name, c.output)] else []
  {
    assert (done + [c])[..|done|] == done;
  }

  lemma FifoKept(s: Pool, step: Step)
    requires Fifo(s) && Phases(s) && Enabled(s, step)
    ensures Fifo(Apply(s, step))
  {
    hide TasksOf;
    match step
    case Take(i) => FifoTake(s, i);
    case Post(wake) => FifoPost(s, wake);
    case _ => FifoSame(s, step);
  }

  lemma FifoSame(s: Pool, step: Step)
    requires Fifo(s) && Phases(s) && Enabled(s, step) && !step.Take? && !step.Post?
    ensures Fifo(Apply(s, step))
  {
    hide TasksOf;
    var r := Apply(s, step);
    assert r.started == s.started && (r.tasks == s.tasks || r.tasks == []);
    if s.script != [] {
      TasksGrow(s.done, s.script[0]);
    }
    assert TasksOf(r.done) == TasksOf(s.done);
    hide Apply, Enabled;
  }

  lemma FifoPost(s: Pool, wake: nat)
    requires Fifo(s) && Enabled(s, Post(wake))
    ensures Fifo(Apply(s, Post(wake)))
  {
    hide TasksOf;
    TasksGrow(s.done, s.script[0]);
    var r := Apply(s, Post(wake));
    assert forall t <- r.tasks :: t in s.tasks || t.id == |TasksOf(s.done)|;
    assert r.started == s.started;
  }

  lemma FifoTake(s: Pool, i: nat)
    requires Fifo(s) && Enabled(s, Take(i))
    ensures Fifo(Apply(s, Take(i)))
  {
    hide TasksOf;
    var r, t := Apply(s, Take(i)), s.tasks[0];
    assert t in s.tasks;
    forall a <- s.started ensures a < t.id {}
    forall a, b | 0 <= a < b < |r.started| ensures r.started[a] < r.started[b] {
      assert s.started[a] in s.started;
    }
    forall u <- r.tasks ensures u in s.tasks && t.id < u.id {
      var k :| 0 <= k < |r.tasks| && r.tasks[k] == u;
      assert u == s.tasks[k + 1];
    }
  }

  /** A worker's task is one that was started and is not finished; no two workers share one. */
  ghost predicate Exclusive(s: Pool) {
    var all := TasksOf(s.done);
    && (forall i | 0 <= i < |s.workers| && s.workers[i].Running? ::
          var t := s.workers[i].task; t.id < |all| && all[t.id] == t && t.id in s.started && t.id !in s.results)
    && (forall i, j | 0 <= i < j < |s.workers| && s.workers[i].Running? && s.workers[j].Running? ::
          s.workers[i].task.id != s.workers[j].task.id)
    && (forall id <- s.results :: id in s.started)
  }

  lemma ExclusiveKept(s: Pool, step: Step)
    requires Fifo(s) && Phases(s) && Exclusive(s) && Enabled(s, step)
    ensures Exclusive(Apply(s, step))
  {
    hide TasksOf;
    match step
    case Take(i) => ExclusiveTake(s, i);
    case CreateFails(i) => ExclusiveFinish(s, step, i);
    case Finish(i) => ExclusiveFinish(s, step, i);
    case EndWait =>
      TasksGrow(s.done, s.script[0]);
    case Join =>
    case _ => ExclusiveSame(s, step);
  }

  lemma ExclusiveFinish(s: Pool, step: Step, i: nat)
    requires Exclusive(s) && Enabled(s, step) && (step == Finish(i) || step == CreateFails(i))
    ensures Exclusive(Apply(s, step))
  {
    hide TasksOf;
    var r := Apply(s, step);
    assert forall j | 0 <= j < |r.workers| && r.workers[j].Running? :: j != i && r.workers[j] == s.workers[j];
  }

  /** Steps after which every worker that runs a task ran that task before. */
  lemma ExclusiveSame(s: Pool, step: Step)
    requires Exclusive(s) && Phases(s) && Enabled(s, step)
    requires !step.Take? && !step.CreateFails? && !step.Finish? && !step.EndWait? && !step.Join?
    ensures Exclusive(Apply(s, step))
  {
    TasksKept(s, step);
    hide TasksOf, Exclusive;
    var r := Apply(s, step);
    assert SameTasks(s, r) && r.results == s.results && r.started == s.started;
    ExclusiveFrame(s, r);
  }

  lemma TasksKept(s: Pool, step: Step)
    requires Enabled(s, step)
    ensures TasksOf(s.done) <= TasksOf(Apply(s, step).done)
  {
    hide TasksOf;
    if s.script != [] {
      TasksGrow(s.done, s.script[0]);
    }
  }

  /** Whoever runs a task in `r` ran it in `s`. */
  ghost predicate SameTasks(s: Pool, r: Pool) {
    forall j | 0 <= j < |r.workers| && r.workers[j].Running? ::
      j < |s.workers| && s.workers[j].Running? && r.workers[j].task == s.workers[j].task
  }

  lemma ExclusiveFrame(s: Pool, r: Pool)
    requires Exclusive(s) && SameTasks(s, r) && r.results == s.results && r.started == s.started
    requires TasksOf(s.done) <= TasksOf(r.done)
    ensures Exclusive(r)
  {
    hide TasksOf;
  }

  lemma ExclusiveTake(s: Pool, i: nat)
    requires Fifo(s) && Exclusive(s) && Enabled(s, Take(i))
    ensures Exclusive(Apply(s, Take(i)))
  {
    hide TasksOf;
    var r, t := Apply(s, Take(i)), s.tasks[0];
    assert t in s.tasks && t.id !in s.started;
    assert r.started[|s.started|] == t.id;
    assert forall a <- s.started :: a in r.started;
    assert forall j | 0 <= j < |s.workers| && j != i :: r.workers[j] == s.workers[j];
  }

  // ---------- temporary files ----------

  /** The file a worker is writing holds what its task has written so far. */
  ghost predicate Writing(s: Pool, w: Worker) {
    && w.Running? && w.written <= |w.task.output|
    && (w.file == NoFile ==> w.written == 0)
    && (w.file.TmpFile? ==> w.task.id !in s.fails)
    && (w.file.TmpFile? ==>
          w.file.number < s.nextFile && w.file.number in s.files
          && s.files[w.file.number] == w.task.output[..w.written])
  }

  /** A finished task has a file, unless it could not create one, and the file holds all of its output. */
  ghost predicate Written(s: Pool, id: nat)
    requires id in s.results
  {
    var all, file := TasksOf(s.done), s.results[id];
    && id < |all|
    && (file.TmpFile? ==>
          file.number < s.nextFile && file.number in s.files && s.files[file.number] == all[id].output)
    && (file.TmpFile? <==> id !in s.fails)
  }

  ghost predicate Files(s: Pool) {
    && (forall i | 0 <= i < |s.workers| && s.workers[i].Running? :: Writing(s, s.workers[i]))
    && (forall i, j | 0 <= i < j < |s.workers| && s.workers[i].Running? && s.workers[j].Running? ::
          s.workers[i].file.TmpFile? ==> s.workers[i].file != s.workers[j].file)
    && (forall id <- s.results :: Written(s, id))
    && (forall id, i | id in s.results && 0 <= i < |s.workers| && s.workers[i].Running? ::
          s.results[id].TmpFile? ==> s.results[id] != s.workers[i].file)
    && (forall a, b | a in s.results && b in s.results && a != b ::
          s.results[a].TmpFile? ==> s.results[a] != s.results[b])
  }

  // ---------- no stray files ----------

  ghost predicate BeingWritten(s: Pool, n: nat) {
    exists i | 0 <= i < |s.workers| :: s.workers[i].Running? && s.workers[i].file == TmpFile(n)
  }

  ghost predicate ToBeRead(s: Pool, n: nat) {
    exists id <- s.results :: s.results[id] == TmpFile(n)
  }

  /** Every temporary file is being written by a worker, or holds the output of a finished task that has not
      been waited for; once it is in the report it is gone. */
  ghost predicate Tidy(s: Pool) {
    forall n <- s.files :: BeingWritten(s, n) || ToBeRead(s, n)
  }

  lemma TidyKept(s: Pool, step: Step)
    requires Phases(s) && Files(s) && Exclusive(s) && Tidy(s) && Enabled(s, step)
    ensures Tidy(Apply(s, step))
  {
    var r := Apply(s, step);
    hide Apply, Enabled, Files, Exclusive, Phases;
    forall n <- r.files ensures BeingWritten(r, n) || ToBeRead(r, n) {
      if n in s.files {
        if BeingWritten(s, n) {
          WrittenMoves(s, step, n);
        } else {
          ReadMoves(s, step, n);
        }
      } else {
        NewFile(s, step, n);
      }
    }
  }

  lemma NewFile(s: Pool, step: Step, n: nat)
    requires Enabled(s, step) && n in Apply(s, step).files && n !in s.files
    ensures BeingWritten(Apply(s, step), n)
  {
    var r := Apply(s, step);
    assert step.Create? && r.workers[step.i].Running? && r.workers[step.i].file == TmpFile(n);
  }

  lemma WrittenMoves(s: Pool, step: Step, n: nat)
    requires Enabled(s, step) && BeingWritten(s, n) && n in Apply(s, step).files
    ensures BeingWritten(Apply(s, step), n) || ToBeRead(Apply(s, step), n)
  {
    var r := Apply(s, step);
    var i :| 0 <= i < |s.workers| && s.workers[i].Running? && s.workers[i].file == TmpFile(n);
    if step == Finish(i) {
      assert r.results[s.workers[i].task.id] == TmpFile(n);
    } else {
      assert r.workers[i].Running? && r.workers[i].file == TmpFile(n);
    }
  }

  lemma ReadMoves(s: Pool, step: Step, n: nat)
    requires Enabled(s, step) && Exclusive(s) && ToBeRead(s, n) && n in Apply(s, step).files
    ensures ToBeRead(Apply(s, step), n)
  {
    var id :| id in s.results && s.results[id] == TmpFile(n);
    if OfMain(step) {
      ResultKeptByMain(s, step, id, n);
    } else {
      ResultKeptByWorker(s, step, id);
    }
    hide Files, Exclusive, Apply, Enabled;
  }

  lemma ResultKeptByMain(s: Pool, step: Step, id: nat, n: nat)
    requires Enabled(s, step) && OfMain(step) && id in s.results && s.results[id] == TmpFile(n)
    requires n in Apply(s, step).files
    ensures var r := Apply(s, step); id in r.results && r.results[id] == s.results[id]
  {}

  lemma ResultKeptByWorker(s: Pool, step: Step, id: nat)
    requires Exclusive(s) && Enabled(s, step) && !OfMain(step) && id in s.results
    ensures var r := Apply(s, step); id in r.results && r.results[id] == s.results[id]
  {
    hide TasksOf;
  }

  lemma FilesKept(s: Pool, step: Step)
    requires Fifo(s) && Phases(s) && Exclusive(s) && Files(s) && Enabled(s, step)
    ensures Files(Apply(s, step))
  {
    match step
    case Take(i) => FilesTake(s, i);
    case Create(i) => FilesCreate(s, i);
    case CreateFails(i) => FilesFinish(s, step, i);
    case Write(i, count) => FilesWrite(s, i, count);
    case Finish(i) => FilesFinish(s, step, i);
    case EndWait => FilesEndWait(s);
    case Join =>
    case _ => FilesSame(s, step);
  }

  lemma FilesTake(s: Pool, i: nat)
    requires Fifo(s) && Exclusive(s) && Files(s) && Enabled(s, Take(i))
    ensures Files(Apply(s, Take(i)))
  {
    hide TasksOf;
    var r := Apply(s, Take(i));
    assert forall j | 0 <= j < |s.workers| && j != i :: r.workers[j] == s.workers[j];
    assert r.files == s.files && r.results == s.results && r.done == s.done;
    assert Writing(r, r.workers[i]);
    assert forall j | 0 <= j < |s.workers| && j != i && s.workers[j].Running? :: Writing(s, s.workers[j]);
    assert forall id <- s.results :: Written(s, id);
  }

  lemma FilesCreate(s: Pool, i: nat)
    requires Files(s) && Enabled(s, Create(i))
    ensures Files(Apply(s, Create(i)))
  {
    hide TasksOf;
    var r := Apply(s, Create(i));
    assert forall j | 0 <= j < |s.workers| && j != i :: r.workers[j] == s.workers[j];
    forall j | 0 <= j < |r.workers| && r.workers[j].Running? ensures Writing(r, r.workers[j]) {
      assert Writing(s, s.workers[j]);
    }
    forall id <- r.results ensures Written(r, id) {
      assert Written(s, id);
    }
  }

  lemma FilesWrite(s: Pool, i: nat, count: nat)
    requires Exclusive(s) && Files(s) && Enabled(s, Write(i, count))
    ensures Files(Apply(s, Write(i, count)))
  {
    hide TasksOf;
    var r, w := Apply(s, Write(i, count)), s.workers[i];
    assert forall j | 0 <= j < |s.workers| && j != i :: r.workers[j] == s.workers[j];
    forall j | 0 <= j < |r.workers| && r.workers[j].Running? ensures Writing(r, r.workers[j]) {
      assert Writing(s, s.workers[j]);
      if j == i {
        assert w.task.output[..w.written] + w.task.output[w.written..w.written + count]
            == w.task.output[..w.written + count];
      }
    }
    forall id <- r.results ensures Written(r, id) {
      assert Written(s, id);
    }
  }

  lemma FilesFinish(s: Pool, step: Step, i: nat)
    requires Exclusive(s) && Files(s) && Enabled(s, step) && (step == Finish(i) || step == CreateFails(i))
    ensures Files(Apply(s, step))
  {
    hide TasksOf;
    var r, w := Apply(s, step), s.workers[i];
    assert Writing(s, w);
    assert w.task.output[..|w.task.output|] == w.task.output;
    forall j | 0 <= j < |r.workers| && r.workers[j].Running? ensures j != i && Writing(r, r.workers[j]) {
      assert Writing(s, s.workers[j]);
    }
    forall id <- r.results ensures Written(r, id) {
      assert id != w.task.id ==> Written(s, id);
    }
  }

  lemma FilesEndWait(s: Pool)
    requires Exclusive(s) && Files(s) && Enabled(s, EndWait) && Phases(s)
    ensures Files(Apply(s, EndWait))
  {
    hide TasksOf;
    TasksGrow(s.done, s.script[0]);
    var r := Apply(s, EndWait);
    assert Written(s, s.main.id);
    forall j | 0 <= j < |r.workers| && r.workers[j].Running? ensures Writing(r, r.workers[j]) {
      assert Writing(s, s.workers[j]);
    }
    forall id <- r.results ensures Written(r, id) {
      assert Written(s, id);
    }
  }

  /** Steps that touch neither files nor results nor any running task. */
  lemma FilesSame(s: Pool, step: Step)
    requires Files(s) && Enabled(s, step) && Phases(s)
    requires !step.Take? && !step.Create? && !step.CreateFails? && !step.Write? && !step.Finish? && !step.EndWait? && !step.Join?
    ensures Files(Apply(s, step))
  {
    TasksKept(s, step);
    hide TasksOf, Files;
    var r := Apply(s, step);
    assert r.files == s.files && r.results == s.results && r.nextFile == s.nextFile && r.fails == s.fails;
    assert SameRunning(s, r);
    FilesFrame(s, r);
  }

  /** Whoever runs a task in `r` was just as far with it in `s`. */
  ghost predicate SameRunning(s: Pool, r: Pool) {
    forall j | 0 <= j < |r.workers| && r.workers[j].Running? :: j < |s.workers| && r.workers[j] == s.workers[j]
  }

  lemma FilesFrame(s: Pool, r: Pool)
    requires Files(s) && SameRunning(s, r) && TasksOf(s.done) <= TasksOf(r.done)
    requires r.files == s.files && r.results == s.results && r.nextFile == s.nextFile && r.fails == s.fails
    ensures Files(r)
  {
    hide TasksOf;
    forall j | 0 <= j < |r.workers| && r.workers[j].Running? ensures Writing(r, r.workers[j]) {
      assert Writing(s, s.workers[j]);
    }
    forall id <- r.results ensures Written(r, id) {
      assert Written(s, id);
    }
  }
}
