/** Whole runs of a DumpPool: what holds in every reachable state, and that no run gets stuck. */
module DumpPoolRuns {
  import opened DumpPool
  import opened DumpPoolSafety
  import opened DumpPoolReport

  ghost predicate Inv(s: Pool) {
    && Phases(s) && NoLostWakeup(s) && Fifo(s) && Exclusive(s) && Files(s)
    && Names(s) && Promises(s) && Faithful(s) && Quiet(s) && Crew(s) && Tidy(s)
  }

  // ---------- how many workers there are ----------

  predicate NoShutdownAfter(done: seq<Command>, p: nat) {
    forall q | p < q < |done| :: !done[q].Shutdown?
  }

  /** Whatever the first `p` commands started has been shut down. */
  ghost predicate AllShutDown(done: seq<Command>, p: nat)
    requires p <= |done|
  {
    forall q: nat | q < p && (done[q].Start? || done[q].Enqueue?) :: exists r | q < r < p :: done[r].Shutdown?
  }

  /** Command `p` started `n` workers, and they have not been shut down. */
  ghost predicate StartedBy(done: seq<Command>, p: nat, n: nat) {
    && p < |done| && NoShutdownAfter(done, p) && AllShutDown(done, p)
    && ((done[p].Start? && n == if done[p].count < 4 then done[p].count else 4) || (done[p].Enqueue? && n == 4))
  }

  /** There are as many workers as the last start() asked for, but not more than four; and four if it was
      the first task to be enqueued that started them. */
  ghost predicate Crew(s: Pool) {
    if s.workers == [] then AllShutDown(s.done, |s.done|)
    else exists p: nat :: StartedBy(s.done, p, |s.workers|)
  }

  lemma StartedStays(done: seq<Command>, c: Command, p: nat, n: nat)
    requires StartedBy(done, p, n) && !c.Shutdown?
    ensures StartedBy(done + [c], p, n)
  {
    var more := done + [c];
    assert forall q: nat | q < |done| :: more[q] == done[q];
  }

  /** One more command in a pool without workers: it starts some, or there are still none. */
  lemma NoneStarted(done: seq<Command>, c: Command)
    requires AllShutDown(done, |done|)
    ensures var more := done + [c];
            && AllShutDown(more, |done|) && NoShutdownAfter(more, |done|)
            && (!c.Start? && !c.Enqueue? ==> AllShutDown(more, |more|))
  {
    var more := done + [c];
    assert forall q: nat | q < |done| :: more[q] == done[q];
    forall q: nat | q < |done| && (more[q].Start? || more[q].Enqueue?) ensures exists r | q < r < |done| :: more[r].Shutdown? {
      var r :| q < r < |done| && done[r].Shutdown?;
      assert more[r].Shutdown?;
    }
  }

  lemma ShutDownNow(done: seq<Command>)
    ensures AllShutDown(done + [Shutdown], |done| + 1)
  {
    var more := done + [Shutdown];
    assert more[|done|].Shutdown?;
  }

  lemma CrewKept(s: Pool, step: Step)
    requires Phases(s) && Crew(s) && Enabled(s, step)
    ensures Crew(Apply(s, step))
  {
    var r := Apply(s, step);
    if OfMain(step) && r.done != s.done {
      var c := s.script[0];
      assert r.done == s.done + [c];
      CrewAdvance(s, c, r);
    } else {
      assert r.done == s.done && |r.workers| == |s.workers|;
    }
  }

  lemma CrewAdvance(s: Pool, c: Command, r: Pool)
    requires Crew(s) && r.done == s.done + [c]
    requires if c.Shutdown? then r.workers == []
             else if s.workers != [] then |r.workers| == |s.workers| && !c.Start?
             else if c.Start? then |r.workers| == (if c.count < 4 then c.count else 4) && c.count > 0
             else if c.Enqueue? then |r.workers| == 4
             else r.workers == []
    ensures Crew(r)
  {
    hide StartedBy, AllShutDown;
    if c.Shutdown? {
      ShutDownNow(s.done);
    } else if s.workers != [] {
      var p: nat :| StartedBy(s.done, p, |s.workers|);
      StartedStays(s.done, c, p, |s.workers|);
    } else {
      NoneStarted(s.done, c);
      if c.Start? || c.Enqueue? {
        NewlyStarted(s.done, c, |r.workers|);
      }
    }
  }

  lemma NewlyStarted(done: seq<Command>, c: Command, n: nat)
    requires AllShutDown(done + [c], |done|)
    requires (c.Start? && n == if c.count < 4 then c.count else 4) || (c.Enqueue? && n == 4)
    ensures StartedBy(done + [c], |done|, n)
  {}

  // ---------- the invariant ----------

  /** Between a shutdown and the next command the pool is empty. */
  ghost predicate Quiet(s: Pool) {
    s.main == Ready && s.done != [] && s.done[|s.done| - 1] == Shutdown ==> s.workers == []
  }

  lemma QuietKept(s: Pool, step: Step)
    requires Phases(s) && Quiet(s) && Enabled(s, step)
    ensures Quiet(Apply(s, step))
  {}

  lemma InitInv(script: seq<Command>, fails: set<nat>)
    ensures Inv(Init(script, fails))
  {}

  lemma InvKept(s: Pool, step: Step)
    requires Inv(s) && Enabled(s, step)
    ensures Inv(Apply(s, step))
  {
    hide Enabled, Apply, Phases, NoLostWakeup, Fifo, Exclusive, Files, Names, Promises, Faithful, Quiet, Crew, Tidy;
    PhasesKept(s, step);
    WakeKept(s, step);
    FifoKept(s, step);
    ExclusiveKept(s, step);
    FilesKept(s, step);
    NamesKept(s, step);
    PromisesKept(s, step);
    FaithfulKept(s, step);
    QuietKept(s, step);
    CrewKept(s, step);
    TidyKept(s, step);
  }

  lemma ScriptKept(s: Pool, step: Step)
    requires Enabled(s, step)
    ensures var r := Apply(s, step); r.done + r.script == s.done + s.script && r.fails == s.fails
  {
    hide Apply, Enabled;
    if OfMain(step) {
      ScriptMain(s, step);
      assert s.script == [s.script[0]] + s.script[1..];
      assert (s.done + [s.script[0]]) + s.script[1..] == s.done + s.script;
    } else {
      ScriptWorker(s, step);
    }
  }

  lemma ScriptMain(s: Pool, step: Step)
    requires Enabled(s, step) && OfMain(step)
    ensures var r := Apply(s, step);
            && r.fails == s.fails && s.script != []
            && ((r.done == s.done && r.script == s.script)
                || (r.done == s.done + [s.script[0]] && r.script == s.script[1..]))
  {}

  lemma ScriptWorker(s: Pool, step: Step)
    requires Enabled(s, step) && !OfMain(step)
    ensures var r := Apply(s, step); r.done == s.done && r.script == s.script && r.fails == s.fails
  {}

  /** Every state of every run satisfies the invariant. */
  lemma {:induction false} Always(script: seq<Command>, fails: set<nat>, run: seq<Step>)
    requires After(script, fails, run).State?
    ensures Inv(After(script, fails, run).s)
    ensures var s := After(script, fails, run).s; s.done + s.script == script && s.fails == fails
    decreases |run|
  {
    hide Inv, Enabled, Apply;
    if run == [] {
      InitInv(script, fails);
      assert [] + script == script;
    } else {
      var before, step := After(script, fails, run[..|run| - 1]).s, run[|run| - 1];
      Always(script, fails, run[..|run| - 1]);
      InvKept(before, step);
      ScriptKept(before, step);
    }
  }

  /** In every reachable state: tasks were started in the order of their enqueueing and each at most
      once; while a worker sleeps there are at least as many awake idle workers as queued tasks;
      and whichever tasks could not create their temporary file, the report so far is the sequential
      one, section by section, with exactly those sections missing and a newline after each section
      that lacks one. */
  lemma EveryRun(script: seq<Command>, fails: set<nat>, run: seq<Step>)
    requires After(script, fails, run).State?
    ensures var s := After(script, fails, run).s;
            && s.done <= script
            && Increasing(s.started)
            && (Asleep in s.workers ==> |s.tasks| <= Idles(s.workers))
            && (forall n <- s.files :: BeingWritten(s, n) || ToBeRead(s, n))
            && (s.workers != [] ==> exists p: nat :: StartedBy(s.done, p, |s.workers|))
            && s.report == Parallel(s.done, fails) && Assembled(s.done, fails, s.report)
            && (s.script == [] ==> s.report == Parallel(script, fails))
  {
    Always(script, fails, run);
    var s := After(script, fails, run).s;
    ParallelAssembled(s.done, fails);
    hide After, Sections, TasksOf, Files, Names, Exclusive, Promises, Assembled;
    if Asleep in s.workers {
      assert AnyAsleep(s.workers);
    }
    assert s.script == [] ==> s.done + s.script == s.done;
  }

  /** Once a Shutdown command is through, and until the next command, no worker, task, future or
      temporary file is left, and the pool can be started again. */
  lemma ShutdownCleansUp(script: seq<Command>, fails: set<nat>, run: seq<Step>)
    requires After(script, fails, run).State?
    requires var s := After(script, fails, run).s; s.main == Ready && s.done != [] && s.done[|s.done| - 1] == Shutdown
    ensures var s := After(script, fails, run).s;
            && s.workers == [] && s.tasks == [] && s.futures == map[] && s.files == map[]
            && (s.script != [] && s.script[0].Start? && s.script[0].count > 0 ==> Enabled(s, StartPool))
  {
    Always(script, fails, run);
    hide After, Sections, TasksOf, Files, Names, Exclusive, Promises, Fifo, NoLostWakeup, Faithful;
  }

  // ---------- every run gets to its end ----------

  function TaskWork(t: Task): nat { |t.output| + 4 }

  function WorkerWork(w: Worker): int {
    match w
    case Idle => 1
    case Asleep => 0
    case Running(t, NoFile, _) => TaskWork(t)
    case Running(t, TmpFile(_), written) => |t.output| - written + 3
    case Exited => 0
  }

  function CommandWork(c: Command): nat {
    match c
    case Print(_) => 1
    case Enqueue(_, output) => |output| + 4 + MAX_THREAD_COUNT + 1
    case Wait(_) => 2
    case Start(_) => MAX_THREAD_COUNT + 1
    case Shutdown => MAX_THREAD_COUNT + 2
  }

  function TasksWork(ts: seq<Task>): nat {
    if ts == [] then 0 else TaskWork(ts[0]) + TasksWork(ts[1..])
  }

  function WorkersWork(ws: seq<Worker>): int {
    if ws == [] then 0 else WorkerWork(ws[0]) + WorkersWork(ws[1..])
  }

  function ScriptWork(cs: seq<Command>): nat {
    if cs == [] then 0 else CommandWork(cs[0]) + ScriptWork(cs[1..])
  }

  /** How much there is still to do. */
  function Work(s: Pool): int {
    TasksWork(s.tasks) + WorkersWork(s.workers) + ScriptWork(s.script)
    - (match s.main case Ready => 0 case Waiting(_) => 1 case Joining => MAX_THREAD_COUNT + 1)
  }

  lemma {:induction false} TasksWorkAppend(ts: seq<Task>, t: Task)
    ensures TasksWork(ts + [t]) == TasksWork(ts) + TaskWork(t)
  {
    if ts == [] {
      assert [t][1..] == [];
    } else {
      assert (ts + [t])[1..] == ts[1..] + [t];
      TasksWorkAppend(ts[1..], t);
    }
  }

  lemma {:induction false} WorkersWorkUpdate(ws: seq<Worker>, i: nat, w: Worker)
    requires i < |ws|
    ensures WorkersWork(ws[i := w]) == WorkersWork(ws) - WorkerWork(ws[i]) + WorkerWork(w)
  {
    if i == 0 {
      assert ws[i := w][1..] == ws[1..];
    } else {
      assert ws[i := w][1..] == ws[1..][i - 1 := w];
      WorkersWorkUpdate(ws[1..], i - 1, w);
    }
  }

  lemma {:induction false} WorkersWorkWoken(ws: seq<Worker>)
    ensures WorkersWork(Woken(ws)) <= WorkersWork(ws) + |ws|
  {
    if ws != [] {
      assert Woken(ws)[1..] == Woken(ws[1..]);
      WorkersWorkWoken(ws[1..]);
    }
  }

  lemma {:induction false} WorkersWorkAll(ws: seq<Worker>, w: Worker)
    requires w == Idle || w == Exited
    requires forall x <- ws :: x == w
    ensures WorkersWork(ws) == if w == Idle then |ws| else 0
  {
    if ws != [] {
      assert ws[0] in ws;
      assert forall x <- ws[1..] :: x in ws;
      WorkersWorkAll(ws[1..], w);
    }
  }

  /** Every step but a spurious wakeup brings the run closer to its end; a spurious wakeup sets it back
      by one. */
  lemma WorkDecreases(s: Pool, step: Step)
    requires Phases(s) && Files(s) && Enabled(s, step)
    ensures Work(Apply(s, step)) <= if step.WakeUp? then Work(s) + 1 else Work(s) - 1
  {
    hide Files;
    match step
    case Sleep(i) => WorkerStep(s, step);
    case WakeUp(i) => WorkerStep(s, step);
    case Take(i) => WorkerStep(s, step);
    case Exit(i) => WorkerStep(s, step);
    case Create(i) => WorkerStep(s, step);
    case CreateFails(i) => WorkerStep(s, step);
    case Write(i, count) => WorkerStep(s, step);
    case Finish(i) => WorkerStep(s, step);
    case _ => MainStep(s, step);
  }

  lemma WorkerStep(s: Pool, step: Step)
    requires Files(s) && Enabled(s, step) && !OfMain(step)
    ensures Work(Apply(s, step)) <= if step.WakeUp? then Work(s) + 1 else Work(s) - 1
  {
    var r := Apply(s, step);
    if s.workers[step.i].Running? {
      assert Writing(s, s.workers[step.i]);
    }
    hide Files, TasksOf, ScriptWork;
    assert r.workers == s.workers[step.i := r.workers[step.i]];
    WorkersWorkUpdate(s.workers, step.i, r.workers[step.i]);
  }

  lemma MainStep(s: Pool, step: Step)
    requires Phases(s) && Enabled(s, step) && OfMain(step)
    ensures Work(Apply(s, step)) <= Work(s) - 1
  {
    hide TasksOf;
    var r := Apply(s, step);
    match step
    case Post(wake) =>
      TasksWorkAppend(s.tasks, r.tasks[|s.tasks|]);
      if s.workers == [] {
        WorkersWorkAll(r.workers, Idle);
      } else if r.workers != s.workers {
        WorkersWorkUpdate(s.workers, wake, Idle);
      }
    case StartPool => WorkersWorkAll(r.workers, Idle);
    case BeginShutdown => WorkersWorkWoken(s.workers);
    case Join => WorkersWorkAll(s.workers, Exited);
    case _ =>
  }

  /** The number of spurious wakeups in a run. */
  function WakeUps(run: seq<Step>): nat {
    if run == [] then 0 else WakeUps(run[..|run| - 1]) + if run[|run| - 1].WakeUp? then 1 else 0
  }

  lemma {:induction false} WorkersWorkNonNegative(s: Pool, ws: seq<Worker>)
    requires forall w <- ws :: w.Running? ==> Writing(s, w)
    ensures WorkersWork(ws) >= 0
    decreases |ws|
  {
    if ws != [] {
      assert ws[0] in ws;
      assert forall w <- ws[1..] :: w in ws;
      WorkersWorkNonNegative(s, ws[1..]);
    }
  }

  lemma WorkNonNegative(s: Pool)
    requires Phases(s) && Files(s)
    ensures Work(s) >= 0
  {
    forall w <- s.workers | w.Running? ensures Writing(s, w) {}
    WorkersWorkNonNegative(s, s.workers);
  }

  /** No run goes on for longer than its script and its spurious wakeups account for. */
  lemma RunsAreBounded(script: seq<Command>, fails: set<nat>, run: seq<Step>)
    requires After(script, fails, run).State?
    ensures |run| <= ScriptWork(script) + 2 * WakeUps(run)
  {
    StepsSpendWork(script, fails, run);
    Always(script, fails, run);
    WorkNonNegative(After(script, fails, run).s);
  }

  /** A run that has not finished its script can go on, without waiting for a spurious wakeup. */
  lemma RunsGoOn(script: seq<Command>, fails: set<nat>, run: seq<Step>)
    requires After(script, fails, run).State?
    requires var s := After(script, fails, run).s; s.script != [] && !BadStart(s)
    ensures exists step: Step :: !step.WakeUp? && After(script, fails, run + [step]).State?
  {
    Always(script, fails, run);
    var s := After(script, fails, run).s;
    NoDeadlock(s);
    var step: Step :| !step.WakeUp? && Enabled(s, step);
    assert (run + [step])[..|run|] == run;
    assert After(script, fails, run + [step]) == State(Apply(s, step));
  }

  lemma {:induction false} StepsSpendWork(script: seq<Command>, fails: set<nat>, run: seq<Step>)
    requires After(script, fails, run).State?
    ensures |run| + Work(After(script, fails, run).s) <= ScriptWork(script) + 2 * WakeUps(run)
    decreases |run|
  {
    if run != [] {
      var before, step := After(script, fails, run[..|run| - 1]).s, run[|run| - 1];
      StepsSpendWork(script, fails, run[..|run| - 1]);
      Always(script, fails, run[..|run| - 1]);
      hide Work, Apply, Enabled;
      WorkDecreases(before, step);
    }
  }

  /** The one way a script can stop itself: start() asserts a positive count and that no thread is left. */
  predicate BadStart(s: Pool) {
    s.main == Ready && s.script != [] && s.script[0].Start? && (s.script[0].count == 0 || s.workers != [])
  }

  /** As long as the script is not finished, some step other than a spurious wakeup is possible: in
      particular waitForTask never waits for a task that nobody will run, and shutdown never for a
      thread that will not exit. */
  lemma NoDeadlock(s: Pool)
    requires Inv(s) && s.script != [] && !BadStart(s)
    ensures exists step: Step :: !step.WakeUp? && Enabled(s, step)
  {
    match s.main
    case Ready => ReadyMoves(s);
    case Waiting(id) => WaitingMoves(s, id);
    case Joining => JoiningMoves(s);
  }

  lemma ReadyMoves(s: Pool)
    requires s.main == Ready && s.script != [] && !BadStart(s)
    ensures exists step: Step :: !step.WakeUp? && Enabled(s, step)
  {
    match s.script[0]
    case Print(_) => assert Enabled(s, PrintText);
    case Enqueue(_, _) =>
      var wake := if AnyAsleep(s.workers) then var i :| 0 <= i < |s.workers| && s.workers[i] == Asleep; i else 0;
      assert Enabled(s, Post(wake));
    case Wait(name) =>
      if name in s.futures {
        assert Enabled(s, BeginWait);
      } else {
        assert Enabled(s, UnknownTask);
      }
    case Start(_) => assert Enabled(s, StartPool);
    case Shutdown =>
      if s.shutdown || s.workers == [] {
        assert Enabled(s, SkipShutdown);
      } else {
        assert Enabled(s, BeginShutdown);
      }
  }

  /** A worker in the middle of a task can always go on with it. */
  lemma RunningMoves(s: Pool, i: nat)
    requires Files(s) && i < |s.workers| && s.workers[i].Running?
    ensures exists step: Step :: !step.WakeUp? && Enabled(s, step)
  {
    var w := s.workers[i];
    assert Writing(s, w);
    if w.file == NoFile {
      assert Enabled(s, if w.task.id in s.fails then CreateFails(i) else Create(i));
    } else if w.written == |w.task.output| {
      assert Enabled(s, Finish(i));
    } else {
      assert Enabled(s, Write(i, 1));
    }
  }

  lemma WaitingMoves(s: Pool, id: nat)
    requires Phases(s) && Promises(s) && NoLostWakeup(s) && Files(s) && s.main == Waiting(id)
    ensures exists step: Step :: !step.WakeUp? && Enabled(s, step)
  {
    if id in s.results {
      assert Enabled(s, EndWait);
    } else if Being(s, id) {
      var i :| 0 <= i < |s.workers| && s.workers[i].Running? && s.workers[i].task.id == id;
      RunningMoves(s, i);
    } else {
      assert Queued(s, id) && s.tasks != [] && s.workers != [];
      assert s.workers[0] in s.workers;
      if s.workers[0].Running? {
        RunningMoves(s, 0);
      } else if s.workers[0] == Idle {
        assert Enabled(s, Take(0));
      } else {
        assert AnyAsleep(s.workers);
        IdlesPositive(s.workers);
        var i :| 0 <= i < |s.workers| && s.workers[i] == Idle;
        assert Enabled(s, Take(i));
      }
    }
  }

  lemma JoiningMoves(s: Pool)
    requires Phases(s) && Files(s) && s.main == Joining
    ensures exists step: Step :: !step.WakeUp? && Enabled(s, step)
  {
    if forall w <- s.workers :: w == Exited {
      assert Enabled(s, Join);
    } else {
      var i :| 0 <= i < |s.workers| && s.workers[i] != Exited;
      if s.workers[i].Running? {
        RunningMoves(s, i);
      } else {
        assert Enabled(s, Exit(i));
      }
    }
  }

  // ---------- shutting down ----------

  /** The worker whose step it is; -1 for the main thread. */
  function Owner(step: Step): int {
    if OfMain(step) then -1 else step.i
  }

  /** How many steps of `run` are worker `i`'s. */
  function StepsOf(run: seq<Step>, i: nat): nat {
    if run == [] then 0 else StepsOf(run[..|run| - 1], i) + if Owner(run[|run| - 1]) == i then 1 else 0
  }

  /** While `steps` led from `s` to `r`, no task was started, every worker either is still with the task it
      had or is done with it, and its share of the steps is paid for by the work it had left. */
  ghost predicate WoundDown(s: Pool, r: Pool, steps: seq<Step>) {
    && r.main == Joining && r.started == s.started && |r.workers| == |s.workers|
    && (forall i | 0 <= i < |s.workers| && r.workers[i].Running? ::
          s.workers[i].Running? && r.workers[i].task == s.workers[i].task)
    && (forall i: nat | i < |s.workers| :: StepsOf(steps, i) <= WorkerWork(s.workers[i]) - WorkerWork(r.workers[i]))
  }

  lemma WindsDown(s: Pool, r: Pool, steps: seq<Step>, step: Step)
    requires Phases(r) && WoundDown(s, r, steps) && Enabled(r, step) && step != Join
    ensures WoundDown(s, Apply(r, step), steps + [step])
  {
    assert (steps + [step])[..|steps|] == steps;
    assert r.main == Joining && r.shutdown && !AnyAsleep(r.workers);
    assert Owner(step) >= 0 && Owner(step) < |r.workers|;
    assert WorkerWork(Apply(r, step).workers[Owner(step)]) < WorkerWork(r.workers[Owner(step)]);
  }

  /** Once shutdown() has set the flag, and until it has joined the threads, whatever the interleaving:
      no task starts, and the steps a worker can still make are at most those of finishing the task
      it is running and exiting. */
  lemma {:induction false} OnlyFinishing(script: seq<Command>, fails: set<nat>, run: seq<Step>, more: seq<Step>)
    requires After(script, fails, run).State? && After(script, fails, run).s.main == Joining
    requires After(script, fails, run + more).State? && Join !in more
    ensures WoundDown(After(script, fails, run).s, After(script, fails, run + more).s, more)
    decreases |more|
  {
    hide Enabled, Apply, WorkerWork;
    if more == [] {
      assert run + more == run;
    } else {
      hide WoundDown;
      var init, step := more[..|more| - 1], more[|more| - 1];
      assert init + [step] == more;
      LastStep(script, fails, run, init, step);
      OnlyFinishing(script, fails, run, init);
      Always(script, fails, run + init);
      hide After;
      assert step in more;
      WindsDown(After(script, fails, run).s, After(script, fails, run + init).s, init, step);
    }
  }

  lemma LastStep(script: seq<Command>, fails: set<nat>, run: seq<Step>, init: seq<Step>, step: Step)
    requires After(script, fails, run + (init + [step])).State?
    ensures After(script, fails, run + init).State? && Enabled(After(script, fails, run + init).s, step)
    ensures After(script, fails, run + (init + [step])).s == Apply(After(script, fails, run + init).s, step)
  {
    hide Enabled, Apply;
    var all := run + (init + [step]);
    assert all[..|all| - 1] == run + init && all[|all| - 1] == step;
  }
}
