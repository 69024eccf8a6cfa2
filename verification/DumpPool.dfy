/** DumpPool: worker threads, a task queue under a mutex and condition variable, futures and temporary
    files, driven by the main thread of dumpstate.  Every step below is one critical section, or one
    action between critical sections, of one thread; a run is any interleaving of them. */
module DumpPool {

  /** `output` is everything its function writes to the descriptor it is given. */
  datatype Task = Task(id: nat, name: string, output: string)

  datatype File = NoFile | TmpFile(number: nat)

  /** A thread between two critical sections: about to take the lock, asleep on the condition
      variable, running a task of which it has written some characters, or gone. */
  datatype Worker = Idle | Asleep | Running(task: Task, file: File, written: nat) | Exited

  /** What the main thread does, in order. */
  datatype Command =
    | Print(text: string)
    | Enqueue(name: string, output: string)
    | Wait(name: string)
    | Start(count: nat)
    | Shutdown

  datatype Main = Ready | Waiting(id: nat) | Joining

  /** `results` holds the finished tasks whose future may still be read, with the temporary file each
      one returned, if it could create one; `started` and `done` are history.  `fails` are the tasks
      for which creating the file will fail, an arbitrary set that does not change. */
  datatype Pool = Pool(
    tasks: seq<Task>, shutdown: bool, workers: seq<Worker>,
    futures: map<string, nat>, results: map<nat, File>, files: map<nat, string>, nextFile: nat,
    report: string, main: Main, script: seq<Command>, done: seq<Command>,
    started: seq<nat>, fails: set<nat>)

  const MAX_THREAD_COUNT := 4

  /** A new pool; the constructor has deleted what an earlier one left behind. */
  function Init(script: seq<Command>, fails: set<nat>): Pool {
    Pool([], false, [], map[], map[], map[], 0, "", Ready, script, [], [], fails)
  }

  datatype Step =
    // main thread
    | PrintText | Post(wake: nat) | UnknownTask | BeginWait | EndWait | StartPool
    | SkipShutdown | BeginShutdown | Join
    // worker i
    | Sleep(i: nat) | WakeUp(i: nat) | Take(i: nat) | Exit(i: nat)
    | Create(i: nat) | CreateFails(i: nat) | Write(i: nat, count: nat) | Finish(i: nat)

  /** The steps of the main thread. */
  predicate OfMain(step: Step) {
    step.PrintText? || step.Post? || step.UnknownTask? || step.BeginWait? || step.EndWait? || step.StartPool?
    || step.SkipShutdown? || step.BeginShutdown? || step.Join?
  }

  /** All tasks enqueued by the commands `done`, numbered in order. */
  function TasksOf(done: seq<Command>): seq<Task> {
    if done == [] then []
    else
      var before, last := TasksOf(done[..|done| - 1]), done[|done| - 1];
      if last.Enqueue? then before + [Task(|before|, last.name, last.output)] else before
  }

  /** DumpFileToFd without a title: the contents, with a newline added unless they end with one. */
  function Dumped(text: string): string {
    text + if text != "" && text[|text| - 1] == '\n' then "" else "\n"
  }

  function Threads(count: nat): seq<Worker> {
    seq(if count > MAX_THREAD_COUNT then MAX_THREAD_COUNT else count, i => Idle)
  }

  function Woken(ws: seq<Worker>): (r: seq<Worker>)
    ensures |r| == |ws|
  {
    seq(|ws|, i requires 0 <= i < |ws| => if ws[i] == Asleep then Idle else ws[i])
  }

  ghost predicate AnyAsleep(ws: seq<Worker>) {
    exists i | 0 <= i < |ws| :: ws[i] == Asleep
  }

  predicate WorkerAt(s: Pool, i: nat) {
    i < |s.workers|
  }

  ghost predicate Enabled(s: Pool, step: Step) {
    match step
    case PrintText => s.main == Ready && s.script != [] && s.script[0].Print?
    case Post(wake) =>
      && s.main == Ready && s.script != [] && s.script[0].Enqueue?
      && (AnyAsleep(s.workers) ==> WorkerAt(s, wake) && s.workers[wake] == Asleep)
    case UnknownTask => s.main == Ready && s.script != [] && s.script[0].Wait? && s.script[0].name !in s.futures
    case BeginWait => s.main == Ready && s.script != [] && s.script[0].Wait? && s.script[0].name in s.futures
    case EndWait => s.main.Waiting? && s.script != [] && s.main.id in s.results
    case StartPool => s.main == Ready && s.script != [] && s.script[0].Start? && s.script[0].count > 0 && s.workers == []
    case SkipShutdown => s.main == Ready && s.script != [] && s.script[0].Shutdown? && (s.shutdown || s.workers == [])
    case BeginShutdown => s.main == Ready && s.script != [] && s.script[0].Shutdown? && !s.shutdown && s.workers != []
    case Join => s.main == Joining && s.script != [] && forall w <- s.workers :: w == Exited
    case Sleep(i) => WorkerAt(s, i) && s.workers[i] == Idle && !s.shutdown && s.tasks == []
    case WakeUp(i) => WorkerAt(s, i) && s.workers[i] == Asleep
    case Take(i) => WorkerAt(s, i) && s.workers[i] == Idle && !s.shutdown && s.tasks != []
    case Exit(i) => WorkerAt(s, i) && s.workers[i] == Idle && s.shutdown
    case Create(i) =>
      WorkerAt(s, i) && s.workers[i].Running? && s.workers[i].file == NoFile && s.workers[i].task.id !in s.fails
    case CreateFails(i) =>
      WorkerAt(s, i) && s.workers[i].Running? && s.workers[i].file == NoFile && s.workers[i].task.id in s.fails
    case Write(i, count) =>
      && WorkerAt(s, i) && s.workers[i].Running? && s.workers[i].file.TmpFile? && s.workers[i].file.number in s.files
      && 0 < count <= |s.workers[i].task.output| - s.workers[i].written
    case Finish(i) =>
      && WorkerAt(s, i) && s.workers[i].Running? && s.workers[i].file.TmpFile?
      && s.workers[i].written == |s.workers[i].task.output|
  }

  /** The command at the head of the script is finished. */
  function Advance(s: Pool): Pool
    requires s.script != []
  {
    s.(main := Ready, script := s.script[1..], done := s.done + [s.script[0]])
  }

  function Apply(s: Pool, step: Step): Pool
    requires Enabled(s, step)
  {
    match step
    case PrintText => Advance(s).(report := s.report + s.script[0].text)
    case Post(wake) =>
      var cmd := s.script[0];
      var t := Task(|TasksOf(s.done)|, cmd.name, cmd.output);
      var ws :=
        if s.workers == [] then Threads(MAX_THREAD_COUNT)
        else if wake < |s.workers| && s.workers[wake] == Asleep then s.workers[wake := Idle]
        else s.workers;
      Advance(s).(tasks := s.tasks + [t], futures := s.futures[cmd.name := t.id], workers := ws,
                  shutdown := if s.workers == [] then false else s.shutdown)
    case UnknownTask => Advance(s)
    case BeginWait =>
      var name := s.script[0].name;
      s.(main := Waiting(s.futures[name]), futures := s.futures - {name})
    case EndWait =>
      var file := s.results[s.main.id];
      var a := Advance(s).(results := s.results - {s.main.id});
      if file.TmpFile? && file.number in s.files then
        a.(report := s.report + Dumped(s.files[file.number]), files := s.files - {file.number})
      else a
    case StartPool => Advance(s).(shutdown := false, workers := Threads(s.script[0].count))
    case SkipShutdown => Advance(s)
    case BeginShutdown =>
      s.(main := Joining, futures := map[], tasks := [], shutdown := true, workers := Woken(s.workers))
    case Join => Advance(s).(workers := [], files := map[], results := map[])
    case Sleep(i) => s.(workers := s.workers[i := Asleep])
    case WakeUp(i) => s.(workers := s.workers[i := Idle])
    case Take(i) =>
      s.(tasks := s.tasks[1..], workers := s.workers[i := Running(s.tasks[0], NoFile, 0)],
         started := s.started + [s.tasks[0].id])
    case Exit(i) => s.(workers := s.workers[i := Exited])
    case Create(i) =>
      s.(workers := s.workers[i := s.workers[i].(file := TmpFile(s.nextFile))],
         files := s.files[s.nextFile := ""], nextFile := s.nextFile + 1)
    case CreateFails(i) =>
      s.(workers := s.workers[i := Idle], results := s.results[s.workers[i].task.id := NoFile])
    case Write(i, count) =>
      var w := s.workers[i];
      s.(workers := s.workers[i := w.(written := w.written + count)],
         files := s.files[w.file.number := s.files[w.file.number] + w.task.output[w.written..w.written + count]])
    case Finish(i) =>
      s.(workers := s.workers[i := Idle], results := s.results[s.workers[i].task.id := s.workers[i].file])
  }

  datatype Outcome = Impossible | State(s: Pool)

  /** The state after the interleaving `run`, if every step of it is possible. */
  ghost function After(script: seq<Command>, fails: set<nat>, run: seq<Step>): Outcome
    decreases |run|
  {
    if run == [] then State(Init(script, fails))
    else
      var before, step := After(script, fails, run[..|run| - 1]), run[|run| - 1];
      if before.State? && Enabled(before.s, step) then State(Apply(before.s, step)) else Impossible
  }
}
