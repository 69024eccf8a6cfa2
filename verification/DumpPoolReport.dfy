/** The report a DumpPool run produces. */
module DumpPoolReport {
  import opened DumpPool
  import opened DumpPoolSafety

  // ---------- the sequential meaning of a script ----------

  /** Which task each name stands for after the commands `done`. */
  function Pending(done: seq<Command>): map<string, nat> {
    if done == [] then map[]
    else
      var before, p := done[..|done| - 1], Pending(done[..|done| - 1]);
      match done[|done| - 1]
      case Enqueue(name, _) => p[name := |TasksOf(before)|]
      case Wait(name) => p - {name}
      case Shutdown => map[]
      case _ => p
  }

  lemma {:induction false} PendingNumbers(done: seq<Command>)
    ensures forall n <- Pending(done) :: Pending(done)[n] < |TasksOf(done)|
    ensures forall a, b | a in Pending(done) && b in Pending(done) && a != b :: Pending(done)[a] != Pending(done)[b]
  {
    if done != [] {
      PendingNumbers(done[..|done| - 1]);
    }
  }

  /** The output behind `name`. */
  function OutputOf(done: seq<Command>, name: string): string
    requires name in Pending(done)
  {
    PendingNumbers(done);
    TasksOf(done)[Pending(done)[name]].output
  }

  /** Whether waiting for `name` after the commands `before` shows a section. */
  predicate Shown(before: seq<Command>, missing: set<nat>, name: string) {
    name in Pending(before) && Pending(before)[name] !in missing
  }

  /** The report of a run without a pool, where every slow section runs where the parallel run waits
      for it, but for the `missing` ones; `dress` is what happens to a section's output on its way
      into the report. */
  function Sections(done: seq<Command>, missing: set<nat>, dress: string -> string): string {
    if done == [] then ""
    else
      var before, r := done[..|done| - 1], Sections(done[..|done| - 1], missing, dress);
      match done[|done| - 1]
      case Print(text) => r + text
      case Wait(name) => if Shown(before, missing, name) then r + dress(OutputOf(before, name)) else r
      case _ => r
  }

  function Sequential(done: seq<Command>, missing: set<nat>): string {
    Sections(done, missing, text => text)
  }

  function Parallel(done: seq<Command>, missing: set<nat>): string {
    Sections(done, missing, Dumped)
  }

  /** The text ends with a newline. */
  predicate EndsLine(text: string) {
    text != "" && text[|text| - 1] == '\n'
  }

  /** How many of the sections shown do not end with a newline. */
  function Ragged(done: seq<Command>, missing: set<nat>): nat {
    if done == [] then 0
    else
      var before, r := done[..|done| - 1], Ragged(done[..|done| - 1], missing);
      match done[|done| - 1]
      case Wait(name) =>
        if Shown(before, missing, name) && !EndsLine(OutputOf(before, name)) then r + 1 else r
      case _ => r
  }

  /** The two reports differ by exactly one newline for every section that does not end with one. */
  lemma {:induction false} AddedNewlines(done: seq<Command>, missing: set<nat>)
    ensures |Parallel(done, missing)| == |Sequential(done, missing)| + Ragged(done, missing)
    ensures Ragged(done, missing) == 0 <==> Parallel(done, missing) == Sequential(done, missing)
    decreases |done|
  {
    if done != [] {
      AddedNewlines(done[..|done| - 1], missing);
    }
  }

  // ---------- which tasks are shown ----------

  /** Task `id` is enqueued under `name` by command `p`, and no command after that and before `k` replaces
      it, waits for it or shuts the pool down. */
  ghost predicate PendingSince(done: seq<Command>, name: string, id: nat, p: nat, k: nat)
    requires k <= |done|
  {
    && p < k && done[p].Enqueue? && done[p].name == name && |TasksOf(done[..p])| == id
    && forall q | p < q < k :: !((done[q].Enqueue? || done[q].Wait?) && done[q].name == name) && !done[q].Shutdown?
  }

  ghost predicate IsPending(done: seq<Command>, name: string, id: nat, k: nat)
    requires k <= |done|
  {
    exists p: nat :: PendingSince(done, name, id, p, k)
  }

  /** One more command. */
  lemma PendingSinceStep(done: seq<Command>, name: string, id: nat, p: nat, k: nat)
    requires k < |done|
    ensures PendingSince(done, name, id, p, k + 1) <==>
            if p == k then done[k].Enqueue? && done[k].name == name && |TasksOf(done[..k])| == id
            else PendingSince(done, name, id, p, k)
                 && !((done[k].Enqueue? || done[k].Wait?) && done[k].name == name) && !done[k].Shutdown?
  {
    hide TasksOf;
  }

  /** What a name stands for, without going through the commands one by one. */
  lemma {:induction false} PendingMeans(done: seq<Command>, name: string, id: nat, k: nat)
    requires k <= |done|
    ensures name in Pending(done[..k]) && Pending(done[..k])[name] == id <==> IsPending(done, name, id, k)
    decreases k
  {
    if k > 0 {
      var c := done[k - 1];
      assert done[..k] == done[..k - 1] + [c];
      PendingGrows(done[..k - 1], c);
      PendingMeans(done, name, id, k - 1);
      hide Pending, TasksOf, PendingSince;
      PendingSinceStep(done, name, id, k - 1, k - 1);
      if IsPending(done, name, id, k) {
        var p: nat :| PendingSince(done, name, id, p, k);
        PendingSinceStep(done, name, id, p, k - 1);
      }
      if IsPending(done, name, id, k - 1) {
        var p: nat :| PendingSince(done, name, id, p, k - 1);
        EarlierPending(done, name, id, p, k - 1);
        PendingSinceStep(done, name, id, p, k - 1);
      }
    }
  }

  lemma EarlierPending(done: seq<Command>, name: string, id: nat, p: nat, k: nat)
    requires k <= |done| && PendingSince(done, name, id, p, k)
    ensures p < k
  {}

  /** Command `k` shows the section of task `id`. */
  ghost predicate ShownAt(done: seq<Command>, missing: set<nat>, k: nat, id: nat) {
    && k < |done| && done[k].Wait? && Shown(done[..k], missing, done[k].name)
    && Pending(done[..k])[done[k].name] == id
  }

  /** A section is shown exactly where its name is waited for while it is pending, unless it is missing. */
  lemma ShownMeans(done: seq<Command>, missing: set<nat>, k: nat, id: nat)
    ensures ShownAt(done, missing, k, id) <==>
            k < |done| && done[k].Wait? && IsPending(done, done[k].name, id, k) && id !in missing
  {
    hide Pending, IsPending;
    if k < |done| && done[k].Wait? {
      PendingMeans(done, done[k].name, id, k);
    }
  }

  lemma {:induction false} TasksOfPrefix(done: seq<Command>, p: nat, q: nat)
    requires p <= q <= |done|
    ensures TasksOf(done[..p]) <= TasksOf(done[..q])
    ensures p < q && done[p].Enqueue? ==> |TasksOf(done[..p])| < |TasksOf(done[..q])|
    decreases q
  {
    if p < q {
      TasksOfPrefix(done, p, q - 1);
      assert done[..q] == done[..q - 1] + [done[q - 1]];
      TasksGrow(done[..q - 1], done[q - 1]);
    }
  }

  /** No task is shown by two commands, whatever names are used and however often. */
  lemma ShownOnce(done: seq<Command>, missing: set<nat>, j: nat, k: nat, id: nat)
    requires ShownAt(done, missing, j, id) && ShownAt(done, missing, k, id)
    ensures j == k
  {
    hide ShownAt, TasksOf;
    ShownMeans(done, missing, j, id);
    ShownMeans(done, missing, k, id);
    var p: nat :| PendingSince(done, done[j].name, id, p, j);
    var q: nat :| PendingSince(done, done[k].name, id, q, k);
    TasksOfPrefix(done, if p < q then p else q, if p < q then q else p);
    assert p == q;
  }

  /** A section that is shown stands in one piece behind what the commands before it produced, and what comes
      after it does not change that. */
  lemma {:induction false} ShownWhere(done: seq<Command>, missing: set<nat>, dress: string -> string, k: nat, id: nat, n: nat)
    requires ShownAt(done, missing, k, id) && k < n <= |done|
    ensures id < |TasksOf(done)|
    ensures Sections(done[..k], missing, dress) + dress(TasksOf(done)[id].output) <= Sections(done[..n], missing, dress)
    decreases n
  {
    var name := done[k].name;
    PendingNumbers(done[..k]);
    TasksOfPrefix(done, k, |done|);
    assert done[..|done|] == done;
    assert done[..n][..n - 1] == done[..n - 1];
    if n > k + 1 {
      ShownWhere(done, missing, dress, k, id, n - 1);
    }
  }

  // ---------- the report, command by command ----------

  function Concat(pieces: seq<string>): string {
    if pieces == [] then "" else Concat(pieces[..|pieces| - 1]) + pieces[|pieces| - 1]
  }

  /** What command `k` contributes to the report, said of the commands alone: a text that is printed; for a
      name that is waited for, the output it was last enqueued with, on lines of its own, unless it
      was waited for or the pool was shut down since, or it is one of the `missing` tasks, which are
      numbered in the order they are enqueued. */
  ghost predicate Contributes(done: seq<Command>, missing: set<nat>, k: nat, piece: string)
    requires k < |done|
  {
    match done[k]
    case Print(text) => piece == text
    case Wait(name) =>
      && (forall p: nat, id: nat | PendingSince(done, name, id, p, k) && id !in missing ::
            var out := done[p].output; piece == if EndsLine(out) then out else out + "\n")
      && ((forall p: nat, id: nat | PendingSince(done, name, id, p, k) :: id in missing) ==> piece == "")
    case _ => piece == ""
  }

  /** A task is what was enqueued. */
  lemma TaskEnqueued(done: seq<Command>, p: nat, k: nat)
    requires p < k <= |done| && done[p].Enqueue?
    ensures var id, all := |TasksOf(done[..p])|, TasksOf(done[..k]);
            id < |all| && all[id] == Task(id, done[p].name, done[p].output)
  {
    TasksOfPrefix(done, p + 1, k);
    assert done[..p + 1] == done[..p] + [done[p]];
    TasksGrow(done[..p], done[p]);
  }

  /** A name is pending for one reason only. */
  lemma PendingOnce(done: seq<Command>, name: string, id: nat, p: nat, id': nat, p': nat, k: nat)
    requires k <= |done| && PendingSince(done, name, id, p, k) && PendingSince(done, name, id', p', k)
    ensures p == p' && id == id'
  {
    hide TasksOf;
  }

  /** The contribution of one command is what the report grows by. */
  lemma PieceAt(done: seq<Command>, missing: set<nat>, k: nat) returns (piece: string)
    requires k < |done|
    ensures Parallel(done[..k + 1], missing) == Parallel(done[..k], missing) + piece
    ensures Contributes(done, missing, k, piece)
  {
    var before, c := done[..k], done[k];
    assert done[..k + 1] == before + [c];
    ParallelGrows(before, missing, c);
    hide Sections, Pending, TasksOf;
    piece := "";
    if c.Print? {
      piece := c.text;
    } else if c.Wait? {
      piece := WaitedPiece(done, missing, k);
    }
    assert Parallel(before, missing) + "" == Parallel(before, missing);
  }

  lemma WaitedPiece(done: seq<Command>, missing: set<nat>, k: nat) returns (piece: string)
    requires k < |done| && done[k].Wait?
    ensures piece == if Shown(done[..k], missing, done[k].name) then Dumped(OutputOf(done[..k], done[k].name)) else ""
    ensures Contributes(done, missing, k, piece)
  {
    var before, name := done[..k], done[k].name;
    PendingNumbers(before);
    hide Pending, TasksOf, PendingSince, Dumped;
    piece := "";
    if Shown(before, missing, name) {
      piece := Dumped(OutputOf(before, name));
    }
    forall p: nat, id: nat | PendingSince(done, name, id, p, k)
      ensures Shown(before, missing, name) <==> id !in missing
      ensures id !in missing ==> var out := done[p].output; piece == if EndsLine(out) then out else out + "\n"
    {
      assert IsPending(done, name, id, k);
      PendingMeans(done, name, id, k);
      WaitedOutput(done, name, id, p, k);
    }
    if Shown(before, missing, name) {
      var id := Pending(before)[name];
      PendingMeans(done, name, id, k);
      var p: nat :| PendingSince(done, name, id, p, k);
    }
  }

  lemma WaitedOutput(done: seq<Command>, name: string, id: nat, p: nat, k: nat)
    requires k < |done| && PendingSince(done, name, id, p, k)
    ensures id < |TasksOf(done[..k])| && TasksOf(done[..k])[id].output == done[p].output
    ensures var out := done[p].output; Dumped(out) == if EndsLine(out) then out else out + "\n"
  {
    TaskEnqueued(done, p, k);
    hide TasksOf;
    assert done[p].output + "" == done[p].output;
  }

  /** The report is what the commands contribute, in their order. */
  lemma {:induction false} ReportPieces(done: seq<Command>, missing: set<nat>, k: nat) returns (pieces: seq<string>)
    requires k <= |done|
    ensures |pieces| == k && Concat(pieces) == Parallel(done[..k], missing)
    ensures forall i | 0 <= i < k :: Contributes(done, missing, i, pieces[i])
    decreases k
  {
    hide Contributes;
    if k == 0 {
      pieces := [];
    } else {
      var first := ReportPieces(done, missing, k - 1);
      var piece := PieceAt(done, missing, k - 1);
      pieces := first + [piece];
      assert pieces[..k - 1] == first;
    }
  }

  /** `text` is what the commands `done` contribute, in their order. */
  ghost predicate Assembled(done: seq<Command>, missing: set<nat>, text: string) {
    exists pieces: seq<string> :: Concat(pieces) == text && AllContribute(done, missing, pieces)
  }

  ghost predicate AllContribute(done: seq<Command>, missing: set<nat>, pieces: seq<string>) {
    |pieces| == |done| && forall i | 0 <= i < |done| :: Contributes(done, missing, i, pieces[i])
  }

  lemma ParallelAssembled(done: seq<Command>, missing: set<nat>)
    ensures Assembled(done, missing, Parallel(done, missing))
  {
    hide Contributes, Sections;
    var pieces := ReportPieces(done, missing, |done|);
    assert done[..|done|] == done;
    assert AllContribute(done, missing, pieces);
  }

  // ---------- the futures and the report ----------

  ghost predicate Queued(s: Pool, id: nat) {
    exists k | 0 <= k < |s.tasks| :: s.tasks[k].id == id
  }

  ghost predicate Being(s: Pool, id: nat) {
    exists i | 0 <= i < |s.workers| :: s.workers[i].Running? && s.workers[i].task.id == id
  }

  /** A task whose output is still wanted is waiting, running or finished: it is never lost. */
  ghost predicate Somewhere(s: Pool, id: nat) {
    Queued(s, id) || Being(s, id) || id in s.results
  }

  ghost predicate Promises(s: Pool) {
    && (forall n <- s.futures :: Somewhere(s, s.futures[n]))
    && (s.main.Waiting? ==> Somewhere(s, s.main.id))
  }

  ghost predicate Names(s: Pool) {
    var p := Pending(s.done);
    match s.main
    case Ready => s.futures == p
    case Waiting(id) =>
      s.script != [] && s.script[0].Wait? && s.script[0].name in p && p[s.script[0].name] == id
      && s.futures == p - {s.script[0].name}
    case Joining => true
  }

  /** The report is that of the sequential run without the sections that could not create their file. */
  ghost predicate Faithful(s: Pool) {
    s.report == Parallel(s.done, s.fails)
  }

  lemma PendingGrows(done: seq<Command>, c: Command)
    ensures Pending(done + [c]) ==
            if c.Enqueue? then Pending(done)[c.name := |TasksOf(done)|]
            else if c.Wait? then Pending(done) - {c.name}
            else if c.Shutdown? then map[]
            else Pending(done)
  {
    assert (done + [c])[..|done|] == done;
  }

  lemma ParallelGrows(done: seq<Command>, missing: set<nat>, c: Command)
    ensures Parallel(done + [c], missing) ==
            if c.Print? then Parallel(done, missing) + c.text
            else if c.Wait? && Shown(done, missing, c.name) then Parallel(done, missing) + Dumped(OutputOf(done, c.name))
            else Parallel(done, missing)
  {
    assert (done + [c])[..|done|] == done;
  }

  lemma NamesKept(s: Pool, step: Step)
    requires Phases(s) && Names(s) && Enabled(s, step)
    ensures Names(Apply(s, step))
  {
    hide Pending, TasksOf;
    if s.script != [] {
      PendingGrows(s.done, s.script[0]);
    }
  }

  lemma FaithfulKept(s: Pool, step: Step)
    requires Phases(s) && Names(s) && Files(s) && Faithful(s) && Enabled(s, step)
    ensures Faithful(Apply(s, step))
  {
    hide Pending, TasksOf, Sections, Dumped;
    if s.script != [] {
      ParallelGrows(s.done, s.fails, s.script[0]);
    }
    if step == EndWait {
      assert Written(s, s.main.id);
    }
  }

  lemma PromisesKept(s: Pool, step: Step)
    requires Phases(s) && Names(s) && Promises(s) && Enabled(s, step)
    ensures Promises(Apply(s, step))
  {
    PendingNumbers(s.done);
    hide Pending, TasksOf;
    var r := Apply(s, step);
    forall id | Somewhere(s, id) && !step.BeginShutdown? && !step.Join? && !(step.EndWait? && id == s.main.id)
      ensures Somewhere(r, id)
    {
      StaysSomewhere(s, step, id);
    }
    if step.Post? {
      assert r.tasks[|s.tasks|].id == |TasksOf(s.done)|;
      assert Queued(r, |TasksOf(s.done)|);
    }
  }

  lemma StaysSomewhere(s: Pool, step: Step, id: nat)
    requires Phases(s) && Somewhere(s, id) && Enabled(s, step)
    requires !step.BeginShutdown? && !step.Join? && !(step.EndWait? && id == s.main.id)
    ensures Somewhere(Apply(s, step), id)
  {
    hide Apply, Enabled, Queued, Being;
    if Queued(s, id) {
      QueuedMoves(s, step, id);
    } else if Being(s, id) {
      BeingMoves(s, step, id);
    } else {
      ResultStays(s, step, id);
    }
  }

  lemma ResultStays(s: Pool, step: Step, id: nat)
    requires id in s.results && Enabled(s, step) && !step.Join? && !(step.EndWait? && id == s.main.id)
    ensures id in Apply(s, step).results
  {}

  lemma QueuedMoves(s: Pool, step: Step, id: nat)
    requires Phases(s) && Queued(s, id) && Enabled(s, step) && !step.BeginShutdown?
    ensures var r := Apply(s, step); Queued(r, id) || Being(r, id)
  {
    var r := Apply(s, step);
    var k :| 0 <= k < |s.tasks| && s.tasks[k].id == id;
    if step.Take? {
      assert if k == 0 then r.workers[step.i].Running? && r.workers[step.i].task.id == id
             else r.tasks[k - 1].id == id;
    } else {
      assert r.tasks[k].id == id;
    }
  }

  lemma BeingMoves(s: Pool, step: Step, id: nat)
    requires Being(s, id) && Enabled(s, step) && !step.Join?
    ensures var r := Apply(s, step); Being(r, id) || id in r.results
  {
    var r := Apply(s, step);
    var i :| 0 <= i < |s.workers| && s.workers[i].Running? && s.workers[i].task.id == id;
    if (step.Finish? || step.CreateFails?) && step.i == i {
      assert id in r.results;
    } else {
      assert r.workers[i].Running? && r.workers[i].task.id == id;
    }
  }
}
