/** TaskQueue and the zip-entry tasks that dumpstate puts into it: tasks added by any thread, and run or
    cancelled by several threads at once. */
module TaskQueue {

  /** A thread outside run(), between two critical sections of run(do_cancel), or in the middle of a
      task it took, which adds its file to the zip unless cancelled and then unlinks the file. */
  datatype Runner = Outside | Looping(cancel: bool) | Invoking(id: nat, cancel: bool, zipped: bool)

  /** Tasks are numbered as they are added; `flags[k]` is the flag of the run that took task k.  `zips`
      and `unlinks` are the effects on the temporary files, in order. */
  datatype Queue = Queue(
    tasks: seq<nat>, added: nat, runners: seq<Runner>, flags: seq<bool>, zips: seq<nat>, unlinks: seq<nat>)

  function Init(threads: nat): Queue {
    Queue([], 0, seq(threads, i => Outside), [], [], [])
  }

  datatype Step = Add | Enter(r: nat, cancel: bool) | Pop(r: nat) | Zip(r: nat) | Unlink(r: nat) | Leave(r: nat)

  predicate Enabled(s: Queue, step: Step) {
    match step
    case Add => true
    case Enter(r, _) => r < |s.runners| && s.runners[r] == Outside
    case Pop(r) => r < |s.runners| && s.runners[r].Looping? && s.tasks != []
    case Zip(r) => r < |s.runners| && s.runners[r].Invoking? && !s.runners[r].cancel && !s.runners[r].zipped
    case Unlink(r) => r < |s.runners| && s.runners[r].Invoking? && (s.runners[r].cancel || s.runners[r].zipped)
    case Leave(r) => r < |s.runners| && s.runners[r].Looping? && s.tasks == []
  }

  function Apply(s: Queue, step: Step): Queue
    requires Enabled(s, step)
  {
    match step
    case Add => s.(tasks := s.tasks + [s.added], added := s.added + 1)
    case Enter(r, cancel) => s.(runners := s.runners[r := Looping(cancel)])
    case Pop(r) =>
      s.(tasks := s.tasks[1..], flags := s.flags + [s.runners[r].cancel],
         runners := s.runners[r := Invoking(s.tasks[0], s.runners[r].cancel, false)])
    case Zip(r) => s.(zips := s.zips + [s.runners[r].id], runners := s.runners[r := s.runners[r].(zipped := true)])
    case Unlink(r) => s.(unlinks := s.unlinks + [s.runners[r].id], runners := s.runners[r := Looping(s.runners[r].cancel)])
    case Leave(r) => s.(runners := s.runners[r := Outside])
  }

  datatype Outcome = Impossible | State(s: Queue)

  function After(threads: nat, run: seq<Step>): Outcome
    decreases |run|
  {
    if run == [] then State(Init(threads))
    else
      var before, step := After(threads, run[..|run| - 1]), run[|run| - 1];
      if before.State? && Enabled(before.s, step) then State(Apply(before.s, step)) else Impossible
  }

  ghost predicate Distinct(ids: seq<nat>) {
    forall i, j | 0 <= i < j < |ids| :: ids[i] != ids[j]
  }

  /** Tasks leave the queue in the order they were added, none skipped and none twice. */
  ghost predicate Fifo(s: Queue) {
    && |s.flags| + |s.tasks| == s.added
    && (forall k | 0 <= k < |s.tasks| :: s.tasks[k] == |s.flags| + k)
  }

  ghost predicate InProgress(s: Queue, id: nat) {
    exists r | 0 <= r < |s.runners| :: s.runners[r].Invoking? && s.runners[r].id == id
  }

  /** A task in progress was taken by the run that is invoking it, and by no other. */
  ghost predicate Taken(s: Queue) {
    && (forall r | 0 <= r < |s.runners| && s.runners[r].Invoking? ::
          var t := s.runners[r];
          && t.id < |s.flags| && s.flags[t.id] == t.cancel && t.id !in s.unlinks
          && (t.id in s.zips <==> t.zipped) && (t.zipped ==> !t.cancel))
    && (forall a, b | 0 <= a < b < |s.runners| && s.runners[a].Invoking? && s.runners[b].Invoking? ::
          s.runners[a].id != s.runners[b].id)
  }

  /** Every taken task is in progress or has had its file unlinked, once; its file was added to the zip,
      once, if and only if the run that took it was not a cancelling one. */
  ghost predicate Effects(s: Queue) {
    && Distinct(s.zips) && Distinct(s.unlinks)
    && (forall id: nat | id < |s.flags| :: id in s.unlinks || InProgress(s, id))
    && (forall id <- s.unlinks :: id < |s.flags| && (id in s.zips <==> !s.flags[id]))
    && (forall id <- s.zips :: id < |s.flags| && !s.flags[id])
  }

  ghost predicate Inv(s: Queue) {
    Fifo(s) && Taken(s) && Effects(s)
  }

  lemma TakenKept(s: Queue, step: Step)
    requires Inv(s) && Enabled(s, step)
    ensures Fifo(Apply(s, step)) && Taken(Apply(s, step))
  {}

  lemma EffectsKept(s: Queue, step: Step)
    requires Inv(s) && Enabled(s, step)
    ensures Effects(Apply(s, step))
  {
    var q := Apply(s, step);
    forall id: nat | id < |q.flags| ensures id in q.unlinks || InProgress(q, id) {
      if step.Pop? && id == |s.flags| {
        assert q.runners[step.r].Invoking? && q.runners[step.r].id == id;
      } else if InProgress(s, id) {
        var r :| 0 <= r < |s.runners| && s.runners[r].Invoking? && s.runners[r].id == id;
        if step.Unlink? && step.r == r {
          assert q.unlinks[|s.unlinks|] == id;
        } else {
          assert q.runners[r].Invoking? && q.runners[r].id == id;
        }
      }
    }
  }

  lemma {:induction false} Always(threads: nat, run: seq<Step>)
    requires After(threads, run).State?
    ensures Inv(After(threads, run).s)
    decreases |run|
  {
    if run != [] {
      var before, step := After(threads, run[..|run| - 1]).s, run[|run| - 1];
      Always(threads, run[..|run| - 1]);
      hide Enabled, Apply, Fifo, Taken, Effects;
      TakenKept(before, step);
      EffectsKept(before, step);
    }
  }

  // ---------- whose flag it is ----------

  /** The last thing runner `r` did about entering run(), before step `j`, was to enter it with `cancel`. */
  ghost predicate EnteredWith(run: seq<Step>, r: nat, cancel: bool, j: nat)
    requires j <= |run|
  {
    exists e | 0 <= e < j :: run[e] == Enter(r, cancel) && forall q | e < q < j :: !(run[q].Enter? && run[q].r == r)
  }

  function Pops(run: seq<Step>): nat {
    if run == [] then 0 else Pops(run[..|run| - 1]) + if run[|run| - 1].Pop? then 1 else 0
  }

  /** Step `j` took task `k`, in a run() that was entered with `cancel`. */
  ghost predicate TakenAt(run: seq<Step>, k: nat, cancel: bool, j: nat) {
    j < |run| && run[j].Pop? && Pops(run[..j]) == k && EnteredWith(run, run[j].r, cancel, j)
  }

  ghost predicate TakenIn(run: seq<Step>, k: nat, cancel: bool) {
    exists j: nat :: TakenAt(run, k, cancel, j)
  }

  /** Every flag is the argument that the run() of the runner in question was entered with. */
  ghost predicate Owned(run: seq<Step>, s: Queue) {
    && |s.flags| == Pops(run)
    && (forall r: nat | r < |s.runners| && s.runners[r] != Outside :: EnteredWith(run, r, s.runners[r].cancel, |run|))
    && (forall k: nat | k < |s.flags| :: TakenIn(run, k, s.flags[k]))
  }

  lemma EnteredStays(run: seq<Step>, step: Step, r: nat, cancel: bool, j: nat)
    requires j <= |run| && EnteredWith(run, r, cancel, j)
    ensures EnteredWith(run + [step], r, cancel, j)
    ensures j == |run| && !(step.Enter? && step.r == r) ==> EnteredWith(run + [step], r, cancel, j + 1)
  {
    var more := run + [step];
    assert forall q | 0 <= q < |run| :: more[q] == run[q];
    var e :| 0 <= e < j && run[e] == Enter(r, cancel) && forall q | e < q < j :: !(run[q].Enter? && run[q].r == r);
    assert more[e] == Enter(r, cancel);
  }

  lemma EntersNow(run: seq<Step>, r: nat, cancel: bool)
    ensures EnteredWith(run + [Enter(r, cancel)], r, cancel, |run| + 1)
  {
    var more := run + [Enter(r, cancel)];
    assert more[|run|] == Enter(r, cancel);
  }

  lemma TakenStays(run: seq<Step>, step: Step, k: nat, cancel: bool, j: nat)
    requires TakenAt(run, k, cancel, j)
    ensures TakenAt(run + [step], k, cancel, j)
  {
    EnteredStays(run, step, run[j].r, cancel, j);
    assert (run + [step])[..j] == run[..j];
    hide EnteredWith, Pops;
  }

  lemma OwnedKept(run: seq<Step>, s: Queue, step: Step)
    requires Owned(run, s) && Enabled(s, step)
    ensures Owned(run + [step], Apply(s, step))
  {
    PopsGrow(run, step);
    RunnersOwned(run, s, step);
    FlagsOwned(run, s, step);
  }

  lemma RunnersOwned(run: seq<Step>, s: Queue, step: Step)
    requires Owned(run, s) && Enabled(s, step)
    ensures var t := Apply(s, step);
            forall r: nat | r < |t.runners| && t.runners[r] != Outside ::
              EnteredWith(run + [step], r, t.runners[r].cancel, |run| + 1)
  {
    hide EnteredWith, TakenAt, Pops;
    var more, t := run + [step], Apply(s, step);
    forall r: nat | r < |t.runners| && t.runners[r] != Outside ensures EnteredWith(more, r, t.runners[r].cancel, |more|) {
      if step.Enter? && step.r == r {
        EntersNow(run, r, step.cancel);
      } else {
        EnteredStays(run, step, r, t.runners[r].cancel, |run|);
      }
    }
  }

  lemma FlagsOwned(run: seq<Step>, s: Queue, step: Step)
    requires Owned(run, s) && Enabled(s, step)
    ensures var t := Apply(s, step);
            forall k: nat | k < |t.flags| :: TakenIn(run + [step], k, t.flags[k])
  {
    hide EnteredWith, TakenAt, Pops;
    var more, t := run + [step], Apply(s, step);
    forall k: nat | k < |t.flags| ensures TakenIn(more, k, t.flags[k]) {
      if k < |s.flags| {
        var j: nat :| TakenAt(run, k, s.flags[k], j);
        TakenStays(run, step, k, s.flags[k], j);
        assert t.flags[k] == s.flags[k];
      } else {
        TakesNow(run, s, step);
        assert t.flags[k] == s.runners[step.r].cancel;
      }
    }
  }

  lemma PopsGrow(run: seq<Step>, step: Step)
    ensures Pops(run + [step]) == Pops(run) + if step.Pop? then 1 else 0
  {
    assert (run + [step])[..|run|] == run;
  }

  lemma TakesNow(run: seq<Step>, s: Queue, step: Step)
    requires Enabled(s, step) && step.Pop? && EnteredWith(run, step.r, s.runners[step.r].cancel, |run|)
    ensures TakenAt(run + [step], Pops(run), s.runners[step.r].cancel, |run|)
  {
    assert (run + [step])[..|run|] == run;
    EnteredStays(run, step, step.r, s.runners[step.r].cancel, |run|);
  }

  /** In every run: the flag a task was invoked with is the argument of the last Enter of the runner that took it. */
  lemma {:induction false} FlagsAreArguments(threads: nat, run: seq<Step>)
    requires After(threads, run).State?
    ensures Owned(run, After(threads, run).s)
    decreases |run|
  {
    if run != [] {
      var init, step := run[..|run| - 1], run[|run| - 1];
      FlagsAreArguments(threads, init);
      hide Enabled, Apply, Owned;
      OwnedKept(init, After(threads, init).s, step);
      assert init + [step] == run;
    }
  }

  /** If every run() in it has the same flag, every task taken was invoked with that flag. */
  lemma OneFlag(threads: nat, run: seq<Step>, cancel: bool)
    requires After(threads, run).State? && forall step <- run :: step.Enter? ==> step.cancel == cancel
    ensures var s := After(threads, run).s; forall k: nat | k < |s.flags| :: s.flags[k] == cancel
  {
    FlagsAreArguments(threads, run);
    var s := After(threads, run).s;
    hide After;
    forall k: nat | k < |s.flags| ensures s.flags[k] == cancel {
      var j: nat :| TakenAt(run, k, s.flags[k], j);
      var e :| 0 <= e < j && run[e] == Enter(run[j].r, s.flags[k]);
      assert run[e] in run;
    }
  }

  /** Cancelling runs zip nothing, at any moment. */
  lemma CancelledZipsNothing(threads: nat, run: seq<Step>)
    requires After(threads, run).State? && forall step <- run :: step.Enter? ==> step.cancel
    ensures After(threads, run).s.zips == []
  {
    Always(threads, run);
    OneFlag(threads, run, true);
    var s := After(threads, run).s;
    hide After;
    SomeMember(s.zips);
  }

  lemma SomeMember(ids: seq<nat>)
    ensures ids != [] ==> ids[0] in ids
  {
  }

  /** After any interleaving of adds, finishing runs and cancelling runs in which every run() has
      returned and nothing is queued: every task ever added had its temporary file unlinked
      exactly once, and zipped (exactly once) exactly if a run that does not cancel took it; the
      flag that decides is the argument with which that run was entered. */
  lemma EveryTaskOnce(threads: nat, run: seq<Step>)
    requires After(threads, run).State?
    requires var s := After(threads, run).s; s.tasks == [] && forall r <- s.runners :: r == Outside
    ensures var s := After(threads, run).s;
            && |s.flags| == s.added
            && Distinct(s.unlinks) && (forall id: nat :: id in s.unlinks <==> id < s.added)
            && Distinct(s.zips) && (forall id: nat :: id in s.zips <==> id < s.added && !s.flags[id])
            && (forall k: nat | k < s.added :: TakenIn(run, k, s.flags[k]))
            && ((forall step <- run :: step.Enter? ==> step.cancel) ==> s.zips == [])
            && ((forall step <- run :: step.Enter? ==> !step.cancel) ==> forall id: nat :: id in s.zips <==> id < s.added)
  {
    Always(threads, run);
    FlagsAreArguments(threads, run);
    if forall step <- run :: step.Enter? ==> step.cancel {
      CancelledZipsNothing(threads, run);
    }
    if forall step <- run :: step.Enter? ==> !step.cancel {
      OneFlag(threads, run, false);
    }
    var s := After(threads, run).s;
    hide After, TakenIn;
    forall id: nat ensures id in s.unlinks <==> id < s.added {
      assert id < s.added ==> !InProgress(s, id) by {
        forall r | 0 <= r < |s.runners| ensures s.runners[r] == Outside {
          assert s.runners[r] in s.runners;
        }
      }
    }
  }
}
