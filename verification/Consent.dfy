/** The consent protocol of a bugreport run for a caller that passed in file descriptors: the main thread
    of Dumpstate::RunInternal against the ConsentCallback, which the companion service calls at
    most once from a binder thread. */
module Consent {

  datatype Answer = Unavailable | Approved | Denied
  datatype Status = Ok | Error | ConsentDenied | ConsentTimedOut

  /** `shell` callers need no consent, and none is asked for; the others are about the screenshot. */
  datatype Options = Options(shell: bool, doScreenshot: bool, screenshotFd: bool, earlyScreenshot: bool)

  /** Where the main thread is: dumping, at the first and at the second look at the answer, copying the
      report, copying the screenshot, at the last look at the answer, or returned. */
  datatype Main = Dumping | FirstLook | SecondLook | CopyingReport | CopyingScreenshot | LastLook | Returned(status: Status)

  /** The callback: not called, or done with its call, or holding its lock with the answer just set. */
  datatype Callback = NotCalled | HoldingLock | Done

  /** `answer` and `screenshotCopied` are shared by the two threads.  The rest is history: whether any bytes
      reached the caller's descriptors, successful copies, whether the wait for an answer expired,
      and whether any bytes had been passed on when the main thread returned. */
  datatype State = State(
    answer: Answer, screenshotCopied: bool, main: Main, callback: Callback,
    reportBytes: bool, screenshotBytes: bool, reportCopies: nat, screenshotCopies: nat,
    expired: bool, bytesAtReturn: bool)

  function Init(): State {
    State(Unavailable, false, Dumping, NotCalled, false, false, 0, 0, false, false)
  }

  /** `ok` tells whether a copy succeeds; some bytes may have been written either way. */
  datatype Step =
    | Poll | DumpDone | LookFirst | LookSecond | CopyReport(ok: bool) | CopyScreenshot(ok: bool) | LookLast
    | Approve | CallbackCopy(ok: bool) | CallbackSkip | Deny

  /** The callback's lock is free, so getResult() does not block. */
  predicate Unlocked(s: State) {
    s.callback != HoldingLock
  }

  /** The screenshot was taken before the dump, so that it can be passed on as soon as the user agrees. */
  predicate EarlyScreenshot(o: Options) {
    o.doScreenshot && o.screenshotFd && o.earlyScreenshot
  }

  predicate CallbackWantsScreenshot(o: Options, s: State) {
    !s.screenshotCopied && EarlyScreenshot(o)
  }

  predicate MainWantsScreenshot(o: Options, s: State) {
    o.doScreenshot && o.screenshotFd && !s.screenshotCopied
  }

  predicate Enabled(o: Options, s: State, step: Step) {
    match step
    case Poll => s.main == Dumping && (o.shell || Unlocked(s))
    case DumpDone => s.main == Dumping
    case LookFirst => s.main == FirstLook && (o.shell || Unlocked(s))
    case LookSecond => s.main == SecondLook && Unlocked(s)
    case CopyReport(_) => s.main == CopyingReport
    case CopyScreenshot(_) => s.main == CopyingScreenshot
    case LookLast => s.main == LastLook && (o.shell || Unlocked(s))
    case Approve => !o.shell && s.callback == NotCalled
    case CallbackCopy(_) => s.callback == HoldingLock && CallbackWantsScreenshot(o, s)
    case CallbackSkip => s.callback == HoldingLock && !CallbackWantsScreenshot(o, s)
    case Deny => !o.shell && s.callback == NotCalled
  }

  function Return(s: State, status: Status): State {
    s.(main := Returned(status), bytesAtReturn := s.reportBytes || s.screenshotBytes)
  }

  function One(b: bool): nat { if b then 1 else 0 }

  function Apply(o: Options, s: State, step: Step): State
    requires Enabled(o, s, step)
  {
    match step
    case Poll => if !o.shell && s.answer == Denied then Return(s, ConsentDenied) else s
    case DumpDone => s.(main := FirstLook)
    case LookFirst =>
      if o.shell || s.answer == Approved then s.(main := CopyingReport)
      else if s.answer == Denied then Return(s, ConsentDenied)
      else s.(main := SecondLook)
    case LookSecond =>
      if s.answer == Approved then s.(main := CopyingReport)
      else if s.answer == Denied then Return(s, ConsentDenied)
      else s.(main := LastLook, expired := true)
    case CopyReport(ok) =>
      var t := s.(reportBytes := true, reportCopies := s.reportCopies + One(ok));
      if ok then t.(main := CopyingScreenshot) else Return(t, Error)
    case CopyScreenshot(ok) =>
      if !MainWantsScreenshot(o, s) then s.(main := LastLook)
      else
        var t := s.(screenshotBytes := true, screenshotCopied := ok, screenshotCopies := s.screenshotCopies + One(ok));
        if ok then t.(main := LastLook) else Return(t, Error)
    case LookLast => Return(s, if !o.shell && s.answer == Unavailable then ConsentTimedOut else Ok)
    case Approve => s.(answer := Approved, callback := HoldingLock)
    case CallbackCopy(ok) =>
      s.(screenshotBytes := true, screenshotCopied := ok, screenshotCopies := s.screenshotCopies + One(ok), callback := Done)
    case CallbackSkip => s.(callback := Done)
    case Deny => s.(answer := Denied, callback := Done)
  }

  datatype Outcome = Impossible | Reached(s: State)

  function After(o: Options, run: seq<Step>): Outcome
    decreases |run|
  {
    if run == [] then Reached(Init())
    else
      var before, step := After(o, run[..|run| - 1]), run[|run| - 1];
      if before.Reached? && Enabled(o, before.s, step) then Reached(Apply(o, before.s, step)) else Impossible
  }

  // ---------- what every run keeps ----------

  /** The main thread is on the way that leads to copying. */
  predicate Sharing(s: State) {
    s.main == CopyingReport || s.main == CopyingScreenshot || (s.main == LastLook && !s.expired)
  }

  ghost predicate Inv(o: Options, s: State) {
    // the answer goes with the callback
    && (s.answer == Unavailable <==> s.callback == NotCalled)
    && (s.callback == HoldingLock ==> s.answer == Approved)
    && (o.shell ==> s.callback == NotCalled)
    // sharing needs a reason, and the callback is out of the way by then
    && (Sharing(s) ==> o.shell || (s.answer == Approved && s.callback == Done))
    && (s.reportBytes ==> !s.expired && (o.shell || (s.answer == Approved && s.callback == Done)))
    && (s.screenshotBytes ==> o.shell || s.answer == Approved)
    // copies
    && (s.reportCopies > 0 ==> s.reportBytes) && s.reportCopies <= 1
    && (s.main.CopyingReport? || s.main.Dumping? || s.main.FirstLook? || s.main.SecondLook? ==>
          !s.reportBytes && s.reportCopies == 0 && !s.expired)
    && (s.main.CopyingScreenshot? || (s.main.LastLook? && !s.expired) ==> s.reportCopies == 1)
    && s.screenshotCopies == One(s.screenshotCopied)
    && (s.screenshotCopies > 0 ==> s.screenshotBytes)
    && (s.callback == HoldingLock ==> !s.reportBytes)
    && (s.callback == NotCalled && !o.shell ==> !s.screenshotBytes && !s.reportBytes)
    && (s.main == SecondLook ==> !o.shell)
    && (s.expired ==> !o.shell && (s.main == LastLook || s.main.Returned?))
    // the status
    && (s.main == Returned(ConsentDenied) ==> s.answer == Denied && !s.reportBytes && !s.expired)
    && (s.main == Returned(ConsentTimedOut) ==> s.expired && !s.reportBytes)
    && (s.main == Returned(ConsentDenied) || s.main == Returned(ConsentTimedOut) ==> !s.bytesAtReturn)
    && (s.main == Returned(Ok) ==> (s.expired && s.answer != Unavailable) || (!s.expired && s.reportCopies == 1))
    && (s.main == Returned(ConsentTimedOut) && s.callback != Done ==> !s.screenshotCopied && !s.screenshotBytes)
    && (s.main == Returned(ConsentTimedOut) && s.callback == Done ==>
          (s.screenshotBytes <==> s.answer == Approved && EarlyScreenshot(o)))
    // a requested screenshot goes with the report
    && (s.screenshotBytes ==> o.doScreenshot && o.screenshotFd)
    && (!s.expired && (s.main == LastLook || s.main == Returned(Ok)) && o.doScreenshot && o.screenshotFd ==>
          s.screenshotCopied)
    && (s.main == Returned(Error) ==> !s.expired && s.reportBytes && (s.reportCopies == 1 ==> s.screenshotBytes && !s.screenshotCopied))
    && (s.expired && s.main.Returned? ==> s.main.status == Ok || s.main.status == ConsentTimedOut)
  }

  lemma InvKept(o: Options, s: State, step: Step)
    requires Inv(o, s) && Enabled(o, s, step)
    ensures Inv(o, Apply(o, s, step))
  {}

  lemma {:induction false} Always(o: Options, run: seq<Step>)
    requires After(o, run).Reached?
    ensures Inv(o, After(o, run).s)
    decreases |run|
  {
    if run != [] {
      Always(o, run[..|run| - 1]);
      InvKept(o, After(o, run[..|run| - 1]).s, run[|run| - 1]);
    }
  }

  /** In every reachable state: bytes reach the caller only for the shell or after approval; the
      screenshot is successfully copied at most once, and so is the report. */
  lemma {:induction false} NoLeak(o: Options, run: seq<Step>)
    requires After(o, run).Reached?
    ensures var s := After(o, run).s;
            && (s.reportBytes || s.screenshotBytes ==> o.shell || s.answer == Approved)
            && (s.screenshotBytes ==> o.doScreenshot && o.screenshotFd)
            && s.screenshotCopies <= 1 && s.reportCopies <= 1
  {
    Always(o, run);
  }

  /** What a returned status says.  Denied: the user said so before the wait expired, and nothing was or ever
      will be passed on.  Error: a copy failed, of the report or of a requested screenshot.  Timed out: nothing was
      passed on before returning and the report never will be; once the callback has been called, a
      screenshot has been passed on exactly if it was taken early and the late answer is approval.
      Ok: the report, and the screenshot exactly if one was requested, was copied exactly if the wait
      did not expire; if it did, some answer, of either kind, came in before the last look. */
  lemma {:induction false} StatusMeans(o: Options, run: seq<Step>)
    requires After(o, run).Reached? && After(o, run).s.main.Returned?
    ensures var s := After(o, run).s;
            var status := s.main.status;
            && (status == ConsentDenied <==> s.answer == Denied && !s.expired)
            && (status == ConsentDenied ==> !s.reportBytes && !s.screenshotBytes)
            && (status == Error ==> && !s.expired && s.reportBytes
                                    && (s.reportCopies == 0 || (o.doScreenshot && o.screenshotFd && s.screenshotCopies == 0)))
            && (status == ConsentTimedOut ==>
                  && !s.bytesAtReturn && !s.reportBytes && (s.callback != Done ==> !s.screenshotBytes)
                  && s.expired
                  && (s.callback == Done ==>
                        (s.screenshotBytes <==>
                           s.answer == Approved && o.doScreenshot && o.screenshotFd && o.earlyScreenshot)))
            && (status == Ok ==>
                  && (s.reportCopies == 1 <==> !s.expired) && (s.reportBytes <==> !s.expired)
                  && (s.expired ==> s.answer != Unavailable)
                  && (!s.expired ==> (s.screenshotCopies == 1 <==> o.doScreenshot && o.screenshotFd)))
  {
    Always(o, run);
    hide After;
  }

  lemma Extend(o: Options, run: seq<Step>, s: State, step: Step) returns (run': seq<Step>)
    requires After(o, run) == Reached(s) && Enabled(o, s, step)
    ensures After(o, run') == Reached(Apply(o, s, step))
  {
    hide Apply, Enabled;
    run' := run + [step];
    assert run'[..|run|] == run;
  }

  /** A run in which the dump is over and the wait for an answer expires. */
  lemma Expires(o: Options) returns (run: seq<Step>)
    requires !o.shell
    ensures After(o, run) == Reached(Init().(main := LastLook, expired := true))
  {
    var s := Init();
    assert After(o, []) == Reached(s);
    hide After;
    run := Extend(o, [], s, DumpDone);
    s := s.(main := FirstLook);
    run := Extend(o, run, s, LookFirst);
    s := s.(main := SecondLook);
    run := Extend(o, run, s, LookSecond);
  }

  /** The gap: a user who denies just after the wait expired still makes the run end with Ok. */
  lemma OkAfterDenial()
    ensures exists o: Options, run: seq<Step> :: After(o, run).Reached?
              && After(o, run).s.main == Returned(Ok) && After(o, run).s.answer == Denied
              && !After(o, run).s.reportBytes && !After(o, run).s.screenshotBytes
  {
    hide After;
    var o, s := Options(false, true, true, true), Init().(main := LastLook, expired := true);
    var run := Expires(o);
    run := Extend(o, run, s, Deny);
    s := s.(answer := Denied, callback := Done);
    run := Extend(o, run, s, LookLast);
    assert After(o, run) == Reached(s.(main := Returned(Ok)));
  }

  /** And a late approval: the screenshot is passed on although the run ended as timed out. */
  lemma ScreenshotAfterTimeout()
    ensures exists o: Options, run: seq<Step> :: After(o, run).Reached?
              && After(o, run).s.main == Returned(ConsentTimedOut) && After(o, run).s.screenshotCopies == 1
  {
    hide After;
    var o, s := Options(false, true, true, true), Init().(main := LastLook, expired := true);
    var run := Expires(o);
    run := Extend(o, run, s, LookLast);
    s := s.(main := Returned(ConsentTimedOut));
    run := Extend(o, run, s, Approve);
    s := s.(answer := Approved, callback := HoldingLock);
    run := Extend(o, run, s, CallbackCopy(true));
    s := s.(screenshotBytes := true, screenshotCopied := true, screenshotCopies := 1, callback := Done);
    assert After(o, run) == Reached(s);
  }
}
