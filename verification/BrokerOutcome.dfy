/** Which outcome a job ends with: a cancellation that is seen in time, an exit without files, and what the recognizer
    itself has written each decide it. */
module BrokerOutcome {
  import opened Results
  import opened BrokerTerminal

  /** In every continuation the files show and the host reports this outcome, or none yet. */
  ghost predicate OnlyOutcome(s: Job, outcome: Outcome) {
    forall events, t :: Run(s, events, t) ==>
      && (t.terminal.Some? ==> t.terminal == Some(outcome))
      && (t.terminal.None? && OutcomeOf(t).Some? ==> OutcomeOf(t) == Some(outcome))
  }

  /** The broker's own steps are enough for the files to show it. */
  ghost predicate ComesTo(s: Job, outcome: Outcome) {
    exists events, t :: Run(s, events, t) && (forall e: Event :: e in events ==> e.BrokerStep?)
                        && OutcomeOf(t) == Some(outcome)
  }

  /** What the host makes of an error code. */
  function Told(code: string): Outcome {
    if code == "RECOGNITION_CANCELLED" || code == "CANCELLED_BEFORE_LAUNCH" || code == "CANCELLED_DURING_RECOGNITION"
    then JobCancelled
    else if StableCode(code) then JobFailed(code)
    else JobFailed("LOCAL_RECOGNITION_FAILED")
  }

  lemma StableCodes()
    ensures StableCode("RECOGNITION_CANCELLED") && StableCode("CANCELLED_BEFORE_LAUNCH")
    ensures StableCode("CANCELLED_DURING_RECOGNITION")
  {
  }

  lemma FailureCodes()
    ensures StableCode("LOCAL_RECOGNITION_FAILED") && StableCode("LOCAL_RECOGNITION_RESULT_MISSING")
    ensures StableCode("LOCAL_JOB_RECOGNIZER_START_FAILED")
  {
  }

  lemma MeaningExactly(code: string)
    ensures Meaning(code) == Told(code)
  {
    StableCodes();
    hide StableCode;
  }

  // ---------------------------------------------------------------- the code a job is bound to end with

  /** The recognizer has written nothing and will write nothing. */
  predicate Silent(s: Job) {
    s.recognizer.NotStarted? || (s.recognizer.Gone? && s.recognizer.wrote == None)
  }

  function ExitCode(cancelSeen: bool, code: int): string {
    if cancelSeen then "CANCELLED_DURING_RECOGNITION"
    else if code != 0 then "LOCAL_RECOGNITION_FAILED"
    else "LOCAL_RECOGNITION_RESULT_MISSING"
  }

  /** The error the broker will write itself. */
  predicate WillWrite(s: Job, code: string) {
    match s.broker
    case Running => s.recognizer.Gone? && s.cancel && code == ExitCode(true, s.recognizer.code)
    case Polling(cancelSeen) => s.recognizer.Gone? && code == ExitCode(cancelSeen, s.recognizer.code)
    case Exited(cancelSeen, exit) => code == ExitCode(cancelSeen, exit)
    case ResultLooked(cancelSeen, exit, _) => code == ExitCode(cancelSeen, exit)
    case ErrorLooked(cancelSeen, exit, _, _) => code == ExitCode(cancelSeen, exit)
    case End(ending, stage) => code == ending.code && !stage.WriteFinished?
    case _ => false
  }

  predicate Bound(s: Job, code: string) {
    && s.terminal.None? && s.result.None?
    && (s.error == Some(code) || (s.error.None? && Silent(s) && WillWrite(s, code)))
  }

  lemma BoundByBroker(s: Job, code: string, ok: bool, invalid: string)
    requires Inv(s) && Bound(s, code) && s.broker != Done
    ensures Bound(Broke(s, ok, invalid), code)
  {
    match s.broker
    case Claiming =>
    case Ready(_) =>
    case Running =>
    case Polling(_) =>
    case Exited(_, _) =>
    case ResultLooked(_, _, _) =>
    case ErrorLooked(_, _, _, _) =>
    case End(_, stage) =>
      match stage {
        case LookResult =>
        case LookError =>
        case WriteError =>
        case WriteFinished(_) =>
      }
  }

  lemma BoundStep(s: Job, code: string, e: Event)
    requires Inv(s) && Bound(s, code) && Enabled(s, e)
    ensures var next := After(s, e);
            if next.terminal.Some? then next.terminal == Some(Meaning(code)) else Bound(next, code)
  {
    hide Meaning;
    match e
    case BrokerStep(ok, invalid) =>
      BoundByBroker(s, code, ok, invalid);
    case Write(_) =>
    case Exit(_) =>
    case Cancel =>
    case ProbeStep =>
  }

  lemma BoundOpen(s: Job, code: string)
    requires Bound(s, code)
    ensures s.terminal.None?
  {
  }

  lemma {:induction false} BoundRun(s: Job, code: string, events: seq<Event>, t: Job)
    requires Inv(s) && Bound(s, code) && Run(s, events, t)
    ensures if t.terminal.Some? then t.terminal == Some(Meaning(code)) else Bound(t, code)
    decreases |events|
  {
    hide Inv, Bound, Meaning, After;
    BoundOpen(s, code);
    if events != [] {
      var next := After(s, events[0]);
      StepKeeps(s, events[0]);
      BoundStep(s, code, events[0]);
      if next.terminal.None? {
        BoundRun(next, code, events[1..], t);
      } else {
        TerminalStays(next, events[1..], t);
      }
    }
  }

  lemma BoundShows(s: Job, code: string)
    requires Inv(s) && Bound(s, code) && OutcomeOf(s).Some?
    ensures OutcomeOf(s) == Some(Meaning(code))
  {
    hide Meaning;
  }

  lemma BoundOnly(s: Job, code: string)
    requires Inv(s) && Bound(s, code)
    ensures OnlyOutcome(s, Told(code))
  {
    hide Inv, Bound, Meaning, Run;
    MeaningExactly(code);
    forall events, t | Run(s, events, t)
      ensures t.terminal.Some? ==> t.terminal == Some(Told(code))
      ensures t.terminal.None? && OutcomeOf(t).Some? ==> OutcomeOf(t) == Some(Told(code))
    {
      BoundRun(s, code, events, t);
      RunKeeps(s, events, t);
      if t.terminal.None? && OutcomeOf(t).Some? {
        BoundShows(t, code);
      }
    }
  }

  // ---------------------------------------------------------------- the broker gets there

  /** How many of its own steps the broker is away from finishing, once the recognizer is gone. */
  function StepsLeft(broker: Broker): nat {
    match broker
    case Running => 9
    case Polling(_) => 8
    case Exited(_, _) => 7
    case ResultLooked(_, _, _) => 6
    case ErrorLooked(_, _, _, _) => 5
    case End(_, LookResult) => 4
    case End(_, LookError) => 3
    case End(_, WriteError) => 2
    case End(_, WriteFinished(_)) => 1
    case _ => 0
  }

  /** Nothing is left but the broker's own work. */
  predicate Closing(s: Job) {
    match s.broker
    case Claiming => false
    case Ready(_) => false
    case Running => s.recognizer.Gone?
    case Polling(_) => s.recognizer.Gone?
    case _ => true
  }

  const STEP := BrokerStep(true, "")

  lemma StepCloser(s: Job)
    requires s.terminal.None? && Closing(s) && s.broker != Done
    ensures Enabled(s, STEP) && After(s, STEP).terminal.None? && Closing(After(s, STEP))
    ensures StepsLeft(After(s, STEP).broker) < StepsLeft(s.broker)
  {
    assert "" !in CANCEL_CODES;
  }

  lemma Prepend(s: Job, e: Event, events: seq<Event>, t: Job)
    requires Enabled(s, e) && Run(After(s, e), events, t)
    ensures Run(s, [e] + events, t)
  {
    assert ([e] + events)[1..] == events;
  }

  lemma Finishes(s: Job) returns (events: seq<Event>, t: Job)
    requires s.terminal.None? && Closing(s)
    ensures Run(s, events, t) && (forall e: Event :: e in events ==> e.BrokerStep?)
    ensures t.broker == Done && t.terminal.None?
    decreases StepsLeft(s.broker)
  {
    hide After, Closing, StepsLeft;
    events, t := [], s;
    if s.broker != Done {
      StepCloser(s);
      events, t := Finishes(After(s, STEP));
      Prepend(s, STEP, events, t);
      events := [STEP] + events;
    }
  }

  /** Where there is one possible outcome, the broker alone brings it about. */
  lemma ComesToIt(s: Job, outcome: Outcome)
    requires Inv(s) && s.terminal.None? && Closing(s) && OnlyOutcome(s, outcome)
    requires s.result != Some(Unusable)
    ensures ComesTo(s, outcome)
  {
    hide Inv, Run, Closing;
    var events, t := Finishes(s);
    RunKeeps(s, events, t);
    if s.result.Some? {
      ResultRun(s, events, t);
    }
    DoneShows(s, events, t);
  }

  /** A finished job shows an outcome, unless its result is unusable. */
  lemma DoneShows(s: Job, events: seq<Event>, t: Job)
    requires Inv(t) && t.broker == Done && t.terminal.None?
    requires Inv(s) && Run(s, events, t) && Closing(s) && s.terminal.None? && s.result != Some(Unusable)
    ensures OutcomeOf(t).Some?
  {
    hide Meaning, Run, Broke;
    ClosingWritesNoResult(s, events, t);
  }

  /** A recognizer that is gone writes no result. */
  lemma {:induction false} ClosingWritesNoResult(s: Job, events: seq<Event>, t: Job)
    requires Inv(s) && Closing(s) && s.terminal.None? && Run(s, events, t) && t.terminal.None?
    ensures t.result == s.result
    decreases |events|
  {
    hide Inv, Closing, After;
    if events != [] {
      StepKeeps(s, events[0]);
      ClosingStep(s, events[0]);
      if After(s, events[0]).terminal.Some? {
        TerminalStays(After(s, events[0]), events[1..], t);
      } else {
        ClosingWritesNoResult(After(s, events[0]), events[1..], t);
      }
    }
  }

  lemma ClosingStep(s: Job, e: Event)
    requires Inv(s) && Closing(s) && s.terminal.None? && Enabled(s, e)
    ensures After(s, e).terminal.None? ==> Closing(After(s, e)) && After(s, e).result == s.result
  {
  }

  lemma BoundCloses(s: Job, code: string)
    requires Bound(s, code) && s.error.None?
    ensures Closing(s)
  {
  }

  lemma BoundComes(s: Job, code: string)
    requires Inv(s) && Bound(s, code) && s.error.None?
    ensures ComesTo(s, Told(code))
  {
    hide OnlyOutcome, ComesTo, Told;
    BoundCloses(s, code);
    BoundOnly(s, code);
    ComesToIt(s, Told(code));
  }

  // ---------------------------------------------------------------- the cases

  lemma Reached(before: seq<Event>, s: Job)
    requires Run(START, before, s)
    ensures Inv(s)
  {
    RunKeeps(START, before, s);
  }

  /** Cancelled during recognition: the broker has seen the cancellation at a poll or is about to, and the recognizer is
      gone without having written anything.  The job ends as cancelled and as nothing else. */
  lemma CancelledDuring(before: seq<Event>, s: Job)
    requires Run(START, before, s) && s.terminal.None?
    requires s.broker == Polling(true) || (s.broker == Running && s.cancel)
    requires s.recognizer.Gone? && s.recognizer.wrote == None
    ensures OnlyOutcome(s, JobCancelled) && ComesTo(s, JobCancelled)
  {
    hide OnlyOutcome, ComesTo, StableCode, Run;
    Reached(before, s);
    assert s.error.None? && s.result.None?;
    BoundOnly(s, "CANCELLED_DURING_RECOGNITION");
    BoundComes(s, "CANCELLED_DURING_RECOGNITION");
  }

  /** Cancelled before launch: the broker finds the cancellation at its first look, or at the second one when the
      runtime is in order.  The job ends as cancelled and the recognizer is never started. */
  lemma CancelledBefore(before: seq<Event>, s: Job, ok: bool, invalid: string)
    requires Run(START, before, s) && s.terminal.None? && s.cancel
    requires s.broker == Ready(0) || (s.broker == Ready(1) && ok)
    ensures var next := After(s, BrokerStep(ok, invalid));
            next.recognizer.NotStarted? && OnlyOutcome(next, JobCancelled) && ComesTo(next, JobCancelled)
  {
    hide OnlyOutcome, ComesTo, StableCode, Run;
    Reached(before, s);
    var next := After(s, BrokerStep(ok, invalid));
    assert Inv(next);
    BoundOnly(next, "CANCELLED_BEFORE_LAUNCH");
    BoundComes(next, "CANCELLED_BEFORE_LAUNCH");
  }

  /** Not cancelled when the broker looked, and the recognizer is gone without having written anything: the job fails
      with the code its exit calls for. */
  lemma ExitedSilently(before: seq<Event>, s: Job)
    requires Run(START, before, s) && s.terminal.None? && s.broker == Polling(false)
    requires s.recognizer.Gone? && s.recognizer.wrote == None
    ensures var outcome := JobFailed(if s.recognizer.code != 0 then "LOCAL_RECOGNITION_FAILED"
                                     else "LOCAL_RECOGNITION_RESULT_MISSING");
            OnlyOutcome(s, outcome) && ComesTo(s, outcome)
  {
    hide OnlyOutcome, ComesTo, StableCode, Run;
    Reached(before, s);
    assert s.error.None? && s.result.None?;
    FailureCodes();
    var code := ExitCode(false, s.recognizer.code);
    BoundOnly(s, code);
    BoundComes(s, code);
  }

  /** A job whose request is refused fails with the code of the refusal. */
  lemma ClaimRefused(before: seq<Event>, s: Job, invalid: string)
    requires Run(START, before, s) && s.terminal.None? && s.broker == Claiming && invalid !in CANCEL_CODES
    ensures var next := After(s, BrokerStep(false, invalid));
            next.recognizer.NotStarted? && OnlyOutcome(next, Told(invalid)) && ComesTo(next, Told(invalid))
  {
    hide OnlyOutcome, ComesTo, Run, Told;
    Reached(before, s);
    var next := After(s, BrokerStep(false, invalid));
    StepKeeps(s, BrokerStep(false, invalid));
    BoundOnly(next, invalid);
    BoundComes(next, invalid);
  }

  /** Without a cancellation, and with nothing in the way, the recognizer is started. */
  lemma StartsUnlessCancelled(s: Job)
    requires s.broker == Ready(0) && !s.cancel && s.terminal.None?
    ensures exists t :: Run(s, [STEP, STEP, STEP], t) && t.broker == Running && t.recognizer == Working(None)
  {
    assert "" !in CANCEL_CODES;
    var one := After(s, STEP);
    var two := After(one, STEP);
    var three := After(two, STEP);
    Prepend(two, STEP, [], three);
    assert [STEP] + [] == [STEP];
    Prepend(one, STEP, [STEP], three);
    assert [STEP] + [STEP] == [STEP, STEP];
    Prepend(s, STEP, [STEP, STEP], three);
    assert [STEP] + [STEP, STEP] == [STEP, STEP, STEP];
  }

  /** The recognizer cannot be started: the job fails with the code for that. */
  lemma StartFails(before: seq<Event>, s: Job, invalid: string)
    requires Run(START, before, s) && s.terminal.None? && (s.broker == Ready(1) || s.broker == Ready(2))
    ensures var next, outcome := After(s, BrokerStep(false, invalid)), JobFailed("LOCAL_JOB_RECOGNIZER_START_FAILED");
            next.recognizer.NotStarted? && OnlyOutcome(next, outcome) && ComesTo(next, outcome)
  {
    hide OnlyOutcome, ComesTo, StableCode, Run;
    Reached(before, s);
    var next := After(s, BrokerStep(false, invalid));
    assert Inv(next);
    FailureCodes();
    BoundOnly(next, "LOCAL_JOB_RECOGNIZER_START_FAILED");
    BoundComes(next, "LOCAL_JOB_RECOGNIZER_START_FAILED");
  }

  /** An error the recognizer has written decides, whoever cancels and however it exits. */
  lemma ErrorDecides(before: seq<Event>, s: Job, code: string)
    requires Run(START, before, s) && s.terminal.None? && s.error == Some(code)
    ensures OnlyOutcome(s, Told(code)) && (s.recognizer.Gone? && Closing(s) ==> ComesTo(s, Told(code)))
  {
    hide OnlyOutcome, ComesTo, Run, Told;
    Reached(before, s);
    BoundOnly(s, code);
    if Closing(s) {
      ComesToIt(s, Told(code));
    }
  }

  lemma ResultStep(s: Job, e: Event)
    requires Inv(s) && s.terminal.None? && s.result.Some? && Enabled(s, e)
    ensures var next := After(s, e);
            if next.terminal.Some? then s.result.value.Plan? && next.terminal == Some(PlanReady(s.result.value.plan))
            else next.result == s.result
  {
  }

  lemma {:induction false} ResultRun(s: Job, events: seq<Event>, t: Job)
    requires Inv(s) && s.terminal.None? && s.result.Some? && Run(s, events, t)
    ensures if t.terminal.Some? then s.result.value.Plan? && t.terminal == Some(PlanReady(s.result.value.plan))
            else t.result == s.result
    decreases |events|
  {
    hide Inv, After;
    if events != [] {
      var next := After(s, events[0]);
      StepKeeps(s, events[0]);
      ResultStep(s, events[0]);
      if next.terminal.None? {
        ResultRun(next, events[1..], t);
      } else {
        TerminalStays(next, events[1..], t);
      }
    }
  }

  /** A plan the recognizer has written decides, whoever cancels and however it exits. */
  lemma PlanDecides(before: seq<Event>, s: Job, plan: nat)
    requires Run(START, before, s) && s.terminal.None? && s.result == Some(Plan(plan))
    ensures OnlyOutcome(s, PlanReady(plan)) && (s.recognizer.Gone? && Closing(s) ==> ComesTo(s, PlanReady(plan)))
  {
    hide Inv, Run, Closing, ComesTo;
    Reached(before, s);
    if Closing(s) {
      PlanOnly(s, plan);
      ComesToIt(s, PlanReady(plan));
    } else {
      PlanOnly(s, plan);
    }
  }

  lemma PlanOnly(s: Job, plan: nat)
    requires Inv(s) && s.terminal.None? && s.result == Some(Plan(plan))
    ensures OnlyOutcome(s, PlanReady(plan))
  {
    hide Inv, Run;
    forall events, t | Run(s, events, t)
      ensures t.terminal.Some? ==> t.terminal == Some(PlanReady(plan))
      ensures t.terminal.None? && OutcomeOf(t).Some? ==> OutcomeOf(t) == Some(PlanReady(plan))
    {
      ResultRun(s, events, t);
    }
  }

  /** A result the host cannot use is never consumed: the job never ends for the host. */
  lemma UnusableNeverEnds(before: seq<Event>, s: Job, events: seq<Event>, t: Job)
    requires Run(START, before, s) && s.terminal.None? && s.result == Some(Unusable) && Run(s, events, t)
    ensures t.terminal.None? && OutcomeOf(t).None?
  {
    hide Inv, Run;
    Reached(before, s);
    ResultRun(s, events, t);
  }
}
