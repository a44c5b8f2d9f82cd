/** How a claimed job ends: one broker, the recognizer it starts, a host that may cancel at any time and that probes for
    the outcome, interleaved at single file operations. */
module BrokerTerminal {
  import opened Results

  /** result.json as the host reads it: a plan for this request, or a file it rejects with an exception. */
  datatype ResultFile = Plan(plan: nat) | Unusable

  datatype Written = WroteResult(result: ResultFile) | WroteError(code: string)

  /** The recognizer writes its result or, failing that, an error, then exits; it can be killed before either. */
  datatype Recognizer =
    | NotStarted
    | Working(wrote: Option<Written>)
    | Gone(wrote: Option<Written>, code: int)

  datatype FinishState = Completed | Failed | Cancelled

  /** Ending a job without relying on the recognizer: look for its files, then write an error of one's own. */
  datatype Ending = Cancelling(code: string) | Failing(code: string)
  datatype Stage = LookResult | LookError | WriteError | WriteFinished(state: FinishState)

  datatype Broker =
    | Claiming                                  // validating queued.json and request.json
    | Ready(looked: nat)                        // claimed; cancel.json was looked for `looked` times of two
    | Running
    | Polling(cancelSeen: bool)
    | Exited(cancelSeen: bool, code: int)       // the recognizer has exited
    | ResultLooked(cancelSeen: bool, code: int, resultSeen: bool)
    | ErrorLooked(cancelSeen: bool, code: int, resultSeen: bool, errorSeen: bool)
    | End(ending: Ending, stage: Stage)
    | Done

  /** The host's probe, between its file operations. */
  datatype Probe = Waiting | ResultSeen | ResultReady | NoResult | ErrorSeen | ErrorReady

  datatype Outcome = PlanReady(plan: nat) | JobCancelled | JobFailed(code: string)

  datatype Job = Job(
    cancel: bool, result: Option<ResultFile>, error: Option<string>, finished: Option<FinishState>,
    broker: Broker, recognizer: Recognizer, probe: Probe, terminal: Option<Outcome>)

  datatype Event =
    | BrokerStep(ok: bool, invalid: string)     // `ok`: the operation it tries succeeds, else it fails with `invalid`
    | Write(written: Written) | Exit(code: int) // the recognizer
    | Cancel | ProbeStep                        // the host

  const START := Job(false, None, None, None, Claiming, NotStarted, Waiting, None)

  const CANCEL_CODES := ["RECOGNITION_CANCELLED", "CANCELLED_BEFORE_LAUNCH", "CANCELLED_DURING_RECOGNITION"]

  /** The error codes the host passes on: a capital letter and one to eighty capitals, digits and underscores. */
  predicate StableCode(code: string) {
    && 2 <= |code| <= 81
    && 'A' <= code[0] <= 'Z'
    && forall i :: 1 <= i < |code| ==> 'A' <= code[i] <= 'Z' || '0' <= code[i] <= '9' || code[i] == '_'
  }

  /** What an error.json with this code means to the host. */
  function Meaning(code: string): Outcome {
    if !StableCode(code) then JobFailed("LOCAL_RECOGNITION_FAILED")
    else if code in CANCEL_CODES then JobCancelled
    else JobFailed(code)
  }

  /** The outcome the files of a job show. */
  function OutcomeOf(s: Job): Option<Outcome> {
    if s.finished.None? then None
    else if s.result.Some? then (if s.result.value.Plan? then Some(PlanReady(s.result.value.plan)) else None)
    else if s.error.Some? then Some(Meaning(s.error.value))
    else None
  }

  function EndStep(s: Job, ending: Ending, stage: Stage): Job {
    match stage
    case LookResult => s.(broker := End(ending, if s.result.Some? then WriteFinished(Completed) else LookError))
    case LookError => s.(broker := End(ending, if s.error.Some? then WriteFinished(Failed) else WriteError))
    case WriteError =>
      s.(error := Some(ending.code),
         broker := End(ending, WriteFinished(if ending.Cancelling? then Cancelled else Failed)))
    case WriteFinished(state) => s.(finished := Some(state), broker := Done)
  }

  /** What the broker does once both files were looked for. */
  function Reaped(s: Job, cancelSeen: bool, code: int, resultSeen: bool, errorSeen: bool): Job {
    if resultSeen then s.(finished := Some(Completed), broker := Done)
    else if errorSeen then s.(finished := Some(Failed), broker := Done)
    else if cancelSeen then s.(broker := End(Cancelling("CANCELLED_DURING_RECOGNITION"), LookResult))
    else if code != 0 then s.(broker := End(Failing("LOCAL_RECOGNITION_FAILED"), LookResult))
    else s.(broker := End(Failing("LOCAL_RECOGNITION_RESULT_MISSING"), LookResult))
  }

  function Broke(s: Job, ok: bool, invalid: string): Job {
    match s.broker
    case Claiming => s.(broker := if ok then Ready(0) else End(Failing(invalid), LookResult))
    case Ready(looked) =>
      if looked < 2 && (looked == 0 || ok) then
        if s.cancel then s.(broker := End(Cancelling("CANCELLED_BEFORE_LAUNCH"), LookResult))
        else s.(broker := Ready(looked + 1))
      else if looked >= 2 && ok then s.(broker := Running, recognizer := Working(None))
      else s.(broker := End(Failing("LOCAL_JOB_RECOGNIZER_START_FAILED"), LookResult))
    case Running => s.(broker := Polling(s.cancel))
    case Polling(cancelSeen) =>
      s.(broker := if s.recognizer.Gone? then Exited(cancelSeen, s.recognizer.code) else Running)
    case Exited(cancelSeen, code) => s.(broker := ResultLooked(cancelSeen, code, s.result.Some?))
    case ResultLooked(cancelSeen, code, resultSeen) =>
      s.(broker := ErrorLooked(cancelSeen, code, resultSeen, s.error.Some?))
    case ErrorLooked(cancelSeen, code, resultSeen, errorSeen) => Reaped(s, cancelSeen, code, resultSeen, errorSeen)
    case End(ending, stage) => EndStep(s, ending, stage)
    case Done => s
  }

  /** The host keeps the outcome it has read and removes the job's files. */
  function Consumed(s: Job, outcome: Outcome): Job {
    s.(terminal := Some(outcome), cancel := false, result := None, error := None, finished := None, probe := Waiting)
  }

  function Probed(s: Job): Job {
    match s.probe
    case Waiting => s.(probe := if s.result.Some? then ResultSeen else NoResult)
    case ResultSeen => s.(probe := if s.finished.Some? then ResultReady else NoResult)
    case ResultReady =>
      if s.result.Some? && s.result.value.Plan? then Consumed(s, PlanReady(s.result.value.plan))
          else s.(probe := Waiting)
    case NoResult => s.(probe := if s.error.Some? then ErrorSeen else Waiting)
    case ErrorSeen => s.(probe := if s.finished.Some? then ErrorReady else Waiting)
    case ErrorReady => if s.error.Some? then Consumed(s, Meaning(s.error.value)) else s.(probe := Waiting)
  }

  predicate Enabled(s: Job, e: Event) {
    match e
    case BrokerStep(_, invalid) => s.broker != Done && invalid !in CANCEL_CODES
    case Write(_) => s.recognizer == Working(None)
    case Exit(_) => s.recognizer.Working?
    case Cancel => s.terminal.None?
    case ProbeStep => s.terminal.None?
  }

  function After(s: Job, e: Event): Job {
    match e
    case BrokerStep(ok, invalid) => Broke(s, ok, invalid)
    case Write(WroteResult(file)) => s.(result := Some(file), recognizer := Working(Some(e.written)))
    case Write(WroteError(code)) => s.(error := Some(code), recognizer := Working(Some(e.written)))
    case Exit(code) =>
      s.(recognizer := Gone(if s.recognizer.Working? then s.recognizer.wrote else None, code))
    case Cancel => s.(cancel := true)
    case ProbeStep => Probed(s)
  }

  ghost predicate Run(s: Job, events: seq<Event>, t: Job)
    decreases |events|
  {
    if events == [] then s == t
    else Enabled(s, events[0]) && Run(After(s, events[0]), events[1..], t)
  }

  // What holds at every step

  predicate RecognizerWroteResult(s: Job) {
    !s.recognizer.NotStarted? && s.recognizer.wrote.Some? && s.recognizer.wrote.value.WroteResult?
  }

  predicate RecognizerWroteError(s: Job, code: string) {
    !s.recognizer.NotStarted? && s.recognizer.wrote == Some(WroteError(code))
  }

  /** No recognizer will write any more. */
  predicate Quiet(s: Job) {
    s.recognizer.NotStarted? || s.recognizer.Gone?
  }

  /** What the broker relies on between its file operations. */
  predicate BrokerKnows(s: Job) {
    match s.broker
    case Claiming => s.recognizer.NotStarted? && s.error.None?
    case Ready(_) => s.recognizer.NotStarted? && s.error.None?
    case Running => !s.recognizer.NotStarted?
    case Polling(cancelSeen) => !s.recognizer.NotStarted? && (cancelSeen ==> s.cancel)
    case Exited(cancelSeen, _) => Quiet(s) && (cancelSeen ==> s.cancel)
    case ResultLooked(cancelSeen, _, resultSeen) => Quiet(s) && (cancelSeen ==> s.cancel)
        && resultSeen == s.result.Some?
    case ErrorLooked(cancelSeen, _, resultSeen, errorSeen) =>
      Quiet(s) && (cancelSeen ==> s.cancel) && resultSeen == s.result.Some? && errorSeen == s.error.Some?
    case End(ending, stage) =>
      && Quiet(s)
      && (ending.Cancelling? ==> s.cancel)
      && (ending.Failing? ==> ending.code !in CANCEL_CODES)
      && match stage {
           case LookResult => true
           case LookError => s.result.None?
           case WriteError => s.result.None? && s.error.None?
           case WriteFinished(state) => (state == Completed <==> s.result.Some?) && (s.result.Some? || s.error.Some?)
         }
    case Done => Quiet(s) && s.finished.Some?
  }

  predicate ProbeKnows(s: Job) {
    match s.probe
    case Waiting => true
    case ResultSeen => s.result.Some?
    case ResultReady => s.result.Some? && s.finished.Some?
    case NoResult => true
    case ErrorSeen => s.error.Some?
    case ErrorReady => s.error.Some? && s.finished.Some?
  }

  /** finished.json comes with a result or an error, and says completed exactly when there is a result. */
  predicate FinishedTruthfully(s: Job) {
    s.finished.Some? ==>
      && (s.result.Some? || s.error.Some?)
      && (s.finished == Some(Completed) <==> s.result.Some?)
  }

  predicate Inv(s: Job) {
    && FinishedTruthfully(s)
    && !(s.result.Some? && s.error.Some?)
    && (s.terminal.Some? ==> s.broker == Done && Quiet(s) && s.result.None? && s.error.None? && s.finished.None?)
    && (s.terminal.None? ==>
        && BrokerKnows(s)
        && ProbeKnows(s)
        && (s.finished.Some? ==> s.broker == Done)
        && (s.result.Some? <==> RecognizerWroteResult(s))
        && (s.error.Some? ==> s.error.value in CANCEL_CODES ==> s.cancel || RecognizerWroteError(s, s.error.value))
        && (s.error.Some? ==> RecognizerWroteError(s, s.error.value) || s.broker == Done || s.broker.End?)
        && (s.recognizer.Working? && s.recognizer.wrote.None? ==> s.error.None?))
  }

  lemma EndKeeps(s: Job, ending: Ending, stage: Stage)
    requires Inv(s) && s.broker == End(ending, stage)
    ensures Inv(EndStep(s, ending, stage))
  {
    match stage
    case LookResult =>
    case LookError =>
    case WriteError =>
    case WriteFinished(state) =>
  }

  lemma ReapedKeeps(s: Job, cancelSeen: bool, code: int, resultSeen: bool, errorSeen: bool)
    requires Inv(s) && s.broker == ErrorLooked(cancelSeen, code, resultSeen, errorSeen)
    ensures Inv(Reaped(s, cancelSeen, code, resultSeen, errorSeen))
  {
  }

  lemma BrokerKeeps(s: Job, ok: bool, invalid: string)
    requires Inv(s) && s.broker != Done && invalid !in CANCEL_CODES
    ensures Inv(Broke(s, ok, invalid))
  {
    match s.broker
    case Claiming =>
    case Ready(looked) =>
    case Running =>
    case Polling(cancelSeen) =>
    case Exited(cancelSeen, code) =>
    case ResultLooked(cancelSeen, code, resultSeen) =>
    case ErrorLooked(cancelSeen, code, resultSeen, errorSeen) => ReapedKeeps(s, cancelSeen, code, resultSeen,
        errorSeen);
    case End(ending, stage) => EndKeeps(s, ending, stage);
  }

  lemma ProbeKeeps(s: Job)
    requires Inv(s) && s.terminal.None?
    ensures Inv(Probed(s))
  {
    match s.probe
    case Waiting =>
    case ResultSeen =>
    case ResultReady =>
    case NoResult =>
    case ErrorSeen =>
    case ErrorReady =>
  }

  lemma RecognizerKeeps(s: Job, e: Event)
    requires Inv(s) && Enabled(s, e) && (e.Write? || e.Exit?)
    ensures Inv(After(s, e))
  {
  }

  lemma CancelKeeps(s: Job)
    requires Inv(s) && Enabled(s, Cancel)
    ensures Inv(After(s, Cancel))
  {
  }

  lemma StepKeeps(s: Job, e: Event)
    requires Inv(s) && Enabled(s, e)
    ensures Inv(After(s, e))
  {
    match e
    case BrokerStep(ok, invalid) => BrokerKeeps(s, ok, invalid);
    case Cancel => CancelKeeps(s);
    case ProbeStep => ProbeKeeps(s);
    case _ => RecognizerKeeps(s, e);
  }

  lemma {:induction false} RunKeeps(s: Job, events: seq<Event>, t: Job)
    requires Inv(s) && Run(s, events, t)
    ensures Inv(t)
    decreases |events|
  {
    if events != [] {
      StepKeeps(s, events[0]);
      RunKeeps(After(s, events[0]), events[1..], t);
    }
  }

  // Main results

  /** In every run: finished.json appears only with a result or an error, never with both, and says completed exactly
      when there is a result.  Once the host has taken the outcome, nobody writes any of the three again. */
  lemma {:induction false} EndsTruthfully(events: seq<Event>, t: Job)
    requires Run(START, events, t)
    ensures FinishedTruthfully(t)
    ensures !(t.result.Some? && t.error.Some?)
    ensures t.terminal.Some? ==> t.result.None? && t.error.None? && t.finished.None?
  {
    RunKeeps(START, events, t);
  }

  /** A result is never overwritten and never joined by an error, however late a cancellation comes. */
  lemma {:induction false} ResultStands(s: Job, events: seq<Event>, t: Job)
    requires Inv(s) && s.terminal.None? && s.result.Some? && Run(s, events, t)
    ensures t.terminal.None? ==> t.result == s.result && t.error.None?
    decreases |events|
  {
    if events != [] {
      StepKeeps(s, events[0]);
      var next := After(s, events[0]);
      if next.terminal.None? {
        ResultStaysOneStep(s, events[0]);
        ResultStands(next, events[1..], t);
      } else {
        TerminalStays(next, events[1..], t);
      }
    }
  }

  lemma ResultStaysOneStep(s: Job, e: Event)
    requires Inv(s) && s.terminal.None? && s.result.Some? && Enabled(s, e) && After(s, e).terminal.None?
    ensures After(s, e).result == s.result
  {
  }

  lemma {:induction false} TerminalStays(s: Job, events: seq<Event>, t: Job)
    requires s.terminal.Some? && Run(s, events, t)
    ensures t.terminal == s.terminal
    decreases |events|
  {
    if events != [] {
      TerminalStays(After(s, events[0]), events[1..], t);
    }
  }

  lemma OutcomeStaysOneStep(s: Job, e: Event)
    requires Inv(s) && s.terminal.None? && OutcomeOf(s).Some? && Enabled(s, e)
    ensures After(s, e).terminal.None? ==> OutcomeOf(After(s, e)) == OutcomeOf(s)
    ensures After(s, e).terminal.Some? ==> After(s, e).terminal == OutcomeOf(s)
  {
  }

  /** Once the files show an outcome it is the only one the host can ever report, although its probe looks at one file
      at a time and the others keep working. */
  lemma {:induction false} OutcomeIsFinal(s: Job, events: seq<Event>, t: Job)
    requires Inv(s) && s.terminal.None? && OutcomeOf(s).Some? && Run(s, events, t)
    ensures t.terminal.None? ==> OutcomeOf(t) == OutcomeOf(s)
    ensures t.terminal.Some? ==> t.terminal == OutcomeOf(s)
    decreases |events|
  {
    if events != [] {
      var next := After(s, events[0]);
      StepKeeps(s, events[0]);
      OutcomeStaysOneStep(s, events[0]);
      if next.terminal.None? {
        OutcomeIsFinal(next, events[1..], t);
      } else {
        TerminalStays(next, events[1..], t);
      }
    }
  }

  /** What the host reports is what the files show at that moment, and nothing is reported before they show it. */
  lemma {:induction false} ReportsWhatFilesShow(events: seq<Event>, s: Job, e: Event)
    requires Run(START, events, s) && s.terminal.None? && Enabled(s, e) && After(s, e).terminal.Some?
    ensures After(s, e).terminal == OutcomeOf(s)
  {
    RunKeeps(START, events, s);
    assert e == ProbeStep;
  }

  /** A job is reported cancelled only if the host asked for it or the recognizer itself said so. */
  lemma {:induction false} CancelledOnlyOnRequest(events: seq<Event>, s: Job)
    requires Run(START, events, s) && OutcomeOf(s) == Some(JobCancelled)
    ensures s.cancel || exists code :: code in CANCEL_CODES && RecognizerWroteError(s, code)
  {
    RunKeeps(START, events, s);
    assert s.terminal.None?;
    assert s.error.value in CANCEL_CODES;
  }
}
