/** The coordinator thread against the job store: every interleaving of submit, cancel and close with one job's
    stages. */
module ControlCoordinator {
  import opened Results
  import opened ControlJobs

  /** Where the coordinator stands; each stage holds the id of the job it executes. */
  datatype Pc =
    | Idle
    | Taken(id: nat)
    | InRecognition(id: nat)
    | Recognized(id: nat)
    | Unstopped(id: nat)      // raise_if_cancelled has let the job through
    | InPlanning(id: nat)
    | Ending(id: nat, result: Option<nat>, error: Option<string>)

  /** What comes back from a recognizer or planner call. */
  datatype Reply = Good(value: nat) | Bad(error: string) | Timeout

  datatype Event =
    | Submit(request: Request, newId: nat) | Cancel(id: nat) | Close
    | Take | Begin | RecognitionReturns(reply: Reply) | LookForCancel | BeginPlanning(reply: Reply)
    | PlanningReturns(reply: Reply) | Finish

  /** `abandoned`: the jobs the coordinator returned from without finishing them. */
  datatype System = System(store: Store, pc: Pc, abandoned: set<nat>)

  const JOB_TIMEOUT := "CONTROL_SERVER_JOB_TIMEOUT"

  const START := System(EMPTY, Idle, {})

  function Current(pc: Pc): set<nat> {
    if pc.Idle? then {} else {pc.id}
  }

  predicate Enabled(s: System, e: Event) {
    match e
    case Submit(_, newId) => newId !in s.store.jobs
    case Cancel(_) => true
    case Close => true
    case Take => s.pc.Idle?
    case Begin => s.pc.Taken?
    case RecognitionReturns(_) => s.pc.InRecognition?
    case LookForCancel => s.pc.Recognized?
    case BeginPlanning(_) => s.pc.Unstopped?
    case PlanningReturns(_) => s.pc.InPlanning?
    case Finish => s.pc.Ending?
  }

  /** A stage call has returned: on a timeout the coordinator sets the job's own cancellation token. */
  function Replied(s: System, id: nat, reply: Reply, next: Pc): System
    requires id in s.store.jobs
  {
    match reply
    case Good(_) => s.(pc := next)
    case Bad(error) => s.(pc := Ending(id, None, Some(error)))
    case Timeout =>
      s.(store := s.store.(jobs := s.store.jobs[id := s.store.jobs[id].(token := true)]),
         pc := Ending(id, None, Some(JOB_TIMEOUT)))
  }

  /** Entering a stage; a job already cancelled is dropped there and then. */
  function Enter(s: System, id: nat, stage: Status, next: Pc): System
    requires id in s.store.jobs
  {
    if MayRun(s.store.jobs[id]) then s.(store := RunningIn(s.store, id, stage), pc := next)
    else s.(pc := Idle, abandoned := s.abandoned + (if Terminal(s.store.jobs[id].status) then {} else {id}))
  }

  function AfterPlanned(s: System, id: nat, reply: Reply): System
    requires id in s.store.jobs
  {
    match reply
    case Good(value) => s.(pc := Ending(id, Some(value), None))
    case _ => Replied(s, id, reply, Idle)
  }

  function After(s: System, e: Event): System
    requires Closed(s.store) && Current(s.pc) <= s.store.jobs.Keys && Enabled(s, e)
  {
    match e
    case Submit(request, newId) => s.(store := Submitted(s.store, request, newId))
    case Cancel(id) => s.(store := CancelledIn(s.store, id))
    case Close => s.(store := ClosedStore(s.store))
    case Take =>
      s.(store := ControlJobs.Taken(s.store),
         pc := match TakenJob(s.store) { case Some(id) => Taken(id) case None => Idle })
    case Begin => Enter(s, s.pc.id, Recognizing, InRecognition(s.pc.id))
    case RecognitionReturns(reply) => Replied(s, s.pc.id, reply, Recognized(s.pc.id))
    case LookForCancel =>
      s.(pc := if s.store.jobs[s.pc.id].token then Ending(s.pc.id, None, Some("PIPELINE_CANCELLED"))
          else Unstopped(s.pc.id))
    case BeginPlanning(reply) =>
      if s.store.jobs[s.pc.id].request.recognizeOnly then AfterPlanned(s, s.pc.id, reply)
      else Enter(s, s.pc.id, Planning, InPlanning(s.pc.id))
    case PlanningReturns(reply) => AfterPlanned(s, s.pc.id, reply)
    case Finish => s.(store := FinishedIn(s.store, s.pc.id, s.pc.result, s.pc.error), pc := Idle)
  }

  // The invariant

  predicate StageFits(pc: Pc, job: Job) {
    match pc
    case Idle => true
    case Taken(_) => job.status == Queued || (job.status == Cancelled && job.token)
    case InRecognition(_) => job.status == Recognizing
    case Recognized(_) => job.status == Recognizing
    case Unstopped(_) => job.status == Recognizing
    case InPlanning(_) => job.status == Planning
    case Ending(_, result, error) => Running(job.status) && (result.Some? <==> error.None?)
  }

  /** A completed job has a result, a failed one an error, and no other job has either. */
  predicate Outcome(job: Job) {
    && (job.result.Some? <==> job.status == Completed)
    && (job.error.Some? <==> job.status == Failed)
    && (job.status == Completed ==> !job.token)
  }

  ghost predicate Indexed(store: Store) {
    && (forall r :: r in store.index ==> store.index[r] in store.jobs && store.jobs[store.index[r]].request.id == r)
    && (forall id :: id in store.jobs ==>
          store.jobs[id].request.id in store.index && store.index[store.jobs[id].request.id] == id)
  }

  ghost predicate Outcomes(store: Store) {
    forall id :: id in store.jobs ==> Outcome(store.jobs[id])
  }

  /** A queued job waits for the coordinator, untouched. */
  ghost predicate QueueWaits(s: System) {
    && |s.store.queue| <= 1
    && (s.store.closed ==> s.store.queue == [])
    && forall id :: id in s.store.queue ==>
         id in s.store.jobs && s.store.jobs[id].status == Queued && id !in Current(s.pc) && id !in s.abandoned
         && !s.store.jobs[id].token
  }

  /** Every unfinished job is in the queue, with the coordinator, or abandoned by it. */
  ghost predicate Accounted(s: System) {
    forall id :: id in s.store.jobs && !Terminal(s.store.jobs[id].status) ==>
      id in s.store.queue || id in Current(s.pc) || id in s.abandoned
  }

  /** An abandoned job was cancelled before a stage began and is neither executed nor finished. */
  ghost predicate AbandonedStuck(s: System) {
    forall id :: id in s.abandoned ==>
      id in s.store.jobs && s.store.jobs[id].token && s.store.jobs[id].status in {Queued, Recognizing, Cancelled}
      && id !in Current(s.pc)
  }

  /** The store's active job is the coordinator's, or one it has dropped. */
  predicate ActiveFits(s: System) {
    && (!s.pc.Idle? ==> s.store.active == Some(s.pc.id))
    && (s.store.active.Some? ==>
          s.store.active.value in s.store.jobs
          && (Terminal(s.store.jobs[s.store.active.value].status) ==>
                s.store.jobs[s.store.active.value].status == Cancelled && s.store.jobs[s.store.active.value].token))
  }

  ghost predicate Inv(s: System) {
    && Closed(s.store)
    && Indexed(s.store)
    && Outcomes(s.store)
    && QueueWaits(s)
    && Accounted(s)
    && AbandonedStuck(s)
    && Current(s.pc) <= s.store.jobs.Keys
    && (!s.pc.Idle? ==> StageFits(s.pc, s.store.jobs[s.pc.id]))
    && ActiveFits(s)
  }

  // What no step takes back

  /** A finished job, and a job abandoned in the middle, never changes again. */
  predicate Settled(s: System, id: nat)
    requires id in s.store.jobs
  {
    Terminal(s.store.jobs[id].status) || (id in s.abandoned && s.store.jobs[id].status == Recognizing)
  }

  ghost predicate Grows(s: System, t: System) {
    && (forall id :: id in s.store.jobs ==> id in t.store.jobs && t.store.jobs[id].request == s.store.jobs[id].request)
    && (forall id :: id in s.store.jobs && Settled(s, id) ==>
          id in t.store.jobs && t.store.jobs[id] == s.store.jobs[id])
    && (forall r :: r in s.store.index ==> r in t.store.index && t.store.index[r] == s.store.index[r])
    && s.abandoned <= t.abandoned
  }

  ghost predicate StepSound(s: System, t: System) {
    Inv(t) && Grows(s, t)
  }

  /** One job of the store is rewritten, under the same request. */
  lemma RewritingOne(s: System, t: System, id: nat, job: Job)
    requires Inv(s) && id in s.store.jobs && t.store.jobs == s.store.jobs[id := job] && t.store.index == s.store.index
    requires job.request == s.store.jobs[id].request && Outcome(job)
    requires Settled(s, id) ==> job == s.store.jobs[id]
    requires s.abandoned <= t.abandoned
    ensures Indexed(t.store) && Outcomes(t.store) && Grows(s, t)
  {
  }

  lemma AddingOne(s: System, t: System, id: nat, request: Request)
    requires Inv(s) && id !in s.store.jobs && request.id !in s.store.index && t.abandoned == s.abandoned
    requires t.store.jobs == s.store.jobs[id := Job(request, Queued, None, None, false)]
    requires t.store.index == s.store.index[request.id := id]
    ensures Indexed(t.store) && Outcomes(t.store) && Grows(s, t)
  {
  }

  lemma SameJobs(s: System, t: System)
    requires Inv(s) && t.store.jobs == s.store.jobs && t.store.index == s.store.index && s.abandoned <= t.abandoned
    ensures Indexed(t.store) && Outcomes(t.store) && Grows(s, t)
  {
  }

  lemma OutcomeOf(s: System, id: nat)
    requires Inv(s) && id in s.store.jobs
    ensures Outcome(s.store.jobs[id])
  {
  }

  lemma AddedAccounted(s: System, t: System, request: Request, newId: nat)
    requires Inv(s) && newId !in s.store.jobs && t == After(s, Submit(request, newId)) && t.store != s.store
    ensures QueueWaits(t) && Accounted(t) && AbandonedStuck(t) && Closed(t.store)
  {
    hide Indexed, Outcomes, ActiveFits;
  }

  lemma SubmitKeeps(s: System, request: Request, newId: nat)
    requires Inv(s) && newId !in s.store.jobs
    ensures StepSound(s, After(s, Submit(request, newId)))
  {
    hide Indexed, Outcomes, Grows, QueueWaits, Accounted, AbandonedStuck;
    if Submitted(s.store, request, newId) != s.store {
      AddingOne(s, After(s, Submit(request, newId)), newId, request);
      AddedAccounted(s, After(s, Submit(request, newId)), request, newId);
    } else {
      SameJobs(s, After(s, Submit(request, newId)));
    }
  }

  /** A waiting job is taken out of the queue and stopped. */
  lemma StoppedWaits(s: System, t: System, id: nat)
    requires Inv(s) && id in s.store.jobs && s.store.jobs[id].status == Queued && t == After(s, Cancel(id))
    ensures QueueWaits(t) && Closed(t.store)
  {
    hide Indexed, Outcomes, Accounted, AbandonedStuck, ActiveFits;
    WithoutKeeps(s.store.queue, id);
  }

  lemma StoppedAccounted(s: System, t: System, id: nat)
    requires Inv(s) && id in s.store.jobs && s.store.jobs[id].status == Queued && t == After(s, Cancel(id))
    ensures Accounted(t) && AbandonedStuck(t)
  {
    hide Indexed, Outcomes, QueueWaits, ActiveFits;
    WithoutKeeps(s.store.queue, id);
  }

  lemma CancelQueuedKeeps(s: System, id: nat)
    requires Inv(s) && id in s.store.jobs && s.store.jobs[id].status == Queued
    ensures StepSound(s, After(s, Cancel(id)))
  {
    hide Indexed, Outcomes, Grows, QueueWaits, Accounted, AbandonedStuck;
    OutcomeOf(s, id);
    RewritingOne(s, After(s, Cancel(id)), id, Stopped(s.store.jobs[id]));
    StoppedWaits(s, After(s, Cancel(id)), id);
    StoppedAccounted(s, After(s, Cancel(id)), id);
  }

  lemma CancelKeeps(s: System, id: nat)
    requires Inv(s)
    ensures StepSound(s, After(s, Cancel(id)))
  {
    hide Indexed, Outcomes, Grows;
    if id in s.store.jobs && s.store.jobs[id].status == Queued {
      CancelQueuedKeeps(s, id);
    } else if id in s.store.jobs && !Terminal(s.store.jobs[id].status) {
      OutcomeOf(s, id);
      RewritingOne(s, After(s, Cancel(id)), id, s.store.jobs[id].(token := true));
    } else {
      SameJobs(s, After(s, Cancel(id)));
    }
  }

  lemma CloseGrows(s: System, t: System)
    requires Inv(s) && t == After(s, Close)
    ensures Grows(s, t)
  {
  }

  lemma CloseIndexed(s: System, t: System)
    requires Inv(s) && t == After(s, Close)
    ensures Indexed(t.store)
  {
    hide QueueWaits, Accounted, AbandonedStuck, Outcomes, ActiveFits, StageFits, Outcome;
  }

  lemma CloseOutcomes(s: System, t: System)
    requires Inv(s) && t == After(s, Close)
    ensures Outcomes(t.store)
  {
    hide Accounted, AbandonedStuck, Indexed;
  }

  lemma CloseKeeps(s: System)
    requires Inv(s)
    ensures StepSound(s, After(s, Close))
  {
    hide Indexed, Outcomes, Grows;
    CloseGrows(s, After(s, Close));
    CloseIndexed(s, After(s, Close));
    CloseOutcomes(s, After(s, Close));
  }

  lemma TakeKeeps(s: System)
    requires Inv(s) && s.pc.Idle?
    ensures StepSound(s, After(s, Take))
  {
    hide Indexed, Outcomes, Grows;
    SameJobs(s, After(s, Take));
  }

  /** The coordinator's own job is rewritten and stays unfinished and its own. */
  lemma CurrentStays(s: System, t: System, job: Job)
    requires Inv(s) && !s.pc.Idle? && t.store == s.store.(jobs := s.store.jobs[s.pc.id := job])
    requires t.abandoned == s.abandoned && Current(t.pc) == {s.pc.id} && !Terminal(job.status)
    ensures QueueWaits(t) && Accounted(t) && AbandonedStuck(t) && ActiveFits(t) && Closed(t.store)
  {
    hide Indexed, Outcomes;
  }

  lemma EnterGoes(s: System, stage: Status, next: Pc)
    requires Inv(s) && !s.pc.Idle? && MayRun(s.store.jobs[s.pc.id])
    requires (s.pc.Taken? && stage == Recognizing && next == InRecognition(s.pc.id))
          || (s.pc.Unstopped? && stage == Planning && next == InPlanning(s.pc.id))
    ensures StepSound(s, Enter(s, s.pc.id, stage, next))
  {
    hide Indexed, Outcomes, Grows, QueueWaits, Accounted, ActiveFits;
    var job := s.store.jobs[s.pc.id].(status := stage);
    OutcomeOf(s, s.pc.id);
    RewritingOne(s, Enter(s, s.pc.id, stage, next), s.pc.id, job);
    CurrentStays(s, Enter(s, s.pc.id, stage, next), job);
  }

  lemma EnterDrops(s: System, stage: Status, next: Pc)
    requires Inv(s) && !s.pc.Idle? && !MayRun(s.store.jobs[s.pc.id])
    requires (s.pc.Taken? && stage == Recognizing && next == InRecognition(s.pc.id))
          || (s.pc.Unstopped? && stage == Planning && next == InPlanning(s.pc.id))
    ensures StepSound(s, Enter(s, s.pc.id, stage, next))
  {
    hide Indexed, Outcomes, Grows;
    SameJobs(s, Enter(s, s.pc.id, stage, next));
  }

  lemma EnterKeeps(s: System, stage: Status, next: Pc)
    requires Inv(s)
    requires (s.pc.Taken? && stage == Recognizing && next == InRecognition(s.pc.id))
          || (s.pc.Unstopped? && stage == Planning && next == InPlanning(s.pc.id))
    ensures StepSound(s, Enter(s, s.pc.id, stage, next))
  {
    hide StepSound, Enter, Indexed, Outcomes, QueueWaits, Accounted, AbandonedStuck, ActiveFits;
    if MayRun(s.store.jobs[s.pc.id]) {
      EnterGoes(s, stage, next);
    } else {
      EnterDrops(s, stage, next);
    }
  }

  lemma ReplyKeeps(s: System, reply: Reply, next: Pc)
    requires Inv(s) && !s.pc.Idle? && Running(s.store.jobs[s.pc.id].status)
    requires reply.Good? ==> Current(next) == {s.pc.id} && StageFits(next, s.store.jobs[s.pc.id])
    ensures StepSound(s, Replied(s, s.pc.id, reply, next))
  {
    hide Indexed, Outcomes, Grows, QueueWaits, Accounted, ActiveFits;
    var t, job := Replied(s, s.pc.id, reply, next), s.store.jobs[s.pc.id];
    OutcomeOf(s, s.pc.id);
    if reply.Timeout? {
      RewritingOne(s, t, s.pc.id, job.(token := true));
      CurrentStays(s, t, job.(token := true));
    } else {
      SameJobs(s, t);
      assert s.store.jobs[s.pc.id := job] == s.store.jobs;
      CurrentStays(s, t, job);
    }
  }

  lemma FinishAccounted(s: System, t: System)
    requires Inv(s) && s.pc.Ending? && t == After(s, Finish)
    ensures QueueWaits(t) && Accounted(t) && AbandonedStuck(t) && Closed(t.store)
  {
    hide Indexed, Outcomes, ActiveFits;
  }

  lemma FinishKeeps(s: System)
    requires Inv(s) && s.pc.Ending?
    ensures StepSound(s, After(s, Finish))
  {
    hide Indexed, Outcomes, Grows, QueueWaits, Accounted;
    OutcomeOf(s, s.pc.id);
    RewritingOne(s, After(s, Finish), s.pc.id, FinishedJob(s.store.jobs[s.pc.id], s.pc.result, s.pc.error));
    FinishAccounted(s, After(s, Finish));
  }

  lemma LookKeeps(s: System)
    requires Inv(s) && s.pc.Recognized?
    ensures StepSound(s, After(s, LookForCancel))
  {
    hide Indexed, Outcomes, Grows;
    SameJobs(s, After(s, LookForCancel));
  }

  lemma StepKeeps(s: System, e: Event)
    requires Inv(s) && Enabled(s, e)
    ensures StepSound(s, After(s, e))
  {
    hide StepSound, Indexed, Outcomes, QueueWaits, Accounted, AbandonedStuck;
    match e
    case Submit(request, newId) => SubmitKeeps(s, request, newId);
    case Cancel(id) => CancelKeeps(s, id);
    case Close => CloseKeeps(s);
    case Take => TakeKeeps(s);
    case Begin => EnterKeeps(s, Recognizing, InRecognition(s.pc.id));
    case RecognitionReturns(reply) => ReplyKeeps(s, reply, Recognized(s.pc.id));
    case LookForCancel => LookKeeps(s);
    case BeginPlanning(reply) =>
      if s.store.jobs[s.pc.id].request.recognizeOnly {
        ReplyKeeps(s, reply, Ending(s.pc.id, Some(if reply.Good? then reply.value else 0), None));
      } else {
        EnterKeeps(s, Planning, InPlanning(s.pc.id));
      }
    case PlanningReturns(reply) =>
      ReplyKeeps(s, reply, Ending(s.pc.id, Some(if reply.Good? then reply.value else 0), None));
    case Finish => FinishKeeps(s);
  }

  // Runs

  ghost predicate Run(s: System, events: seq<Event>, t: System)
    requires Inv(s)
    decreases |events|
  {
    if events == [] then s == t
    else Enabled(s, events[0]) && (StepKeeps(s, events[0]); Run(After(s, events[0]), events[1..], t))
  }

  lemma GrowsFurther(s: System, t: System, u: System)
    requires Grows(s, t) && Grows(t, u)
    ensures Grows(s, u)
  {
    forall id | id in s.store.jobs && Settled(s, id)
      ensures id in u.store.jobs && u.store.jobs[id] == s.store.jobs[id]
    {
      assert Settled(s, id);
      assert id in t.store.jobs && t.store.jobs[id] == s.store.jobs[id];
    }
    forall id | id in s.store.jobs ensures id in u.store.jobs && u.store.jobs[id].request == s.store.jobs[id].request {
      assert id in t.store.jobs;
    }
  }

  /** Over every run: finished jobs and jobs abandoned in recognition never change, and a request id, once taken, names
      the same job with the same payload for ever. */
  lemma {:induction false} RunSound(s: System, events: seq<Event>, t: System)
    requires Inv(s) && Run(s, events, t)
    ensures Inv(t) && Grows(s, t)
    decreases |events|
  {
    if events != [] {
      var next := After(s, events[0]);
      assert StepSound(s, next) by { StepKeeps(s, events[0]); }
      RunSound(next, events[1..], t);
      GrowsFurther(s, next, t);
    }
  }

  lemma StartFits()
    ensures Inv(START)
  {
  }

  /** In every reachable state: at most one job waits, a completed job has a result and nobody else does, and the
      unfinished jobs are exactly the waiting one, the coordinator's, and the abandoned ones. */
  lemma {:induction false} StoreSound(events: seq<Event>, t: System)
    requires Inv(START) && Run(START, events, t)
    ensures |t.store.queue| <= 1
    ensures forall id :: id in t.store.jobs ==> Outcome(t.store.jobs[id])
    ensures forall id :: id in t.store.jobs && !Terminal(t.store.jobs[id].status) ==>
              id in t.store.queue || id in Current(t.pc) || id in t.abandoned
    ensures forall id :: id in t.store.queue ==> id in t.store.jobs && t.store.jobs[id].status == Queued
  {
    RunSound(START, events, t);
  }

  /** A request id, once taken, always finds the job of its first submission; another payload under it is refused. */
  lemma {:induction false} ResubmissionFindsTheJob(s: System, events: seq<Event>, t: System, again: Request, newId: nat)
    requires Inv(s) && Run(s, events, t) && again.id in s.store.index
    ensures again.id in t.store.index && t.store.index[again.id] in t.store.jobs
    ensures SubmitAnswer(t.store, again, newId)
         == if again == s.store.jobs[s.store.index[again.id]].request then Success((s.store.index[again.id], true))
            else Failure(RequestIdReuse)
    ensures Submitted(t.store, again, newId) == t.store
  {
    RunSound(s, events, t);
  }

  // What becomes of a stage that times out

  /** No recognizer or planner reports the coordinator's own timeout as its error. */
  predicate Honest(e: Event) {
    (e.RecognitionReturns? || e.BeginPlanning? || e.PlanningReturns?) ==> e.reply != Bad(JOB_TIMEOUT)
  }

  /** No job shows the timeout, and the job that is about to end with it has its token set. */
  ghost predicate Quiet(s: System) {
    && (forall id :: id in s.store.jobs ==> s.store.jobs[id].error != Some(JOB_TIMEOUT))
    && (s.pc.Ending? && s.pc.error == Some(JOB_TIMEOUT) ==> s.pc.id in s.store.jobs && s.store.jobs[s.pc.id].token)
  }

  lemma QuietReplied(s: System, reply: Reply, next: Pc)
    requires Inv(s) && Quiet(s) && !s.pc.Idle? && reply != Bad(JOB_TIMEOUT)
    requires next.Ending? ==> next.error == None
    ensures Quiet(Replied(s, s.pc.id, reply, next))
  {
    hide Indexed, Outcomes, QueueWaits, Accounted, AbandonedStuck, ActiveFits, StageFits;
  }

  lemma QuietStep(s: System, e: Event)
    requires Inv(s) && Enabled(s, e) && Quiet(s) && Honest(e)
    ensures Quiet(After(s, e))
  {
    hide Indexed, Outcomes, QueueWaits, Accounted, AbandonedStuck, Replied;
    match e
    case RecognitionReturns(reply) => QuietReplied(s, reply, Recognized(s.pc.id));
    case BeginPlanning(reply) => QuietReplied(s, reply, Idle);
    case PlanningReturns(reply) => QuietReplied(s, reply, Idle);
    case _ =>
  }

  lemma {:induction false} QuietRun(s: System, events: seq<Event>, t: System)
    requires Inv(s) && Run(s, events, t) && Quiet(s) && forall e :: e in events ==> Honest(e)
    ensures Quiet(t)
    decreases |events|
  {
    hide Indexed, Outcomes, QueueWaits, Accounted, AbandonedStuck, ActiveFits, StageFits, Quiet, Honest;
    if events != [] {
      assert events[0] in events;
      StepKeeps(s, events[0]);
      QuietStep(s, events[0]);
      QuietRun(After(s, events[0]), events[1..], t);
    }
  }

  /** The error of a stage timeout is never shown, in any run: the timeout has set the job's token, and so the job ends
      as cancelled. */
  lemma {:induction false} TimeoutIsNeverShown(events: seq<Event>, t: System)
    requires Inv(START) && Run(START, events, t) && forall e :: e in events ==> Honest(e)
    ensures Inv(t) && forall id :: id in t.store.jobs ==> t.store.jobs[id].error != Some(JOB_TIMEOUT)
    ensures t.pc.Ending? && t.pc.error == Some(JOB_TIMEOUT) ==>
              var job := After(t, Finish).store.jobs[t.pc.id];
              job.status == Cancelled && job.error == None
  {
    hide Run;
    RunSound(START, events, t);
    QuietRun(START, events, t);
    if t.pc.Ending? {
      OutcomeOf(t, t.pc.id);
    }
  }

  // How many jobs are active

  ghost function Active(s: System): set<nat> {
    set id | id in s.store.jobs && Running(s.store.jobs[id].status)
  }

  /** Jobs the coordinator left in the status "recognizing". */
  ghost function Left(s: System): set<nat> {
    set id | id in s.abandoned && id in s.store.jobs && s.store.jobs[id].status == Recognizing
  }

  function Executed(pc: Pc): set<nat> {
    if pc.Taken? then {} else Current(pc)
  }

  lemma ActiveSet(s: System)
    requires Inv(s)
    ensures Active(s) == Left(s) + Executed(s.pc)
    ensures Left(s) !! Executed(s.pc)
  {
    forall id ensures id in Active(s) <==> id in Left(s) || id in Executed(s.pc) {
      if id in s.store.jobs && Running(s.store.jobs[id].status) {
        assert id in s.store.queue || id in Current(s.pc) || id in s.abandoned;
      }
    }
  }

  lemma DisjointSizes<T>(both: set<T>, one: set<T>, other: set<T>)
    requires both == one + other && one !! other
    ensures |both| == |one| + |other|
  {
  }

  /** The active jobs are the one the coordinator executes and those it left behind.  So at most one is active exactly
      when none was left behind, or one was and none is executed. */
  lemma ActiveExactly(s: System)
    requires Inv(s)
    ensures Active(s) == Left(s) + Executed(s.pc)
    ensures |Active(s)| <= 1 <==> Left(s) == {} || (|Left(s)| == 1 && Executed(s.pc) == {})
  {
    ActiveSet(s);
    assert |Active(s)| == |Left(s)| + |Executed(s.pc)| by { DisjointSizes(Active(s), Left(s), Executed(s.pc)); }
  }

  /** Nobody is left behind, and of those abandoned before nobody enters or leaves recognition. */
  ghost predicate LeftAlone(s: System, t: System) {
    t.abandoned == s.abandoned
    && forall id :: id in s.abandoned && id in s.store.jobs ==>
         id in t.store.jobs && (t.store.jobs[id].status == Recognizing <==> s.store.jobs[id].status == Recognizing)
  }

  lemma LeftStays(s: System, t: System)
    requires Inv(s) && LeftAlone(s, t)
    ensures Left(t) == Left(s)
  {
  }

  lemma OutsideLeavesAlone(s: System, e: Event)
    requires Inv(s) && Enabled(s, e) && (e.Submit? || e.Cancel? || e.Close?)
    ensures LeftAlone(s, After(s, e))
  {
    hide Indexed, Outcomes, Accounted;
  }

  lemma RepliesLeaveAlone(s: System, reply: Reply, next: Pc)
    requires Inv(s) && !s.pc.Idle?
    ensures LeftAlone(s, Replied(s, s.pc.id, reply, next))
  {
    hide Indexed, Outcomes, QueueWaits, Accounted;
  }

  lemma FinishLeavesAlone(s: System)
    requires Inv(s) && s.pc.Ending?
    ensures LeftAlone(s, After(s, Finish))
  {
    hide Indexed, Outcomes, QueueWaits, Accounted;
  }

  /** A job is left behind in one way only: its cancellation arrives after raise_if_cancelled has let it through and
      before planning starts. */
  lemma LeftOnlyBeforePlanning(s: System, e: Event)
    requires Inv(s) && Enabled(s, e)
    ensures Left(After(s, e)) == Left(s)
         + (if e.BeginPlanning? && s.store.jobs[s.pc.id].token && !s.store.jobs[s.pc.id].request.recognizeOnly
            then {s.pc.id} else {})
  {
    hide Indexed, Outcomes, QueueWaits, Accounted, AbandonedStuck, Left;
    if e.Begin? {
      LeftByEntering(s, Recognizing, InRecognition(s.pc.id));
    } else if e.BeginPlanning? && !s.store.jobs[s.pc.id].request.recognizeOnly {
      LeftByEntering(s, Planning, InPlanning(s.pc.id));
    } else {
      OthersLeaveAlone(s, e);
      LeftStays(s, After(s, e));
    }
  }

  lemma OthersLeaveAlone(s: System, e: Event)
    requires Inv(s) && Enabled(s, e) && !e.Begin?
    requires e.BeginPlanning? ==> s.store.jobs[s.pc.id].request.recognizeOnly
    ensures LeftAlone(s, After(s, e))
  {
    hide Indexed, Outcomes, QueueWaits, Accounted;
    match e
    case BeginPlanning(reply) => RepliesLeaveAlone(s, reply, Idle);
    case RecognitionReturns(reply) => RepliesLeaveAlone(s, reply, Recognized(s.pc.id));
    case PlanningReturns(reply) => RepliesLeaveAlone(s, reply, Idle);
    case Finish => FinishLeavesAlone(s);
    case Take =>
    case LookForCancel =>
    case _ => OutsideLeavesAlone(s, e);
  }

  lemma LeftByEntering(s: System, stage: Status, next: Pc)
    requires Inv(s)
    requires (s.pc.Taken? && stage == Recognizing && next == InRecognition(s.pc.id))
          || (s.pc.Unstopped? && stage == Planning && next == InPlanning(s.pc.id))
    ensures !s.pc.Idle? && Left(Enter(s, s.pc.id, stage, next)) == Left(s)
         + (if s.pc.Unstopped? && s.store.jobs[s.pc.id].token then {s.pc.id} else {})
  {
  }

  // A run with two active jobs

  function Plot(first: Request, second: Request): seq<Event> {
    [Submit(first, 0), Take, Begin, RecognitionReturns(Good(0)), LookForCancel, Cancel(0), BeginPlanning(Good(0)),
     Submit(second, 1), Take, Begin]
  }

  function One(first: Request, status: Status, token: bool, queue: seq<nat>, active: Option<nat>, pc: Pc,
               gone: set<nat>): System {
    System(Store(map[0 := Job(first, status, None, None, token)], map[first.id := 0], queue, active, false), pc, gone)
  }

  function Two(first: Request, second: Request, status: Status, queue: seq<nat>, active: nat, pc: Pc): System {
    System(Store(map[0 := Job(first, Recognizing, None, None, true), 1 := Job(second, status, None, None, false)],
                 map[first.id := 0, second.id := 1], queue, Some(active), false), pc, {0})
  }

  function Scene(first: Request, second: Request, k: nat): System {
    match k
    case 0 => START
    case 1 => One(first, Queued, false, [0], None, Idle, {})
    case 2 => One(first, Queued, false, [], Some(0), Taken(0), {})
    case 3 => One(first, Recognizing, false, [], Some(0), InRecognition(0), {})
    case 4 => One(first, Recognizing, false, [], Some(0), Recognized(0), {})
    case 5 => One(first, Recognizing, false, [], Some(0), Unstopped(0), {})
    case 6 => One(first, Recognizing, true, [], Some(0), Unstopped(0), {})
    case 7 => One(first, Recognizing, true, [], Some(0), Idle, {0})
    case 8 => Two(first, second, Queued, [1], 0, Idle)
    case 9 => Two(first, second, Queued, [], 1, Taken(1))
    case _ => Two(first, second, Recognizing, [], 1, InRecognition(1))
  }

  ghost predicate Follows(first: Request, second: Request, k: nat)
    requires k < 10 && Inv(Scene(first, second, k))
  {
    && Enabled(Scene(first, second, k), Plot(first, second)[k])
    && After(Scene(first, second, k), Plot(first, second)[k]) == Scene(first, second, k + 1)
  }

  lemma FirstScenes(first: Request, second: Request, k: nat)
    requires k < 4 && Inv(Scene(first, second, k))
    ensures Follows(first, second, k)
  {
  }

  lemma MiddleScenes(first: Request, second: Request, k: nat)
    requires !first.recognizeOnly && 4 <= k < 7 && Inv(Scene(first, second, k))
    ensures Follows(first, second, k)
  {
  }

  lemma SecondSubmitted(first: Request, second: Request)
    requires first.id != second.id && Inv(Scene(first, second, 7))
    ensures Follows(first, second, 7)
  {
    assert Submitted(One(first, Recognizing, true, [], Some(0), Idle, {0}).store, second, 1)
        == Two(first, second, Queued, [1], 0, Idle).store;
  }

  lemma SecondTaken(first: Request, second: Request)
    requires first.id != second.id && Inv(Scene(first, second, 8))
    ensures Follows(first, second, 8)
  {
    assert [1][1..] == [];
  }

  lemma SecondBegins(first: Request, second: Request)
    requires first.id != second.id && Inv(Scene(first, second, 9))
    ensures Follows(first, second, 9)
  {
  }

  lemma {:induction false} Precede(s: System, plot: seq<Event>, k: nat, next: System, t: System)
    requires k < |plot| && Inv(s) && Enabled(s, plot[k]) && After(s, plot[k]) == next
    requires Inv(next) && Run(next, plot[k + 1..], t)
    ensures Run(s, plot[k..], t)
  {
    assert plot[k..][1..] == plot[k + 1..];
  }

  lemma Kept(s: System, e: Event, next: System)
    requires Inv(s) && Enabled(s, e) && After(s, e) == next
    ensures Inv(next)
  {
    StepKeeps(s, e);
  }

  lemma {:induction false} ScenesRun(first: Request, second: Request, k: nat, s: System, plot: seq<Event>, t: System)
    requires first.id != second.id && !first.recognizeOnly && k <= 10 && s == Scene(first, second, k) && Inv(s)
    requires plot == Plot(first, second) && t == Scene(first, second, 10)
    ensures Run(s, plot[k..], t)
    decreases 10 - k
  {
    hide Scene, Indexed, Outcomes, QueueWaits, Accounted, AbandonedStuck, ActiveFits, After, Enabled;
    if k < 10 {
      var next := Scene(first, second, k + 1);
      if k < 4 {
        FirstScenes(first, second, k);
      } else if k < 7 {
        MiddleScenes(first, second, k);
      } else if k == 7 {
        SecondSubmitted(first, second);
      } else if k == 8 {
        SecondTaken(first, second);
      } else {
        SecondBegins(first, second);
      }
      assert Follows(first, second, k);
      Kept(s, plot[k], next);
      ScenesRun(first, second, k + 1, next, plot, t);
      Precede(s, plot, k, next, t);
    }
  }

  /** Two jobs are shown as active at once: the first was cancelled in that window and is left in "recognizing". */
  lemma TwoActive(first: Request, second: Request)
    requires first.id != second.id && !first.recognizeOnly
    ensures Inv(START)
    ensures exists events, t :: Run(START, events, t) && |Active(t)| == 2
  {
    StartFits();
    var t := Scene(first, second, 10);
    ScenesRun(first, second, 0, START, Plot(first, second), t);
    assert Plot(first, second)[0..] == Plot(first, second);
    assert Active(t) == {0, 1};
    assert Run(START, Plot(first, second), t);
  }
}
