/** What becomes of a job of the control server: how it enters, what ends it, what a cancellation and a shutdown do. */
module ControlOutcomes {
  import opened Results
  import opened ControlJobs
  import opened ControlCoordinator

  ghost predicate Reachable(s: System) {
    Inv(START) && exists events :: Run(START, events, s)
  }

  lemma ReachableFits(s: System)
    requires Reachable(s)
    ensures Inv(s)
  {
    var events :| Run(START, events, s);
    RunSound(START, events, s);
  }

  /** All other jobs are as they were. */
  ghost predicate OthersSame(s: System, t: System, id: nat) {
    forall other :: other != id ==>
      (other in t.store.jobs <==> other in s.store.jobs)
      && (other in s.store.jobs ==> t.store.jobs[other] == s.store.jobs[other])
  }

  // ---------------------------------------------------------------- entering

  /** A new request is accepted if and only if the server is open and nothing waits; then it waits, and nothing else
      changes.  Otherwise nothing changes, and the answer says why. */
  lemma SubmitExactly(s: System, request: Request, newId: nat)
    requires Reachable(s) && newId !in s.store.jobs
    ensures Closed(s.store) && Current(s.pc) <= s.store.jobs.Keys
    ensures var answer, t := SubmitAnswer(s.store, request, newId), After(s, Submit(request, newId));
            if request.id !in s.store.index && !s.store.closed && s.store.queue == [] then
              && answer == Success((newId, false)) && t.store.queue == [newId] && t.pc == s.pc
              && newId in t.store.jobs && t.store.jobs[newId] == Job(request, Queued, None, None, false)
              && request.id in t.store.index && t.store.index[request.id] == newId && OthersSame(s, t, newId)
            else
              && t == s
              && (request.id !in s.store.index ==>
                    answer == if s.store.closed then Failure(NotRunning) else Failure(Rejected))
              && (request.id in s.store.index ==>
                    && s.store.index[request.id] in s.store.jobs
                    && answer == if s.store.jobs[s.store.index[request.id]].request == request
                                 then Success((s.store.index[request.id], true)) else Failure(RequestIdReuse))
  {
    hide Reachable, Indexed, Outcomes, Accounted, AbandonedStuck;
    ReachableFits(s);
  }

  // ---------------------------------------------------------------- ending

  /** Ending a job: cancelled when its token is set or the pipeline says so, else failed with the error, else completed
      with the result; no other job is touched. */
  lemma FinishExactly(s: System)
    requires Reachable(s) && s.pc.Ending?
    ensures Closed(s.store) && Current(s.pc) <= s.store.jobs.Keys
    ensures var t, id := After(s, Finish), s.pc.id;
            && t.pc == Idle && t.store.active == None && OthersSame(s, t, id) && id in t.store.jobs
            && var job := t.store.jobs[id];
               if s.store.jobs[id].token || s.pc.error == Some("PIPELINE_CANCELLED")
               then job.status == Cancelled && job.result == None && job.error == None
               else if s.pc.error.Some? then job.status == Failed && job.error == s.pc.error && job.result == None
               else job.status == Completed && job.result == s.pc.result && job.error == None
  {
    hide Reachable;
    ReachableFits(s);
    OutcomeOf(s, s.pc.id);
  }

  /** What a stage returns and what the coordinator then ends with. */
  lemma StagesExactly(s: System, reply: Reply)
    requires Reachable(s)
    ensures Closed(s.store) && Current(s.pc) <= s.store.jobs.Keys
    ensures s.pc.InRecognition? ==>
              var t := After(s, RecognitionReturns(reply));
              && (reply.Good? ==> t == s.(pc := Recognized(s.pc.id)))
              && (reply.Bad? ==> t == s.(pc := Ending(s.pc.id, None, Some(reply.error))))
    ensures s.pc.Recognized? ==>
              After(s, LookForCancel) == s.(pc := if s.store.jobs[s.pc.id].token
                                                  then Ending(s.pc.id, None, Some("PIPELINE_CANCELLED"))
                                                  else Unstopped(s.pc.id))
    ensures s.pc.Unstopped? && s.store.jobs[s.pc.id].request.recognizeOnly ==>
              var t := After(s, BeginPlanning(reply));
              && (reply.Good? ==> t == s.(pc := Ending(s.pc.id, Some(reply.value), None)))
              && (reply.Bad? ==> t == s.(pc := Ending(s.pc.id, None, Some(reply.error))))
    ensures s.pc.InPlanning? ==>
              var t := After(s, PlanningReturns(reply));
              && (reply.Good? ==> t == s.(pc := Ending(s.pc.id, Some(reply.value), None)))
              && (reply.Bad? ==> t == s.(pc := Ending(s.pc.id, None, Some(reply.error))))
  {
    hide Reachable;
    ReachableFits(s);
  }

  // ---------------------------------------------------------------- a job nobody disturbs

  function Stages(job: Request, recognition: Reply, planning: Reply): seq<Event> {
    if !recognition.Good? then [Take, Begin, RecognitionReturns(recognition), Finish]
    else if job.recognizeOnly then
      [Take, Begin, RecognitionReturns(recognition), LookForCancel, BeginPlanning(planning), Finish]
    else
      [Take, Begin, RecognitionReturns(recognition), LookForCancel, BeginPlanning(planning),
       PlanningReturns(planning), Finish]
  }

  ghost predicate RunsTo(s: System, events: seq<Event>, t: System) {
    Inv(s) && Run(s, events, t)
  }

  lemma OneStep(s: System, e: Event, events: seq<Event>, t: System)
    requires Inv(s) && Enabled(s, e) && RunsTo(After(s, e), events, t)
    ensures RunsTo(s, [e] + events, t)
  {
    assert ([e] + events)[1..] == events;
  }

  /** A waiting job under an idle coordinator. */
  ghost predicate Waits(s: System, id: nat) {
    Inv(s) && s.pc == Idle && s.store.queue == [id] && id in s.store.jobs
  }

  /** The job in the hands of the coordinator, not cancelled. */
  ghost predicate Held(s: System, id: nat, request: Request, pc: Pc) {
    && Inv(s) && s.pc == pc && pc != Idle && pc.id == id && id in s.store.jobs
    && s.store.jobs[id].request == request && !s.store.jobs[id].token && s.store.jobs[id].status != Cancelled
  }

  lemma TakesAndBegins(s: System, id: nat)
    requires Waits(s, id)
    ensures Enabled(s, Take) && Held(After(s, Take), id, s.store.jobs[id].request, ControlCoordinator.Taken(id))
    ensures var next := After(s, Take);
            Enabled(next, Begin) && Held(After(next, Begin), id, s.store.jobs[id].request, InRecognition(id))
  {
    hide Indexed, Outcomes, Accounted, AbandonedStuck;
    QueuedOpen(s);
    StepKeeps(s, Take);
    StepKeeps(After(s, Take), Begin);
  }

  lemma QueuedOpen(s: System)
    requires Inv(s) && s.store.queue != []
    ensures !s.store.closed && s.store.jobs[s.store.queue[0]].status == Queued && !s.store.jobs[s.store.queue[0]].token
  {
  }

  lemma Recognizes(s: System, id: nat, request: Request, reply: Reply)
    requires Held(s, id, request, InRecognition(id)) && !reply.Timeout?
    ensures Enabled(s, RecognitionReturns(reply))
    ensures Held(After(s, RecognitionReturns(reply)), id, request,
                 if reply.Good? then Recognized(id) else Ending(id, None, Some(reply.error)))
  {
    hide Indexed, Outcomes, Accounted, AbandonedStuck, QueueWaits, ActiveFits;
    StepKeeps(s, RecognitionReturns(reply));
  }

  lemma Looks(s: System, id: nat, request: Request)
    requires Held(s, id, request, Recognized(id))
    ensures Enabled(s, LookForCancel) && Held(After(s, LookForCancel), id, request, Unstopped(id))
  {
    hide Indexed, Outcomes, Accounted, AbandonedStuck, QueueWaits, ActiveFits;
    StepKeeps(s, LookForCancel);
  }

  function Planned(id: nat, reply: Reply): Pc
    requires !reply.Timeout?
  {
    if reply.Good? then Ending(id, Some(reply.value), None) else Ending(id, None, Some(reply.error))
  }

  lemma Plans(s: System, id: nat, request: Request, reply: Reply)
    requires Held(s, id, request, Unstopped(id)) && !reply.Timeout?
    ensures Enabled(s, BeginPlanning(reply))
    ensures Held(After(s, BeginPlanning(reply)), id, request,
                 if request.recognizeOnly then Planned(id, reply) else InPlanning(id))
    ensures !request.recognizeOnly ==>
              var next := After(s, BeginPlanning(reply));
              && Enabled(next, PlanningReturns(reply))
              && Held(After(next, PlanningReturns(reply)), id, request, Planned(id, reply))
  {
    hide Indexed, Outcomes, Accounted, AbandonedStuck, QueueWaits, ActiveFits;
    StepKeeps(s, BeginPlanning(reply));
    if !request.recognizeOnly {
      StepKeeps(After(s, BeginPlanning(reply)), PlanningReturns(reply));
    }
  }

  /** How such a job ends. */
  ghost predicate EndsWith(t: System, id: nat, recognition: Reply, planning: Reply)
    requires !recognition.Timeout? && !planning.Timeout?
  {
    && id in t.store.jobs
    && var job, error := t.store.jobs[id], if recognition.Bad? then recognition else planning;
       if recognition.Good? && planning.Good? then job.status == Completed && job.result == Some(planning.value)
       else if error.error == "PIPELINE_CANCELLED" then job.status == Cancelled
       else job.status == Failed && job.error == Some(error.error)
  }

  lemma Ends(s: System, id: nat, request: Request, recognition: Reply, planning: Reply)
    requires !recognition.Timeout? && !planning.Timeout?
    requires Held(s, id, request, if recognition.Bad? then Ending(id, None, Some(recognition.error))
                                  else Planned(id, planning))
    ensures Enabled(s, Finish) && RunsTo(s, [Finish], After(s, Finish))
    ensures EndsWith(After(s, Finish), id, recognition, planning)
  {
    hide Indexed, Outcomes, Accounted, AbandonedStuck, QueueWaits, ActiveFits;
    StepKeeps(s, Finish);
    assert RunsTo(After(s, Finish), [], After(s, Finish));
    OneStep(s, Finish, [], After(s, Finish));
    assert [Finish] + [] == [Finish];
  }

  /** A waiting job that nobody cancels and whose stages return in time is completed with the planner's value, or fails
      with the first error a stage reports. */
  lemma UndisturbedJobEnds(s: System, id: nat, recognition: Reply, planning: Reply)
    requires Waits(s, id) && !recognition.Timeout? && !planning.Timeout?
    ensures exists t :: RunsTo(s, Stages(s.store.jobs[id].request, recognition, planning), t)
                        && EndsWith(t, id, recognition, planning)
  {
    hide Indexed, Outcomes, QueueWaits, Accounted, AbandonedStuck, ActiveFits, StageFits;
    hide After, Run, EndsWith, Held, Enabled, Waits;
    assert Inv(s) && id in s.store.jobs by { WaitsIs(s, id); }
    var request := s.store.jobs[id].request;
    TakesAndBegins(s, id);
    var taken := After(s, Take);
    HeldIs(taken, id, request, ControlCoordinator.Taken(id));
    var begun := After(taken, Begin);
    HeldIs(begun, id, request, InRecognition(id));
    Recognizes(begun, id, request, recognition);
    var recognized := After(begun, RecognitionReturns(recognition));
    HeldIs(recognized, id, request,
           if recognition.Good? then Recognized(id) else Ending(id, None, Some(recognition.error)));
    if recognition.Good? {
      var t := PlansAndEnds(recognized, id, request, recognition, planning);
      var events := Stages(request, recognition, planning);
      OneStep(begun, RecognitionReturns(recognition), events[3..], t);
      OneStep(taken, Begin, [RecognitionReturns(recognition)] + events[3..], t);
      OneStep(s, Take, [Begin] + ([RecognitionReturns(recognition)] + events[3..]), t);
      assert [Take] + ([Begin] + ([RecognitionReturns(recognition)] + events[3..])) == events;
    } else {
      Ends(recognized, id, request, recognition, planning);
      var t := After(recognized, Finish);
      OneStep(begun, RecognitionReturns(recognition), [Finish], t);
      OneStep(taken, Begin, [RecognitionReturns(recognition)] + [Finish], t);
      OneStep(s, Take, [Begin] + ([RecognitionReturns(recognition)] + [Finish]), t);
      assert [Take] + ([Begin] + ([RecognitionReturns(recognition)] + [Finish])) ==
             Stages(request, recognition, planning);
    }
  }

  lemma WaitsIs(s: System, id: nat)
    requires Waits(s, id)
    ensures Inv(s) && id in s.store.jobs
  {
  }

  lemma HeldIs(s: System, id: nat, request: Request, pc: Pc)
    requires Held(s, id, request, pc)
    ensures Inv(s) && Current(s.pc) <= s.store.jobs.Keys
  {
  }

  lemma PlansAndEnds(s: System, id: nat, request: Request, recognition: Reply, planning: Reply) returns (t: System)
    requires Held(s, id, request, Recognized(id)) && recognition.Good? && !planning.Timeout?
    ensures RunsTo(s, Stages(request, recognition, planning)[3..], t) && EndsWith(t, id, recognition, planning)
  {
    hide Indexed, Outcomes, QueueWaits, Accounted, AbandonedStuck, ActiveFits, StageFits;
    hide After, Run, EndsWith, Held, Enabled;
    HeldIs(s, id, request, Recognized(id));
    Looks(s, id, request);
    var looked := After(s, LookForCancel);
    HeldIs(looked, id, request, Unstopped(id));
    Plans(looked, id, request, planning);
    var planned := After(looked, BeginPlanning(planning));
    if request.recognizeOnly {
      HeldIs(planned, id, request, Planned(id, planning));
      Ends(planned, id, request, recognition, planning);
      t := After(planned, Finish);
      OneStep(looked, BeginPlanning(planning), [Finish], t);
      OneStep(s, LookForCancel, [BeginPlanning(planning)] + [Finish], t);
      assert [LookForCancel] + ([BeginPlanning(planning)] + [Finish]) == Stages(request, recognition, planning)[3..];
    } else {
      HeldIs(planned, id, request, InPlanning(id));
      var last := After(planned, PlanningReturns(planning));
      HeldIs(last, id, request, Planned(id, planning));
      Ends(last, id, request, recognition, planning);
      t := After(last, Finish);
      OneStep(planned, PlanningReturns(planning), [Finish], t);
      OneStep(looked, BeginPlanning(planning), [PlanningReturns(planning)] + [Finish], t);
      OneStep(s, LookForCancel, [BeginPlanning(planning)] + ([PlanningReturns(planning)] + [Finish]), t);
      assert [LookForCancel] + ([BeginPlanning(planning)] + ([PlanningReturns(planning)] + [Finish])) ==
             Stages(request, recognition, planning)[3..];
    }
  }

  // ---------------------------------------------------------------- cancelling

  /** A job with its token set is not completed and has not failed. */
  ghost predicate TokensHold(s: System) {
    forall id :: id in s.store.jobs && s.store.jobs[id].token ==> s.store.jobs[id].status !in {Completed, Failed}
  }

  lemma TokensStep(s: System, e: Event)
    requires Inv(s) && Enabled(s, e) && TokensHold(s)
    ensures TokensHold(After(s, e))
  {
    hide Indexed, Outcomes, Accounted, AbandonedStuck;
  }

  lemma TokenStays(s: System, e: Event, id: nat)
    requires Inv(s) && Enabled(s, e) && id in s.store.jobs && s.store.jobs[id].token
    ensures id in After(s, e).store.jobs && After(s, e).store.jobs[id].token
  {
    hide Indexed, Outcomes, Accounted, AbandonedStuck, ActiveFits;
  }

  lemma {:induction false} TokensRun(s: System, events: seq<Event>, t: System)
    requires Inv(s) && Run(s, events, t) && TokensHold(s)
    ensures TokensHold(t)
    ensures forall id :: id in s.store.jobs && s.store.jobs[id].token ==> id in t.store.jobs && t.store.jobs[id].token
    decreases |events|
  {
    hide Indexed, Outcomes, QueueWaits, Accounted, AbandonedStuck, ActiveFits, TokensHold;
    if events != [] {
      var next := After(s, events[0]);
      StepKeeps(s, events[0]);
      TokensStep(s, events[0]);
      forall id | id in s.store.jobs && s.store.jobs[id].token
        ensures id in next.store.jobs && next.store.jobs[id].token
      {
        TokenStays(s, events[0], id);
      }
      TokensRun(next, events[1..], t);
    }
  }

  /** A cancellation of an unfinished job takes: a waiting job is cancelled at once, and no job that was cancelled is
      ever shown as completed or failed, in any continuation. */
  lemma CancelTakes(before: seq<Event>, s: System, id: nat, events: seq<Event>, t: System)
    requires Inv(START) && Run(START, before, s) && id in s.store.jobs && !Terminal(s.store.jobs[id].status)
    requires Inv(s) && Inv(After(s, Cancel(id))) && Run(After(s, Cancel(id)), events, t)
    ensures id in t.store.jobs && t.store.jobs[id].status !in {Completed, Failed}
    ensures s.store.jobs[id].status == Queued && id in s.store.queue ==> t.store.jobs[id].status == Cancelled
  {
    hide Run;
    TokensRun(START, before, s);
    TokensStep(s, Cancel(id));
    TokensRun(After(s, Cancel(id)), events, t);
    RunSound(After(s, Cancel(id)), events, t);
    assert s.store.jobs[id].status == Queued ==> Settled(After(s, Cancel(id)), id);
  }

  // ---------------------------------------------------------------- closing

  /** Closing cancels what waits, tells the job that is executed, and refuses every later request. */
  lemma CloseExactly(s: System)
    requires Reachable(s)
    ensures Closed(s.store) && Current(s.pc) <= s.store.jobs.Keys
    ensures var t := After(s, Close);
            && t.store.closed && t.store.queue == [] && t.pc == s.pc && t.store.jobs.Keys == s.store.jobs.Keys
            && (forall id :: id in s.store.jobs ==>
                  t.store.jobs[id] ==
                  if id in s.store.queue then s.store.jobs[id].(status := Cancelled, token := true)
                  else if s.store.active == Some(id) then s.store.jobs[id].(token := true)
                  else s.store.jobs[id])
            && (forall request: Request, newId: nat :: request.id !in t.store.index ==>
                  SubmitAnswer(t.store, request, newId) == Failure(NotRunning))
  {
    hide Reachable, Indexed, Outcomes, Accounted, AbandonedStuck;
    ReachableFits(s);
    CloseQueue(s);
  }

  /** The job that waits is not the one that is executed. */
  lemma CloseQueue(s: System)
    requires Inv(s)
    ensures forall id :: id in s.store.queue && s.store.active == Some(id) ==> s.store.jobs[id].status == Queued
  {
  }
}
