/** The control server's job store: one queued job, one job handed to the coordinator, requests identified for ever. */
module ControlJobs {
  import opened Results

  /** A request payload; two payloads are equal exactly when their canonical JSON is. */
  datatype Request = Request(id: string, recognizeOnly: bool, body: string)

  datatype Status = Queued | Recognizing | Planning | Completed | Failed | Cancelled

  datatype Job = Job(request: Request, status: Status, result: Option<nat>, error: Option<string>, token: bool)

  datatype Store = Store(jobs: map<nat, Job>, index: map<string, nat>, queue: seq<nat>, active: Option<nat>,
      closed: bool)

  const EMPTY := Store(map[], map[], [], None, false)

  datatype Refusal = RequestIdReuse | NotRunning | Rejected

  predicate Terminal(status: Status) { status in {Completed, Failed, Cancelled} }

  predicate Running(status: Status) { status in {Recognizing, Planning} }

  /** Every id the store keeps names a job. */
  ghost predicate Closed(s: Store) {
    && (forall r :: r in s.index ==> s.index[r] in s.jobs)
    && (forall id :: id in s.queue ==> id in s.jobs)
  }

  // What each operation does to the store

  function SubmitAnswer(s: Store, request: Request, newId: nat): Result<(nat, bool), Refusal>
    requires request.id in s.index ==> s.index[request.id] in s.jobs
  {
    if request.id in s.index then
      if s.jobs[s.index[request.id]].request == request then Success((s.index[request.id], true))
          else Failure(RequestIdReuse)
    else if s.closed then Failure(NotRunning)
    else if |s.queue| >= 1 then Failure(Rejected)
    else Success((newId, false))
  }

  function Submitted(s: Store, request: Request, newId: nat): Store {
    if request.id in s.index || s.closed || |s.queue| >= 1 then s
    else s.(jobs := s.jobs[newId := Job(request, Queued, None, None, false)],
            index := s.index[request.id := newId], queue := s.queue + [newId])
  }

  function TakenJob(s: Store): Option<nat>
    requires s.queue != [] ==> s.queue[0] in s.jobs
  {
    if s.closed || s.queue == [] || s.jobs[s.queue[0]].status == Cancelled then None else Some(s.queue[0])
  }

  function Taken(s: Store): Store
    requires s.queue != [] ==> s.queue[0] in s.jobs
  {
    if s.closed || s.queue == [] then s else s.(queue := s.queue[1..], active := TakenJob(s))
  }

  function Stopped(job: Job): Job { job.(status := Cancelled, token := true) }

  function Without(queue: seq<nat>, id: nat): seq<nat> {
    if queue == [] then [] else (if queue[0] == id then [] else [queue[0]]) + Without(queue[1..], id)
  }

  function CancelledIn(s: Store, id: nat): Store {
    if id !in s.jobs || Terminal(s.jobs[id].status) then s
    else if s.jobs[id].status == Queued
        then s.(jobs := s.jobs[id := Stopped(s.jobs[id])], queue := Without(s.queue, id))
    else s.(jobs := s.jobs[id := s.jobs[id].(token := true)])
  }

  predicate MayRun(job: Job) { !job.token && job.status != Cancelled }

  function RunningIn(s: Store, id: nat, stage: Status): Store
    requires id in s.jobs
  {
    if MayRun(s.jobs[id]) then s.(jobs := s.jobs[id := s.jobs[id].(status := stage)]) else s
  }

  function FinishedJob(job: Job, result: Option<nat>, error: Option<string>): Job {
    if job.token || error == Some("PIPELINE_CANCELLED") then job.(status := Cancelled)
    else if error.Some? then job.(status := Failed, error := error)
    else job.(status := Completed, result := result)
  }

  function FinishedIn(s: Store, id: nat, result: Option<nat>, error: Option<string>): Store
    requires id in s.jobs
  {
    s.(jobs := s.jobs[id := FinishedJob(s.jobs[id], result, error)],
       active := if s.active == Some(id) then None else s.active)
  }

  /** Every job that still waits is cancelled. */
  function StopAll(jobs: map<nat, Job>, queue: seq<nat>): map<nat, Job> {
    map id | id in jobs :: if id in queue then Stopped(jobs[id]) else jobs[id]
  }

  function TokenSet(jobs: map<nat, Job>, active: Option<nat>): map<nat, Job> {
    if active.Some? && active.value in jobs then jobs[active.value := jobs[active.value].(token := true)] else jobs
  }

  function ClosedStore(s: Store): Store {
    s.(jobs := TokenSet(StopAll(s.jobs, s.queue), s.active), queue := [], closed := true)
  }

  /** The store object; every method runs under its lock, so as one step. */
  class JobStore {
    var jobs: map<nat, Job>
    var index: map<string, nat>
    var queue: seq<nat>
    var active: Option<nat>
    var closed: bool

    ghost function View(): Store
      reads this
    {
      Store(jobs, index, queue, active, closed)
    }

    constructor ()
      ensures View() == EMPTY
    {
      jobs, index, queue, active, closed := map[], map[], [], None, false;
    }

    /** `newId` is the new random job id. */
    method Submit(request: Request, newId: nat) returns (answer: Result<(nat, bool), Refusal>)
      requires Closed(View()) && newId !in jobs
      modifies this
      ensures answer == SubmitAnswer(old(View()), request, newId)
      ensures View() == Submitted(old(View()), request, newId)
      ensures Closed(View())
    {
      if request.id in index {
        var existing := index[request.id];
        if jobs[existing].request != request {
          return Failure(RequestIdReuse);
        }
        return Success((existing, true));
      }
      if closed {
        return Failure(NotRunning);
      }
      if |queue| >= 1 {
        return Failure(Rejected);
      }
      jobs := jobs[newId := Job(request, Queued, None, None, false)];
      index := index[request.id := newId];
      queue := queue + [newId];
      return Success((newId, false));
    }

    method TakeNext() returns (job: Option<nat>)
      requires Closed(View())
      modifies this
      ensures job == TakenJob(old(View())) && View() == Taken(old(View()))
      ensures Closed(View())
    {
      if closed || queue == [] {
        return None;
      }
      var id := queue[0];
      queue := queue[1..];
      active := Some(id);
      if jobs[id].status == Cancelled {
        active := None;
        return None;
      }
      return Some(id);
    }

    method Cancel(id: nat) returns (known: bool)
      requires Closed(View())
      modifies this
      ensures known == (id in old(jobs)) && View() == CancelledIn(old(View()), id)
      ensures Closed(View())
    {
      if id !in jobs {
        return false;
      }
      if Terminal(jobs[id].status) {
        return true;
      }
      jobs := jobs[id := jobs[id].(token := true)];
      if jobs[id].status == Queued {
        var kept := [];
        var k := 0;
        while k < |queue|
          invariant 0 <= k <= |queue|
          invariant kept + Without(queue[k..], id) == Without(queue, id)
        {
          if queue[k] != id {
            kept := kept + [queue[k]];
          }
          k := k + 1;
        }
        WithoutKeeps(queue, id);
        assert kept == Without(queue, id);
        queue := kept;
        jobs := jobs[id := jobs[id].(status := Cancelled)];
      }
      return true;
    }

    method SetRunning(id: nat, stage: Status) returns (ok: bool)
      requires Closed(View()) && id in jobs
      modifies this`jobs
      ensures ok == MayRun(old(jobs)[id]) && View() == RunningIn(old(View()), id, stage)
      ensures Closed(View())
    {
      if jobs[id].token || jobs[id].status == Cancelled {
        return false;
      }
      jobs := jobs[id := jobs[id].(status := stage)];
      return true;
    }

    method Finish(id: nat, result: Option<nat>, error: Option<string>)
      requires Closed(View()) && id in jobs
      modifies this
      ensures View() == FinishedIn(old(View()), id, result, error)
      ensures Closed(View())
    {
      if jobs[id].token || error == Some("PIPELINE_CANCELLED") {
        jobs := jobs[id := jobs[id].(status := Cancelled)];
      } else if error.Some? {
        jobs := jobs[id := jobs[id].(status := Failed, error := error)];
      } else {
        jobs := jobs[id := jobs[id].(status := Completed, result := result)];
      }
      if active == Some(id) {
        active := None;
      }
    }

    method Close()
      requires Closed(View())
      modifies this
      ensures View() == ClosedStore(old(View()))
      ensures Closed(View())
    {
      closed := true;
      var k := 0;
      while k < |queue|
        invariant 0 <= k <= |queue|
        invariant queue == old(queue) && index == old(index) && active == old(active) && closed
        invariant jobs == StopAll(old(jobs), queue[..k])
      {
        var id := queue[k];
        assert queue[..k + 1] == queue[..k] + [id];
        jobs := jobs[id := jobs[id].(token := true, status := Cancelled)];
        k := k + 1;
      }
      assert queue[..k] == queue;
      queue := [];
      if active.Some? && active.value in jobs {
        jobs := jobs[active.value := jobs[active.value].(token := true)];
      }
    }
  }

  lemma {:induction false} WithoutKeeps(queue: seq<nat>, id: nat)
    ensures forall x :: x in Without(queue, id) <==> x in queue && x != id
    ensures |Without(queue, id)| <= |queue|
  {
    if queue != [] {
      WithoutKeeps(queue[1..], id);
      assert queue == [queue[0]] + queue[1..];
    }
  }
}
