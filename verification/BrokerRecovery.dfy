/** What recovery gives back when the broker that claimed a job dies, and what it cannot give back. */
module BrokerRecovery {
  import opened Results
  import opened BrokerClaims

  // What is lost

  lemma {:induction false} StrandedRun(s: Job, events: seq<Event>, t: Job)
    requires Inv(s) && Stranded(s) && Run(s, events, t) && Consume !in events
    ensures Launches(events) == 0 && !t.queued
    decreases |events|
  {
    if events != [] {
      var next := After(s, events[0]);
      assert StepSound(s, events[0], next) by { StepKeeps(s, events[0]); }
      StrandedRun(next, events[1..], t);
    }
  }

  lemma {:induction false} JammedRun(s: Job, events: seq<Event>, t: Job)
    requires Inv(s) && Jammed(s) && Run(s, events, t) && Consume !in events
    ensures Launches(events) == 0
    decreases |events|
  {
    if events != [] {
      var next := After(s, events[0]);
      assert StepSound(s, events[0], next) by { StepKeeps(s, events[0]); }
      JammedRun(next, events[1..], t);
    }
  }

  /** The broker that holds the claim, alone past the lock, dies. */
  lemma AfterCrash(s: Job, b: nat)
    requires Inv(s) && s.phase == Fresh && Busy(At(s, b))
    ensures Enabled(s, Crash(b)) && Inv(After(s, Crash(b)))
    ensures After(s, Crash(b)).lock == s.lock != NoLock && s.lock.owner == b && At(After(s, Crash(b)), b).Dead?
    ensures NoneHolding(After(s, Crash(b)))
  {
    assert StepSound(s, Crash(b), After(s, Crash(b))) by { CrashKeeps(s, b); }
    OthersStay(s, After(s, Crash(b)), b);
    forall c: nat ensures !At(After(s, Crash(b)), c).Holding? {
      if c != b {
        assert Busy(At(s, c)) ==> Owns(s, c);
      }
    }
  }

  /** A broker that dies between unlinking queued.json and starting the recognizer takes the right with it: whatever
      the others do, recovery included, the job is not launched while the host waits for it. */
  lemma {:induction false} CrashedClaimIsLost(events: seq<Event>, s: Job, b: nat, later: seq<Event>, t: Job)
    requires Run(START, events, s) && s.phase == Fresh && At(s, b).Holding?
    requires Run(After(s, Crash(b)), later, t) && Consume !in later
    ensures Launches(later) == 0 && !t.queued
  {
    RunKeeps(START, events, s);
    AfterCrash(s, b);
    StrandedRun(After(s, Crash(b)), later, t);
  }

  /** So does a broker that dies between creating claim.lock and writing it, although queued.json is still there:
      nobody can read the lock, and nobody can create it. */
  lemma {:induction false} EmptyLockIsLost(events: seq<Event>, s: Job, b: nat, later: seq<Event>, t: Job)
    requires Run(START, events, s) && s.phase == Fresh && s.lock == Opened(b) && Busy(At(s, b))
    requires Run(After(s, Crash(b)), later, t) && Consume !in later
    ensures Launches(later) == 0
  {
    RunKeeps(START, events, s);
    AfterCrash(s, b);
    JammedRun(After(s, Crash(b)), later, t);
  }

  // What is given back

  /** A run without a launch, before the host consumes an outcome, leads from `s` to `t`. */
  ghost predicate Leads(s: Job, t: Job) {
    exists events :: Run(s, events, t) && Consume !in events && Launches(events) == 0
  }

  /** Some run launches the recognizer before the host consumes an outcome. */
  ghost predicate Launchable(s: Job) {
    exists later, t :: Run(s, later, t) && Consume !in later && Launches(later) == 1
  }

  lemma LeadsHere(s: Job)
    ensures Leads(s, s)
  {
    assert Run(s, [], s) && Consume !in [] && Launches([]) == 0;
  }

  lemma {:induction false} RunsOn(s: Job, events: seq<Event>, t: Job, e: Event)
    requires Run(s, events, t) && Enabled(t, e)
    ensures Run(s, events + [e], After(t, e))
    ensures Launches(events + [e]) == Launches(events) + (if e.Launch? then 1 else 0)
    decreases |events|
  {
    if events == [] {
      assert events + [e] == [e] && [e][1..] == [];
    } else {
      RunsOn(After(s, events[0]), events[1..], t, e);
      assert (events + [e])[1..] == events[1..] + [e];
    }
  }

  lemma LeadsOn(s: Job, t: Job, e: Event)
    requires Leads(s, t) && Enabled(t, e) && !e.Launch? && !e.Consume?
    ensures Leads(s, After(t, e))
  {
    var events :| Run(s, events, t) && Consume !in events && Launches(events) == 0;
    RunsOn(s, events, t, e);
    assert Consume !in events + [e];
  }

  lemma LeadsToLaunch(s: Job, t: Job, b: nat)
    requires Leads(s, t) && Enabled(t, Launch(b))
    ensures Launchable(s)
  {
    var events :| Run(s, events, t) && Consume !in events && Launches(events) == 0;
    RunsOn(s, events, t, Launch(b));
    assert Consume !in events + [Launch(b)];
  }

  /** The job waits in the queue, unclaimed and without any marker file. */
  predicate Waiting(s: Job) {
    s.phase == Fresh && s.dir && s.queued && s.lock == NoLock && s.claimed == None && Clean(s)
  }

  /** A waiting job still has queued.json, no file that stops recovery, and the same cancellation after a broker's
      step. */
  predicate Proceeding(s: Job, t: Job) {
    t.phase == Fresh && t.dir && t.queued && Clean(t) && t.cancel == s.cancel
  }

  lemma Passes(s: Job, t: Job, b: nat) returns (u: Job)
    requires Leads(s, t) && Waiting(t) && At(t, b).Seen? && At(t, b).passed <= 5
    ensures Leads(s, u) && Waiting(u) && At(u, b) == Seen(5) && u.cancel == t.cancel
    decreases 5 - At(t, b).passed
  {
    if At(t, b).passed == 5 {
      u := t;
    } else {
      LeadsOn(s, t, Check(b));
      u := Passes(s, After(t, Check(b)), b);
    }
  }

  lemma Opens(s: Job, t: Job, b: nat) returns (u: Job)
    requires Leads(s, t) && Waiting(t) && At(t, b) == Idle
    ensures Leads(s, u) && Proceeding(t, u) && At(u, b) == Opening && u.lock == Opened(b)
  {
    LeadsOn(s, t, See(b));
    u := Passes(s, After(t, See(b)), b);
    LeadsOn(s, u, Open(b));
    u := After(u, Open(b));
  }

  lemma Reads(s: Job, t: Job, b: nat) returns (u: Job)
    requires Leads(s, t) && Proceeding(t, t) && At(t, b) == Opening && t.lock == Opened(b)
    ensures Leads(s, u) && Proceeding(t, u) && At(u, b) == Loaded && u.lock == Held(b)
  {
    LeadsOn(s, t, WriteLock(b));
    u := After(t, WriteLock(b));
    LeadsOn(s, u, Load(b, true));
    u := After(u, Load(b, true));
  }

  lemma Unlinks(s: Job, t: Job, b: nat) returns (u: Job)
    requires Leads(s, t) && Proceeding(t, t) && At(t, b) == Loaded
    ensures Leads(s, u) && u.phase == Fresh && Clean(u) && u.cancel == t.cancel && At(u, b) == Holding(0)
  {
    LeadsOn(s, t, Mark(b));
    u := After(t, Mark(b));
    LeadsOn(s, u, Unlink(b));
    u := After(u, Unlink(b));
  }

  lemma Starts(s: Job, t: Job, b: nat)
    requires Leads(s, t) && At(t, b).Holding? && At(t, b).passed <= 2 && !t.cancel
    ensures Launchable(s)
    decreases 2 - At(t, b).passed
  {
    if At(t, b).passed == 2 {
      LeadsToLaunch(s, t, b);
    } else {
      LeadsOn(s, t, CheckCancel(b));
      Starts(s, After(t, CheckCancel(b)), b);
    }
  }

  ghost predicate Reached(s: Job) {
    Leads(START, s) && s.phase == Fresh && Clean(s) && !s.cancel && Busy(At(s, 0))
  }

  /** Each way to lose the job occurs, and so does a claim that recovery gives back. */
  lemma ClaimsReached() returns (empty: Job, written: Job, holding: Job)
    ensures Reached(empty) && empty.queued && empty.lock == Opened(0)
    ensures Reached(written) && written.queued && written.lock == Held(0)
    ensures Reached(holding) && At(holding, 0).Holding?
  {
    LeadsHere(START);
    empty := Opens(START, START, 0);
    written := Reads(START, empty, 0);
    holding := Unlinks(START, written, 0);
  }

  /** Broker numbers never run out. */
  lemma NewBroker(pcs: map<nat, Pc>) returns (c: nat)
    ensures c !in pcs
  {
    c := Above(pcs.Keys);
  }

  lemma Above(keys: set<nat>) returns (c: nat)
    ensures c !in keys && forall k :: k in keys ==> k < c
    decreases |keys|
  {
    if keys == {} {
      c := 0;
    } else {
      var k :| k in keys;
      var d := Above(keys - {k});
      c := if k < d then d else k + 1;
      assert forall j :: j in keys ==> j == k || j in keys - {k};
    }
  }

  /** A dead owner recovery can read, and queued.json still there: another broker recovers the job and launches it. */
  lemma RecoveredJobIsLaunched(s: Job, b: nat)
    requires s.phase == Fresh && s.dir && s.queued && Clean(s) && !s.cancel && s.lock == Held(b) && At(s, b).Dead?
    ensures Launchable(s)
  {
    var c := NewBroker(s.pcs);
    LeadsHere(s);
    LeadsOn(s, s, Recover(c, true));
    var recovered := After(s, Recover(c, true));
    var opening := Opens(s, recovered, c);
    var loaded := Reads(s, opening, c);
    var holding := Unlinks(s, loaded, c);
    Starts(s, holding, c);
  }

  /** When the owner of a claim dies, the job can still be launched while the host waits if and only if queued.json is
      still there and claim.lock has been written, and neither an outcome nor a cancellation has come. */
  lemma {:induction false} CrashExactly(events: seq<Event>, s: Job, b: nat)
    requires Run(START, events, s) && s.phase == Fresh && Busy(At(s, b))
    ensures Launchable(After(s, Crash(b))) <==> s.queued && !s.lock.Opened? && Clean(s) && !s.cancel
  {
    RunKeeps(START, events, s);
    AfterCrash(s, b);
    var next := After(s, Crash(b));
    if s.queued && !s.lock.Opened? && Clean(s) && !s.cancel {
      RecoveredJobIsLaunched(next, b);
    } else {
      forall later, t | Run(next, later, t) && Consume !in later ensures Launches(later) == 0 {
        NeverLaunched(next, later, t);
      }
    }
  }

  lemma {:induction false} NeverLaunched(s: Job, later: seq<Event>, t: Job)
    requires Inv(s) && s.phase == Fresh && NoneHolding(s) && s.lock != NoLock && At(s, s.lock.owner).Dead?
    requires !s.queued || s.lock.Opened? || !Clean(s) || s.cancel
    requires Run(s, later, t) && Consume !in later
    ensures Launches(later) == 0
  {
    if !s.queued {
      StrandedRun(s, later, t);
    } else if s.cancel {
      CancelledRun(s, later, t);
    } else {
      JammedRun(s, later, t);
    }
  }
}
