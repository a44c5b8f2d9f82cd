/** The file-queue broker's claim protocol for one job directory: any number of broker processes, the recognizer and
    the host interleave at single file operations, and a broker may die between any two of them. */
module BrokerClaims {
  import opened Results

  /** claim.lock: created exclusively and empty, then filled with its owner's identity. */
  datatype Lock = NoLock | Opened(owner: nat) | Held(owner: nat)

  /** Where one broker stands with this job. */
  datatype Pc =
    | Idle
    | Seen(passed: nat)        // queued.json was listed; `passed` of the five marker files were found absent
    | Opening                  // claim.lock created, not yet written
    | Locked                   // claim.lock written
    | Loaded                   // queued.json and request.json read and valid
    | Marked                   // claimed.json written
    | Holding(passed: nat)     // queued.json unlinked by this broker; `passed` cancel checks found nothing
    | Running                  // recognizer started
    | Finishing                // about to write finished.json after the recognizer's own file
    | CancelCheck | CancelError | CancelFinish
    | FailCheck | FailError | FailFinish | FailRelease
    | Dead

  /** How far the host is with the job: it consumes the outcome, and removes the files, once.  `orphan` is the owner of
      the lock that was removed under it; Requeued is the state after a recovery wrote queued.json again. */
  datatype Phase = Fresh | Consumed(orphan: Option<nat>) | Requeued

  datatype Job = Job(
    dir: bool, queued: bool, lock: Lock, claimed: Option<nat>, launched: bool,
    result: bool, error: bool, finished: bool, cancel: bool,
    pcs: map<nat, Pc>, launches: nat, phase: Phase)

  datatype Event =
    | See(b: nat) | Check(b: nat) | Open(b: nat) | WriteLock(b: nat) | Load(b: nat, valid: bool)
    | Mark(b: nat) | Unlink(b: nat) | Trip(b: nat) | CheckCancel(b: nat) | Launch(b: nat)
    | Heartbeat(b: nat) | Reap(b: nat) | Finish(b: nat) | Settle(b: nat) | Crash(b: nat)
    | Recover(b: nat, complete: bool)
    | Recognize(ok: bool) | Cancel | Consume

  const START := Job(true, true, NoLock, None, false, false, false, false, false, map[], 0, Fresh)

  function At(s: Job, b: nat): Pc {
    if b in s.pcs then s.pcs[b] else Idle
  }

  function Go(s: Job, b: nat, pc: Pc): Job {
    s.(pcs := s.pcs[b := pc])
  }

  /** The five files that make a broker pass a queued job over, in the order they are looked at. */
  predicate Marker(s: Job, k: nat) {
    match k
    case 0 => s.claimed.Some?
    case 1 => s.launched
    case 2 => s.result
    case 3 => s.error
    case _ => s.finished
  }

  predicate Settled(s: Job) { s.result || s.error }

  /** None of the four files that stop recovery. */
  predicate Clean(s: Job) { !s.launched && !s.result && !s.error && !s.finished }

  /** The identity recovery reads: claim.lock when it exists (unreadable while empty), else claimed.json. */
  function RecordedOwner(s: Job): Option<nat> {
    match s.lock
    case Held(owner) => Some(owner)
    case Opened(_) => None
    case NoLock => s.claimed
  }

  /** Recovery acts on an expired lease of a broker process that is gone.  That the lease has run out is left open. */
  predicate Recoverable(s: Job) {
    Clean(s) && RecordedOwner(s).Some? && At(s, RecordedOwner(s).value).Dead?
  }

  /** claim.lock lacks the queue fields, so queued.json comes back only when claimed.json was the file read. */
  predicate Requeues(s: Job, complete: bool) {
    !s.queued && s.lock == NoLock && complete
  }

  predicate Enabled(s: Job, e: Event) {
    match e
    case See(b) => At(s, b) == Idle && s.queued
    case Check(b) => At(s, b).Seen? && At(s, b).passed < 5
    case Open(b) => At(s, b).Seen? && At(s, b).passed >= 5
    case WriteLock(b) => At(s, b) == Opening
    case Load(b, _) => At(s, b) == Locked
    case Mark(b) => At(s, b) == Loaded
    case Unlink(b) => At(s, b) == Marked
    case Trip(b) => At(s, b) in {Opening, Locked, Loaded, Marked} || (At(s, b).Holding? && At(s, b).passed >= 1)
    case CheckCancel(b) => At(s, b).Holding? && At(s, b).passed < 2
    case Launch(b) => At(s, b).Holding? && At(s, b).passed >= 2
    case Heartbeat(b) => At(s, b) == Running
    case Reap(b) => At(s, b) == Running
    case Finish(b) => At(s, b) == Finishing
    case Settle(b) => At(s, b) in {CancelCheck, CancelError, CancelFinish, FailCheck, FailError, FailFinish,
        FailRelease}
    case Crash(b) => !At(s, b).Dead?
    case Recover(b, _) => At(s, b) == Idle && Recoverable(s)
    case Recognize(_) => s.launches > 0
    case Cancel => s.phase == Fresh
    case Consume => s.phase == Fresh && s.finished && Settled(s)
  }

  /** One step of ending a job without the recognizer's own file: cancelled jobs keep the lock, failed ones drop it. */
  function AfterSettle(s: Job, b: nat): Job {
    match At(s, b)
    case CancelCheck => Go(s, b, if Settled(s) then CancelFinish else CancelError)
    case CancelError => Go(s, b, CancelFinish).(error := true, dir := true)
    case CancelFinish => Go(s, b, Idle).(finished := true, dir := true)
    case FailCheck => Go(s, b, if Settled(s) then FailFinish else FailError)
    case FailError => Go(s, b, FailFinish).(error := true, dir := true)
    case FailFinish => Go(s, b, FailRelease).(finished := true, dir := true)
    case _ => Go(s, b, Idle).(lock := NoLock)
  }

  function AfterRecover(s: Job, complete: bool): Job
    requires Recoverable(s)
  {
    s.(queued := s.queued || Requeues(s, complete), claimed := None, lock := NoLock, dir := true,
       phase := if Requeues(s, complete) && s.phase != Fresh then Requeued else s.phase)
  }

  function AfterOpen(s: Job, b: nat): Job {
    if !s.dir then Go(s, b, FailCheck)
    else if s.lock == NoLock then Go(s, b, Opening).(lock := Opened(b))
    else Go(s, b, Idle)
  }

  function AfterReap(s: Job, b: nat): Job {
    Go(s, b, if !s.dir then Idle else if Settled(s) then Finishing else if s.cancel then CancelCheck else FailCheck)
  }

  function AfterConsume(s: Job): Job {
    s.(dir := false, queued := false, lock := NoLock, claimed := None, launched := false, result := false,
       error := false, finished := false, cancel := false,
       phase := Consumed(if s.lock == NoLock then None else Some(s.lock.owner)))
  }

  function After(s: Job, e: Event): Job
    requires Enabled(s, e)
  {
    match e
    case See(b) => Go(s, b, Seen(0))
    case Check(b) => Go(s, b, if Marker(s, At(s, b).passed) then Idle else Seen(At(s, b).passed + 1))
    case Open(b) => AfterOpen(s, b)
    case WriteLock(b) => Go(s, b, Locked).(lock := if s.lock == Opened(b) then Held(b) else s.lock)
    case Load(b, valid) => Go(s, b, if s.queued && valid then Loaded else FailCheck)
    case Mark(b) => Go(s, b, Marked).(claimed := Some(b), dir := true)
    case Unlink(b) => if s.queued then Go(s, b, Holding(0)).(queued := false) else Go(s, b, FailCheck)
    case Trip(b) => Go(s, b, FailCheck)
    case CheckCancel(b) => Go(s, b, if s.cancel then CancelCheck else Holding(At(s, b).passed + 1))
    case Launch(b) => Go(s, b, Running).(launched := true, launches := s.launches + 1, dir := true)
    case Heartbeat(b) => s.(dir := true)
    case Reap(b) => AfterReap(s, b)
    case Finish(b) => Go(s, b, Idle).(finished := true, dir := true)
    case Settle(b) => AfterSettle(s, b)
    case Crash(b) => Go(s, b, Dead)
    case Recover(b, complete) => AfterRecover(s, complete)
    case Recognize(ok) => s.(result := s.result || ok, error := s.error || !ok, dir := true)
    case Cancel => s.(cancel := true, dir := true)
    case Consume => AfterConsume(s)
  }

  /** The events are possible one after the other, and `t` is the state they lead to. */
  ghost predicate Run(s: Job, events: seq<Event>, t: Job)
    decreases |events|
  {
    if events == [] then s == t
    else Enabled(s, events[0]) && Run(After(s, events[0]), events[1..], t)
  }

  function Launches(events: seq<Event>): nat {
    if events == [] then 0 else (if events[0].Launch? then 1 else 0) + Launches(events[1..])
  }

  // The right to launch

  ghost predicate NoneHolding(s: Job) {
    forall b: nat :: !At(s, b).Holding?
  }

  /** The right to launch is in one place: queued.json, the broker that unlinked it, or the launch already made. */
  ghost predicate OneRight(s: Job) {
    && s.launches <= 1
    && (s.queued ==> s.launches == 0 && NoneHolding(s))
    && (s.launches > 0 ==> NoneHolding(s))
    && forall b: nat, c: nat :: At(s, b).Holding? && At(s, c).Holding? ==> b == c
  }

  // Ownership of the lock

  predicate Busy(pc: Pc) {
    !pc.Idle? && !pc.Seen? && !pc.Dead?
  }

  predicate Owns(s: Job, b: nat) {
    s.lock != NoLock && s.lock.owner == b
  }

  ghost predicate AllOwn(s: Job) {
    forall b: nat :: Busy(At(s, b)) ==> Owns(s, b)
  }

  /** Past the lock and not about to write an error: the stages in which a removed lock would matter. */
  predicate Exposed(pc: Pc) {
    pc in {Opening, Locked, Loaded, Marked, FailFinish, FailRelease} || pc.Holding?
  }

  ghost predicate ExposedOwn(s: Job, except: Option<nat>) {
    forall b: nat :: Exposed(At(s, b)) && except != Some(b) ==> Owns(s, b)
  }

  ghost predicate Unlaunched(s: Job) {
    s.launches == 0 && NoneHolding(s)
  }

  ghost predicate ReadersUnlaunched(s: Job) {
    forall b: nat :: At(s, b) in {Loaded, Marked} ==> Unlaunched(s)
  }

  ghost predicate ReleasesFinished(s: Job) {
    forall b: nat :: At(s, b) == FailRelease ==> s.finished
  }

  ghost predicate OnlyReader(s: Job, orphan: Option<nat>) {
    forall b: nat :: At(s, b) in {Loaded, Marked} ==> orphan == Some(b)
  }

  ghost predicate FreshInv(s: Job) {
    && s.dir
    && AllOwn(s)
    && ReadersUnlaunched(s)
    && ReleasesFinished(s)
    && (s.launches > 0 ==> s.launched)
    && (s.claimed.Some? ==> s.lock != NoLock || s.finished)
  }

  ghost predicate ConsumedInv(s: Job, orphan: Option<nat>) {
    && !s.queued
    && ReadersUnlaunched(s)
    && OnlyReader(s, orphan)
    && (s.claimed.Some? ==> Unlaunched(s) && s.claimed == orphan)
    && (s.claimed.Some? && At(s, orphan.value) in {FailFinish, FailRelease} ==> !Clean(s))
    && (Clean(s) && orphan.Some? && (s.claimed.Some? || At(s, orphan.value) == Loaded) ==> ExposedOwn(s, orphan))
  }

  ghost predicate RequeuedInv(s: Job) {
    && (Clean(s) ==> ExposedOwn(s, None))
    && (s.launches > 0 ==> s.launched)
  }

  ghost predicate Inv(s: Job) {
    && OneRight(s)
    && match s.phase
       case Fresh => FreshInv(s)
       case Consumed(orphan) => ConsumedInv(s, orphan)
       case Requeued => RequeuedInv(s)
  }

  /** No queue file, no broker holding the right, and the host still waiting. */
  ghost predicate Stranded(s: Job) {
    s.phase == Fresh && !s.queued && NoneHolding(s)
  }

  /** The claim's owner is gone and recovery will never act: it cannot read the lock, or finds one of the four files. */
  ghost predicate Jammed(s: Job) {
    s.phase == Fresh && s.lock != NoLock && At(s, s.lock.owner).Dead? && (s.lock.Opened? || !Clean(s))
  }

  /** cancel.json is there and no broker is past its second look for it. */
  ghost predicate CancelledInTime(s: Job) {
    s.cancel && forall b: nat :: At(s, b).Holding? ==> At(s, b).passed < 2
  }

  /** What every step keeps: the invariant, a true count of launches, and a right that is gone, jammed or cancelled
      stays so. */
  ghost predicate StepSound(s: Job, e: Event, t: Job) {
    && Inv(t)
    && t.launches == s.launches + (if e.Launch? then 1 else 0)
    && (Stranded(s) && e != Consume ==> Stranded(t) && !e.Launch?)
    && (Jammed(s) && e != Consume ==> Jammed(t) && !e.Launch?)
    && (CancelledInTime(s) && e != Consume ==> CancelledInTime(t) && !e.Launch?)
  }

  /** Every other broker stays where it is. */
  lemma OthersStay(s: Job, t: Job, b: nat)
    requires b in t.pcs && t.pcs == s.pcs[b := t.pcs[b]]
    ensures forall c: nat {:trigger At(t, c)} :: c != b ==> At(t, c) == At(s, c)
  {
  }

  lemma SeeKeeps(s: Job, b: nat)
    requires Inv(s) && Enabled(s, See(b))
    ensures StepSound(s, See(b), After(s, See(b)))
  {
    OthersStay(s, After(s, See(b)), b);
  }

  lemma CheckKeeps(s: Job, b: nat)
    requires Inv(s) && Enabled(s, Check(b))
    ensures StepSound(s, Check(b), After(s, Check(b)))
  {
    OthersStay(s, After(s, Check(b)), b);
  }

  lemma LockTakenKeeps(s: Job, b: nat)
    requires Inv(s) && Enabled(s, Open(b)) && s.dir && s.lock == NoLock
    ensures StepSound(s, Open(b), Go(s, b, Opening).(lock := Opened(b)))
  {
    OthersStay(s, Go(s, b, Opening).(lock := Opened(b)), b);
  }

  lemma OpenKeeps(s: Job, b: nat)
    requires Inv(s) && Enabled(s, Open(b))
    ensures StepSound(s, Open(b), After(s, Open(b)))
  {
    if s.dir && s.lock == NoLock {
      LockTakenKeeps(s, b);
    } else {
      OthersStay(s, Go(s, b, if s.dir then Idle else FailCheck), b);
    }
  }

  lemma WriteLockKeeps(s: Job, b: nat)
    requires Inv(s) && Enabled(s, WriteLock(b))
    ensures StepSound(s, WriteLock(b), After(s, WriteLock(b)))
  {
    OthersStay(s, After(s, WriteLock(b)), b);
  }

  lemma LoadKeeps(s: Job, b: nat, valid: bool)
    requires Inv(s) && Enabled(s, Load(b, valid))
    ensures StepSound(s, Load(b, valid), After(s, Load(b, valid)))
  {
    OthersStay(s, After(s, Load(b, valid)), b);
  }

  lemma MarkKeeps(s: Job, b: nat)
    requires Inv(s) && Enabled(s, Mark(b))
    ensures StepSound(s, Mark(b), After(s, Mark(b)))
  {
    OthersStay(s, After(s, Mark(b)), b);
  }

  /** queued.json can only still be there while the host waits, or again after a recovery. */
  lemma UnlinkTakes(s: Job, b: nat)
    requires Inv(s) && At(s, b) == Marked && s.queued
    ensures StepSound(s, Unlink(b), Go(s, b, Holding(0)).(queued := false))
  {
    OthersStay(s, Go(s, b, Holding(0)).(queued := false), b);
  }

  lemma UnlinkMisses(s: Job, b: nat)
    requires Inv(s) && At(s, b) == Marked && !s.queued
    ensures StepSound(s, Unlink(b), Go(s, b, FailCheck))
  {
    OthersStay(s, Go(s, b, FailCheck), b);
  }

  lemma UnlinkKeeps(s: Job, b: nat)
    requires Inv(s) && Enabled(s, Unlink(b))
    ensures StepSound(s, Unlink(b), After(s, Unlink(b)))
  {
    if s.queued {
      UnlinkTakes(s, b);
    } else {
      UnlinkMisses(s, b);
    }
  }

  lemma TripKeeps(s: Job, b: nat)
    requires Inv(s) && Enabled(s, Trip(b))
    ensures StepSound(s, Trip(b), After(s, Trip(b)))
  {
    OthersStay(s, After(s, Trip(b)), b);
  }

  lemma CheckCancelKeeps(s: Job, b: nat)
    requires Inv(s) && Enabled(s, CheckCancel(b))
    ensures StepSound(s, CheckCancel(b), After(s, CheckCancel(b)))
  {
    OthersStay(s, After(s, CheckCancel(b)), b);
  }

  lemma LaunchKeeps(s: Job, b: nat)
    requires Inv(s) && Enabled(s, Launch(b))
    ensures StepSound(s, Launch(b), After(s, Launch(b)))
  {
    OthersStay(s, After(s, Launch(b)), b);
  }

  lemma ReapKeeps(s: Job, b: nat)
    requires Inv(s) && Enabled(s, Reap(b))
    ensures StepSound(s, Reap(b), After(s, Reap(b)))
  {
    OthersStay(s, After(s, Reap(b)), b);
  }

  lemma FinishKeeps(s: Job, b: nat)
    requires Inv(s) && Enabled(s, Finish(b))
    ensures StepSound(s, Finish(b), After(s, Finish(b)))
  {
    OthersStay(s, After(s, Finish(b)), b);
  }

  lemma CancelSettleKeeps(s: Job, b: nat)
    requires Inv(s) && At(s, b) in {CancelCheck, CancelError, CancelFinish}
    ensures StepSound(s, Settle(b), AfterSettle(s, b))
  {
    OthersStay(s, AfterSettle(s, b), b);
  }

  lemma FailSettleKeeps(s: Job, b: nat)
    requires Inv(s) && At(s, b) in {FailCheck, FailError, FailFinish}
    ensures StepSound(s, Settle(b), AfterSettle(s, b))
  {
    OthersStay(s, AfterSettle(s, b), b);
  }

  lemma ReleaseKeeps(s: Job, b: nat)
    requires Inv(s) && At(s, b) == FailRelease
    ensures StepSound(s, Settle(b), AfterSettle(s, b))
  {
    OthersStay(s, AfterSettle(s, b), b);
  }

  lemma SettleKeeps(s: Job, b: nat)
    requires Inv(s) && Enabled(s, Settle(b))
    ensures StepSound(s, Settle(b), AfterSettle(s, b))
  {
    if At(s, b) == FailRelease {
      ReleaseKeeps(s, b);
    } else if At(s, b) in {FailCheck, FailError, FailFinish} {
      FailSettleKeeps(s, b);
    } else {
      CancelSettleKeeps(s, b);
    }
  }

  lemma CrashKeeps(s: Job, b: nat)
    requires Inv(s) && Enabled(s, Crash(b))
    ensures StepSound(s, Crash(b), After(s, Crash(b)))
  {
    OthersStay(s, After(s, Crash(b)), b);
  }

  lemma HeartbeatKeeps(s: Job, b: nat)
    requires Inv(s) && Enabled(s, Heartbeat(b))
    ensures StepSound(s, Heartbeat(b), After(s, Heartbeat(b)))
  {
    assert forall c: nat {:trigger At(After(s, Heartbeat(b)), c)} :: At(After(s, Heartbeat(b)), c) == At(s, c);
  }

  lemma CancelKeeps(s: Job)
    requires Inv(s) && Enabled(s, Cancel)
    ensures StepSound(s, Cancel, After(s, Cancel))
  {
    assert forall c: nat {:trigger At(After(s, Cancel), c)} :: At(After(s, Cancel), c) == At(s, c);
  }

  lemma RecognizeKeeps(s: Job, ok: bool)
    requires Inv(s) && Enabled(s, Recognize(ok))
    ensures StepSound(s, Recognize(ok), After(s, Recognize(ok)))
  {
    assert forall c: nat {:trigger At(After(s, Recognize(ok)), c)} :: At(After(s, Recognize(ok)), c) == At(s, c);
  }

  lemma RecoverKeeps(s: Job, b: nat, complete: bool)
    requires Inv(s) && Enabled(s, Recover(b, complete))
    ensures StepSound(s, Recover(b, complete), After(s, Recover(b, complete)))
  {
    assert forall c: nat {:trigger At(AfterRecover(s, complete), c)} :: At(AfterRecover(s, complete), c) == At(s, c);
  }

  lemma ConsumeKeeps(s: Job)
    requires Inv(s) && Enabled(s, Consume)
    ensures StepSound(s, Consume, After(s, Consume))
  {
    assert forall c: nat {:trigger At(AfterConsume(s), c)} :: At(AfterConsume(s), c) == At(s, c);
  }

  /** The steps that end a claim. */
  predicate Ends(e: Event) {
    e.Trip? || e.Reap? || e.Finish? || e.Settle? || e.Crash? || e.Recover? || e.Heartbeat?
  }

  lemma EndKeeps(s: Job, e: Event)
    requires Inv(s) && Enabled(s, e) && Ends(e)
    ensures StepSound(s, e, After(s, e))
  {
    match e
    case Trip(b) => TripKeeps(s, b);
    case Reap(b) => ReapKeeps(s, b);
    case Finish(b) => FinishKeeps(s, b);
    case Settle(b) => SettleKeeps(s, b);
    case Crash(b) => CrashKeeps(s, b);
    case Heartbeat(b) => HeartbeatKeeps(s, b);
    case Recover(b, complete) => RecoverKeeps(s, b, complete);
  }

  lemma StepKeeps(s: Job, e: Event)
    requires Inv(s) && Enabled(s, e)
    ensures StepSound(s, e, After(s, e))
  {
    match e
    case See(b) => SeeKeeps(s, b);
    case Check(b) => CheckKeeps(s, b);
    case Open(b) => OpenKeeps(s, b);
    case WriteLock(b) => WriteLockKeeps(s, b);
    case Load(b, valid) => LoadKeeps(s, b, valid);
    case Mark(b) => MarkKeeps(s, b);
    case Unlink(b) => UnlinkKeeps(s, b);
    case CheckCancel(b) => CheckCancelKeeps(s, b);
    case Launch(b) => LaunchKeeps(s, b);
    case Recognize(ok) => RecognizeKeeps(s, ok);
    case Cancel => CancelKeeps(s);
    case Consume => ConsumeKeeps(s);
    case _ => EndKeeps(s, e);
  }

  lemma {:induction false} RunKeeps(s: Job, events: seq<Event>, t: Job)
    requires Inv(s) && Run(s, events, t)
    ensures Inv(t) && t.launches == s.launches + Launches(events)
    decreases |events|
  {
    if events != [] {
      var next := After(s, events[0]);
      assert StepSound(s, events[0], next) by { StepKeeps(s, events[0]); }
      RunKeeps(next, events[1..], t);
    }
  }

  /** In every run of a queued job the recognizer is launched at most once, and at its end the right to launch is in
      one place. */
  lemma {:induction false} LaunchedOnce(events: seq<Event>, t: Job)
    requires Run(START, events, t)
    ensures Launches(events) <= 1
    ensures OneRight(t)
  {
    RunKeeps(START, events, t);
  }

  // A cancellation in time

  lemma {:induction false} CancelledRun(s: Job, events: seq<Event>, t: Job)
    requires Inv(s) && CancelledInTime(s) && Run(s, events, t) && Consume !in events
    ensures Launches(events) == 0
    decreases |events|
  {
    if events != [] {
      var next := After(s, events[0]);
      assert StepSound(s, events[0], next) by { StepKeeps(s, events[0]); }
      CancelledRun(next, events[1..], t);
    }
  }

  /** A cancellation written while no broker is past its second look stops the job for good: nothing launches it before
      the host has consumed the outcome. */
  lemma {:induction false} CancelStopsLaunch(events: seq<Event>, s: Job, later: seq<Event>, t: Job)
    requires Run(START, events, s) && s.phase == Fresh
    requires forall b: nat :: At(s, b).Holding? ==> At(s, b).passed < 2
    requires Run(After(s, Cancel), later, t) && Consume !in later
    ensures Launches(later) == 0
  {
    RunKeeps(START, events, s);
    var next := After(s, Cancel);
    assert Inv(next) by { CancelKeeps(s); }
    assert forall c: nat {:trigger At(next, c)} :: At(next, c) == At(s, c);
    CancelledRun(next, later, t);
  }
}
