/** The worker's side of formatting: batches of at most twelve commands inside one transaction of the host. */
module FormatWorker {
  import opened Results
  import opened FormatJournal
  import opened FormatTransaction

  /** Everything the worker cannot control: per command the editor's reaction; per batch whether it has been cancelled,
      whether the document token is still valid, whether the grid reads back, and how many restores run before one
      throws if the host rolls back; the commit's token; and the same for the rollback the worker asks for. */
  datatype Script = Script(fates: seq<Fate>, cancelled: nat -> bool, tokenValid: nat -> bool,
                           gridReadsBack: nat -> bool, throws: nat -> Option<nat>, commitTokenValid: bool,
                           lastThrows: Option<nat>)

  /** The number of commands that complete, counting from the start, and whether the run ends in a commit. */
  datatype Run = Committed | RolledBack(completed: nat, thrown: bool)

  /** What the run comes to from batch start `index` on. */
  function RunFrom(commands: seq<Command>, script: Script, index: nat): Run
    requires |script.fates| == |commands| && index <= |commands|
    decreases |commands| - index
  {
    if index == |commands| then if script.commitTokenValid then Committed else RolledBack(index, false)
    else
      var end := BatchEnd(commands, index);
      var n := FirstFailure(script.fates[index..end]);
      if script.cancelled(index) || !script.tokenValid(index) then RolledBack(index, false)
      else if n < end - index then RolledBack(index + n, true)
      else if !script.gridReadsBack(index) then RolledBack(end, false)
      else RunFrom(commands, script, end)
  }

  /** The document after an unwound run. */
  function RolledBackProps(props: Props, commands: seq<Command>, landscape: seq<bool>, script: Script, completed: nat,
                           thrown: bool): Props
    requires completed <= |commands| && |script.fates| == |commands| && (thrown ==> completed < |commands|)
  {
    var failing := if thrown then Some((commands[completed], script.fates[completed])) else None;
    Unwind(StoppedProps(After(props, Effects(commands, landscape), completed), failing, landscape),
           Journal(props, Effects(commands, landscape), completed))
  }

  lemma {:induction false} RunFromBounds(commands: seq<Command>, script: Script, index: nat)
    requires |script.fates| == |commands| && index <= |commands|
    ensures var r := RunFrom(commands, script, index);
            r.RolledBack? ==> index <= r.completed <= |commands| && (r.thrown ==> r.completed < |commands|)
    decreases |commands| - index
  {
    if index < |commands| {
      RunFromBounds(commands, script, BatchEnd(commands, index));
    }
  }

  function BatchEnd(commands: seq<Command>, index: nat): (end: nat)
    requires index < |commands|
    ensures index < end <= |commands| && end - index <= FORMAT_BATCH_LIMIT
  {
    if index + FORMAT_BATCH_LIMIT <= |commands| then index + FORMAT_BATCH_LIMIT else |commands|
  }

  lemma SliceContinues(commands: seq<Command>, landscape: seq<bool>, index: nat, end: nat, m: nat)
    requires index <= m <= end <= |commands|
    ensures Continues(Effects(commands, landscape), Effects(commands[index..end], landscape), index, m)
  {
    forall i | index <= i < m
      ensures Effects(commands, landscape)[i] == Effects(commands[index..end], landscape)[i - index]
    {
    }
  }

  /** Running a slice of the commands from where the commands before it stopped. */
  lemma {:induction false} BatchProps(props: Props, commands: seq<Command>, landscape: seq<bool>, index: nat, end: nat,
                                      m: nat)
    requires index <= m <= end <= |commands|
    ensures After(After(props, Effects(commands, landscape), index), Effects(commands[index..end], landscape),
                  m - index) ==
            After(props, Effects(commands, landscape), m)
  {
    SliceContinues(commands, landscape, index, end, m);
    AfterAppends(props, Effects(commands, landscape), Effects(commands[index..end], landscape), index, m);
  }

  lemma BatchJournal(props: Props, commands: seq<Command>, landscape: seq<bool>, index: nat,
                                        end: nat,
                                        m: nat, now: Props, before: seq<Restore>)
    requires index <= m <= end <= |commands|
    requires now == After(props, Effects(commands, landscape), index)
    requires before == Journal(props, Effects(commands, landscape), index)
    ensures before + Journal(now, Effects(commands[index..end], landscape), m - index) ==
            Journal(props, Effects(commands, landscape), m)
  {
    SliceContinues(commands, landscape, index, end, m);
    JournalAppends(props, Effects(commands, landscape), Effects(commands[index..end], landscape), index, m);
  }

  lemma BatchFailing(commands: seq<Command>, fates: seq<Fate>, index: nat, end: nat, m: nat)
    requires index <= m <= end <= |commands| && |fates| == |commands|
    requires m - index == FirstFailure(fates[index..end])
    ensures FirstFailing(commands[index..end], fates[index..end]) ==
            if m < end then Some((commands[m], fates[m])) else None
  {
    if m < end {
      assert commands[index..end][m - index] == commands[m] && fates[index..end][m - index] == fates[m];
    }
  }

  lemma StoppedAlike(a: Props, b: Props, f: Option<(Command, Fate)>, g: Option<(Command, Fate)>,
                                        landscape: seq<bool>)
    requires a == b && f == g
    ensures StoppedProps(a, f, landscape) == StoppedProps(b, g, landscape)
  {
  }

  lemma {:induction false} UnwoundAlike(a: Props, b: Props, j: seq<Restore>, k: seq<Restore>)
    requires a == b && j == k
    ensures Unwind(a, j) == Unwind(b, k)
  {
  }

  /** What the host says of a batch that it has rolled back, seen against the whole run. */
  lemma BatchUnwound(props: Props, commands: seq<Command>, landscape: seq<bool>, script: Script,
                                        index: nat, end: nat, m: nat, now: Props, before: seq<Restore>)
    requires index <= m <= end <= |commands| && |script.fates| == |commands|
    requires m - index == FirstFailure(script.fates[index..end])
    requires now == After(props, Effects(commands, landscape), index)
    requires before == Journal(props, Effects(commands, landscape), index)
    ensures var part := commands[index..end];
            && before + Journal(now, Effects(part, landscape), m - index) ==
               Journal(props, Effects(commands, landscape), m)
            && Unwind(PropsThrown(now, part, landscape, script.fates[index..end]),
                      before + Journal(now, Effects(part, landscape), m - index)) ==
               RolledBackProps(props, commands, landscape, script, m, m < end)
  {
    hide Thrown, Effects, After, Journal, Unwind, FirstFailure, FirstFailing, StoppedProps;
    var part, fates := commands[index..end], script.fates[index..end];
    var failing := if m < end then Some((commands[m], script.fates[m])) else None;
    var reached, later := After(now, Effects(part, landscape), m - index),
        After(props, Effects(commands, landscape), m);
    BatchJournal(props, commands, landscape, index, end, m, now, before);
    BatchProps(props, commands, landscape, index, end, m);
    BatchFailing(commands, script.fates, index, end, m);
    StoppedAlike(reached, later, FirstFailing(part, fates), failing, landscape);
    UnwoundAlike(StoppedProps(reached, FirstFailing(part, fates), landscape), StoppedProps(later, failing, landscape),
                 before + Journal(now, Effects(part, landscape), m - index),
                 Journal(props, Effects(commands, landscape), m));
  }

  lemma {:induction false} RunGoesOn(commands: seq<Command>, script: Script, index: nat, end: nat)
    requires |script.fates| == |commands| && index < |commands| && end == BatchEnd(commands, index)
    requires !script.cancelled(index) && script.tokenValid(index) && script.gridReadsBack(index)
    requires FirstFailure(script.fates[index..end]) == end - index
    ensures RunFrom(commands, script, index) == RunFrom(commands, script, end)
  {
  }

  lemma {:induction false} RunFails(commands: seq<Command>, script: Script, index: nat, end: nat, m: nat)
    requires |script.fates| == |commands| && index < |commands| && end == BatchEnd(commands, index)
    requires !script.cancelled(index) && script.tokenValid(index)
    requires m == index + FirstFailure(script.fates[index..end]) && (m == end ==> !script.gridReadsBack(index))
    ensures RunFrom(commands, script, index) == RolledBack(m, m < end)
  {
  }

  lemma {:induction false} RunStops(commands: seq<Command>, script: Script, index: nat)
    requires |script.fates| == |commands| && index <= |commands|
    requires if index == |commands| then !script.commitTokenValid
             else script.cancelled(index) || !script.tokenValid(index)
    ensures RunFrom(commands, script, index) == RolledBack(index, false)
  {
  }

  // ---------------------------------------------------------------- what a run comes to, restores that throw included

  /** An open transaction: the document, the journal, and the restores that have been run. */
  datatype Work = Work(props: Props, journal: seq<Restore>, undone: seq<Restore>)

  /** A rollback; the journal that a throwing restore leaves is not empty, and reversed. */
  function Roll(props: Props, journal: seq<Restore>, undone: seq<Restore>, throws: Option<nat>): Work {
    Work(Unwind(props, ToRun(journal, throws)), if Throws(journal, throws) then Backwards(journal) else [],
         undone + Backwards(ToRun(journal, throws)))
  }

  datatype Tried = Tried(work: Work, goesOn: bool)

  /** What the host makes of a batch, and whether it reports the batch as done. */
  function TryBatch(w: Work, commands: seq<Command>, landscape: seq<bool>, fates: seq<Fate>, gridReadsBack: bool,
                    throws: Option<nat>): Tried
    requires |fates| == |commands|
  {
    var n := FirstFailure(fates);
    var journal := w.journal + Journal(w.props, Effects(commands, landscape), n);
    if n == |commands| && gridReadsBack
    then Tried(Work(After(w.props, Effects(commands, landscape), n), journal, w.undone), true)
    else Tried(Roll(PropsThrown(w.props, commands, landscape, fates), journal, w.undone, throws),
               n == |commands| && Throws(journal, throws))
  }

  function TryAt(w: Work, commands: seq<Command>, landscape: seq<bool>, script: Script, index: nat): Tried
    requires |script.fates| == |commands| && index < |commands|
  {
    var end := BatchEnd(commands, index);
    TryBatch(w, commands[index..end], landscape, script.fates[index..end], script.gridReadsBack(index),
             script.throws(index))
  }

  /** `truthful`: no batch was reported as done although its grid did not read back. */
  datatype Ended = Ended(committed: bool, work: Work, truthful: bool)

  /** The whole rest of the run, from batch start `index` on. */
  function Worked(w: Work, commands: seq<Command>, landscape: seq<bool>, script: Script, index: nat): Ended
    requires |script.fates| == |commands| && index <= |commands|
    decreases |commands| - index
  {
    if index == |commands| && script.commitTokenValid then Ended(true, w.(journal := []), true)
    else if index == |commands| || script.cancelled(index) || !script.tokenValid(index)
    then Ended(false, Roll(w.props, w.journal, w.undone, script.lastThrows), true)
    else
      var tried := TryAt(w, commands, landscape, script, index);
      if !tried.goesOn then Ended(false, tried.work, true)
      else
        var rest := Worked(tried.work, commands, landscape, script, BatchEnd(commands, index));
        rest.(truthful := script.gridReadsBack(index) && rest.truthful)
  }

  // ---------------------------------------------------------------- when a run ends well

  /** The rollback that stops the run, when none before it has been needed. */
  function StoppingThrows(commands: seq<Command>, script: Script, index: nat): Option<nat>
    requires |script.fates| == |commands| && index <= |commands|
    decreases |commands| - index
  {
    if index == |commands| || script.cancelled(index) || !script.tokenValid(index) then script.lastThrows
    else
      var end := BatchEnd(commands, index);
      if FirstFailure(script.fates[index..end]) < end - index || !script.gridReadsBack(index) then script.throws(index)
      else StoppingThrows(commands, script, end)
  }

  /** A restore throws in the rollback of the commands that have completed. */
  predicate Interrupted(commands: seq<Command>, script: Script, index: nat)
    requires |script.fates| == |commands| && index <= |commands|
  {
    var run, throws := RunFrom(commands, script, index), StoppingThrows(commands, script, index);
    run.RolledBack? && throws.Some? && throws.value < run.completed
  }

  /** Committed with all effects and every grid read back, or every restore of every completed command run once, last
      first, and the journal dropped. */
  ghost predicate EndsWell(e: Ended, props: Props, undone: seq<Restore>, commands: seq<Command>, landscape: seq<bool>,
                           run: Run)
    requires run.RolledBack? ==> run.completed <= |commands|
  {
    && e.truthful && e.work.journal == [] && (e.committed <==> run.Committed?)
    && match run
       case Committed =>
         e.work.props == After(props, Effects(commands, landscape), |commands|) && e.work.undone == undone
       case RolledBack(n, _) => e.work.undone == undone + Backwards(Journal(props, Effects(commands, landscape), n))
  }

  /** The work after the first n commands, nothing having gone wrong. */
  function WorkAfter(props: Props, undone: seq<Restore>, commands: seq<Command>, landscape: seq<bool>, n: nat): Work
    requires n <= |commands|
  {
    Work(After(props, Effects(commands, landscape), n), Journal(props, Effects(commands, landscape), n), undone)
  }

  lemma TryCompletes(props: Props, undone: seq<Restore>, commands: seq<Command>,
                                        landscape: seq<bool>, script: Script, index: nat, end: nat)
    requires |script.fates| == |commands| && index < |commands| && end == BatchEnd(commands, index)
    requires FirstFailure(script.fates[index..end]) == end - index && script.gridReadsBack(index)
    ensures TryAt(WorkAfter(props, undone, commands, landscape, index), commands, landscape, script, index) ==
            Tried(WorkAfter(props, undone, commands, landscape, end), true)
  {
    hide Effects, After, Journal, FirstFailure;
    BatchProps(props, commands, landscape, index, end, end);
    BatchJournal(props, commands, landscape, index, end, end, After(props, Effects(commands, landscape), index),
                 Journal(props, Effects(commands, landscape), index));
  }

  /** A batch that fails, with the journal of the whole run. */
  lemma {:induction false} TryRolls(props: Props, undone: seq<Restore>, commands: seq<Command>, landscape: seq<bool>,
                                    script: Script, index: nat, end: nat, m: nat)
    requires |script.fates| == |commands| && index < |commands| && end == BatchEnd(commands, index)
    requires m == index + FirstFailure(script.fates[index..end]) && (m == end ==> !script.gridReadsBack(index))
    ensures var w := WorkAfter(props, undone, commands, landscape, index);
            var tried := TryAt(w, commands, landscape, script, index);
            var journal := Journal(props, Effects(commands, landscape), m);
            && tried.goesOn == (m == end && Throws(journal, script.throws(index)))
            && tried.work.undone == undone + Backwards(ToRun(journal, script.throws(index)))
            && (!Throws(journal, script.throws(index)) ==>
                  tried.work == Work(RolledBackProps(props, commands, landscape, script, m, m < end), [],
                                     undone + Backwards(journal)))
  {
    hide Effects, After, Journal, FirstFailure, PropsThrown, RolledBackProps, Unwind, Backwards;
    BatchUnwound(props, commands, landscape, script, index, end, m, After(props, Effects(commands, landscape), index),
                 Journal(props, Effects(commands, landscape), index));
  }

  lemma BackwardsOfToRun(journal: seq<Restore>, throws: Option<nat>)
    ensures |Backwards(ToRun(journal, throws))| == if Throws(journal, throws) then throws.value else |journal|
  {
  }

  ghost predicate WorkedAsRun(props: Props, undone: seq<Restore>, commands: seq<Command>, landscape: seq<bool>,
                              script: Script, index: nat, e: Ended)
    requires |script.fates| == |commands| && index <= |commands|
  {
    var run := RunFrom(commands, script, index);
    && (run.RolledBack? ==> run.completed <= |commands| && (run.thrown ==> run.completed < |commands|))
    && (run.Committed? ==>
          e == Ended(true, WorkAfter(props, undone, commands, landscape, |commands|).(journal := []), true))
    && (run.RolledBack? && !Interrupted(commands, script, index) ==>
          var now := RolledBackProps(props, commands, landscape, script, run.completed, run.thrown);
          var journal := Journal(props, Effects(commands, landscape), run.completed);
          e == Ended(false, Work(now, [], undone + Backwards(journal)), true))
    && (Interrupted(commands, script, index) ==> !e.truthful || |e.work.undone| < |undone| + run.completed)
  }

  lemma {:induction false} StopsHere(props: Props, undone: seq<Restore>, commands: seq<Command>, landscape: seq<bool>,
                                     script: Script, index: nat)
    requires |script.fates| == |commands| && index <= |commands|
    requires index == |commands| || script.cancelled(index) || !script.tokenValid(index)
    ensures var w := WorkAfter(props, undone, commands, landscape, index);
            WorkedAsRun(props, undone, commands, landscape, script, index,
                        Worked(w, commands, landscape, script, index))
  {
    hide Effects, After, Unwind, Backwards;
    BackwardsOfToRun(Journal(props, Effects(commands, landscape), index), script.lastThrows);
  }

  lemma {:induction false} FailsHere(props: Props, undone: seq<Restore>, commands: seq<Command>, landscape: seq<bool>,
                                     script: Script, index: nat, end: nat, m: nat)
    requires |script.fates| == |commands| && index < |commands| && end == BatchEnd(commands, index)
    requires !script.cancelled(index) && script.tokenValid(index)
    requires m == index + FirstFailure(script.fates[index..end]) && (m == end ==> !script.gridReadsBack(index))
    ensures var w := WorkAfter(props, undone, commands, landscape, index);
            WorkedAsRun(props, undone, commands, landscape, script, index,
                        Worked(w, commands, landscape, script, index))
  {
    hide Effects, After, Journal, Unwind, Backwards, FirstFailure, TryAt, RolledBackProps;
    RunFails(commands, script, index, end, m);
    TryRolls(props, undone, commands, landscape, script, index, end, m);
    BackwardsOfToRun(Journal(props, Effects(commands, landscape), m), script.throws(index));
  }

  /** Without an interrupted rollback the run is as `RunFrom` says; with one it does not end well. */
  lemma {:induction false} WorkedUnlessInterrupted(props: Props, undone: seq<Restore>, commands: seq<Command>,
                                                   landscape: seq<bool>, script: Script, index: nat)
    requires |script.fates| == |commands| && index <= |commands|
    ensures var w := WorkAfter(props, undone, commands, landscape, index);
            WorkedAsRun(props, undone, commands, landscape, script, index,
                        Worked(w, commands, landscape, script, index))
    decreases |commands| - index
  {
    if index == |commands| || script.cancelled(index) || !script.tokenValid(index) {
      StopsHere(props, undone, commands, landscape, script, index);
    } else {
      var end := BatchEnd(commands, index);
      var m := index + FirstFailure(script.fates[index..end]);
      if m == end && script.gridReadsBack(index) {
        GoesOn(props, undone, commands, landscape, script, index, end);
        WorkedUnlessInterrupted(props, undone, commands, landscape, script, end);
      } else {
        FailsHere(props, undone, commands, landscape, script, index, end, m);
      }
    }
  }

  lemma {:induction false} GoesOn(props: Props, undone: seq<Restore>, commands: seq<Command>, landscape: seq<bool>,
                                  script: Script, index: nat, end: nat)
    requires |script.fates| == |commands| && index < |commands| && end == BatchEnd(commands, index)
    requires !script.cancelled(index) && script.tokenValid(index) && script.gridReadsBack(index)
    requires FirstFailure(script.fates[index..end]) == end - index
    ensures RunFrom(commands, script, index) == RunFrom(commands, script, end)
    ensures StoppingThrows(commands, script, index) == StoppingThrows(commands, script, end)
    ensures Worked(WorkAfter(props, undone, commands, landscape, index), commands, landscape, script, index) ==
            Worked(WorkAfter(props, undone, commands, landscape, end), commands, landscape, script, end)
  {
    hide WorkAfter, TryAt, FirstFailure;
    RunGoesOn(commands, script, index, end);
    TryCompletes(props, undone, commands, landscape, script, index, end);
  }

  /** A run ends well if and only if no restore throws in the rollback of the commands that have completed. */
  lemma {:induction false} EndsWellExactly(props: Props, undone: seq<Restore>, commands: seq<Command>,
                                           landscape: seq<bool>, script: Script)
    requires |script.fates| == |commands|
    ensures var run := RunFrom(commands, script, 0);
            && (run.RolledBack? ==> run.completed <= |commands|)
            && (EndsWell(Worked(Work(props, [], undone), commands, landscape, script, 0), props, undone, commands,
                         landscape, run) <==>
                !Interrupted(commands, script, 0))
  {
    hide Effects, Worked, RunFrom, RolledBackProps, StoppingThrows;
    StartIs(props, undone, commands, landscape, script);
  }

  /** A batch whose grid does not read back, and whose second restore throws, is reported as done. */
  lemma HalfUnwoundBatch(commands: seq<Command>, script: Script)
    requires |commands| == 2 && script.fates == [Works, Works] && !script.gridReadsBack(0)
    requires script.throws(0) == Some(1)
    ensures var tried := TryAt(Work(map[], [], []), commands, [], script, 0);
            tried.goesOn && |tried.work.undone| == 1
  {
    hide Effects, After, PropsThrown, Unwind, Backwards, ToRun, FirstFailure, Journal;
    assert commands[0..2] == commands && script.fates[0..2] == script.fates;
    FirstFailureIs(script.fates, 2);
    assert [] + Journal(map[], Effects(commands, []), 2) == Journal(map[], Effects(commands, []), 2);
    BackwardsOfToRun(Journal(map[], Effects(commands, []), 2), Some(1));
  }

  /** Such a run is committed, with one command undone and the other not. */
  lemma HalfUnwoundCommits()
    ensures exists commands: seq<Command>, script: Script ::
              && |script.fates| == |commands| == 2
              && var e := Worked(Work(map[], [], []), commands, [], script, 0);
                 e.committed && !e.truthful && |e.work.undone| == 1
  {
    hide TryAt;
    var command := Command(1, 0, 0, AlignmentArgument(Centered));
    var script := Script([Works, Works], _ => false, _ => true, _ => false, _ => Some(1), true, None);
    HalfUnwoundBatch([command, command], script);
    WorkedStops(TryAt(Work(map[], [], []), [command, command], [], script, 0).work, [command, command], [], script, 2);
    var e := Worked(Work(map[], [], []), [command, command], [], script, 0);
    assert e.committed && !e.truthful && |e.work.undone| == 1;
  }

  // ---------------------------------------------------------------- the worker's loop

  /** The host holds this open transaction; `others` are the journals of other transactions. */
  ghost predicate Holds(host: FormatHost, w: Work, job: nat, transaction: nat, executed: nat,
                        others: map<nat, seq<Restore>>)
    reads host
  {
    && host.active == Some(Active(job, transaction, executed)) && host.props == w.props && host.undone == w.undone
    && transaction in host.journals && host.journals[transaction] == w.journal
    && host.journals - {transaction} == others
  }

  /** The host after the transaction; a journal that was not unwound to its end is still there. */
  ghost predicate Closed(host: FormatHost, w: Work, transaction: nat, others: map<nat, seq<Restore>>)
    reads host
  {
    && host.active == None && host.props == w.props && host.undone == w.undone
    && host.journals == if w.journal == [] then others else others[transaction := w.journal]
  }

  /** One batch of the worker's loop. */
  method FormatBatch(host: FormatHost, job: nat, transaction: nat, commands: seq<Command>, script: Script, index: nat,
                     ghost w: Work, ghost others: map<nat, seq<Restore>>)
    returns (r: Result<nat, FormatError>)
    requires |script.fates| == |commands| && index < |commands|
    requires Holds(host, w, job, transaction, index, others)
    modifies host`props, host`journals, host`undone, host`active
    ensures r.Success? || r == Failure(ExecutionFailed) <==> script.tokenValid(index)
    ensures r.Success? ==>
              var tried := TryAt(w, commands, host.landscape, script, index);
              && tried.goesOn && r.value == BatchEnd(commands, index) - index
              && Holds(host, tried.work, job, transaction, BatchEnd(commands, index), others)
    ensures r == Failure(ExecutionFailed) ==>
              var tried := TryAt(w, commands, host.landscape, script, index);
              !tried.goesOn && Closed(host, tried.work, transaction, others)
    ensures r.Failure? && r.error != ExecutionFailed ==> Holds(host, w, job, transaction, index, others)
  {
    hide Effects, After, Journal, Unwind, FirstFailure, PropsThrown;
    var end := BatchEnd(commands, index);
    r := host.ApplyBatch(job, transaction, commands[index..end], script.fates[index..end],
                         script.gridReadsBack(index), script.tokenValid(index), script.throws(index));
    LeftIs(old(host.journals), transaction,
           FullJournal(old(host.journals), transaction, old(host.props), commands[index..end], host.landscape,
                       script.fates[index..end]), script.throws(index), others);
  }

  /** The journals after a rollback, seen from the other transactions. */
  lemma {:induction false} LeftIs(journals: map<nat, seq<Restore>>, transaction: nat, journal: seq<Restore>,
                                  throws: Option<nat>, others: map<nat, seq<Restore>>)
    requires journals - {transaction} == others
    ensures !Throws(journal, throws) ==> Left(journals, transaction, journal, throws) == others
    ensures Throws(journal, throws) ==>
              && Backwards(journal) != []
              && Left(journals, transaction, journal, throws) == others[transaction := Backwards(journal)]
              && Left(journals, transaction, journal, throws) - {transaction} == others
  {
    hide Backwards;
    assert forall k :: k in journals && k != transaction ==> k in journals - {transaction};
  }

  /** The batches, one after the other, until one fails or the job is cancelled. */
  method RunBatches(host: FormatHost, job: nat, transaction: nat, commands: seq<Command>, script: Script,
                    ghost first: Work, ghost others: map<nat, seq<Restore>>)
    returns (r: Result<nat, FormatError>, ghost w: Work, ghost truthful: bool, ghost index: nat)
    requires |script.fates| == |commands| && Holds(host, first, job, transaction, 0, others)
    modifies host`props, host`journals, host`undone, host`active
    ensures r.Success? ==> r.value == |commands| && index == |commands|
    ensures r.Success? || r.error != ExecutionFailed ==>
              && index <= |commands| && Holds(host, w, job, transaction, index, others)
              && (r.Failure? ==> index < |commands| && (script.cancelled(index) || !script.tokenValid(index)))
              && Worked(first, commands, host.landscape, script, 0) ==
                 Later(Worked(w, commands, host.landscape, script, index), truthful)
    ensures r == Failure(ExecutionFailed) ==>
              && Worked(first, commands, host.landscape, script, 0) == Ended(false, w, truthful)
              && Closed(host, w, transaction, others)
  {
    hide TryAt, Roll;
    var done := 0;
    w, truthful, index := first, true, 0;
    while done < |commands|
      invariant 0 <= done == index <= |commands| && Holds(host, w, job, transaction, done, others)
      invariant Worked(first, commands, host.landscape, script, 0) ==
                Later(Worked(w, commands, host.landscape, script, done), truthful)
    {
      if script.cancelled(done) {
        r := Failure(Cancelled);
        return;
      }
      r := FormatBatch(host, job, transaction, commands, script, done, w, others);
      if r.Failure? {
        if r.error == ExecutionFailed {
          w := TryAt(w, commands, host.landscape, script, done).work;
        }
        return;
      }
      w := TryAt(w, commands, host.landscape, script, done).work;
      truthful := truthful && script.gridReadsBack(done);
      done := done + r.value;
      index := done;
    }
    r := Success(done);
  }

  function Later(e: Ended, truthful: bool): Ended { e.(truthful := truthful && e.truthful) }

  /** The end of the run depends only on the work so far. */
  lemma {:induction false} WorkedStops(w: Work, commands: seq<Command>, landscape: seq<bool>, script: Script,
                                       index: nat)
    requires |script.fates| == |commands| && index <= |commands|
    requires index == |commands| || script.cancelled(index) || !script.tokenValid(index)
    ensures Worked(w, commands, landscape, script, index) ==
            if index == |commands| && script.commitTokenValid then Ended(true, w.(journal := []), true)
            else Ended(false, Roll(w.props, w.journal, w.undone, script.lastThrows), true)
  {
  }

  /** The batches and the commit; on any error ask the host to roll back whatever is still open. */
  method RunTransaction(host: FormatHost, job: nat, transaction: nat, commands: seq<Command>, script: Script,
                        ghost first: Work, ghost others: map<nat, seq<Restore>>)
    returns (r: Result<nat, FormatError>)
    requires |script.fates| == |commands| && Holds(host, first, job, transaction, 0, others)
    modifies host`props, host`journals, host`undone, host`active
    ensures var e := Worked(first, commands, host.landscape, script, 0);
            && (r.Success? <==> e.committed) && (r.Success? ==> r.value == |commands|)
            && Closed(host, e.work, transaction, others)
  {
    hide Worked, Throws, Left, Unwind, Backwards, ToRun;
    ghost var w, truthful, index;
    r, w, truthful, index := RunBatches(host, job, transaction, commands, script, first, others);
    if r == Failure(ExecutionFailed) {
      var _ := host.RollbackTransaction(job, transaction, script.lastThrows);
      return;
    }
    WorkedStops(w, commands, host.landscape, script, index);
    LeftIs(host.journals, transaction, w.journal, script.lastThrows, others);
    if r.Failure? {
      var _ := host.RollbackTransaction(job, transaction, script.lastThrows);
      return;
    }
    var committed := host.CommitTransaction(job, transaction, script.commitTokenValid);
    if committed.Failure? {
      var _ := host.RollbackTransaction(job, transaction, script.lastThrows);
      return committed;
    }
  }

  /** Format in slices of twelve, all or nothing unless a restore throws in the rollback of a completed command. */
  method ApplyFormat(host: FormatHost, job: nat, commands: seq<Command>, script: Script, beginTokenValid: bool)
    returns (r: Result<nat, FormatError>)
    requires |script.fates| == |commands| && host.active == None
    modifies host
    ensures !beginTokenValid ==>
              && r.Failure? && host.props == old(host.props) && host.undone == old(host.undone)
              && host.journals == old(host.journals)
    ensures beginTokenValid ==>
              var e := Worked(Work(old(host.props), [], old(host.undone)), commands, host.landscape, script, 0);
              && (r.Success? <==> e.committed) && (r.Success? ==> r.value == |commands|)
              && Closed(host, e.work, old(host.sequence) + 1, old(host.journals) - {old(host.sequence) + 1})
    ensures beginTokenValid && !Interrupted(commands, script, 0) ==>
              (r.Success? <==> RunFrom(commands, script, 0) == Committed)
    ensures r.Success? && !Interrupted(commands, script, 0) ==>
              && host.undone == old(host.undone) && host.active == None
              && host.props == After(old(host.props), Effects(commands, host.landscape), |commands|)
              && host.journals == old(host.journals) - {old(host.sequence) + 1}
    ensures beginTokenValid && r.Failure? && !Interrupted(commands, script, 0) ==>
              Unwound(host, old(host.props), old(host.undone), old(host.journals), old(host.sequence) + 1, commands,
                      script)
  {
    hide Effects, After, Unwind, Worked, RunFrom, RolledBackProps, Interrupted, Backwards, Journal;
    var begun := host.BeginTransaction(job, beginTokenValid);
    if begun.Failure? {
      return begun.PropagateFailure();
    }
    ghost var others := old(host.journals) - {begun.value};
    ghost var first := Work(host.props, [], host.undone);
    ReversedThenDropped(old(host.journals), begun.value, []);
    r := RunTransaction(host, job, begun.value, commands, script, first, others);
    StartIs(first.props, first.undone, commands, host.landscape, script);
  }

  /** Everything has been undone: every restore of every completed command has run once, last first. */
  ghost predicate Unwound(host: FormatHost, props: Props, undone: seq<Restore>, journals: map<nat, seq<Restore>>,
                          transaction: nat, commands: seq<Command>, script: Script)
    requires |script.fates| == |commands|
    reads host
  {
    var run := RunFrom(commands, script, 0);
    && run.RolledBack? && run.completed <= |commands| && (run.thrown ==> run.completed < |commands|)
    && host.active == None && host.journals == journals - {transaction}
    && host.props == RolledBackProps(props, commands, host.landscape, script, run.completed, run.thrown)
    && host.undone == undone + Backwards(Journal(props, Effects(commands, host.landscape), run.completed))
  }

  lemma {:induction false} StartIs(props: Props, undone: seq<Restore>, commands: seq<Command>, landscape: seq<bool>,
                                   script: Script)
    requires |script.fates| == |commands|
    ensures WorkedAsRun(props, undone, commands, landscape, script, 0,
                        Worked(Work(props, [], undone), commands, landscape, script, 0))
  {
    hide Effects, Worked, WorkedAsRun;
    assert WorkAfter(props, undone, commands, landscape, 0) == Work(props, [], undone);
    WorkedUnlessInterrupted(props, undone, commands, landscape, script, 0);
  }

  /** All or nothing: a run that is not committed leaves the original document iff the failing command left no
      foreign value in a slot that no completed command had captured. A refused command, a failing page setup,
      a cancellation, a changed token and a failed grid readback leave nothing. */
  lemma {:induction false} AllOrNothing(props: Props, commands: seq<Command>, landscape: seq<bool>, script: Script,
                                        completed: nat, thrown: bool)
    requires |script.fates| == |commands| && completed <= |commands| && (thrown ==> completed < |commands|)
    requires forall i :: 0 <= i < |commands| ==> FateFits(commands[i], landscape, script.fates[i])
    ensures var now := After(props, Effects(commands, landscape), completed);
            var left := if thrown then LeftBehind(commands[completed], script.fates[completed]) else map[];
            Same(RolledBackProps(props, commands, landscape, script, completed, thrown), props) <==>
            forall s :: s in left && left[s] != Get(now, s) ==> Covered(Effects(commands, landscape), completed, s)
  {
    var now := After(props, Effects(commands, landscape), completed);
    var left := if thrown then LeftBehind(commands[completed], script.fates[completed]) else map[];
    var journal := Journal(props, Effects(commands, landscape), completed);
    var thrownProps := if thrown then Thrown(now, commands[completed], landscape, script.fates[completed]) else now;
    if thrown {
      ThrownLeaves(now, commands[completed], landscape, script.fates[completed]);
    }
    EffectsProper(commands, landscape);
    assert RolledBackProps(props, commands, landscape, script, completed, thrown) == Unwind(thrownProps, journal);
    assert Same(thrownProps, now + left);
    forall s ensures Get(Unwind(thrownProps, journal), s) == Get(Unwind(now + left, journal), s) {
      UnwindSlot(props, Effects(commands, landscape), completed, thrownProps, s);
      UnwindSlot(props, Effects(commands, landscape), completed, now + left, s);
    }
    UnwindRestores(props, Effects(commands, landscape), completed, left);
  }

  /** A paragraph command whose own readback fails is not in the journal: what it wrote stays. */
  lemma FailedReadbackStays()
    ensures exists props: Props, commands: seq<Command>, landscape: seq<bool>, script: Script ::
              && |script.fates| == |commands| == 1 && FateFits(commands[0], landscape, script.fates[0])
              && RunFrom(commands, script, 0) == RolledBack(0, true)
              && !Same(RolledBackProps(props, commands, landscape, script, 0, true), props)
  {
    var slot := Slot(ParagraphOf(0), Alignment);
    var props: Props := map[slot := Number(0.0)];
    var left: Props := map[slot := Number(3.0)];
    var commands := [Command(1, 0, 0, AlignmentArgument(Centered))];
    var script := Script([ReadbackFails(left)], _ => false, _ => true, _ => true, _ => None, true, None);
    assert slot in Written(commands[0], []);
    assert FateFits(commands[0], [], script.fates[0]);
    assert script.fates[0..1] == script.fates;
    assert FirstFailure(script.fates) == 0;
    assert Get(RolledBackProps(props, commands, [], script, 0, true), slot) == Number(3.0);
  }
}
