/** The host's side of a formatting transaction: one undo journal over all batches of at most twelve commands. */
module FormatTransaction {
  import opened Results
  import opened FormatJournal

  const FORMAT_BATCH_LIMIT := 12

  /** What the editor makes of one command: it works; it is refused before anything is written (missing capability,
      target not located, kind not allowed); or the values read back differ, and `left` is what stayed written. */
  datatype Fate = Works | Refused | ReadbackFails(left: Props)

  /** A readback failure leaves only slots of the command itself. */
  ghost predicate FateFits(command: Command, landscape: seq<bool>, fate: Fate) {
    fate.ReadbackFails? ==> fate.left.Keys <= Written(command, landscape)
  }

  /** What a failing command leaves behind: page setup restores itself, everything else does not. */
  function LeftBehind(command: Command, fate: Fate): Props {
    if fate.ReadbackFails? && command.kind != SetPageSetup then fate.left else map[]
  }

  /** The properties after a command that throws. */
  function Thrown(props: Props, command: Command, landscape: seq<bool>, fate: Fate): Props {
    if fate.ReadbackFails? then
      if command.kind == SetPageSetup then props + fate.left + Save(props, EffectOf(command, landscape)).Saved()
          else props + fate.left
    else props
  }

  lemma ThrownLeaves(props: Props, command: Command, landscape: seq<bool>, fate: Fate)
    requires FateFits(command, landscape, fate)
    ensures Same(Thrown(props, command, landscape, fate), props + LeftBehind(command, fate))
  {
  }

  datatype FormatError = Busy | Mismatch | TokenChanged | BatchInvalid | ExecutionFailed | Cancelled | Incomplete

  datatype Active = Active(job: nat, transaction: nat, executed: nat)

  // ---------------------------------------------------------------- rolling back, restores that throw included

  function Backwards<T>(s: seq<T>): (r: seq<T>)
    ensures |r| == |s|
  {
    if s == [] then [] else [s[|s| - 1]] + Backwards(s[..|s| - 1])
  }

  /** `throws` is how many restores of a rollback run before one throws. */
  predicate Throws(journal: seq<Restore>, throws: Option<nat>) {
    throws.Some? && throws.value < |journal|
  }

  /** The restores that do run are the last ones. */
  function ToRun(journal: seq<Restore>, throws: Option<nat>): seq<Restore> {
    if Throws(journal, throws) then journal[|journal| - throws.value..] else journal
  }

  /** The journals after a rollback of this journal: reversed in place when a restore threw. */
  function Left(journals: map<nat, seq<Restore>>, transaction: nat, journal: seq<Restore>, throws: Option<nat>)
    : (r: map<nat, seq<Restore>>)
    ensures !Throws(journal, throws) ==> r == journals - {transaction}
  {
    if Throws(journal, throws) then journals[transaction := Backwards(journal)] else journals - {transaction}
  }

  lemma LeftExtends(now: map<nat, seq<Restore>>, before: map<nat, seq<Restore>>, transaction: nat,
                                       journal: seq<Restore>, throws: Option<nat>)
    requires now - {transaction} == before - {transaction}
    ensures Left(now, transaction, journal, throws) == Left(before, transaction, journal, throws)
  {
    assert forall k :: k in now && k != transaction ==> k in now - {transaction};
    assert forall k :: k in before && k != transaction ==> k in before - {transaction};
    assert now[transaction := journal] == before[transaction := journal];
  }

  lemma CaptureExtends(now: map<nat, seq<Restore>>, before: map<nat, seq<Restore>>, transaction: nat,
                                          more: seq<Restore>, restore: Restore)
    requires Extends(now, before, transaction, more)
    ensures Extends(now[transaction := now[transaction] + [restore]], before, transaction, more + [restore])
  {
    assert now[transaction := now[transaction] + [restore]] - {transaction} == now - {transaction};
    assert before[transaction] + more + [restore] == before[transaction] + (more + [restore]);
  }

  lemma ReversedThenDropped(journals: map<nat, seq<Restore>>, transaction: nat,
                                               journal: seq<Restore>)
    ensures journals[transaction := journal] - {transaction} == journals - {transaction}
  {
  }

  lemma {:induction false} RerunStep(undone: seq<Restore>, toRun: seq<Restore>)
    requires toRun != []
    ensures undone + Backwards(toRun) == undone + [toRun[|toRun| - 1]] + Backwards(toRun[..|toRun| - 1])
  {
    assert Backwards(toRun) == [toRun[|toRun| - 1]] + Backwards(toRun[..|toRun| - 1]);
  }

  /** The journal when a batch fails: earlier batches, and the commands of this one that completed. */
  function FullJournal(journals: map<nat, seq<Restore>>, transaction: nat, props: Props, commands: seq<Command>,
                       landscape: seq<bool>, fates: seq<Fate>): seq<Restore>
    requires transaction in journals && |fates| == |commands|
  {
    journals[transaction] + Journal(props, Effects(commands, landscape), FirstFailure(fates))
  }

  /** The properties when commands stop, before anything is restored; `failing` is the command that throws, if one
      does, and its fate. */
  function StoppedProps(props: Props, failing: Option<(Command, Fate)>, landscape: seq<bool>): Props {
    match failing
    case None => props
    case Some((command, fate)) => Thrown(props, command, landscape, fate)
  }

  function FirstFailing(commands: seq<Command>, fates: seq<Fate>): Option<(Command, Fate)>
    requires |fates| == |commands|
  {
    var n := FirstFailure(fates);
    if n < |commands| then Some((commands[n], fates[n])) else None
  }

  function PropsThrown(props: Props, commands: seq<Command>, landscape: seq<bool>, fates: seq<Fate>): Props
    requires |fates| == |commands|
  {
    StoppedProps(After(props, Effects(commands, landscape), FirstFailure(fates)), FirstFailing(commands, fates),
                 landscape)
  }

  class FormatHost {
    const landscape: seq<bool>
    var props: Props
    var sequence: nat
    var journals: map<nat, seq<Restore>>
    var active: Option<Active>
    /** The restores that have been run, in order. */
    var undone: seq<Restore>

    constructor (landscape: seq<bool>, props: Props)
      ensures this.landscape == landscape && this.props == props && journals == map[] && active == None && undone == []
    {
      this.landscape, this.props := landscape, props;
      sequence, journals, active, undone := 0, map[], None, [];
    }

    method BeginTransaction(job: nat, tokenValid: bool) returns (r: Result<nat, FormatError>)
      modifies this`sequence, this`journals, this`active
      ensures r.Success? <==> tokenValid && old(active) == None
      ensures r.Success? ==> r.value == old(sequence) + 1 && sequence == r.value
      ensures r.Success? ==> journals == old(journals)[r.value := []] && active == Some(Active(job, r.value, 0))
      ensures r.Failure? ==> journals == old(journals) && active == old(active) && sequence == old(sequence)
    {
      if !tokenValid {
        return Failure(TokenChanged);
      }
      if active != None {
        return Failure(Busy);
      }
      sequence := sequence + 1;
      journals := journals[sequence := []];
      active := Some(Active(job, sequence, 0));
      return Success(sequence);
    }

    /** Push a restore; a transaction never begun gets its journal here. */
    method Capture(transaction: nat, restore: Restore)
      modifies this`journals
      ensures journals == old(journals)[transaction :=
                (if transaction in old(journals) then old(journals)[transaction] else []) + [restore]]
    {
      if transaction !in journals {
        journals := journals[transaction := []];
      }
      journals := journals[transaction := journals[transaction] + [restore]];
    }

    /** Run the journal last to first and drop it; a restore that throws stops this, and the journal stays, reversed. */
    method RollbackJournal(transaction: nat, throws: Option<nat>) returns (ok: bool)
      modifies this`props, this`journals, this`undone
      ensures transaction !in old(journals) ==>
                ok && props == old(props) && undone == old(undone) && journals == old(journals)
      ensures transaction in old(journals) ==>
                var journal := old(journals)[transaction];
                && ok == !Throws(journal, throws)
                && props == Unwind(old(props), ToRun(journal, throws))
                && undone == old(undone) + Backwards(ToRun(journal, throws))
                && journals == Left(old(journals), transaction, journal, throws)
    {
      if transaction !in journals {
        return true;
      }
      var journal := journals[transaction];
      journals := journals[transaction := Backwards(journal)];
      var toRun := ToRun(journal, throws);
      while toRun != []
        invariant journals == old(journals)[transaction := Backwards(journal)]
        invariant Unwind(props, toRun) == Unwind(old(props), ToRun(journal, throws))
        invariant undone + Backwards(toRun) == old(undone) + Backwards(ToRun(journal, throws))
        decreases |toRun|
      {
        RerunStep(undone, toRun);
        var restore := toRun[|toRun| - 1];
        toRun := toRun[..|toRun| - 1];
        props := props + restore.Saved();
        undone := undone + [restore];
      }
      if Throws(journal, throws) {
        return false;
      }
      ReversedThenDropped(old(journals), transaction, Backwards(journal));
      journals := journals - {transaction};
      return true;
    }

    /** Apply and capture one command after the other, until one throws. */
    method ApplyAll(transaction: nat, commands: seq<Command>, fates: seq<Fate>) returns (executed: nat)
      requires |fates| == |commands| && transaction in journals
      modifies this`props, this`journals
      ensures executed == FirstFailure(fates)
      ensures props == PropsThrown(old(props), commands, landscape, fates)
      ensures Extends(journals, old(journals), transaction, Journal(old(props), Effects(commands, landscape), executed))
    {
      executed := 0;
      while executed < |commands|
        invariant 0 <= executed <= |commands|
        invariant forall i :: 0 <= i < executed ==> fates[i] == Works
        invariant props == After(old(props), Effects(commands, landscape), executed)
        invariant Extends(journals, old(journals), transaction,
                          Journal(old(props), Effects(commands, landscape), executed))
      {
        if fates[executed] != Works {
          FirstFailureIs(fates, executed);
          props := Thrown(props, commands[executed], landscape, fates[executed]);
          return;
        }
        var effect := EffectOf(commands[executed], landscape);
        var restore := Save(props, effect);
        CaptureExtends(journals, old(journals), transaction,
                       Journal(old(props), Effects(commands, landscape), executed), restore);
        props := props + effect.writes;
        Capture(transaction, restore);
        executed := executed + 1;
      }
      FirstFailureIs(fates, executed);
    }

    /** The executor: apply, capture, and on the first error unwind the whole journal of the transaction.  `failed` is
        whether a failing command is named: a grid that does not read back names none. */
    method Execute(transaction: nat, commands: seq<Command>, fates: seq<Fate>, gridReadsBack: bool, throws: Option<nat>)
      returns (failed: bool, rolledBack: bool)
      requires |fates| == |commands| && transaction in journals
      modifies this`props, this`journals, this`undone
      ensures failed <==> FirstFailure(fates) < |fates|
      ensures !failed && gridReadsBack ==>
                && !rolledBack && undone == old(undone)
                && props == After(old(props), Effects(commands, landscape), |commands|)
                && Extends(journals, old(journals), transaction,
                           Journal(old(props), Effects(commands, landscape), |commands|))
      ensures failed || !gridReadsBack ==>
                var journal := FullJournal(old(journals), transaction, old(props), commands, landscape, fates);
                && rolledBack == !Throws(journal, throws)
                && props == Unwind(PropsThrown(old(props), commands, landscape, fates), ToRun(journal, throws))
                && undone == old(undone) + Backwards(ToRun(journal, throws))
                && journals == Left(old(journals), transaction, journal, throws)
    {
      var executed := ApplyAll(transaction, commands, fates);
      failed := executed < |commands|;
      if failed || !gridReadsBack {
        LeftExtends(journals, old(journals), transaction, journals[transaction], throws);
        rolledBack := RollbackJournal(transaction, throws);
        return failed, rolledBack;
      }
      return false, false;
    }

    /** A batch is reported as failed when a command failed or everything has been rolled back.  A grid that does not
        read back and a restore that then throws are neither: the batch is reported as done. */
    method ApplyBatch(job: nat, transaction: nat, commands: seq<Command>, fates: seq<Fate>, gridReadsBack: bool,
                      tokenValid: bool, throws: Option<nat>)
      returns (r: Result<nat, FormatError>)
      requires |fates| == |commands|
      requires active.Some? ==> active.value.transaction in journals
      modifies this`props, this`journals, this`undone, this`active
      ensures r.Success? || r == Failure(ExecutionFailed) <==>
                tokenValid && Owns(old(active), job, transaction) && 1 <= |commands| <= FORMAT_BATCH_LIMIT
      ensures r.Success? ==>
                FirstFailure(fates) == |fates|
                && (gridReadsBack
                    || Throws(FullJournal(old(journals), transaction, old(props), commands, landscape, fates), throws))
      ensures r == Failure(ExecutionFailed) ==>
                FirstFailure(fates) < |fates|
                || (!gridReadsBack
                    && !Throws(FullJournal(old(journals), transaction, old(props), commands, landscape, fates), throws))
      ensures r.Success? ==>
                r.value == |commands|
                && active == Some(Active(job, transaction, old(active).value.executed + |commands|))
      ensures r.Success? && gridReadsBack ==>
                && undone == old(undone) && props == After(old(props), Effects(commands, landscape), |commands|)
                && Extends(journals, old(journals), transaction,
                           Journal(old(props), Effects(commands, landscape), |commands|))
      ensures r == Failure(ExecutionFailed) ==> active == None
      ensures r == Failure(ExecutionFailed) || (r.Success? && !gridReadsBack) ==>
                && Owns(old(active), job, transaction)
                && var journal := FullJournal(old(journals), transaction, old(props), commands, landscape, fates);
                && props == Unwind(PropsThrown(old(props), commands, landscape, fates), ToRun(journal, throws))
                && undone == old(undone) + Backwards(ToRun(journal, throws))
                && journals == Left(old(journals), transaction, journal, throws)
      ensures r.Failure? && r.error != ExecutionFailed ==>
                props == old(props) && journals == old(journals) && undone == old(undone) && active == old(active)
    {
      if !tokenValid {
        return Failure(TokenChanged);
      }
      if !Owns(active, job, transaction) {
        return Failure(Mismatch);
      }
      if !(1 <= |commands| <= FORMAT_BATCH_LIMIT) {
        return Failure(BatchInvalid);
      }
      var failed, rolledBack := Execute(transaction, commands, fates, gridReadsBack, throws);
      if failed || rolledBack {
        active := None;
        return Failure(ExecutionFailed);
      }
      active := Some(active.value.(executed := active.value.executed + |commands|));
      return Success(|commands|);
    }

    method RollbackTransaction(job: nat, transaction: nat, throws: Option<nat>) returns (rolledBack: bool)
      modifies this`props, this`journals, this`undone, this`active
      ensures !Owns(old(active), job, transaction) ==>
                && !rolledBack && active == old(active)
                && props == old(props) && journals == old(journals) && undone == old(undone)
      ensures Owns(old(active), job, transaction) ==> active == None
      ensures Owns(old(active), job, transaction) && transaction !in old(journals) ==>
                rolledBack && props == old(props) && journals == old(journals) && undone == old(undone)
      ensures Owns(old(active), job, transaction) && transaction in old(journals) ==>
                var journal := old(journals)[transaction];
                && rolledBack == !Throws(journal, throws)
                && props == Unwind(old(props), ToRun(journal, throws))
                && undone == old(undone) + Backwards(ToRun(journal, throws))
                && journals == Left(old(journals), transaction, journal, throws)
    {
      if !Owns(active, job, transaction) {
        return false;
      }
      rolledBack := RollbackJournal(transaction, throws);
      active := None;
    }

    method CommitTransaction(job: nat, transaction: nat, tokenValid: bool) returns (r: Result<nat, FormatError>)
      modifies this`journals, this`active
      ensures r.Success? <==> tokenValid && Owns(old(active), job, transaction)
      ensures r.Success? ==>
                r.value == old(active).value.executed && active == None && journals == old(journals) - {transaction}
      ensures r.Failure? ==> journals == old(journals) && active == old(active)
    {
      if !tokenValid {
        return Failure(TokenChanged);
      }
      if !Owns(active, job, transaction) {
        return Failure(Mismatch);
      }
      journals := journals - {transaction};
      var executed := active.value.executed;
      active := None;
      return Success(executed);
    }
  }

  /** The journal of the transaction has grown by `more`; all other journals are as before. */
  ghost predicate Extends(now: map<nat, seq<Restore>>, before: map<nat, seq<Restore>>, transaction: nat,
                          more: seq<Restore>) {
    && transaction in before && transaction in now
    && now[transaction] == before[transaction] + more && now - {transaction} == before - {transaction}
  }

  predicate Owns(active: Option<Active>, job: nat, transaction: nat) {
    active.Some? && active.value.job == job && active.value.transaction == transaction
  }

  function FirstFailure(fates: seq<Fate>): (n: nat)
    ensures n <= |fates| && (n < |fates| ==> fates[n] != Works) && forall i :: 0 <= i < n ==> fates[i] == Works
  {
    if fates == [] || fates[0] != Works then 0 else 1 + FirstFailure(fates[1..])
  }

  lemma {:induction false} FirstFailureIs(fates: seq<Fate>, n: nat)
    requires n <= |fates| && (forall i :: 0 <= i < n ==> fates[i] == Works) && (n < |fates| ==> fates[n] != Works)
    ensures FirstFailure(fates) == n
  {
    var m := FirstFailure(fates);
  }
}
