/** Which lists of formatting commands are all or nothing whatever the editor does to them. */
module FormatSafety {
  import opened Results
  import opened FormatJournal
  import opened FormatTransaction
  import opened FormatWorker

  /** A script for these commands whose readback failures leave only slots of the failing command. */
  ghost predicate Fits(commands: seq<Command>, landscape: seq<bool>, script: Script) {
    |script.fates| == |commands| && forall i :: 0 <= i < |commands| ==>
        FateFits(commands[i], landscape, script.fates[i])
  }

  /** A run of the worker that is not committed, and in which no restore throws. */
  ghost predicate Unwinds(commands: seq<Command>, landscape: seq<bool>, script: Script) {
    && Fits(commands, landscape, script) && RunFrom(commands, script, 0).RolledBack?
    && !Interrupted(commands, script, 0)
  }

  /** The worker's run ends with the document as it was. */
  ghost predicate Restored(props: Props, commands: seq<Command>, landscape: seq<bool>, script: Script)
    requires |script.fates| == |commands|
  {
    Same(Worked(Work(props, [], []), commands, landscape, script, 0).work.props, props)
  }

  /** Every unwound run that stops because command n throws leaves the document as it was. */
  ghost predicate SafeAt(commands: seq<Command>, landscape: seq<bool>, n: nat)
    requires n < |commands|
  {
    forall props, script ::
      Unwinds(commands, landscape, script) && RunFrom(commands, script, 0) == RolledBack(n, true) ==>
        Restored(props, commands, landscape, script)
  }

  /** Every unwound run leaves the document as it was. */
  ghost predicate Safe(commands: seq<Command>, landscape: seq<bool>) {
    forall props, script :: Unwinds(commands, landscape, script) ==> Restored(props, commands, landscape, script)
  }

  lemma {:induction false} UnwindsTo(props: Props, commands: seq<Command>, landscape: seq<bool>, script: Script)
    requires Unwinds(commands, landscape, script)
    ensures var run := RunFrom(commands, script, 0);
            && run.completed <= |commands| && (run.thrown ==> run.completed < |commands|)
            && (Restored(props, commands, landscape, script) <==>
                Same(RolledBackProps(props, commands, landscape, script, run.completed, run.thrown), props))
  {
    hide Effects, Worked, RunFrom, RolledBackProps, Interrupted, Backwards, Journal, Same, After;
    StartIs(props, [], commands, landscape, script);
  }

  // ---------------------------------------------------------------- a run in which only command n fails

  function FailsAt(commands: seq<Command>, n: nat, left: Props): Script
    requires n < |commands|
  {
    Script(seq(|commands|, i => if i == n then ReadbackFails(left) else Works), _ => false, _ => true, _ => true,
           _ => None, true, None)
  }

  lemma {:induction false} FailsThere(commands: seq<Command>, n: nat, left: Props, index: nat)
    requires index <= n < |commands|
    ensures RunFrom(commands, FailsAt(commands, n, left), index) == RolledBack(n, true)
    decreases |commands| - index
  {
    var script, end := FailsAt(commands, n, left), BatchEnd(commands, index);
    if n < end {
      FirstFailureIs(script.fates[index..end], n - index);
      RunFails(commands, script, index, end, n);
    } else {
      FirstFailureIs(script.fates[index..end], end - index);
      RunGoesOn(commands, script, index, end);
      FailsThere(commands, n, left, end);
    }
  }

  lemma {:induction false} NothingThrows(commands: seq<Command>, script: Script, index: nat)
    requires |script.fates| == |commands| && index <= |commands|
    requires script.lastThrows == None && forall k :: script.throws(k) == None
    ensures StoppingThrows(commands, script, index) == None
    decreases |commands| - index
  {
    if index < |commands| {
      NothingThrows(commands, script, BatchEnd(commands, index));
    }
  }

  // ---------------------------------------------------------------- one position

  /** A command is safe where it stands if and only if it is a page setup, or every slot it writes has been captured by
      a command before it. */
  lemma {:induction false} SafeAtExactly(commands: seq<Command>, landscape: seq<bool>, n: nat)
    requires n < |commands|
    ensures SafeAt(commands, landscape, n) <==>
            commands[n].kind == SetPageSetup
            || forall s :: s in Written(commands[n], landscape) ==> Covered(Effects(commands, landscape), n, s)
  {
    hide Covered, Written, Effects, RolledBackProps, RunFrom, Same, Interrupted, Worked, FateFits, Restored;
    if commands[n].kind == SetPageSetup
       || forall s :: s in Written(commands[n], landscape) ==> Covered(Effects(commands, landscape), n, s) {
      forall props, script | Unwinds(commands, landscape, script)
                             && RunFrom(commands, script, 0) == RolledBack(n, true)
        ensures Restored(props, commands, landscape, script)
      {
        UnwindsTo(props, commands, landscape, script);
        NothingForeign(props, commands, landscape, script, n);
      }
    } else {
      var s :| s in Written(commands[n], landscape) && !Covered(Effects(commands, landscape), n, s);
      ForeignStays(commands, landscape, n, s);
    }
  }

  lemma {:induction false} NothingForeign(props: Props, commands: seq<Command>, landscape: seq<bool>, script: Script,
                                          n: nat)
    requires n < |commands| && Fits(commands, landscape, script)
    requires commands[n].kind == SetPageSetup
             || forall s :: s in Written(commands[n], landscape) ==> Covered(Effects(commands, landscape), n, s)
    ensures Same(RolledBackProps(props, commands, landscape, script, n, true), props)
  {
    hide Covered, Written, Effects, RolledBackProps;
    AllOrNothing(props, commands, landscape, script, n, true);
    assert FateFits(commands[n], landscape, script.fates[n]);
  }

  /** The failing command writes another value than the one it finds in a slot nobody has captured. */
  lemma {:induction false} ForeignStays(commands: seq<Command>, landscape: seq<bool>, n: nat, s: Slot)
    requires n < |commands| && commands[n].kind != SetPageSetup
    requires s in Written(commands[n], landscape) && !Covered(Effects(commands, landscape), n, s)
    ensures exists script ::
              && Unwinds(commands, landscape, script) && RunFrom(commands, script, 0) == RolledBack(n, true)
              && !Restored(map[], commands, landscape, script)
  {
    hide Covered, Written, Effects, RolledBackProps, RunFrom, After, Worked, StoppingThrows;
    var found := Get(After(map[], Effects(commands, landscape), n), s);
    var left: Props := map[s := if found == Number(0.0) then Number(1.0) else Number(0.0)];
    var script := FailsAt(commands, n, left);
    FailsThere(commands, n, left, 0);
    NothingThrows(commands, script, 0);
    assert left.Keys == {s};
    assert Fits(commands, landscape, script);
    assert LeftBehind(commands[n], script.fates[n]) == left;
    AllOrNothing(map[], commands, landscape, script, n, true);
    assert s in left && left[s] != found;
    UnwindsTo(map[], commands, landscape, script);
  }

  // ---------------------------------------------------------------- one position, by the commands before it

  /** An earlier command of the same kind formats the same thing. */
  predicate Repeats(commands: seq<Command>, n: nat)
    requires n < |commands| && commands[n].kind != SetPageSetup
  {
    exists m :: 0 <= m < n && commands[m].kind == commands[n].kind && OwnerOf(commands[m]) == OwnerOf(commands[n])
  }

  lemma {:induction false} CoveredBySome(commands: seq<Command>, landscape: seq<bool>, n: nat, s: Slot)
    requires n <= |commands|
    ensures Covered(Effects(commands, landscape), n, s) <==>
            exists m :: 0 <= m < n && s in Captured(commands[m], landscape)
    decreases n
  {
    hide Captured;
    if n > 0 {
      CoveredBySome(commands, landscape, n - 1, s);
    }
  }

  /** Commands of different kinds, and commands that format different things, share no slot. */
  lemma CapturedAlike(a: Command, b: Command, landscape: seq<bool>, s: Slot)
    requires b.kind != SetPageSetup && s in Written(b, landscape)
    ensures s in Captured(a, landscape) <==> a.kind == b.kind && OwnerOf(a) == OwnerOf(b)
  {
    assert s.owner == OwnerOf(b) && s.property in WrittenProperties(b.kind);
    if a.kind != SetPageSetup {
      assert Owners(a, landscape) == {OwnerOf(a)};
    }
  }

  /** A paragraph command is safe where it stands if and only if a command of its kind before it formats the same
      characters or, for alignment, indents and spacing, the same paragraph. */
  lemma SafeByRepetition(commands: seq<Command>, landscape: seq<bool>, n: nat)
    requires n < |commands| && commands[n].kind != SetPageSetup
    ensures SafeAt(commands, landscape, n) <==> Repeats(commands, n)
  {
    hide Captured, Written, Covered, Effects, Owners;
    SafeAtExactly(commands, landscape, n);
    forall s | s in Written(commands[n], landscape)
      ensures Covered(Effects(commands, landscape), n, s) <==> Repeats(commands, n)
    {
      CoveredBySome(commands, landscape, n, s);
      forall m | 0 <= m < n
        ensures s in Captured(commands[m], landscape) <==>
                commands[m].kind == commands[n].kind && OwnerOf(commands[m]) == OwnerOf(commands[n])
      {
        CapturedAlike(commands[m], commands[n], landscape, s);
      }
    }
    SomethingWritten(commands[n], landscape);
  }

  lemma SomethingWritten(command: Command, landscape: seq<bool>)
    requires command.kind != SetPageSetup
    ensures Slot(OwnerOf(command), SomeProperty(command.kind)) in Written(command, landscape)
  {
    assert OwnerOf(command) in Owners(command, landscape);
  }

  // ---------------------------------------------------------------- the whole list

  function FirstOther(commands: seq<Command>): (n: nat)
    requires exists i :: 0 <= i < |commands| && commands[i].kind != SetPageSetup
    ensures n < |commands| && commands[n].kind != SetPageSetup
    ensures forall i :: 0 <= i < n ==> commands[i].kind == SetPageSetup
  {
    if commands[0].kind != SetPageSetup then 0
    else
      var i :| 0 <= i < |commands| && commands[i].kind != SetPageSetup;
      assert commands[1..][i - 1] == commands[i];
      1 + FirstOther(commands[1..])
  }

  /** Page setups capture nothing that belongs to a paragraph. */
  lemma {:induction false} PagesCoverNoRange(commands: seq<Command>, landscape: seq<bool>, n: nat, s: Slot)
    requires n <= |commands| && !s.owner.SectionPage?
    requires forall i :: 0 <= i < n ==> commands[i].kind == SetPageSetup
    ensures !Covered(Effects(commands, landscape), n, s)
    decreases n
  {
    if n > 0 {
      PagesCoverNoRange(commands, landscape, n - 1, s);
      assert s !in Captured(commands[n - 1], landscape);
    }
  }

  /** What a command other than a page setup formats. */
  function OwnerOf(command: Command): (o: Owner)
    requires command.kind != SetPageSetup
    ensures forall landscape :: Owners(command, landscape) == {o}
  {
    if command.kind == SetFont then TargetRange(command.target) else ParagraphOf(command.paragraph)
  }

  function SomeProperty(kind: Kind): (p: Property)
    requires kind != SetPageSetup
    ensures p in WrittenProperties(kind)
  {
    match kind
    case SetFont => Size
    case SetAlignment => Alignment
    case SetIndent => LeftIndent
    case SetSpacing => LineSpacing
  }

  /** A list of commands is all or nothing in every run if and only if it holds nothing but page setups: the first
      paragraph command in it always has slots that nobody has captured before it. */
  lemma SafeExactly(commands: seq<Command>, landscape: seq<bool>)
    ensures Safe(commands, landscape) <==> forall i :: 0 <= i < |commands| ==> commands[i].kind == SetPageSetup
  {
    hide Interrupted, FateFits, Restored, Effects, Covered, Written, Captured, RunFrom;
    if forall i :: 0 <= i < |commands| ==> commands[i].kind == SetPageSetup {
      forall props, script | Unwinds(commands, landscape, script)
        ensures Restored(props, commands, landscape, script)
      {
        PagesRestore(props, commands, landscape, script);
      }
    } else {
      var n := FirstOther(commands);
      var s := Slot(OwnerOf(commands[n]), SomeProperty(commands[n].kind));
      PagesCoverNoRange(commands, landscape, n, s);
      SomethingWritten(commands[n], landscape);
      ForeignStays(commands, landscape, n, s);
    }
  }

  lemma PagesRestore(props: Props, commands: seq<Command>, landscape: seq<bool>, script: Script)
    requires forall i :: 0 <= i < |commands| ==> commands[i].kind == SetPageSetup
    requires Unwinds(commands, landscape, script)
    ensures Restored(props, commands, landscape, script)
  {
    hide RunFrom, Effects, After, RolledBackProps, Worked, Interrupted, Restored;
    UnwindsTo(props, commands, landscape, script);
    var run := RunFrom(commands, script, 0);
    AllOrNothing(props, commands, landscape, script, run.completed, run.thrown);
  }
}
