/** What the document's properties read after a committed run: what the last command asked that addresses them. */
module FormatWrites {
  import opened Results
  import opened FormatJournal
  import opened FormatWorker

  /** The document at the end of a run of the worker. */
  ghost function Final(props: Props, commands: seq<Command>, landscape: seq<bool>, script: Script): Props
    requires |script.fates| == |commands|
  {
    Worked(Work(props, [], []), commands, landscape, script, 0).work.props
  }

  ghost predicate Commits(commands: seq<Command>, script: Script) {
    |script.fates| == |commands| && RunFrom(commands, script, 0) == Committed
  }

  lemma FinalIsAfter(props: Props, commands: seq<Command>, landscape: seq<bool>, script: Script)
    requires Commits(commands, script)
    ensures Final(props, commands, landscape, script) == After(props, Effects(commands, landscape), |commands|)
  {
    hide Effects, Worked, RunFrom, StoppingThrows;
    StartIs(props, [], commands, landscape, script);
  }

  // ---------------------------------------------------------------- the last writer of a slot

  lemma {:induction false} NobodyWrites(props: Props, commands: seq<Command>, landscape: seq<bool>, n: nat, s: Slot)
    requires n <= |commands| && forall i :: 0 <= i < n ==> s !in Written(commands[i], landscape)
    ensures Get(After(props, Effects(commands, landscape), n), s) == Get(props, s)
    decreases n
  {
    hide Written, Requested;
    if n > 0 {
      NobodyWrites(props, commands, landscape, n - 1, s);
    }
  }

  lemma {:induction false} LastWrites(props: Props, commands: seq<Command>, landscape: seq<bool>, n: nat, m: nat,
                                      s: Slot)
    requires m < n <= |commands| && s in Written(commands[m], landscape)
    requires forall i :: m < i < n ==> s !in Written(commands[i], landscape)
    ensures Get(After(props, Effects(commands, landscape), n), s) == Requested(commands[m], landscape, s)
    decreases n
  {
    hide Written, Requested;
    if m < n - 1 {
      LastWrites(props, commands, landscape, n - 1, m, s);
    }
  }

  /** Command m is the last one that writes this slot. */
  ghost predicate WritesLast(commands: seq<Command>, landscape: seq<bool>, m: nat, s: Slot) {
    && m < |commands| && s in Written(commands[m], landscape)
    && forall i :: m < i < |commands| ==> s !in Written(commands[i], landscape)
  }

  lemma ReadsLast(props: Props, commands: seq<Command>, landscape: seq<bool>, script: Script, m: nat, s: Slot)
    requires Commits(commands, script) && WritesLast(commands, landscape, m, s)
    ensures Get(Final(props, commands, landscape, script), s) == Requested(commands[m], landscape, s)
  {
    hide Written, Requested, Final, Effects, After;
    FinalIsAfter(props, commands, landscape, script);
    LastWrites(props, commands, landscape, |commands|, m, s);
  }

  // ---------------------------------------------------------------- kind by kind

  /** The characters of the last font command for them. */
  lemma FontReads(props: Props, commands: seq<Command>, landscape: seq<bool>, script: Script, m: nat)
    requires Commits(commands, script) && m < |commands| && commands[m].arguments.FontArguments?
    requires forall i :: m < i < |commands| && commands[i].arguments.FontArguments? ==>
               commands[i].target != commands[m].target
    ensures var final, a := Final(props, commands, landscape, script), commands[m].arguments;
            var owner := TargetRange(commands[m].target);
            && Get(final, Slot(owner, NameAscii)) == Name(a.latin)
            && Get(final, Slot(owner, NameOther)) == Name(a.latin)
            && Get(final, Slot(owner, NameFarEast)) == Name(a.eastAsia)
            && Get(final, Slot(owner, Size)) == Number(a.size)
            && Get(final, Slot(owner, Bold)) == Number(if a.bold then 1.0 else 0.0)
            && Get(final, Slot(owner, Spacing)) == Number(0.0) && Get(final, Slot(owner, Scaling)) == Number(100.0)
            && Get(final, Slot(owner, DisableCharacterSpaceGrid)) == Flag(true)
  {
    hide Final, RunFrom;
    forall p | p in FONT
      ensures Get(Final(props, commands, landscape, script), Slot(TargetRange(commands[m].target), p)) ==
              Requested(commands[m], landscape, Slot(TargetRange(commands[m].target), p))
    {
      ReadsLast(props, commands, landscape, script, m, Slot(TargetRange(commands[m].target), p));
    }
  }

  /** The paragraph of the last alignment command in it. */
  lemma AlignmentReads(props: Props, commands: seq<Command>, landscape: seq<bool>, script: Script, m: nat)
    requires Commits(commands, script) && m < |commands| && commands[m].arguments.AlignmentArgument?
    requires forall i :: m < i < |commands| && commands[i].arguments.AlignmentArgument? ==>
               commands[i].paragraph != commands[m].paragraph
    ensures var side := commands[m].arguments.side;
            Get(Final(props, commands, landscape, script), Slot(ParagraphOf(commands[m].paragraph), Alignment)) ==
            Number(if side == AtLeft then 0.0 else if side == Centered then 1.0 else if side == AtRight then 2.0
                   else if side == Justified then 3.0 else 4.0)
  {
    hide Final, RunFrom;
    ReadsLast(props, commands, landscape, script, m, Slot(ParagraphOf(commands[m].paragraph), Alignment));
  }

  lemma IndentReads(props: Props, commands: seq<Command>, landscape: seq<bool>, script: Script, m: nat)
    requires Commits(commands, script) && m < |commands| && commands[m].arguments.IndentArguments?
    requires forall i :: m < i < |commands| && commands[i].arguments.IndentArguments? ==>
               commands[i].paragraph != commands[m].paragraph
    ensures var final, a := Final(props, commands, landscape, script), commands[m].arguments;
            var owner := ParagraphOf(commands[m].paragraph);
            && Get(final, Slot(owner, FirstLineIndent)) == Number(a.first)
            && Get(final, Slot(owner, LeftIndent)) == Number(a.left)
            && Get(final, Slot(owner, RightIndent)) == Number(a.right)
  {
    hide Final, RunFrom;
    forall p | p in INDENT
      ensures Get(Final(props, commands, landscape, script), Slot(ParagraphOf(commands[m].paragraph), p)) ==
              Requested(commands[m], landscape, Slot(ParagraphOf(commands[m].paragraph), p))
    {
      ReadsLast(props, commands, landscape, script, m, Slot(ParagraphOf(commands[m].paragraph), p));
    }
  }

  lemma SpacingReads(props: Props, commands: seq<Command>, landscape: seq<bool>, script: Script, m: nat)
    requires Commits(commands, script) && m < |commands| && commands[m].arguments.SpacingArguments?
    requires forall i :: m < i < |commands| && commands[i].arguments.SpacingArguments? ==>
               commands[i].paragraph != commands[m].paragraph
    ensures var final, a := Final(props, commands, landscape, script), commands[m].arguments;
            var owner := ParagraphOf(commands[m].paragraph);
            && Get(final, Slot(owner, LineUnitBefore)) == Number(a.before)
            && Get(final, Slot(owner, LineUnitAfter)) == Number(a.after)
            && Get(final, Slot(owner, LineSpacingRule)) == Number(4.0)
            && Get(final, Slot(owner, LineSpacing)) == Number(a.line)
            && Get(final, Slot(owner, PageBreakBefore)) == Number(if a.pageBreak then 1.0 else 0.0)
            && Get(final, Slot(owner, OutlineLevel)) ==
               Number(if a.outline == None then 10.0 else a.outline.value as real)
            && Get(final, Slot(owner, SnapToGrid)) == Flag(false)
  {
    hide Final, RunFrom, Written;
    forall p | p in SPACING
      ensures Get(Final(props, commands, landscape, script), Slot(ParagraphOf(commands[m].paragraph), p)) ==
              Requested(commands[m], landscape, Slot(ParagraphOf(commands[m].paragraph), p))
    {
      SpacingWritesLast(commands, landscape, m, p);
      ReadsLast(props, commands, landscape, script, m, Slot(ParagraphOf(commands[m].paragraph), p));
    }
  }

  lemma SpacingWritesLast(commands: seq<Command>, landscape: seq<bool>, m: nat, p: Property)
    requires m < |commands| && commands[m].arguments.SpacingArguments? && p in SPACING
    requires forall i :: m < i < |commands| && commands[i].arguments.SpacingArguments? ==>
               commands[i].paragraph != commands[m].paragraph
    ensures WritesLast(commands, landscape, m, Slot(ParagraphOf(commands[m].paragraph), p))
  {
  }

  ghost function PageRead(final: Props, j: nat, p: Property): Value { Get(final, Slot(SectionPage(j), p)) }

  function InPoints(centimetres: real): Value { Number(centimetres * 28.3464567) }

  /** The section's page has these edges, no grid and the layout without one. */
  ghost predicate HasEdges(final: Props, j: nat, e: Edges) {
    && PageRead(final, j, PageWidth) == InPoints(e.width) && PageRead(final, j, PageHeight) == InPoints(e.height)
    && PageRead(final, j, TopMargin) == InPoints(e.top) && PageRead(final, j, BottomMargin) == InPoints(e.bottom)
    && PageRead(final, j, LeftMargin) == InPoints(e.left) && PageRead(final, j, RightMargin) == InPoints(e.right)
    && PageRead(final, j, LayoutMode) == Number(0.0) && PageRead(final, j, ShowGrid) == Flag(false)
  }

  /** Every section after the last page setup: a portrait section has each edge as asked; a landscape section has width
      and height exchanged, and its top, bottom, left and right edges have the margins asked for the left, right, bottom
      and top. */
  lemma PageReads(props: Props, commands: seq<Command>, landscape: seq<bool>, script: Script, m: nat, j: nat)
    requires Commits(commands, script) && m < |commands| && commands[m].arguments.PageArguments? && j < |landscape|
    requires forall i :: m < i < |commands| ==> !commands[i].arguments.PageArguments?
    ensures var e := commands[m].arguments.edges;
            HasEdges(Final(props, commands, landscape, script), j,
                     if landscape[j] then Edges(e.height, e.width, e.left, e.right, e.bottom, e.top) else e)
  {
    hide Final, RunFrom, Requested, Written, HasEdges, PageValue;
    var final, target := Final(props, commands, landscape, script),
        SectionTarget(commands[m].arguments.edges, landscape[j]);
    forall p | p in PAGE_WRITTEN ensures PageRead(final, j, p) == PageValue(target, p) {
      PageWritesLast(commands, landscape, m, j, p);
      ReadsLast(props, commands, landscape, script, m, Slot(SectionPage(j), p));
      PageAsked(commands[m], landscape, j, p);
    }
    EdgesFrom(final, j, target);
  }

  lemma PageAsked(command: Command, landscape: seq<bool>, j: nat, p: Property)
    requires command.arguments.PageArguments? && j < |landscape|
    ensures Requested(command, landscape, Slot(SectionPage(j), p)) ==
            PageValue(SectionTarget(command.arguments.edges, landscape[j]), p)
  {
    hide PageValue, SectionTarget;
  }

  lemma EdgesFrom(final: Props, j: nat, e: Edges)
    requires forall p :: p in PAGE_WRITTEN ==> PageRead(final, j, p) == PageValue(e, p)
    ensures HasEdges(final, j, e)
  {
    hide PageRead;
    assert forall c :: Points(c) == InPoints(c);
  }

  lemma PageWritesLast(commands: seq<Command>, landscape: seq<bool>, m: nat, j: nat, p: Property)
    requires m < |commands| && commands[m].arguments.PageArguments? && j < |landscape| && p in PAGE_WRITTEN
    requires forall i :: m < i < |commands| ==> !commands[i].arguments.PageArguments?
    ensures WritesLast(commands, landscape, m, Slot(SectionPage(j), p))
  {
    assert SectionPage(j) in Owners(commands[m], landscape);
    forall i | m < i < |commands| ensures Slot(SectionPage(j), p) !in Written(commands[i], landscape) {
      assert commands[i].kind != SetPageSetup;
    }
  }

  /** Two quarter turns exchange opposite edges, and four leave the page as it was. */
  lemma QuarterTurns(e: Edges)
    ensures var half := SectionTarget(SectionTarget(e, true), true);
            && half == Edges(e.width, e.height, e.bottom, e.top, e.right, e.left)
            && SectionTarget(SectionTarget(half, true), true) == e && SectionTarget(e, false) == e
  {
  }

  // ---------------------------------------------------------------- everything else

  /** The command is about this property of this object. */
  ghost predicate Addresses(command: Command, landscape: seq<bool>, s: Slot) {
    match command.arguments
    case FontArguments(_, _, _, _) =>
      s.owner == TargetRange(command.target)
      && s.property in {NameAscii, NameOther, NameFarEast, Size, Bold, Spacing, Scaling, DisableCharacterSpaceGrid}
    case AlignmentArgument(_) => s == Slot(ParagraphOf(command.paragraph), Alignment)
    case IndentArguments(_, _, _) =>
      s.owner == ParagraphOf(command.paragraph) && s.property in {FirstLineIndent, LeftIndent, RightIndent}
    case SpacingArguments(_, _, _, _, _) =>
      s.owner == ParagraphOf(command.paragraph)
      && s.property in {LineUnitBefore, LineUnitAfter, LineSpacingRule, LineSpacing, PageBreakBefore, OutlineLevel,
                        SnapToGrid}
    case PageArguments(_) =>
      s.owner.SectionPage? && s.owner.index < |landscape|
      && s.property in {PageWidth, PageHeight, TopMargin, BottomMargin, LeftMargin, RightMargin, LayoutMode, ShowGrid}
  }

  lemma AddressesExactly(command: Command, landscape: seq<bool>, s: Slot)
    ensures s in Written(command, landscape) <==> Addresses(command, landscape, s)
  {
    hide Requested;
    if Addresses(command, landscape, s) {
      assert s.owner in Owners(command, landscape) && s.property in WrittenProperties(command.kind);
      assert s == Slot(s.owner, s.property);
    }
  }

  /** What no command addresses reads as before, in every committed run. */
  lemma OthersRead(props: Props, commands: seq<Command>, landscape: seq<bool>, script: Script, s: Slot)
    requires Commits(commands, script) && forall i :: 0 <= i < |commands| ==> !Addresses(commands[i], landscape, s)
    ensures Get(Final(props, commands, landscape, script), s) == Get(props, s)
  {
    hide Final, Written, Addresses, Effects, After;
    FinalIsAfter(props, commands, landscape, script);
    forall i | 0 <= i < |commands| ensures s !in Written(commands[i], landscape) {
      AddressesExactly(commands[i], landscape, s);
    }
    NobodyWrites(props, commands, landscape, |commands|, s);
  }
}
