/** Formatting commands, what each captures before it writes, and what unwinding the captures in reverse restores. */
module FormatJournal {
  import opened Results

  datatype Property =
    | NameAscii | NameOther | NameFarEast | Size | Bold | Spacing | Scaling | DisableCharacterSpaceGrid
    | Alignment
    | FirstLineIndent | LeftIndent | RightIndent
    | LineUnitBefore | LineUnitAfter | LineSpacingRule | LineSpacing | PageBreakBefore | OutlineLevel | SnapToGrid
    | PageWidth | PageHeight | TopMargin | BottomMargin | LeftMargin | RightMargin
    | LinesPage | CharsLine | LayoutMode | ShowGrid

  /** The object a property belongs to: the range of a target, a whole paragraph, or the page setup of a section. */
  datatype Owner = TargetRange(id: nat) | ParagraphOf(index: nat) | SectionPage(index: nat)

  datatype Slot = Slot(owner: Owner, property: Property)

  datatype Value = Undefined | Number(r: real) | Name(s: string) | Flag(b: bool)

  /** The document's format properties; a slot that is not listed reads as undefined. */
  type Props = map<Slot, Value>

  function Get(props: Props, slot: Slot): Value {
    if slot in props then props[slot] else Undefined
  }

  ghost predicate Same(a: Props, b: Props) {
    forall s :: Get(a, s) == Get(b, s)
  }

  datatype Kind = SetFont | SetAlignment | SetIndent | SetSpacing | SetPageSetup

  datatype Side = AtLeft | Centered | AtRight | Justified | Distributed

  /** The edges of a page, in centimetres. */
  datatype Edges = Edges(width: real, height: real, top: real, bottom: real, left: real, right: real)

  datatype Arguments =
    | FontArguments(latin: string, eastAsia: string, size: real, bold: bool)
    | AlignmentArgument(side: Side)
    | IndentArguments(first: real, left: real, right: real)
    | SpacingArguments(before: real, after: real, line: real, pageBreak: bool, outline: Option<int>)
    | PageArguments(edges: Edges)

  /** `target` numbers the character range the command names, `paragraph` the paragraph that range lies in. */
  datatype Command = Command(id: nat, target: nat, paragraph: nat, arguments: Arguments) {
    const kind: Kind :=
      match arguments
      case FontArguments(_, _, _, _) => SetFont
      case AlignmentArgument(_) => SetAlignment
      case IndentArguments(_, _, _) => SetIndent
      case SpacingArguments(_, _, _, _, _) => SetSpacing
      case PageArguments(_) => SetPageSetup
  }

  const FONT := {NameAscii, NameOther, NameFarEast, Size, Bold, Spacing, Scaling, DisableCharacterSpaceGrid}
  const INDENT := {FirstLineIndent, LeftIndent, RightIndent}
  const SPACING := {LineUnitBefore, LineUnitAfter, LineSpacingRule, LineSpacing, PageBreakBefore, OutlineLevel,
      SnapToGrid}
  const PAGE_WRITTEN := {PageWidth, PageHeight, TopMargin, BottomMargin, LeftMargin, RightMargin, LayoutMode, ShowGrid}
  const PAGE_CAPTURED := PAGE_WRITTEN + {LinesPage, CharsLine}

  /** The properties a command of this kind writes, and those it captures first. */
  function WrittenProperties(kind: Kind): set<Property> {
    match kind
    case SetFont => FONT
    case SetAlignment => {Alignment}
    case SetIndent => INDENT
    case SetSpacing => SPACING
    case SetPageSetup => PAGE_WRITTEN
  }

  function CapturedProperties(kind: Kind): set<Property> {
    if kind == SetPageSetup then PAGE_CAPTURED else WrittenProperties(kind)
  }

  /** Page setup goes to every section and fonts to the target's characters; alignment, indents and spacing are the
      paragraph's, whatever part of it the target is. */
  function Owners(command: Command, landscape: seq<bool>): set<Owner> {
    match command.kind
    case SetPageSetup => set j | 0 <= j < |landscape| :: SectionPage(j)
    case SetFont => {TargetRange(command.target)}
    case _ => {ParagraphOf(command.paragraph)}
  }

  function Captured(command: Command, landscape: seq<bool>): set<Slot> {
    set o, p | o in Owners(command, landscape) && p in CapturedProperties(command.kind) :: Slot(o, p)
  }

  function Written(command: Command, landscape: seq<bool>): set<Slot> {
    set o, p | o in Owners(command, landscape) && p in WrittenProperties(command.kind) :: Slot(o, p)
  }

  const POINTS_PER_CENTIMETRE := 28.3464567

  function Points(centimetres: real): Value { Number(centimetres * POINTS_PER_CENTIMETRE) }

  function OneIf(b: bool): Value { if b then Number(1.0) else Number(0.0) }

  function SideNumber(side: Side): Value {
    match side
    case AtLeft => Number(0.0)
    case Centered => Number(1.0)
    case AtRight => Number(2.0)
    case Justified => Number(3.0)
    case Distributed => Number(4.0)
  }

  /** A landscape section keeps its orientation: the page edges are rotated. */
  function SectionTarget(edges: Edges, landscape: bool): Edges {
    if landscape then Edges(edges.height, edges.width, edges.left, edges.right, edges.bottom, edges.top) else edges
  }

  function PageValue(target: Edges, p: Property): Value {
    match p
    case PageWidth => Points(target.width)
    case PageHeight => Points(target.height)
    case TopMargin => Points(target.top)
    case BottomMargin => Points(target.bottom)
    case LeftMargin => Points(target.left)
    case RightMargin => Points(target.right)
    case LayoutMode => Number(0.0)
    case ShowGrid => Flag(false)
    case _ => Undefined
  }

  /** What a command writes into one of its slots. */
  function Requested(command: Command, landscape: seq<bool>, slot: Slot): Value {
    match command.arguments
    case FontArguments(latin, eastAsia, size, bold) =>
      (match slot.property
       case NameAscii => Name(latin)
       case NameOther => Name(latin)
       case NameFarEast => Name(eastAsia)
       case Size => Number(size)
       case Bold => OneIf(bold)
       case Spacing => Number(0.0)
       case Scaling => Number(100.0)
       case DisableCharacterSpaceGrid => Flag(true)
       case _ => Undefined)
    case AlignmentArgument(side) => SideNumber(side)
    case IndentArguments(first, left, right) =>
      (match slot.property
       case FirstLineIndent => Number(first)
       case LeftIndent => Number(left)
       case RightIndent => Number(right)
       case _ => Undefined)
    case SpacingArguments(before, after, line, pageBreak, outline) =>
      (match slot.property
       case LineUnitBefore => Number(before)
       case LineUnitAfter => Number(after)
       case LineSpacingRule => Number(4.0)
       case LineSpacing => Number(line)
       case PageBreakBefore => OneIf(pageBreak)
       case OutlineLevel => Number(if outline.Some? then outline.value as real else 10.0)
       case SnapToGrid => Flag(false)
       case _ => Undefined)
    case PageArguments(edges) =>
      var across := slot.owner.SectionPage? && slot.owner.index < |landscape| && landscape[slot.owner.index];
      PageValue(SectionTarget(edges, across), slot.property)
  }

  /** Everything a completed command has written. */
  function Writes(command: Command, landscape: seq<bool>): Props {
    map s | s in Written(command, landscape) :: Requested(command, landscape, s)
  }

  /** What a command does when it completes: the slots it captures first, and what it then writes. */
  datatype Effect = Effect(command: nat, captured: set<Slot>, writes: Props)

  function EffectOf(command: Command, landscape: seq<bool>): Effect {
    Effect(command.id, Captured(command, landscape), Writes(command, landscape))
  }

  function Effects(commands: seq<Command>, landscape: seq<bool>): (r: seq<Effect>)
    ensures |r| == |commands|
  {
    seq(|commands|, i requires 0 <= i < |commands| => EffectOf(commands[i], landscape))
  }

  /** Nothing is written that was not captured. */
  ghost predicate Proper(effects: seq<Effect>) {
    forall i :: 0 <= i < |effects| ==> effects[i].writes.Keys <= effects[i].captured
  }

  lemma EffectsProper(commands: seq<Command>, landscape: seq<bool>)
    ensures Proper(Effects(commands, landscape))
  {
    forall i | 0 <= i < |commands|
      ensures Effects(commands, landscape)[i].writes.Keys <= Effects(commands, landscape)[i].captured
    {
      assert Written(commands[i], landscape) <= Captured(commands[i], landscape);
    }
  }

  /** The restore closure: the captured slots, and the properties from before the command that it gives back to them. */
  datatype Restore = Restore(command: nat, captured: set<Slot>, before: Props) {
    function Saved(): Props { map s | s in captured :: Get(before, s) }
  }

  function Save(props: Props, effect: Effect): Restore {
    Restore(effect.command, effect.captured, props)
  }

  // ---------------------------------------------------------------- running and unwinding

  /** The properties after the first n commands have completed. */
  function After(props: Props, effects: seq<Effect>, n: nat): Props
    requires n <= |effects|
  {
    if n == 0 then props else After(props, effects, n - 1) + effects[n - 1].writes
  }

  /** The journal after the first n commands: what each saw before it wrote. */
  function Journal(props: Props, effects: seq<Effect>, n: nat): (r: seq<Restore>)
    requires n <= |effects|
    ensures |r| == n
  {
    if n == 0 then [] else Journal(props, effects, n - 1) + [Save(After(props, effects, n - 1), effects[n - 1])]
  }

  /** Restores run last to first. */
  function Unwind(props: Props, journal: seq<Restore>): Props
    decreases |journal|
  {
    if journal == [] then props else Unwind(props + journal[|journal| - 1].Saved(), journal[..|journal| - 1])
  }

  /** One of the first n commands captured this slot. */
  ghost predicate Covered(effects: seq<Effect>, n: nat, slot: Slot)
    requires n <= |effects|
  {
    n > 0 && (slot in effects[n - 1].captured || Covered(effects, n - 1, slot))
  }

  /** Unwinding restores a covered slot to its first value and leaves every other slot alone,
      whatever has been written meanwhile and however the commands overlap. */
  lemma {:induction false} UnwindSlot(props: Props, effects: seq<Effect>, n: nat, now: Props, slot: Slot)
    requires n <= |effects| && Proper(effects)
    ensures Get(Unwind(now, Journal(props, effects, n)), slot) ==
            if Covered(effects, n, slot) then Get(props, slot) else Get(now, slot)
    decreases n
  {
    if n > 0 {
      var last := Save(After(props, effects, n - 1), effects[n - 1]);
      UnwindStep(now, Journal(props, effects, n - 1), last);
      UnwindSlot(props, effects, n - 1, now + last.Saved(), slot);
      if !Covered(effects, n - 1, slot) {
        UncoveredUntouched(props, effects, n - 1, slot);
      }
    }
  }

  lemma {:induction false} UnwindStep(now: Props, journal: seq<Restore>, last: Restore)
    ensures Unwind(now, journal + [last]) == Unwind(now + last.Saved(), journal)
  {
    assert (journal + [last])[..|journal|] == journal;
  }

  lemma {:induction false} UncoveredUntouched(props: Props, effects: seq<Effect>, n: nat, slot: Slot)
    requires n <= |effects| && Proper(effects) && !Covered(effects, n, slot)
    ensures Get(After(props, effects, n), slot) == Get(props, slot)
    decreases n
  {
    if n > 0 {
      UncoveredUntouched(props, effects, n - 1, slot);
      assert slot !in effects[n - 1].writes.Keys;
    }
  }

  /** After n completed commands and any further writes `left`, unwinding gives back the original document
      iff every slot left with a foreign value was captured by one of the completed commands. */
  lemma {:induction false} UnwindRestores(props: Props, effects: seq<Effect>, n: nat, left: Props)
    requires n <= |effects| && Proper(effects)
    ensures var now := After(props, effects, n);
            Same(Unwind(now + left, Journal(props, effects, n)), props) <==>
            forall s :: s in left && left[s] != Get(now, s) ==> Covered(effects, n, s)
  {
    var now := After(props, effects, n);
    forall s ensures Get(Unwind(now + left, Journal(props, effects, n)), s) == Get(props, s) <==>
                     (s in left && left[s] != Get(now, s) ==> Covered(effects, n, s))
    {
      UnwindSlot(props, effects, n, now + left, s);
      if !Covered(effects, n, s) {
        UncoveredUntouched(props, effects, n, s);
      }
    }
  }

  /** `part` continues `effects` from position `a` to position `b`. */
  ghost predicate Continues(effects: seq<Effect>, part: seq<Effect>, a: nat, b: nat) {
    a <= b <= |effects| && b - a <= |part| && forall i :: a <= i < b ==> effects[i] == part[i - a]
  }

  /** A run continues where its first part stopped. */
  lemma AfterAppends(props: Props, effects: seq<Effect>, part: seq<Effect>, a: nat, b: nat)
    requires Continues(effects, part, a, b)
    ensures After(After(props, effects, a), part, b - a) == After(props, effects, b)
    decreases b
  {
    if a < b {
      AfterAppends(props, effects, part, a, b - 1);
      assert effects[b - 1] == part[b - 1 - a];
    }
  }

  lemma JournalAppends(props: Props, effects: seq<Effect>, part: seq<Effect>, a: nat, b: nat)
    requires Continues(effects, part, a, b)
    ensures Journal(props, effects, a) + Journal(After(props, effects, a), part, b - a) == Journal(props, effects, b)
    decreases b
  {
    hide After;
    if a < b {
      AfterAppends(props, effects, part, a, b - 1);
      assert effects[b - 1] == part[b - 1 - a];
      JournalAppends(props, effects, part, a, b - 1);
      var last := Save(After(props, effects, b - 1), effects[b - 1]);
      var start := Journal(props, effects, a);
      var more := Journal(After(props, effects, a), part, b - 1 - a);
      assert Journal(After(props, effects, a), part, b - a) == more + [last];
      assert start + (more + [last]) == (start + more) + [last];
    }
  }
}
