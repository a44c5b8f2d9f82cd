/** Structural normalization: the live document, the plan, what the host accepts, and the
    declarative result of a plan. */
module StructureModel {
  import opened Results
  import opened Utf16
  import opened Sorting

  /** One live paragraph. `text` is its range text without the editor's terminators. */
  datatype Paragraph = Paragraph(text: Text, inTable: bool, sectionBreak: bool, pageBreakBefore: bool, hasObject: bool)

  type Document = seq<Paragraph>

  /** The paragraph mark is what separates paragraphs, so no paragraph text contains one. */
  ghost predicate ValidDocument(doc: Document) {
    forall i :: 0 <= i < |doc| ==> CR !in doc[i].text
  }

  datatype Gap = Gap(start: int, end: int)

  datatype Item = Item(index: int, hash: Digest, gaps: seq<Gap>, trimStart: int, trimEnd: int, deleteEmpty: bool)

  const BATCH_LIMIT := 200

  // ---------------------------------------------------------------- what the host accepts

  datatype Error = TokenChanged | PlanInvalid | RangeMismatch | EditFailed | Incomplete | SaveFailed | RollbackFailed

  predicate LaterGap(a: Gap, b: Gap) { a.start > b.start }

  /** The gaps in the host's working order, right to left. */
  function GapsRightToLeft(item: Item): seq<Gap> { Sort(item.gaps, LaterGap) }

  /** The gaps left to right. */
  function GapsLeftToRight(item: Item): seq<Gap> { Reverse(GapsRightToLeft(item)) }

  function Reverse<T>(s: seq<T>): seq<T> {
    if s == [] then [] else Reverse(s[1..]) + [s[0]]
  }

  /** A gap is white space inside the trimmed part and ends before the gap to its right starts. */
  predicate GapFits(text: Text, item: Item, g: Gap, nextStart: int) {
    && item.trimStart <= g.start <= g.end <= item.trimEnd
    && g.end < nextStart
    && 0 <= g.start && g.end <= |text| && AllSpace(text[g.start..g.end])
  }

  predicate GapsFit(text: Text, item: Item, rightToLeft: seq<Gap>, nextStart: int) {
    rightToLeft == [] ||
    (GapFits(text, item, rightToLeft[0], nextStart) && GapsFit(text, item, rightToLeft[1..], rightToLeft[0].start))
  }

  predicate TrimFits(text: Text, item: Item) {
    && 0 <= item.trimStart <= item.trimEnd <= |text|
    && AllSpace(text[..item.trimStart]) && AllSpace(text[item.trimEnd..])
  }

  predicate DeletionFits(p: Paragraph, item: Item) {
    && p.text == [] && item.gaps == [] && item.trimStart == 0 && item.trimEnd == 0
    && !p.sectionBreak && !p.pageBreakBefore && !p.hasObject
  }

  /** The host's check of one plan item against the live document; `None` means accepted. */
  function CheckItem(doc: Document, item: Item): Option<Error> {
    if item.index < 0 then Some(PlanInvalid)
    else if item.index >= |doc| then Some(RangeMismatch)
    else
      var p := doc[item.index];
      if p.inTable || Sha256(p.text) != item.hash then Some(RangeMismatch)
      else if item.deleteEmpty then if DeletionFits(p, item) then None else Some(PlanInvalid)
      else if TrimFits(p.text, item) && GapsFit(p.text, item, GapsRightToLeft(item), |p.text| + 1) then None
      else Some(PlanInvalid)
  }

  predicate Accepts(doc: Document, item: Item) { CheckItem(doc, item) == None }

  ghost predicate AllAccepted(doc: Document, items: seq<Item>) {
    forall i :: 0 <= i < |items| ==> Accepts(doc, items[i])
  }

  ghost predicate DistinctIndices(items: seq<Item>) {
    forall i, j :: 0 <= i < j < |items| ==> items[i].index != items[j].index
  }

  // ---------------------------------------------------------------- counts

  function Sum(items: seq<Item>, f: Item -> int): int {
    if items == [] then 0 else f(items[0]) + Sum(items[1..], f)
  }

  function Boundaries(item: Item): int { |item.gaps| }

  function Removed(item: Item): int { if item.deleteEmpty then 1 else 0 }

  function Splits(item: Item): int { if |item.gaps| > 0 then 1 else 0 }

  /** How many ends of the paragraph the item trims. */
  function Trimmed(doc: Document, item: Item): int {
    if item.deleteEmpty || !(0 <= item.index < |doc|) then 0
    else (if item.trimStart > 0 then 1 else 0) + if item.trimEnd < |doc[item.index].text| then 1 else 0
  }

  function TrimmedIn(doc: Document): Item -> int { item => Trimmed(doc, item) }

  // ---------------------------------------------------------------- the declarative result

  function VisibleText(t: Text): Text {
    if t == [] then [] else VisibleText(t[..|t| - 1]) + if IsSpace(t[|t| - 1]) then [] else [t[|t| - 1]]
  }

  /** The document's text without any white space. */
  function Visible(doc: Document): Text {
    if doc == [] then [] else Visible(doc[..|doc| - 1]) + VisibleText(doc[|doc| - 1].text)
  }

  /** Gaps follow each other from left to right between two offsets. */
  predicate InOrder(from: int, gaps: seq<Gap>, to: int)
    decreases |gaps|
  {
    if gaps == [] then from <= to
    else from <= gaps[0].start <= gaps[0].end && InOrder(gaps[0].end, gaps[1..], to)
  }

  /** What remains between the gaps, left to right. */
  function Fragments(text: Text, from: int, gaps: seq<Gap>, to: int): (r: seq<Text>)
    requires 0 <= from && to <= |text| && InOrder(from, gaps, to)
    ensures |r| == |gaps| + 1
    decreases |gaps|
  {
    if gaps == [] then [text[from..to]]
    else
      InOrderBound(gaps[0].end, gaps[1..], to);
      [text[from..gaps[0].start]] + Fragments(text, gaps[0].end, gaps[1..], to)
  }

  lemma {:induction false} InOrderBound(from: int, gaps: seq<Gap>, to: int)
    requires InOrder(from, gaps, to)
    ensures from <= to
    decreases |gaps|
  {
    if gaps != [] {
      InOrderBound(gaps[0].end, gaps[1..], to);
    }
  }

  /** The fragments as paragraphs: the original mark, hence a section break, stays with the last. */
  function AsParagraphs(p: Paragraph, texts: seq<Text>): (r: Document)
    ensures |r| == |texts|
  {
    seq(|texts|, i requires 0 <= i < |texts| =>
          p.(text := texts[i], sectionBreak := p.sectionBreak && i == |texts| - 1))
  }

  /** Where the host's split for this gap lands: a zero-width gap inside a surrogate pair lands after the pair. */
  function Landing(text: Text, g: Gap): Gap {
    if 0 <= g.start == g.end <= |text| && !IsBoundary(text, g.start) then Gap(g.start + 1, g.start + 1) else g
  }

  function Landings(text: Text, gaps: seq<Gap>): (r: seq<Gap>)
    ensures |r| == |gaps|
  {
    if gaps == [] then [] else [Landing(text, gaps[0])] + Landings(text, gaps[1..])
  }

  /** The gaps of an item as planned, or as they land. */
  function GapsOf(text: Text, item: Item, landed: bool): seq<Gap> {
    if landed then Landings(text, GapsLeftToRight(item)) else GapsLeftToRight(item)
  }

  /** What an accepted item turns its paragraph into. */
  function Replacement(p: Paragraph, item: Item, landed: bool): Document
    requires !item.deleteEmpty ==> 0 <= item.trimStart && item.trimEnd <= |p.text|
    requires !item.deleteEmpty ==> InOrder(item.trimStart, GapsOf(p.text, item, landed), item.trimEnd)
  {
    if item.deleteEmpty then []
    else AsParagraphs(p, Fragments(p.text, item.trimStart, GapsOf(p.text, item, landed), item.trimEnd))
  }

  /** What the items make of the paragraphs they name. */
  function Changes(doc: Document, items: seq<Item>, landed: bool): (r: map<int, Document>)
    requires AllAccepted(doc, items)
    ensures forall k :: k in r <==> exists i :: 0 <= i < |items| && items[i].index == k
  {
    if items == [] then map[]
    else
      AcceptedInOrder(doc, items[0]);
      Changes(doc, items[1..], landed)[items[0].index := Replacement(doc[items[0].index], items[0], landed)]
  }

  /** The first k paragraphs, each changed one replaced and every other one kept. */
  function Patch(doc: Document, changes: map<int, Document>, k: nat): Document
    requires k <= |doc|
  {
    if k == 0 then []
    else Patch(doc, changes, k - 1) + Patched(doc, changes, k - 1)
  }

  function Patched(doc: Document, changes: map<int, Document>, k: nat): Document
    requires k < |doc|
  {
    if k in changes then changes[k] else [doc[k]]
  }

  /** The document a plan describes. */
  function Rewrite(doc: Document, items: seq<Item>): Document
    requires AllAccepted(doc, items)
  {
    Patch(doc, Changes(doc, items, false), |doc|)
  }

  /** The document the host's edits describe: every split taken where it lands. */
  function RewriteLanded(doc: Document, items: seq<Item>): Document
    requires AllAccepted(doc, items)
  {
    Patch(doc, Changes(doc, items, true), |doc|)
  }

  // ---------------------------------------------------------------- accepted gaps are in order

  /** Right to left: every gap fits below its right neighbour, with at least one unit between. */
  ghost predicate Apart(text: Text, from: int, rightToLeft: seq<Gap>, to: int) {
    0 <= from <= to <= |text| &&
    (rightToLeft != [] ==>
       var g, rest := rightToLeft[0], rightToLeft[1..];
       && from <= g.start <= g.end <= to && AllSpace(text[g.start..g.end])
       && (g.end == to ==> IsBoundary(text, to))
       && (rest != [] ==> rest[0].end < g.start && Apart(text, from, rest, g.start)))
  }

  lemma {:induction false} FittingGapsApart(text: Text, item: Item, gaps: seq<Gap>, nextStart: int)
    requires TrimFits(text, item) && GapsFit(text, item, gaps, nextStart)
    requires gaps != []
    ensures forall to | gaps[0].end <= to <= |text| && (gaps[0].end == to ==> IsBoundary(text, to)) ::
              Apart(text, item.trimStart, gaps, to)
  {
    if |gaps| > 1 {
      FittingGapsApart(text, item, gaps[1..], gaps[0].start);
      assert gaps[1..][0] == gaps[1];
    }
  }

  lemma TrimEndBoundary(text: Text, item: Item)
    requires TrimFits(text, item)
    ensures IsBoundary(text, item.trimStart) && IsBoundary(text, item.trimEnd)
  {
    if item.trimStart > 0 {
      assert IsSpace(text[..item.trimStart][item.trimStart - 1]);
    }
    if item.trimEnd < |text| {
      assert IsSpace(text[item.trimEnd..][0]);
    }
  }

  lemma AcceptedApart(doc: Document, item: Item)
    requires Accepts(doc, item) && !item.deleteEmpty
    ensures Apart(doc[item.index].text, item.trimStart, GapsRightToLeft(item), item.trimEnd)
  {
    var text := doc[item.index].text;
    TrimEndBoundary(text, item);
    if GapsRightToLeft(item) != [] {
      FittingGapsApart(text, item, GapsRightToLeft(item), |text| + 1);
    }
  }

  /** Appending the rightmost gap. */
  lemma {:induction false} InOrderAppend(from: int, gaps: seq<Gap>, g: Gap, to: int)
    requires InOrder(from, gaps, g.start) && g.start <= g.end <= to
    ensures InOrder(from, gaps + [g], to)
    decreases |gaps|
  {
    if gaps != [] {
      assert (gaps + [g])[1..] == gaps[1..] + [g];
      InOrderAppend(gaps[0].end, gaps[1..], g, to);
    } else {
      assert (gaps + [g])[1..] == [];
    }
  }

  lemma {:induction false} InOrderWiden(from: int, gaps: seq<Gap>, to: int, wider: int)
    requires InOrder(from, gaps, to) && to <= wider
    ensures InOrder(from, gaps, wider)
    decreases |gaps|
  {
    if gaps != [] {
      InOrderWiden(gaps[0].end, gaps[1..], to, wider);
    }
  }

  lemma {:induction false} LandingsAppend(text: Text, gaps: seq<Gap>, g: Gap)
    ensures Landings(text, gaps + [g]) == Landings(text, gaps) + [Landing(text, g)]
  {
    if gaps != [] {
      assert (gaps + [g])[1..] == gaps[1..] + [g];
      LandingsAppend(text, gaps[1..], g);
    } else {
      assert (gaps + [g])[1..] == [];
    }
  }

  /** A non-empty gap is white space, hence starts at a character boundary. */
  lemma LandingWithin(text: Text, g: Gap, to: int)
    requires 0 <= g.start <= g.end <= to <= |text| && AllSpace(text[g.start..g.end])
    requires g.end == to ==> IsBoundary(text, to)
    ensures g.start <= Landing(text, g).start <= Landing(text, g).end <= to
    ensures g.start < g.end ==> IsBoundary(text, g.start) && IsBoundary(text, g.end)
    ensures IsBoundary(text, Landing(text, g).start) && IsBoundary(text, Landing(text, g).end)
  {
    if g.start < g.end {
      assert IsSpace(text[g.start..g.end][0]) && IsSpace(text[g.start..g.end][g.end - g.start - 1]);
    }
  }

  lemma {:induction false} ApartInOrder(text: Text, from: int, gaps: seq<Gap>, to: int)
    requires Apart(text, from, gaps, to)
    ensures InOrder(from, Reverse(gaps), to)
    ensures InOrder(from, Landings(text, Reverse(gaps)), to)
  {
    if gaps != [] {
      var g, rest := gaps[0], gaps[1..];
      LandingWithin(text, g, to);
      if rest == [] {
        assert Reverse(gaps) == [g];
        assert [g][1..] == [];
        LandingsAppend(text, [], g);
        assert [] + [g] == [g];
        InOrderAppend(from, [], g, to);
        InOrderAppend(from, [], Landing(text, g), to);
        assert [] + [Landing(text, g)] == [Landing(text, g)];
      } else {
        ApartInOrder(text, from, rest, g.start);
        InOrderAppend(from, Reverse(rest), g, to);
        InOrderWiden(from, Landings(text, Reverse(rest)), g.start, Landing(text, g).start);
        LandingsAppend(text, Reverse(rest), g);
        InOrderAppend(from, Landings(text, Reverse(rest)), Landing(text, g), to);
      }
    }
  }

  lemma AcceptedInOrder(doc: Document, item: Item)
    requires Accepts(doc, item)
    ensures !item.deleteEmpty ==> 0 <= item.trimStart && item.trimEnd <= |doc[item.index].text|
    ensures !item.deleteEmpty ==> InOrder(item.trimStart, GapsLeftToRight(item), item.trimEnd)
    ensures !item.deleteEmpty ==> InOrder(item.trimStart, Landings(doc[item.index].text, GapsLeftToRight(item)),
              item.trimEnd)
  {
    if !item.deleteEmpty {
      AcceptedApart(doc, item);
      ApartInOrder(doc[item.index].text, item.trimStart, GapsRightToLeft(item), item.trimEnd);
    }
  }
}
