/** The host's in-place edit loop for a normalization batch, as a run over document values,
    and the proof that it ends in the declarative document. */
module StructureEdit {
  import opened Results
  import opened Utf16
  import opened Sorting
  import HostText
  import opened StructureModel

  datatype Kind = Trim | SplitHere

  datatype Op = Op(start: nat, end: nat, kind: Kind)

  predicate RightmostFirst(a: Op, b: Op) {
    a.start > b.start || (a.start == b.start && a.end > b.end)
  }

  predicate HigherIndex(a: Item, b: Item) { a.index > b.index }

  function SplitOps(rightToLeft: seq<Gap>): (r: seq<Op>)
    requires forall i :: 0 <= i < |rightToLeft| ==> 0 <= rightToLeft[i].start && 0 <= rightToLeft[i].end
    ensures |r| == |rightToLeft|
  {
    seq(|rightToLeft|, i requires 0 <= i < |rightToLeft| => Op(rightToLeft[i].start, rightToLeft[i].end, SplitHere))
  }

  function TailOps(from: nat, length: nat): seq<Op> {
    if from < length then [Op(from, length, Trim)] else []
  }

  function FrontOps(to: nat): seq<Op> {
    if to > 0 then [Op(0, to, Trim)] else []
  }

  /** The operations of one item in execution order. */
  function OpsOf(item: Item, length: nat): seq<Op>
    requires 0 <= item.trimStart && 0 <= item.trimEnd
    requires forall g :: g in GapsRightToLeft(item) ==> 0 <= g.start && 0 <= g.end
  {
    Sort(SplitOps(GapsRightToLeft(item)) + TailOps(item.trimEnd, length) + FrontOps(item.trimStart), RightmostFirst)
  }

  /** The editor range for an operation: offsets are turned into character ordinals of the text as it
      was, and the ordinals are looked up in the text as it is now. The paragraph mark counts as one
      further character. `None` stands for each of the ways this throws. */
  function ReadRange(live: Text, raw: Text, start: nat, end: nat): (r: Option<(nat, nat)>)
    requires start <= end <= |raw|
    ensures r.Some? ==> r.value.0 <= r.value.1 <= |live|
  {
    var head := raw[..end];
    match OrdinalAt(head, start)
    case None => None
    case Some(first) =>
      if first > CharCount(live) then None
      else
        var from := CharStart(live, first);
        if start == end then Some((from, from))
        else if CharCount(head) > CharCount(live) then None
        else
          var to := CharStart(live, CharCount(head));
          if to <= from || HostText.Strip(live[from..to]) != raw[start..end] then None else Some((from, to))
  }

  /** The editor: removing a range, and replacing a range by a paragraph mark. */
  function Cut(p: Paragraph, from: nat, to: nat): Paragraph
    requires from <= to <= |p.text|
  {
    p.(text := p.text[..from] + p.text[to..])
  }

  function Break(p: Paragraph, from: nat, to: nat): Document
    requires from <= to <= |p.text|
  {
    [p.(text := p.text[..from], sectionBreak := false), p.(text := p.text[to..])]
  }

  function ApplyOp(doc: Document, i: nat, raw: Text, op: Op): Option<Document> {
    if i >= |doc| || !(op.start <= op.end <= |raw|) then None
    else match ReadRange(doc[i].text, raw, op.start, op.end)
      case None => None
      case Some((from, to)) =>
        if op.kind == Trim then Some(doc[i := Cut(doc[i], from, to)])
        else Some(doc[..i] + Break(doc[i], from, to) + doc[i + 1..])
  }

  function RunOps(doc: Document, i: nat, raw: Text, ops: seq<Op>): Option<Document>
    decreases |ops|
  {
    if ops == [] then Some(doc)
    else match ApplyOp(doc, i, raw, ops[0])
      case None => None
      case Some(next) => RunOps(next, i, raw, ops[1..])
  }

  function RunItem(doc: Document, item: Item, raw: Text): Option<Document>
    requires 0 <= item.index
    requires !item.deleteEmpty ==> 0 <= item.trimStart && 0 <= item.trimEnd
    requires !item.deleteEmpty ==> forall g :: g in GapsRightToLeft(item) ==> 0 <= g.start && 0 <= g.end
  {
    if !item.deleteEmpty then RunOps(doc, item.index, raw, OpsOf(item, |raw|))
    else if item.index < |doc| then Some(doc[..item.index] + doc[item.index + 1..])
    else None
  }

  /** Editing item after item; `raw` texts were captured from the document as it was. */
  function RunItems(doc: Document, original: Document, items: seq<Item>): Option<Document>
    requires AllAccepted(original, items)
    decreases |items|
  {
    if items == [] then Some(doc)
    else
      AcceptedOffsets(original, items[0]);
      match RunItem(doc, items[0], original[items[0].index].text)
      case None => None
      case Some(next) => RunItems(next, original, items[1..])
  }

  lemma {:induction false} ApartOffsets(text: Text, from: int, gaps: seq<Gap>, to: int)
    requires Apart(text, from, gaps, to)
    ensures forall g :: g in gaps ==> from <= g.start <= g.end <= to
  {
    if gaps != [] && gaps[1..] != [] {
      ApartOffsets(text, from, gaps[1..], gaps[0].start);
    }
    forall g | g in gaps ensures from <= g.start <= g.end <= to {
      assert g == gaps[0] || g in gaps[1..];
    }
  }

  lemma AcceptedOffsets(doc: Document, item: Item)
    requires Accepts(doc, item)
    ensures 0 <= item.index
    ensures !item.deleteEmpty ==> 0 <= item.trimStart && 0 <= item.trimEnd
    ensures !item.deleteEmpty ==> forall g :: g in GapsRightToLeft(item) ==> 0 <= g.start && 0 <= g.end
  {
    if !item.deleteEmpty {
      AcceptedApart(doc, item);
      ApartOffsets(doc[item.index].text, item.trimStart, GapsRightToLeft(item), item.trimEnd);
    }
  }

  // ---------------------------------------------------------------- one operation

  lemma StripOfSpace(t: Text)
    requires AllSpace(t) && CR !in t
    ensures HostText.Strip(t) == t
  {
  }

  lemma NoCRInSlice(t: Text, a: nat, b: nat)
    requires CR !in t && a <= b <= |t|
    ensures CR !in t[a..b]
  {
  }

  /** Looking the range up in a shortened paragraph finds where the operation lands. */
  lemma RangeLands(raw: Text, c: nat, g: Gap)
    requires CR !in raw && c <= |raw| && 0 <= g.start <= g.end <= c && AllSpace(raw[g.start..g.end])
    requires g.end == c ==> IsBoundary(raw, c)
    ensures var l := Landing(raw, g);
            0 <= l.start <= l.end <= c && ReadRange(raw[..c], raw, g.start, g.end) == Some((l.start, l.end))
  {
    var l := Landing(raw, g);
    LandingWithin(raw, g, c);
    LiveOrdinal(raw, c, g.end, g.start, l.start);
    if g.start < g.end {
      LiveOrdinal(raw, c, g.end, g.end, g.end);
      SliceOfTake(raw, c, g.start, g.end);
      NoCRInSlice(raw, g.start, g.end);
      StripOfSpace(raw[g.start..g.end]);
    }
  }

  /** Offset `k` of the head of the text has the ordinal of the character that starts at `s` in the live text. */
  lemma LiveOrdinal(raw: Text, c: nat, end: nat, k: nat, s: nat)
    requires k <= end <= c <= |raw| && s <= c && IsBoundary(raw, s)
    requires k == s || (k == end && s == k + 1 && !IsBoundary(raw, k))
    requires s == c ==> IsBoundary(raw, c)
    ensures OrdinalAt(raw[..end], k).Some?
    ensures OrdinalAt(raw[..end], k).value <= CharCount(raw[..c])
    ensures CharStart(raw[..c], OrdinalAt(raw[..end], k).value) == s
  {
    OrdinalOfPrefix(raw, end, k);
    OrdinalOfPrefix(raw, c, s);
    assert Ordinal(raw, s) == Ordinal(raw, k);
    assert IsBoundary(raw[..c], s);
    CharStartIs(raw[..c], s);
  }

  // ---------------------------------------------------------------- one paragraph

  lemma {:induction false} RunOpsAppend(doc: Document, i: nat, raw: Text, a: seq<Op>, b: seq<Op>)
    ensures RunOps(doc, i, raw, a + b) ==
            match RunOps(doc, i, raw, a) case None => None case Some(next) => RunOps(next, i, raw, b)
    decreases |a|
  {
    if a == [] {
      assert a + b == b;
    } else {
      assert (a + b)[1..] == a[1..] + b;
      match ApplyOp(doc, i, raw, a[0])
      case None =>
      case Some(next) => RunOpsAppend(next, i, raw, a[1..], b);
    }
  }

  /** Appending the rightmost gap appends the rightmost fragment. */
  lemma {:induction false} FragmentsAppend(text: Text, from: int, gaps: seq<Gap>, g: Gap, to: int)
    requires 0 <= from && to <= |text| && InOrder(from, gaps, g.start) && 0 <= g.start <= g.end <= to
    ensures InOrder(from, gaps + [g], to)
    ensures Fragments(text, from, gaps + [g], to) == Fragments(text, from, gaps, g.start) + [text[g.end..to]]
    decreases |gaps|
  {
    InOrderAppend(from, gaps, g, to);
    InOrderBound(from, gaps, g.start);
    if gaps == [] {
      assert (gaps + [g])[1..] == [];
    } else {
      assert (gaps + [g])[1..] == gaps[1..] + [g];
      FragmentsAppend(text, gaps[0].end, gaps[1..], g, to);
    }
  }

  lemma AsParagraphsAppend(p: Paragraph, texts: seq<Text>, last: Text)
    requires texts != []
    ensures AsParagraphs(p, texts + [last]) ==
            AsParagraphs(p.(sectionBreak := false), texts) + [p.(text := last)]
  {
  }

  lemma SplitOnce(doc: Document, i: nat, raw: Text, g: Gap, c: nat)
    requires i < |doc| && c <= |raw| && doc[i].text == raw[..c] && CR !in raw
    requires 0 <= g.start <= g.end <= c && AllSpace(raw[g.start..g.end]) && (g.end == c ==> IsBoundary(raw, c))
    ensures var l := Landing(raw, g);
            0 <= l.start <= l.end <= c &&
            ApplyOp(doc, i, raw, Op(g.start, g.end, SplitHere)) ==
            Some(doc[..i] + [doc[i].(text := raw[..l.start], sectionBreak := false), doc[i].(text := raw[l.end..c])]
                + doc[i + 1..])
  {
    var l := Landing(raw, g);
    RangeLands(raw, c, g);
    assert raw[..c][..l.start] == raw[..l.start];
    assert raw[..c][l.end..] == raw[l.end..c];
  }

  /** The splits of one paragraph, right to left, with the original offsets. */
  lemma {:induction false} SplitsLand(doc: Document, i: nat, raw: Text, gaps: seq<Gap>, c: nat)
    requires i < |doc| && c <= |raw| && doc[i].text == raw[..c] && CR !in raw
    requires Apart(raw, 0, gaps, c)
    requires forall g :: g in gaps ==> 0 <= g.start && 0 <= g.end
    ensures InOrder(0, Landings(raw, Reverse(gaps)), c)
    ensures RunOps(doc, i, raw, SplitOps(gaps)) ==
            Some(doc[..i] + AsParagraphs(doc[i], Fragments(raw, 0, Landings(raw, Reverse(gaps)), c)) + doc[i + 1..])
    decreases |gaps|
  {
    hide ApplyOp, ReadRange, Break, Cut, IsBoundary, Landing, AllSpace, InOrder;
    ApartInOrder(raw, 0, gaps, c);
    if gaps == [] {
      assert AsParagraphs(doc[i], [raw[0..c]]) == [doc[i]];
      assert doc == doc[..i] + [doc[i]] + doc[i + 1..];
    } else {
      var g, rest, l := gaps[0], gaps[1..], Landing(raw, gaps[0]);
      SplitOnce(doc, i, raw, g, c);
      var front, back := doc[i].(text := raw[..l.start], sectionBreak := false), doc[i].(text := raw[l.end..c]);
      var next := doc[..i] + [front, back] + doc[i + 1..];
      assert SplitOps(gaps)[1..] == SplitOps(rest) && ApplyOp(doc, i, raw, SplitOps(gaps)[0]) == Some(next);
      RestApart(raw, gaps, c);
      SplitsLand(next, i, raw, rest, l.start);
      var done := Landings(raw, Reverse(rest));
      assert Landings(raw, Reverse(gaps)) == done + [l] by { LandingsAppend(raw, Reverse(rest), g); }
      assert Fragments(raw, 0, done + [l], c) == Fragments(raw, 0, done, l.start) + [raw[l.end..c]] by {
        FragmentsAppend(raw, 0, done, l, c);
      }
      Spliced(doc, i, front, back, Fragments(raw, 0, done, l.start), raw[l.end..c]);
    }
  }

  /** The paragraph left of a split, edited further, and the paragraph right of it. */
  lemma Spliced(doc: Document, i: nat, front: Paragraph, back: Paragraph, texts: seq<Text>,
                                   last: Text)
    requires i < |doc| && texts != [] && back == doc[i].(text := last)
    requires front.(text := []) == doc[i].(text := [], sectionBreak := false)
    ensures var next := doc[..i] + [front, back] + doc[i + 1..];
            next[..i] + AsParagraphs(next[i], texts) + next[i + 1..] ==
            doc[..i] + AsParagraphs(doc[i], texts + [last]) + doc[i + 1..]
  {
    var next := doc[..i] + [front, back] + doc[i + 1..];
    AsParagraphsIgnoreText(front, doc[i].(sectionBreak := false), texts);
    AsParagraphsAppend(doc[i], texts, last);
    assert next[i + 1..] == [back] + doc[i + 1..];
  }

  lemma AsParagraphsIgnoreText(p: Paragraph, q: Paragraph, texts: seq<Text>)
    requires p.(text := []) == q.(text := [])
    ensures AsParagraphs(p, texts) == AsParagraphs(q, texts)
  {
    forall i | 0 <= i < |texts| ensures AsParagraphs(p, texts)[i] == AsParagraphs(q, texts)[i] {
      assert p.inTable == p.(text := []).inTable && p.sectionBreak == p.(text := []).sectionBreak;
      assert p.pageBreakBefore == p.(text := []).pageBreakBefore && p.hasObject == p.(text := []).hasObject;
    }
  }

  lemma {:induction false} RestApart(raw: Text, gaps: seq<Gap>, c: nat)
    requires c <= |raw| && Apart(raw, 0, gaps, c) && gaps != []
    ensures Apart(raw, 0, gaps[1..], Landing(raw, gaps[0]).start)
  {
    LandingWithin(raw, gaps[0], c);
  }

  /** With the leading trim moved into the first fragment. */
  lemma {:induction false} FragmentsTrimmed(text: Text, from: nat, gaps: seq<Gap>, to: int)
    requires to <= |text| && InOrder(from, gaps, to)
    ensures InOrder(0, gaps, to)
    ensures var a, b := Fragments(text, 0, gaps, to), Fragments(text, from, gaps, to);
            from <= |a[0]| <= |text| && b == [a[0][from..]] + a[1..] && a[0] == text[..|a[0]|]
  {
    InOrderBound(from, gaps, to);
    if gaps != [] {
      InOrderBound(gaps[0].end, gaps[1..], to);
    }
  }

  lemma {:induction false} ApartFromZero(text: Text, from: int, gaps: seq<Gap>, to: int)
    requires Apart(text, from, gaps, to)
    ensures Apart(text, 0, gaps, to)
  {
    if gaps != [] && gaps[1..] != [] {
      ApartFromZero(text, from, gaps[1..], gaps[0].start);
    }
  }

  /** For an accepted item the sort yields: trailing trim, splits right to left, leading trim. */
  lemma {:induction false} OpsOfAccepted(item: Item, text: Text)
    requires TrimFits(text, item) && Apart(text, item.trimStart, GapsRightToLeft(item), item.trimEnd)
    requires forall g :: g in GapsRightToLeft(item) ==> 0 <= g.start && 0 <= g.end
    ensures OpsOf(item, |text|) ==
            TailOps(item.trimEnd, |text|) + SplitOps(GapsRightToLeft(item)) + FrontOps(item.trimStart)
  {
    var gaps := GapsRightToLeft(item);
    var splits, tail := SplitOps(gaps), TailOps(item.trimEnd, |text|);
    SplitOpsSorted(text, item.trimStart, gaps, item.trimEnd);
    SortWithTail(splits, item.trimEnd, |text|);
    SortWithFront(splits + tail, tail + splits, item.trimStart);
  }

  lemma {:induction false} SplitOpsSorted(text: Text, from: nat, gaps: seq<Gap>, to: nat)
    requires Apart(text, from, gaps, to)
    requires forall g :: g in gaps ==> 0 <= g.start && 0 <= g.end
    ensures Sorted(SplitOps(gaps), RightmostFirst)
    ensures forall y :: y in SplitOps(gaps) ==> from <= y.start <= y.end <= to
  {
    ApartOffsets(text, from, gaps, to);
    ApartDescends(text, from, gaps, to);
    forall y | y in SplitOps(gaps) ensures from <= y.start <= y.end <= to {
      var i :| 0 <= i < |gaps| && SplitOps(gaps)[i] == y;
      assert gaps[i] in gaps;
    }
    forall i, j | 0 <= i < j < |gaps| ensures !RightmostFirst(SplitOps(gaps)[j], SplitOps(gaps)[i]) {
      assert gaps[j].end < gaps[i].start && gaps[j] in gaps;
    }
  }

  lemma {:induction false} SortWithTail(splits: seq<Op>, from: nat, length: nat)
    requires Sorted(splits, RightmostFirst)
    requires forall y :: y in splits ==> y.start <= from && y.end <= from
    ensures Sort(splits + TailOps(from, length), RightmostFirst) == TailOps(from, length) + splits
  {
    SortOfSorted(splits, RightmostFirst);
    if from < length {
      var tail := Op(from, length, Trim);
      assert (splits + [tail])[..|splits|] == splits;
      InsertFront(splits, tail, RightmostFirst);
    } else {
      assert splits + [] == splits == [] + splits;
    }
  }

  lemma {:induction false} SortWithFront(ops: seq<Op>, sorted: seq<Op>, to: nat)
    requires Sort(ops, RightmostFirst) == sorted
    requires forall y :: y in sorted ==> to <= y.start
    ensures Sort(ops + FrontOps(to), RightmostFirst) == sorted + FrontOps(to)
  {
    if to > 0 {
      assert (ops + FrontOps(to))[..|ops|] == ops;
    } else {
      assert ops + [] == ops && sorted + [] == sorted;
    }
  }

  lemma {:induction false} ApartDescends(text: Text, from: int, gaps: seq<Gap>, to: int)
    requires Apart(text, from, gaps, to)
    ensures forall i, j :: 0 <= i < j < |gaps| ==> gaps[j].end < gaps[i].start
  {
    if gaps != [] && gaps[1..] != [] {
      var rest := gaps[1..];
      ApartDescends(text, from, rest, gaps[0].start);
      ApartOffsets(text, from, rest, gaps[0].start);
      forall i, j | 0 <= i < j < |gaps| ensures gaps[j].end < gaps[i].start {
        assert gaps[j] == rest[j - 1];
        if i == 0 && j > 1 {
          assert rest[j - 1].end < rest[0].start;
        } else if i > 0 {
          assert gaps[i] == rest[i - 1];
        }
      }
    }
  }

  lemma TrimLands(doc: Document, i: nat, raw: Text, c: nat, from: nat, to: nat)
    requires i < |doc| && c <= |raw| && doc[i].text == raw[..c] && CR !in raw
    requires from < to <= c && AllSpace(raw[from..to])
    ensures ApplyOp(doc, i, raw, Op(from, to, Trim)) == Some(doc[i := Cut(doc[i], from, to)])
  {
    if to == c {
      assert IsSpace(raw[from..to][to - from - 1]);
    }
    RangeLands(raw, c, Gap(from, to));
  }

  /** The trailing trim. */
  lemma {:induction false} TailLands(doc: Document, i: nat, raw: Text, from: nat)
    requires i < |doc| && doc[i].text == raw && CR !in raw && from <= |raw| && AllSpace(raw[from..])
    ensures RunOps(doc, i, raw, TailOps(from, |raw|)) ==
            Some(doc[i := doc[i].(text := raw[..from])])
  {
    if from < |raw| {
      assert raw[..|raw|] == raw && raw[from..|raw|] == raw[from..];
      TrimLands(doc, i, raw, |raw|, from, |raw|);
      assert raw[..from] + raw[|raw|..] == raw[..from];
      assert [Op(from, |raw|, Trim)][1..] == [];
    } else {
      assert raw[..from] == raw && doc[i := doc[i]] == doc;
    }
  }

  /** The leading trim. */
  lemma {:induction false} FrontLands(doc: Document, i: nat, raw: Text, c: nat, to: nat)
    requires i < |doc| && c <= |raw| && doc[i].text == raw[..c] && CR !in raw && to <= c && AllSpace(raw[..to])
    ensures RunOps(doc, i, raw, FrontOps(to)) ==
            Some(doc[i := doc[i].(text := raw[..c][to..])])
  {
    hide ApplyOp, AllSpace;
    if to > 0 {
      assert raw[0..to] == raw[..to];
      TrimLands(doc, i, raw, c, 0, to);
      assert raw[..c][..0] + raw[..c][to..] == raw[..c][to..];
      assert [Op(0, to, Trim)][1..] == [];
    } else {
      assert raw[..c][to..] == raw[..c] && doc[i := doc[i]] == doc;
    }
  }

  /** All operations of one accepted item turn its paragraph into the fragments, where they land. */
  lemma {:induction false} OpsLand(doc: Document, item: Item, i: nat, raw: Text)
    requires i < |doc| && doc[i].text == raw && CR !in raw
    requires TrimFits(raw, item) && Apart(raw, item.trimStart, GapsRightToLeft(item), item.trimEnd)
    requires forall g :: g in GapsRightToLeft(item) ==> 0 <= g.start && 0 <= g.end
    ensures var landed := Landings(raw, GapsLeftToRight(item));
            && InOrder(item.trimStart, landed, item.trimEnd)
            && RunOps(doc, i, raw, OpsOf(item, |raw|)) ==
               Some(doc[..i] + AsParagraphs(doc[i], Fragments(raw, item.trimStart, landed, item.trimEnd))
                   + doc[i + 1..])
  {
    var gaps, ts, te := GapsRightToLeft(item), item.trimStart, item.trimEnd;
    var landed := Landings(raw, GapsLeftToRight(item));
    ApartInOrder(raw, ts, gaps, te);
    OpsOfAccepted(item, raw);
    ApartFromZero(raw, ts, gaps, te);
    TailAndSplitsLand(doc, i, raw, gaps, te);
    RunOpsAppend(doc, i, raw, TailOps(te, |raw|) + SplitOps(gaps), FrontOps(ts));
    var whole := Fragments(raw, 0, landed, te);
    FragmentsTrimmed(raw, ts, landed, te);
    FrontLands(doc[..i] + AsParagraphs(doc[i], whole) + doc[i + 1..], i, raw, |whole[0]|, ts);
    TrimFirst(doc, i, whole, ts);
  }

  lemma TailAndSplitsLand(doc: Document, i: nat, raw: Text, gaps: seq<Gap>, te: nat)
    requires i < |doc| && doc[i].text == raw && CR !in raw && te <= |raw| && AllSpace(raw[te..])
    requires Apart(raw, 0, gaps, te) && forall g :: g in gaps ==> 0 <= g.start && 0 <= g.end
    ensures InOrder(0, Landings(raw, Reverse(gaps)), te)
    ensures RunOps(doc, i, raw, TailOps(te, |raw|) + SplitOps(gaps)) ==
            Some(doc[..i] + AsParagraphs(doc[i], Fragments(raw, 0, Landings(raw, Reverse(gaps)), te)) + doc[i + 1..])
  {
    var trimmed := doc[i := doc[i].(text := raw[..te])];
    RunOpsAppend(doc, i, raw, TailOps(te, |raw|), SplitOps(gaps));
    TailLands(doc, i, raw, te);
    SplitsLand(trimmed, i, raw, gaps, te);
    AsParagraphsIgnoreText(trimmed[i], doc[i], Fragments(raw, 0, Landings(raw, Reverse(gaps)), te));
  }

  lemma TrimFirst(doc: Document, i: nat, texts: seq<Text>, n: nat)
    requires i < |doc| && texts != [] && n <= |texts[0]|
    ensures var split := doc[..i] + AsParagraphs(doc[i], texts) + doc[i + 1..];
            split[i := split[i].(text := texts[0][n..])] ==
            doc[..i] + AsParagraphs(doc[i], [texts[0][n..]] + texts[1..]) + doc[i + 1..]
  {
    assert AsParagraphs(doc[i], [texts[0][n..]] + texts[1..]) ==
           AsParagraphs(doc[i], texts)[0 := AsParagraphs(doc[i], texts)[0].(text := texts[0][n..])];
  }

  lemma ItemLands(doc: Document, original: Document, item: Item)
    requires ValidDocument(original) && Accepts(original, item)
    requires 0 <= item.index < |doc| && doc[item.index] == original[item.index]
    ensures !item.deleteEmpty ==> 0 <= item.trimStart && 0 <= item.trimEnd <= |original[item.index].text|
    ensures !item.deleteEmpty ==> InOrder(item.trimStart, GapsOf(original[item.index].text, item, true), item.trimEnd)
    ensures !item.deleteEmpty ==> forall g :: g in GapsRightToLeft(item) ==> 0 <= g.start && 0 <= g.end
    ensures RunItem(doc, item, original[item.index].text) ==
            Some(doc[..item.index] + Replacement(original[item.index], item, true) + doc[item.index + 1..])
  {
    hide IsBoundary, RunOps, Fragments, Landings, InOrder, AsParagraphs, Apart, TrimFits;
    AcceptedOffsets(original, item);
    AcceptedInOrder(original, item);
    if item.deleteEmpty {
      assert doc[..item.index] + [] + doc[item.index + 1..] == doc[..item.index] + doc[item.index + 1..];
    } else {
      AcceptedApart(original, item);
      OpsLand(doc, item, item.index, original[item.index].text);
    }
  }

  // ---------------------------------------------------------------- the whole batch

  ghost predicate Descending(items: seq<Item>) {
    forall i, j :: 0 <= i < j < |items| ==> items[i].index > items[j].index
  }

  /** Nothing changes positions a..b. */
  lemma {:induction false} PatchUntouched(doc: Document, changes: map<int, Document>, a: nat, b: nat)
    requires a <= b <= |doc|
    requires forall k :: a <= k < b ==> k !in changes
    ensures Patch(doc, changes, b) == Patch(doc, changes, a) + doc[a..b]
    decreases b
  {
    if a < b {
      PatchUntouched(doc, changes, a, b - 1);
      assert doc[a..b] == doc[a..b - 1] + [doc[b - 1]];
    } else {
      assert doc[a..b] == [];
    }
  }

  /** A change beyond the prefix does not matter. */
  lemma PatchBelow(doc: Document, changes: map<int, Document>, j: int, r: Document, k: nat)
    requires k <= |doc| && k <= j
    ensures Patch(doc, changes[j := r], k) == Patch(doc, changes, k)
    decreases k
  {
    if k > 0 {
      PatchBelow(doc, changes, j, r, k - 1);
    }
  }

  /** Changing position j alone, when everything from j to k is otherwise untouched. */
  lemma PatchOne(doc: Document, changes: map<int, Document>, j: nat, r: Document, k: nat)
    requires j < k <= |doc| && forall i :: j <= i < k ==> i !in changes
    ensures Patch(doc, changes[j := r], k) == Patch(doc, changes, j) + r + doc[j + 1..k]
  {
    PatchBelow(doc, changes, j, r, j);
    assert Patch(doc, changes[j := r], j + 1) == Patch(doc, changes, j) + r;
    PatchUntouched(doc, changes[j := r], j + 1, k);
  }

  lemma {:induction false} NoItemsLand(doc: Document, original: Document, items: seq<Item>, k: nat)
    requires items == [] && k <= |original| && k <= |doc| && doc[..k] == original[..k]
    ensures RunItems(doc, original, items) == Some(Patch(original, Changes(original, items, true), k) + doc[k..])
  {
    hide Patch;
    PatchUntouched(original, Changes(original, items, true), 0, k);
    PatchNone(original, Changes(original, items, true));
    assert Patch(original, Changes(original, items, true), k) == doc[..k];
    assert doc == doc[..k] + doc[k..];
  }

  lemma {:induction false} PatchNone(doc: Document, changes: map<int, Document>)
    ensures Patch(doc, changes, 0) == []
  {
  }

  /** Items in descending order, each with its original offsets: what is above stays as edited. */
  lemma {:induction false} DescendingItemsLand(doc: Document, original: Document, items: seq<Item>, k: nat)
    requires ValidDocument(original) && AllAccepted(original, items) && Descending(items)
    requires k <= |original| && k <= |doc| && doc[..k] == original[..k]
    requires forall i :: 0 <= i < |items| ==> items[i].index < k
    ensures RunItems(doc, original, items) == Some(Patch(original, Changes(original, items, true), k) + doc[k..])
    decreases |items|
  {
    hide RunItems, Patch, Changes, Accepts;
    if items == [] {
      NoItemsLand(doc, original, items, k);
    } else {
      var rest := items[1..];
      var j, r := FirstItemLands(doc, original, items, k);
      OneMore(doc, original, Changes(original, rest, true), j, r, k);
      DescendingItemsLand(doc[..j] + r + doc[j + 1..], original, rest, j);
    }
  }

  lemma FirstItemLands(doc: Document, original: Document, items: seq<Item>, k: nat)
    returns (j: nat, r: Document)
    requires ValidDocument(original) && AllAccepted(original, items) && items != []
    requires k <= |original| && k <= |doc| && doc[..k] == original[..k] && items[0].index < k
    ensures j == items[0].index && j < k && AllAccepted(original, items[1..])
    ensures RunItems(doc, original, items) == RunItems(doc[..j] + r + doc[j + 1..], original, items[1..])
    ensures Changes(original, items, true) == Changes(original, items[1..], true)[j := r]
  {
    hide RunItem, Patch;
    var item := items[0];
    AcceptedOffsets(original, item);
    j := item.index;
    assert doc[j] == doc[..k][j] == original[j];
    ItemLands(doc, original, item);
    r := Replacement(original[j], item, true);
  }

  /** Replacing paragraph j and then patching below it. */
  lemma OneMore(doc: Document, original: Document, changes: map<int, Document>, j: nat, r: Document,
                                   k: nat)
    requires j < k <= |doc| && k <= |original| && doc[..k] == original[..k]
    requires forall i :: j <= i < k ==> i !in changes
    ensures var next := doc[..j] + r + doc[j + 1..];
            && next[..j] == original[..j]
            && Patch(original, changes, j) + next[j..] == Patch(original, changes[j := r], k) + doc[k..]
  {
    PrefixesAgree(doc, original, j, k);
    PatchOne(original, changes, j, r, k);
    Reassociate(doc, r, j, Patch(original, changes, j), original[j + 1..k], doc[k..]);
  }

  lemma Reassociate(doc: Document, r: Document, j: nat, before: Document, middle: Document,
                                       rest: Document)
    requires j < |doc| && doc[j + 1..] == middle + rest
    ensures var next := doc[..j] + r + doc[j + 1..];
            next[..j] == doc[..j] && before + next[j..] == before + r + middle + rest
  {
    var next := doc[..j] + r + doc[j + 1..];
    assert next[j..] == r + doc[j + 1..];
  }

  lemma PrefixesAgree(a: Document, b: Document, j: nat, k: nat)
    requires j < k <= |a| && k <= |b| && a[..k] == b[..k]
    ensures a[..j] == b[..j] && a[j + 1..k] == b[j + 1..k]
    ensures a[j + 1..] == b[j + 1..k] + a[k..]
  {
    assert a[..j] == a[..k][..j] && b[..j] == b[..k][..j];
    assert a[j + 1..k] == a[..k][j + 1..] && b[j + 1..k] == b[..k][j + 1..];
  }

  // ---------------------------------------------------------------- order of the items

  lemma {:induction false} SortDescends(items: seq<Item>)
    requires DistinctIndices(items)
    ensures Descending(Sort(items, HigherIndex))
    ensures forall x :: x in Sort(items, HigherIndex) <==> x in items
  {
    SortSorts(items, HigherIndex);
    SortDistinct(items);
  }

  lemma {:induction false} InsertDistinct(items: seq<Item>, x: Item)
    requires DistinctIndices(items) && forall y :: y in items ==> y.index != x.index
    ensures DistinctIndices(Insert(items, x, HigherIndex))
  {
    if items != [] && HigherIndex(x, items[|items| - 1]) {
      var front, last := items[..|items| - 1], items[|items| - 1];
      InsertDistinct(front, x);
      InsertKeeps(front, x, HigherIndex);
      forall y | y in Insert(front, x, HigherIndex) ensures y.index != last.index {
        assert y == x || exists i :: 0 <= i < |front| && items[i] == y;
      }
    }
  }

  lemma {:induction false} SortDistinct(items: seq<Item>)
    requires DistinctIndices(items)
    ensures DistinctIndices(Sort(items, HigherIndex))
  {
    if items != [] {
      var front := items[..|items| - 1];
      SortDistinct(front);
      SortSorts(front, HigherIndex);
      forall y | y in Sort(front, HigherIndex) ensures y.index != items[|items| - 1].index {
        assert y in front;
      }
      InsertDistinct(Sort(front, HigherIndex), items[|items| - 1]);
    }
  }

  lemma {:induction false} ChangesFind(doc: Document, items: seq<Item>, i: nat, landed: bool)
    requires AllAccepted(doc, items) && DistinctIndices(items) && i < |items|
    ensures items[i].index in Changes(doc, items, landed)
    ensures !items[i].deleteEmpty ==> 0 <= items[i].trimStart && items[i].trimEnd <= |doc[items[i].index].text|
    ensures !items[i].deleteEmpty ==>
              InOrder(items[i].trimStart, GapsOf(doc[items[i].index].text, items[i], landed), items[i].trimEnd)
    ensures Changes(doc, items, landed)[items[i].index] == Replacement(doc[items[i].index], items[i], landed)
    decreases i
  {
    AcceptedInOrder(doc, items[i]);
    if i > 0 {
      assert items[1..][i - 1] == items[i];
      ChangesFind(doc, items[1..], i - 1, landed);
    }
  }

  lemma {:induction false} ChangesAgree(doc: Document, a: seq<Item>, b: seq<Item>, landed: bool, k: int)
    requires AllAccepted(doc, a) && AllAccepted(doc, b) && DistinctIndices(a) && DistinctIndices(b)
    requires forall x :: x in a ==> x in b
    requires k in Changes(doc, a, landed)
    ensures k in Changes(doc, b, landed) && Changes(doc, a, landed)[k] == Changes(doc, b, landed)[k]
  {
    var i :| 0 <= i < |a| && a[i].index == k;
    ChangesFind(doc, a, i, landed);
    assert a[i] in b;
    var j :| 0 <= j < |b| && b[j] == a[i];
    ChangesFind(doc, b, j, landed);
  }

  lemma {:induction false} ChangesSame(doc: Document, a: seq<Item>, b: seq<Item>, landed: bool)
    requires AllAccepted(doc, a) && AllAccepted(doc, b) && DistinctIndices(a) && DistinctIndices(b)
    requires forall x :: x in a <==> x in b
    ensures Changes(doc, a, landed) == Changes(doc, b, landed)
  {
    forall k | k in Changes(doc, a, landed)
      ensures k in Changes(doc, b, landed) && Changes(doc, a, landed)[k] == Changes(doc, b, landed)[k]
    {
      ChangesAgree(doc, a, b, landed, k);
    }
    forall k | k in Changes(doc, b, landed) ensures k in Changes(doc, a, landed) {
      ChangesAgree(doc, b, a, landed, k);
    }
    MapsEqual(Changes(doc, a, landed), Changes(doc, b, landed));
  }

  lemma MapsEqual<K, V>(a: map<K, V>, b: map<K, V>)
    requires forall k :: k in a ==> k in b && a[k] == b[k]
    requires forall k :: k in b ==> k in a
    ensures a == b
  {
  }

  lemma {:induction false} SortedItems(doc: Document, items: seq<Item>)
    requires AllAccepted(doc, items) && DistinctIndices(items)
    ensures AllAccepted(doc, Sort(items, HigherIndex)) && Descending(Sort(items, HigherIndex))
    ensures DistinctIndices(Sort(items, HigherIndex))
    ensures forall x :: x in Sort(items, HigherIndex) <==> x in items
  {
    SortDescends(items);
    SortDistinct(items);
    forall i | 0 <= i < |Sort(items, HigherIndex)| ensures Accepts(doc, Sort(items, HigherIndex)[i]) {
      assert Sort(items, HigherIndex)[i] in items;
    }
  }

  /** The edit loop ends in the document in which every planned paragraph is replaced by its fragments,
      each split taken where it lands, and every other paragraph is untouched. */
  lemma {:induction false} EditsLand(doc: Document, items: seq<Item>)
    requires ValidDocument(doc) && AllAccepted(doc, items) && DistinctIndices(items)
    ensures AllAccepted(doc, Sort(items, HigherIndex))
    ensures RunItems(doc, doc, Sort(items, HigherIndex)) == Some(RewriteLanded(doc, items))
  {
    var sorted := Sort(items, HigherIndex);
    SortedItems(doc, items);
    forall i | 0 <= i < |sorted| ensures sorted[i].index < |doc| {
      assert Accepts(doc, sorted[i]);
    }
    DescendingItemsLand(doc, doc, sorted, |doc|);
    ChangesSame(doc, sorted, items, true);
    assert RewriteLanded(doc, items) + doc[|doc|..] == RewriteLanded(doc, items);
  }
}
