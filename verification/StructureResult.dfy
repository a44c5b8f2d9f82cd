/** What the declarative document has in common with the original one, and when the host's edits reach it exactly. */
module StructureResult {
  import opened Utf16
  import opened Sorting
  import opened StructureModel
  import opened StructureEdit

  // ---------------------------------------------------------------- number of paragraphs

  lemma PatchLength(doc: Document, changes: map<int, Document>, j: int, r: Document, k: nat)
    requires k <= |doc| && 0 <= j && j !in changes
    ensures |Patch(doc, changes[j := r], k)| == |Patch(doc, changes, k)| + if j < k then |r| - 1 else 0
    decreases k
  {
    if k > 0 {
      PatchLength(doc, changes, j, r, k - 1);
    }
  }

  lemma {:induction false} ReverseLength<T>(s: seq<T>)
    ensures |Reverse(s)| == |s|
  {
    if s != [] {
      ReverseLength(s[1..]);
    }
  }

  lemma ReplacementLength(doc: Document, item: Item, landed: bool)
    requires Accepts(doc, item)
    ensures !item.deleteEmpty ==> 0 <= item.trimStart && item.trimEnd <= |doc[item.index].text|
    ensures !item.deleteEmpty ==> InOrder(item.trimStart, GapsOf(doc[item.index].text, item, landed), item.trimEnd)
    ensures |Replacement(doc[item.index], item, landed)| == 1 + Boundaries(item) - Removed(item)
  {
    AcceptedInOrder(doc, item);
    if !item.deleteEmpty {
      SortKeepsLength(item.gaps);
      ReverseLength(GapsRightToLeft(item));
    }
  }

  lemma {:induction false} SortKeepsLength(gaps: seq<Gap>)
    ensures |Sort(gaps, LaterGap)| == |gaps|
    ensures forall g :: g in Sort(gaps, LaterGap) <==> g in gaps
  {
    SortSorts(gaps, LaterGap);
  }

  /** New count = old count + boundaries - removed, wherever the splits land. */
  lemma {:induction false} CountFrom(doc: Document, items: seq<Item>, landed: bool)
    requires AllAccepted(doc, items) && DistinctIndices(items)
    ensures |Patch(doc, Changes(doc, items, landed), |doc|)| == |doc| + Sum(items, Boundaries) - Sum(items, Removed)
    decreases |items|
  {
    if items == [] {
      PatchUntouched(doc, Changes(doc, items, landed), 0, |doc|);
    } else {
      CountFrom(doc, items[1..], landed);
      var item := items[0];
      ReplacementLength(doc, item, landed);
      PatchLength(doc, Changes(doc, items[1..], landed), item.index, Replacement(doc[item.index], item, landed), |doc|);
    }
  }

  /** How many of the first k paragraphs become several. */
  ghost function Several(doc: Document, changes: map<int, Document>, k: nat): nat
    requires k <= |doc|
  {
    if k == 0 then 0
    else Several(doc, changes, k - 1) + if |Patched(doc, changes, k - 1)| > 1 then 1 else 0
  }

  lemma SeveralMore(doc: Document, changes: map<int, Document>, j: int, r: Document, k: nat)
    requires k <= |doc| && 0 <= j && j !in changes
    ensures Several(doc, changes[j := r], k) == Several(doc, changes, k) + if j < k && |r| > 1 then 1 else 0
    decreases k
  {
    if k > 0 {
      SeveralMore(doc, changes, j, r, k - 1);
    }
  }

  lemma {:induction false} NoneSeveral(doc: Document, k: nat)
    requires k <= |doc|
    ensures Several(doc, map[], k) == 0
    decreases k
  {
    if k > 0 {
      NoneSeveral(doc, k - 1);
    }
  }

  /** The number of split paragraphs that is reported is the number of paragraphs that become several. */
  lemma {:induction false} SplitsCounted(doc: Document, items: seq<Item>, landed: bool)
    requires AllAccepted(doc, items) && DistinctIndices(items)
    ensures Sum(items, Splits) == Several(doc, Changes(doc, items, landed), |doc|)
    decreases |items|
  {
    if items == [] {
      NoneSeveral(doc, |doc|);
    } else {
      SplitsCounted(doc, items[1..], landed);
      var item := items[0];
      ReplacementLength(doc, item, landed);
      if item.deleteEmpty {
        DeletionHasNoGaps(doc, item);
      }
      SeveralMore(doc, Changes(doc, items[1..], landed), item.index, Replacement(doc[item.index], item, landed), |doc|);
    }
  }

  lemma DeletionHasNoGaps(doc: Document, item: Item)
    requires Accepts(doc, item) && item.deleteEmpty
    ensures item.gaps == []
  {
  }

  // ---------------------------------------------------------------- visible text

  lemma {:induction false} VisibleTextAppend(a: Text, b: Text)
    ensures VisibleText(a + b) == VisibleText(a) + VisibleText(b)
    decreases |b|
  {
    if b == [] {
      assert a + b == a;
    } else {
      assert (a + b)[..|a + b| - 1] == a + b[..|b| - 1];
      VisibleTextAppend(a, b[..|b| - 1]);
    }
  }

  lemma {:induction false} SpaceInvisible(t: Text)
    requires AllSpace(t)
    ensures VisibleText(t) == []
  {
    if t != [] {
      SpaceInvisible(t[..|t| - 1]);
    }
  }

  lemma {:induction false} VisibleAppend(a: Document, b: Document)
    ensures Visible(a + b) == Visible(a) + Visible(b)
    decreases |b|
  {
    if b == [] {
      assert a + b == a;
    } else {
      var front, last := b[..|b| - 1], b[|b| - 1];
      VisibleAppend(a, front);
      assert (a + b)[..|a + b| - 1] == a + front;
      assert Visible(a + b) == Visible(a + front) + VisibleText(last.text);
      assert Visible(b) == Visible(front) + VisibleText(last.text);
    }
  }

  /** The white space of ECMAScript, one code unit each. */
  const WHITE: set<CodeUnit> := {
    0x09, 0x0A, 0x0B, 0x0C, 0x0D, 0x20, 0xA0, 0x1680, 0x2000, 0x2001, 0x2002, 0x2003, 0x2004, 0x2005, 0x2006, 0x2007,
    0x2008, 0x2009, 0x200A, 0x2028, 0x2029, 0x202F, 0x205F, 0x3000, 0xFEFF}

  /** Taking white space out of a text does not change what is visible of it, and a text without white space is all
      visible: so the visible text is everything else, in order. */
  lemma VisibleExactly(before: Text, u: CodeUnit, after: Text)
    ensures IsSpace(u) <==> u in WHITE
    ensures u in WHITE ==> VisibleText(before + [u] + after) == VisibleText(before + after)
    ensures (forall i :: 0 <= i < |before| ==> before[i] !in WHITE) ==> VisibleText(before) == before
  {
    if u in WHITE {
      VisibleTextAppend(before, [u]);
      VisibleTextAppend(before + [u], after);
      VisibleTextAppend(before, after);
      SpaceInvisible([u]);
    }
    if forall i :: 0 <= i < |before| ==> before[i] !in WHITE {
      NoSpaceVisible(before);
    }
  }

  lemma {:induction false} NoSpaceVisible(t: Text)
    requires forall i :: 0 <= i < |t| ==> !IsSpace(t[i])
    ensures VisibleText(t) == t
  {
    if t != [] {
      NoSpaceVisible(t[..|t| - 1]);
      assert t == t[..|t| - 1] + [t[|t| - 1]];
    }
  }

  function TextsOf(doc: Document): (r: seq<Text>)
    ensures |r| == |doc|
  {
    seq(|doc|, i requires 0 <= i < |doc| => doc[i].text)
  }

  /** The visible text of a document is that of all its paragraphs together. */
  lemma {:induction false} VisibleOfAll(doc: Document)
    ensures Visible(doc) == VisibleText(Concat(TextsOf(doc)))
  {
    if doc != [] {
      var front, last := doc[..|doc| - 1], doc[|doc| - 1];
      VisibleOfAll(front);
      VisibleTextAppend(Concat(TextsOf(front)), last.text);
      assert TextsOf(doc) == TextsOf(front) + [last.text];
      ConcatAppend(TextsOf(front), last.text);
    }
  }

  ghost function VisiblePieces(doc: Document, changes: map<int, Document>, k: nat): seq<Text>
    requires k <= |doc|
  {
    seq(k, i requires 0 <= i < k => Visible(Patched(doc, changes, i)))
  }

  lemma {:induction false} PatchPieces(doc: Document, changes: map<int, Document>, k: nat)
    requires k <= |doc|
    ensures Visible(Patch(doc, changes, k)) == Concat(VisiblePieces(doc, changes, k))
    decreases k
  {
    hide Patched, VisibleText;
    if k > 0 {
      PatchPieces(doc, changes, k - 1);
      PatchStep(doc, changes, k);
      PiecesStep(doc, changes, k);
    }
  }

  lemma PatchStep(doc: Document, changes: map<int, Document>, k: nat)
    requires 0 < k <= |doc|
    ensures Visible(Patch(doc, changes, k)) ==
            Visible(Patch(doc, changes, k - 1)) + Visible(Patched(doc, changes, k - 1))
  {
    hide Visible, Patched;
    VisibleAppend(Patch(doc, changes, k - 1), Patched(doc, changes, k - 1));
  }

  lemma PiecesStep(doc: Document, changes: map<int, Document>, k: nat)
    requires 0 < k <= |doc|
    ensures Concat(VisiblePieces(doc, changes, k)) ==
            Concat(VisiblePieces(doc, changes, k - 1)) + Visible(Patched(doc, changes, k - 1))
  {
    var last := Visible(Patched(doc, changes, k - 1));
    assert VisiblePieces(doc, changes, k) == VisiblePieces(doc, changes, k - 1) + [last];
    ConcatAppend(VisiblePieces(doc, changes, k - 1), last);
  }

  lemma PatchVisible(doc: Document, changes: map<int, Document>, j: int, r: Document)
    requires 0 <= j < |doc| && j !in changes && Visible(r) == VisibleText(doc[j].text)
    ensures Visible(Patch(doc, changes[j := r], |doc|)) == Visible(Patch(doc, changes, |doc|))
  {
    PatchPieces(doc, changes, |doc|);
    PatchPieces(doc, changes[j := r], |doc|);
    forall i: nat | i < |doc| ensures Visible(Patched(doc, changes[j := r], i)) == Visible(Patched(doc, changes, i)) {
      PatchedVisible(doc, changes, j, r, i);
    }
    assert VisiblePieces(doc, changes[j := r], |doc|) == VisiblePieces(doc, changes, |doc|);
  }

  lemma PatchedVisible(doc: Document, changes: map<int, Document>, j: int, r: Document, k: nat)
    requires k < |doc| && 0 <= j < |doc| && j !in changes && Visible(r) == VisibleText(doc[j].text)
    ensures Visible(Patched(doc, changes[j := r], k)) == Visible(Patched(doc, changes, k))
  {
    if k == j {
      assert Patched(doc, changes[j := r], k) == r;
      assert Patched(doc, changes, k) == [doc[j]];
      VisibleOne(doc[j]);
    } else {
      assert Patched(doc, changes[j := r], k) == Patched(doc, changes, k);
    }
  }

  lemma VisibleOne(p: Paragraph)
    ensures Visible([p]) == VisibleText(p.text)
  {
    assert [p][..0] == [];
  }

  ghost predicate SpaceGaps(text: Text, gaps: seq<Gap>) {
    forall i :: 0 <= i < |gaps| ==>
      0 <= gaps[i].start <= gaps[i].end <= |text| && AllSpace(text[gaps[i].start..gaps[i].end])
  }

  lemma {:induction false} FragmentsVisible(text: Text, from: int, gaps: seq<Gap>, to: int)
    requires 0 <= from && to <= |text| && InOrder(from, gaps, to) && SpaceGaps(text, gaps)
    ensures from <= to && VisibleTexts(Fragments(text, from, gaps, to)) == VisibleText(text[from..to])
    decreases |gaps|
  {
    InOrderBound(from, gaps, to);
    if gaps != [] {
      var g := gaps[0];
      InOrderBound(g.end, gaps[1..], to);
      FragmentsVisible(text, g.end, gaps[1..], to);
      VisibleTextsFront(text[from..g.start], Fragments(text, g.end, gaps[1..], to));
      GapInvisible(text, from, g, to);
    } else {
      VisibleTextsFront(text[from..to], []);
    }
  }

  lemma GapInvisible(text: Text, from: nat, g: Gap, to: nat)
    requires from <= g.start <= g.end <= to <= |text| && AllSpace(text[g.start..g.end])
    ensures VisibleText(text[from..to]) == VisibleText(text[from..g.start]) + VisibleText(text[g.end..to])
  {
    SpaceInvisible(text[g.start..g.end]);
    VisibleTextCut(text, from, g.start, g.end);
    VisibleTextCut(text, from, g.end, to);
  }

  lemma {:induction false} VisibleTextsFront(first: Text, rest: seq<Text>)
    ensures VisibleTexts([first] + rest) == VisibleText(first) + VisibleTexts(rest)
  {
    assert ([first] + rest)[1..] == rest;
  }

  lemma VisibleTextCut(t: Text, a: nat, b: nat, c: nat)
    requires a <= b <= c <= |t|
    ensures VisibleText(t[a..c]) == VisibleText(t[a..b]) + VisibleText(t[b..c])
  {
    VisibleTextAppend(t[a..b], t[b..c]);
    assert t[a..b] + t[b..c] == t[a..c];
  }

  function VisibleTexts(texts: seq<Text>): Text {
    if texts == [] then [] else VisibleText(texts[0]) + VisibleTexts(texts[1..])
  }

  lemma {:induction false} VisibleFront(p: Paragraph, rest: Document)
    ensures Visible([p] + rest) == VisibleText(p.text) + Visible(rest)
  {
    hide Visible, VisibleText;
    VisibleAppend([p], rest);
    VisibleOne(p);
  }

  lemma {:induction false} VisibleOfTexts(doc: Document, texts: seq<Text>)
    requires |doc| == |texts| && forall i :: 0 <= i < |texts| ==> doc[i].text == texts[i]
    ensures Visible(doc) == VisibleTexts(texts)
    decreases |texts|
  {
    hide VisibleText;
    if texts != [] {
      VisibleOfTexts(doc[1..], texts[1..]);
      assert doc == [doc[0]] + doc[1..];
      VisibleFront(doc[0], doc[1..]);
    }
  }

  lemma {:induction false} ApartSpace(text: Text, from: int, gaps: seq<Gap>, to: int)
    requires Apart(text, from, gaps, to)
    ensures SpaceGaps(text, gaps)
  {
    if gaps != [] && gaps[1..] != [] {
      ApartSpace(text, from, gaps[1..], gaps[0].start);
      assert forall i :: 1 <= i < |gaps| ==> gaps[i] == gaps[1..][i - 1];
    }
  }

  lemma {:induction false} ReverseMembers<T>(s: seq<T>)
    ensures forall x :: x in Reverse(s) <==> x in s
  {
    if s != [] {
      ReverseMembers(s[1..]);
      assert s == [s[0]] + s[1..];
    }
  }

  lemma SpaceGapsOf(doc: Document, item: Item, landed: bool)
    requires Accepts(doc, item) && !item.deleteEmpty
    ensures SpaceGaps(doc[item.index].text, GapsOf(doc[item.index].text, item, landed))
  {
    var text, gaps := doc[item.index].text, GapsLeftToRight(item);
    AcceptedApart(doc, item);
    ApartSpace(text, item.trimStart, GapsRightToLeft(item), item.trimEnd);
    ReverseMembers(GapsRightToLeft(item));
    forall i | 0 <= i < |gaps|
      ensures 0 <= gaps[i].start <= gaps[i].end <= |text| && AllSpace(text[gaps[i].start..gaps[i].end])
    {
      assert gaps[i] in GapsRightToLeft(item);
    }
    LandingsSpace(text, gaps);
  }

  lemma {:induction false} LandingsSpace(text: Text, gaps: seq<Gap>)
    requires SpaceGaps(text, gaps)
    ensures SpaceGaps(text, Landings(text, gaps))
  {
    if gaps != [] {
      LandingsSpace(text, gaps[1..]);
      assert forall i :: 1 <= i < |gaps| ==> Landings(text, gaps)[i] == Landings(text, gaps[1..])[i - 1];
    }
  }

  lemma ReplacementVisible(doc: Document, item: Item, landed: bool)
    requires Accepts(doc, item)
    ensures !item.deleteEmpty ==> 0 <= item.trimStart && item.trimEnd <= |doc[item.index].text|
    ensures !item.deleteEmpty ==> InOrder(item.trimStart, GapsOf(doc[item.index].text, item, landed), item.trimEnd)
    ensures Visible(Replacement(doc[item.index], item, landed)) == VisibleText(doc[item.index].text)
  {
    AcceptedInOrder(doc, item);
    if !item.deleteEmpty {
      var p, ts, te := doc[item.index], item.trimStart, item.trimEnd;
      var gaps := GapsOf(p.text, item, landed);
      SpaceGapsOf(doc, item, landed);
      FragmentsVisible(p.text, ts, gaps, te);
      var texts := Fragments(p.text, ts, gaps, te);
      VisibleOfTexts(AsParagraphs(p, texts), texts);
      TrimVisible(p.text, ts, te);
    }
  }

  lemma {:induction false} TrimVisible(t: Text, a: nat, b: nat)
    requires a <= b <= |t| && AllSpace(t[..a]) && AllSpace(t[b..])
    ensures VisibleText(t[a..b]) == VisibleText(t)
  {
    assert t[0..a] == t[..a] && t[b..|t|] == t[b..] && t[0..|t|] == t;
    SpaceInvisible(t[..a]);
    SpaceInvisible(t[b..]);
    VisibleTextCut(t, 0, a, b);
    VisibleTextCut(t, 0, b, |t|);
  }

  /** The text without white space is unchanged, wherever the splits land. */
  lemma {:induction false} VisibleUnchanged(doc: Document, items: seq<Item>, landed: bool)
    requires AllAccepted(doc, items) && DistinctIndices(items)
    ensures Visible(Patch(doc, Changes(doc, items, landed), |doc|)) == Visible(doc)
    decreases |items|
  {
    if items == [] {
      PatchUntouched(doc, Changes(doc, items, landed), 0, |doc|);
      assert Patch(doc, Changes(doc, items, landed), |doc|) == doc;
    } else {
      VisibleUnchanged(doc, items[1..], landed);
      var item := items[0];
      ReplacementVisible(doc, item, landed);
      PatchVisible(doc, Changes(doc, items[1..], landed), item.index, Replacement(doc[item.index], item, landed));
    }
  }

  // ---------------------------------------------------------------- exactly when the edits are the plan

  /** No planned split separates the halves of a surrogate pair. */
  ghost predicate SplitsAtCharacters(doc: Document, items: seq<Item>)
    requires AllAccepted(doc, items)
  {
    forall i :: 0 <= i < |items| ==> ItemSplitsAtCharacters(doc, items[i])
  }

  ghost predicate ItemSplitsAtCharacters(doc: Document, item: Item)
    requires Accepts(doc, item)
  {
    forall g :: g in item.gaps && 0 <= g.start <= |doc[item.index].text| ==> IsBoundary(doc[item.index].text, g.start)
  }

  lemma {:induction false} LandingsFixed(text: Text, gaps: seq<Gap>)
    requires SpaceGaps(text, gaps)
    ensures Landings(text, gaps) == gaps <==> forall g :: g in gaps && 0 <= g.start <= |text| ==>
              IsBoundary(text, g.start)
  {
    if gaps != [] {
      var rest := gaps[1..];
      LandingsFixed(text, rest);
      LandingsSpace(text, gaps);
      assert gaps == [gaps[0]] + rest && Landings(text, gaps) == [Landing(text, gaps[0])] + Landings(text, rest);
      assert Landing(text, gaps[0]) == gaps[0] <==> IsBoundary(text, gaps[0].start) by {
        if gaps[0].start < gaps[0].end {
          assert IsSpace(text[gaps[0].start..gaps[0].end][0]);
        }
      }
    }
  }

  /** Gaps can be read off the fragments: a gap that lands elsewhere shows. */
  lemma {:induction false} FragmentsTell(text: Text, from: int, gaps: seq<Gap>, to: int)
    requires 0 <= from && to <= |text| && InOrder(from, gaps, to) && InOrder(from, Landings(text, gaps), to)
    requires Fragments(text, from, gaps, to) == Fragments(text, from, Landings(text, gaps), to)
    ensures Landings(text, gaps) == gaps
    decreases |gaps|
  {
    if gaps != [] {
      var g, l := gaps[0], Landing(text, gaps[0]);
      InOrderBound(g.end, gaps[1..], to);
      InOrderBound(l.end, Landings(text, gaps[1..]), to);
      assert Landings(text, gaps)[1..] == Landings(text, gaps[1..]);
      assert |Fragments(text, from, gaps, to)[0]| == g.start - from;
      assert |Fragments(text, from, Landings(text, gaps), to)[0]| == l.start - from;
      assert l == g;
      assert Fragments(text, g.end, gaps[1..], to) == Fragments(text, from, gaps, to)[1..];
      FragmentsTell(text, g.end, gaps[1..], to);
    }
  }

  /** Patches with equally long changes are equal only when the changes are. */
  lemma {:induction false} PatchTells(doc: Document, a: map<int, Document>, b: map<int, Document>, k: nat)
    requires k <= |doc| && a.Keys == b.Keys && forall i :: i in a ==> |a[i]| == |b[i]|
    ensures |Patch(doc, a, k)| == |Patch(doc, b, k)|
    ensures Patch(doc, a, k) == Patch(doc, b, k) ==> forall i :: i in a && 0 <= i < k ==> a[i] == b[i]
    decreases k
  {
    if k > 0 {
      PatchTells(doc, a, b, k - 1);
      var pa, pb := Patch(doc, a, k - 1), Patch(doc, b, k - 1);
      if Patch(doc, a, k) == Patch(doc, b, k) {
        assert pa == Patch(doc, a, k)[..|pa|] && pb == Patch(doc, b, k)[..|pb|];
        if k - 1 in a {
          assert a[k - 1] == Patch(doc, a, k)[|pa|..] && b[k - 1] == Patch(doc, b, k)[|pb|..];
        }
      }
    }
  }

  lemma AsParagraphsTell(p: Paragraph, a: seq<Text>, b: seq<Text>)
    requires |a| == |b| && AsParagraphs(p, a) == AsParagraphs(p, b)
    ensures a == b
  {
    forall i | 0 <= i < |a| ensures a[i] == b[i] {
      assert AsParagraphs(p, a)[i].text == AsParagraphs(p, b)[i].text;
    }
  }

  /** One item: the landed replacement is the planned one iff no split falls inside a pair. */
  lemma ItemExact(doc: Document, item: Item)
    requires Accepts(doc, item)
    ensures !item.deleteEmpty ==> 0 <= item.trimStart && item.trimEnd <= |doc[item.index].text|
    ensures !item.deleteEmpty ==> InOrder(item.trimStart, GapsOf(doc[item.index].text, item, true), item.trimEnd)
    ensures !item.deleteEmpty ==> InOrder(item.trimStart, GapsOf(doc[item.index].text, item, false), item.trimEnd)
    ensures Replacement(doc[item.index], item, true) == Replacement(doc[item.index], item, false)
            <==> ItemSplitsAtCharacters(doc, item)
  {
    AcceptedInOrder(doc, item);
    if !item.deleteEmpty {
      var p, gaps := doc[item.index], GapsLeftToRight(item);
      SpaceGapsOf(doc, item, false);
      LandingsFixed(p.text, gaps);
      ReverseMembers(GapsRightToLeft(item));
      SortKeepsLength(item.gaps);
      if Replacement(p, item, true) == Replacement(p, item, false) {
        AsParagraphsTell(p, Fragments(p.text, item.trimStart, Landings(p.text, gaps), item.trimEnd),
                         Fragments(p.text, item.trimStart, gaps, item.trimEnd));
        FragmentsTell(p.text, item.trimStart, gaps, item.trimEnd);
      }
    }
  }

  /** The host's edits produce the planned document iff no planned split falls inside a surrogate pair. */
  lemma LandedExactly(doc: Document, items: seq<Item>)
    requires AllAccepted(doc, items) && DistinctIndices(items)
    ensures RewriteLanded(doc, items) == Rewrite(doc, items) <==> SplitsAtCharacters(doc, items)
  {
    hide Changes, Patch, ItemSplitsAtCharacters, Replacement;
    var a, b := Changes(doc, items, true), Changes(doc, items, false);
    forall i | 0 <= i < |items|
      ensures items[i].index in a && items[i].index in b && |a[items[i].index]| == |b[items[i].index]|
      ensures a[items[i].index] == b[items[i].index] <==> ItemSplitsAtCharacters(doc, items[i])
    {
      ChangesFind(doc, items, i, true);
      ChangesFind(doc, items, i, false);
      ReplacementLength(doc, items[i], true);
      ReplacementLength(doc, items[i], false);
      ItemExact(doc, items[i]);
    }
    PatchTells(doc, a, b, |doc|);
    if SplitsAtCharacters(doc, items) {
      assert forall k :: k in a ==> a[k] == b[k];
      assert a == b;
    }
    if RewriteLanded(doc, items) == Rewrite(doc, items) {
      forall i | 0 <= i < |items| ensures ItemSplitsAtCharacters(doc, items[i]) {
        assert Accepts(doc, items[i]);
        assert a[items[i].index] == b[items[i].index];
      }
    }
  }
}
