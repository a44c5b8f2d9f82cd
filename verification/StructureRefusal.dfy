/** What the host refuses, written from the paragraphs and the offsets of the plan. */
module StructureRefusal {
  import opened Results
  import opened Utf16
  import opened Sorting
  import opened StructureModel

  /** The paragraph the item names is there, outside tables, and still has the text that was planned for. */
  ghost predicate Stands(doc: Document, item: Item) {
    0 <= item.index < |doc| && !doc[item.index].inTable && item.hash == Sha256(doc[item.index].text)
  }

  ghost predicate Blank(text: Text, from: int, to: int)
    requires 0 <= from <= to <= |text|
  {
    forall k :: from <= k < to ==> IsSpace(text[k])
  }

  /** One gap is white space between the trims. */
  ghost predicate GapInside(text: Text, item: Item, g: Gap) {
    && item.trimStart <= g.start <= g.end <= item.trimEnd && 0 <= g.start && g.end <= |text|
    && Blank(text, g.start, g.end)
  }

  /** Between two gaps something is left. */
  ghost predicate GapsApart(g: Gap, h: Gap) { g.end < h.start || h.end < g.start }

  ghost predicate AllApart(gaps: seq<Gap>) {
    && (forall g :: multiset(gaps)[g] <= 1)
    && (forall g, h :: g in gaps && h in gaps && g != h ==> GapsApart(g, h))
  }

  /** What the item asks for can be done to its paragraph. */
  ghost predicate Doable(p: Paragraph, item: Item) {
    if item.deleteEmpty then
      && p == Paragraph([], p.inTable, false, false, false) && item.gaps == [] && item.trimStart == item.trimEnd == 0
    else
      && 0 <= item.trimStart <= item.trimEnd <= |p.text|
      && Blank(p.text, 0, item.trimStart) && Blank(p.text, item.trimEnd, |p.text|)
      && (forall g :: g in item.gaps ==> GapInside(p.text, item, g)) && AllApart(item.gaps)
  }

  // The gaps, whatever order they come in

  lemma ApartOrdered(g: Gap, rest: seq<Gap>)
    requires (forall h :: h in rest ==> h.start <= g.start && h.start <= h.end) && g.start <= g.end
    ensures AllApart([g] + rest) <==> AllApart(rest) && forall h :: h in rest ==> h.end < g.start
  {
    var all := [g] + rest;
    assert multiset(all) == multiset{g} + multiset(rest);
    if AllApart(all) {
      forall h | h in rest ensures h.end < g.start {
        assert g in all && h in all && multiset(all)[g] == 1 + multiset(rest)[g] && h in multiset(rest);
      }
      forall h ensures multiset(rest)[h] <= 1 {
        assert multiset(all)[h] <= 1;
      }
    }
    if AllApart(rest) && forall h :: h in rest ==> h.end < g.start {
      assert g !in rest;
    }
  }

  lemma {:induction false} FitExactly(text: Text, item: Item, gaps: seq<Gap>, nextStart: int)
    requires Sorted(gaps, LaterGap)
    ensures GapsFit(text, item, gaps, nextStart) <==>
            (forall g :: g in gaps ==> GapInside(text, item, g) && g.end < nextStart) && AllApart(gaps)
    decreases |gaps|
  {
    if gaps != [] {
      var g, rest := gaps[0], gaps[1..];
      assert gaps == [g] + rest;
      forall h | h in rest ensures h.start <= g.start {
        var i :| 0 <= i < |rest| && rest[i] == h;
        assert !LaterGap(gaps[i + 1], gaps[0]);
      }
      FitExactly(text, item, rest, g.start);
      FitsExactly(text, item, g, nextStart);
      if forall h :: h in gaps ==> GapInside(text, item, h) {
        assert g in gaps && forall h :: h in rest ==> h in gaps;
        ApartOrdered(g, rest);
      }
    }
  }

  lemma FitsExactly(text: Text, item: Item, g: Gap, nextStart: int)
    ensures GapFits(text, item, g, nextStart) <==> GapInside(text, item, g) && g.end < nextStart
  {
    if 0 <= g.start <= g.end <= |text| {
      BlankSlice(text, g.start, g.end);
    }
  }

  lemma BlankSlice(text: Text, from: int, to: int)
    requires 0 <= from <= to <= |text|
    ensures AllSpace(text[from..to]) <==> Blank(text, from, to)
  {
    if AllSpace(text[from..to]) {
      forall k | from <= k < to ensures IsSpace(text[k]) {
        assert text[from..to][k - from] == text[k];
      }
    }
  }

  // One item

  /** An item is accepted if and only if its paragraph stands and what it asks for can be done to it. */
  lemma AcceptedExactly(doc: Document, item: Item)
    ensures Accepts(doc, item) <==> Stands(doc, item) && Doable(doc[item.index], item)
  {
    hide GapsFit, AllApart, Blank;
    if Stands(doc, item) && !item.deleteEmpty {
      var text := doc[item.index].text;
      GapsAnyOrder(text, item);
      if 0 <= item.trimStart <= item.trimEnd <= |text| {
        BlankSlice(text, 0, item.trimStart);
        BlankSlice(text, item.trimEnd, |text|);
      }
    }
  }

  lemma GapsAnyOrder(text: Text, item: Item)
    ensures GapsFit(text, item, GapsRightToLeft(item), |text| + 1) <==>
            (forall g :: g in item.gaps ==> GapInside(text, item, g)) && AllApart(item.gaps)
  {
    hide GapsFit;
    SortSorts(item.gaps, LaterGap);
    FitExactly(text, item, GapsRightToLeft(item), |text| + 1);
  }

  /** The error of an item that is not accepted: a paragraph that does not stand is a mismatch, all else is an invalid
      plan. */
  lemma RefusedExactly(doc: Document, item: Item)
    ensures CheckItem(doc, item) == Some(RangeMismatch) <==> 0 <= item.index && !Stands(doc, item)
    ensures CheckItem(doc, item) == Some(PlanInvalid) <==>
            item.index < 0 || (Stands(doc, item) && !Doable(doc[item.index], item))
  {
    hide GapsFit, Doable;
    AcceptedExactly(doc, item);
  }
}
