/** What a plan does to a document, said without plans: every completely recognized paragraph becomes its segments,
    every plain empty paragraph between a heading and body text goes, and everything else stays. */
module StructureNormal {
  import opened Results
  import opened Utf16
  import opened Sorting
  import opened StructureModel
  import opened StructureEdit
  import opened StructureHost
  import opened StructurePlan
  import opened StructurePlanFits
  import opened StructureFixpoint

  // ---------------------------------------------------------------- the normal form

  /** The verified segments of paragraph k, left to right. */
  function At(segments: seq<Segment>, k: int): seq<Segment> { Ordered(GroupOf(segments, k)) }

  /** As many segments as the recognizer has counted for the paragraph, and each knows of them all. */
  ghost predicate AllThere(ordered: seq<Segment>) {
    && ordered != []
    && (forall s :: s in ordered ==> s.located == |ordered| && s.total <= |ordered|)
    && (exists s :: s in ordered && s.total == |ordered|)
  }

  /** Segments follow each other without overlapping, and every character outside them is white space. */
  ghost predicate Tiles(text: Text, ordered: seq<Segment>) {
    && (forall i, j :: 0 <= i < j < |ordered| ==> ordered[i].end <= ordered[j].start)
    && forall p :: 0 <= p < |text| && !IsSpace(text[p]) ==> InSome(ordered, p)
  }

  ghost predicate InSome(ordered: seq<Segment>, p: int) {
    exists i :: 0 <= i < |ordered| && ordered[i].start <= p < ordered[i].end
  }

  ghost predicate Due(doc: Document, segments: seq<Segment>, k: int) {
    0 <= k < |doc| && !doc[k].inTable && AllThere(At(segments, k))
  }

  ghost predicate EmptyBetween(doc: Document, segments: seq<Segment>, k: int) {
    && 0 < k < |doc| - 1 && doc[k] == Paragraph([], false, false, false, false)
    && (exists s :: s in segments && s.verified && s.host == k - 1 && s.kind.Heading? && 1 <= s.kind.level <= 4)
    && (exists s :: s in segments && s.verified && s.host == k + 1 && s.kind == Body)
  }

  /** A segment as a paragraph of its own; the mark, hence a section break, stays with the last. */
  function Fragment(p: Paragraph, s: Segment, last: bool): Paragraph {
    p.(text := if s.start <= s.end <= |p.text| then p.text[s.start..s.end] else [],
       sectionBreak := p.sectionBreak && last)
  }

  function Fragmented(p: Paragraph, ordered: seq<Segment>): (r: Document)
    ensures |r| == |ordered|
  {
    seq(|ordered|, i requires 0 <= i < |ordered| => Fragment(p, ordered[i], i == |ordered| - 1))
  }

  ghost function NormalAt(doc: Document, segments: seq<Segment>, k: nat): Document
    requires k < |doc|
  {
    if Due(doc, segments, k) then Fragmented(doc[k], At(segments, k))
    else if EmptyBetween(doc, segments, k) then []
    else [doc[k]]
  }

  ghost function Normal(doc: Document, segments: seq<Segment>, n: nat): Document
    requires n <= |doc|
  {
    if n == 0 then [] else Normal(doc, segments, n - 1) + NormalAt(doc, segments, n - 1)
  }

  // ---------------------------------------------------------------- the segments of a paragraph

  lemma OneMore(values: seq<Segment>, last: Segment, s: Segment)
    ensures multiset(values + [last])[s] == multiset(values)[s] + if s == last then 1 else 0
  {
  }

  lemma {:induction false} GroupCounts(segments: seq<Segment>, k: int, s: Segment)
    ensures multiset(GroupOf(segments, k))[s] == if s.verified && s.host == k then multiset(segments)[s] else 0
  {
    if segments != [] {
      var front, last := segments[..|segments| - 1], segments[|segments| - 1];
      GroupCounts(front, k, s);
      OneMore(front, last, s);
      assert segments == front + [last];
      if last.verified && last.host == k {
        OneMore(GroupOf(front, k), last, s);
      } else {
        assert GroupOf(front, k) + [] == GroupOf(front, k);
      }
    }
  }

  /** They are the verified ones that name the paragraph, each as often as it occurs, in the order of their starts. */
  lemma AtExactly(segments: seq<Segment>, k: int)
    ensures forall s :: multiset(At(segments, k))[s] == if s.verified && s.host == k then multiset(segments)[s] else 0
    ensures forall i, j :: 0 <= i < j < |At(segments, k)| ==> At(segments, k)[i].start <= At(segments, k)[j].start
  {
    SortSorts(GroupOf(segments, k), EarlierStart);
    forall s
      ensures multiset(At(segments, k))[s] == if s.verified && s.host == k then multiset(segments)[s] else 0
    {
      GroupCounts(segments, k, s);
    }
  }

  lemma {:induction false} MaxTotalIs(values: seq<Segment>)
    requires values != []
    ensures forall v :: v in values ==> v.total <= MaxTotal(values)
    ensures exists v :: v in values && v.total == MaxTotal(values)
  {
    if |values| > 1 {
      MaxTotalIs(values[..|values| - 1]);
      assert values == values[..|values| - 1] + [values[|values| - 1]];
    }
    assert values[|values| - 1] in values;
  }

  /** The planner's test for a complete group, on the group as it stands. */
  lemma CompleteExactly(segments: seq<Segment>, k: int)
    ensures CompleteGroup(GroupOf(segments, k)) <==> AllThere(At(segments, k))
  {
    hide MaxTotal, Sort, GroupOf;
    var values := GroupOf(segments, k);
    SortSorts(values, EarlierStart);
    if values != [] {
      MaxTotalIs(values);
      LargestIs(values, MaxTotal(values));
    }
  }

  /** The largest total is the number of segments. */
  lemma LargestIs(values: seq<Segment>, largest: int)
    requires (forall v :: v in values ==> v.total <= largest) && exists v :: v in values && v.total == largest
    ensures largest == |values| <==>
            (forall v :: v in values ==> v.total <= |values|) && exists v :: v in values && v.total == |values|
  {
    var v :| v in values && v.total == largest;
  }

  // ---------------------------------------------------------------- when a paragraph can be planned

  ghost predicate Fitting(text: Text, ordered: seq<Segment>) {
    forall i :: 0 <= i < |ordered| ==> ordered[i].start < ordered[i].end <= |text|
  }

  /** Neighbours in order, with white space between them. */
  ghost predicate Stepwise(text: Text, ordered: seq<Segment>, n: nat)
    requires n <= |ordered|
  {
    forall i :: 1 <= i < n ==> GapAllowed(text, ordered[i - 1], ordered[i])
  }

  lemma {:induction false} GapsWhenStepwise(text: Text, ordered: seq<Segment>, n: nat)
    requires n <= |ordered|
    ensures GapsBetween(text, ordered, n).Some? <==> Stepwise(text, ordered, n)
  {
    if n > 1 {
      GapsWhenStepwise(text, ordered, n - 1);
    }
  }

  lemma SliceSpace(text: Text, from: nat, to: nat)
    requires from <= to <= |text|
    ensures AllSpace(Slice(text, from, to)) <==> forall p :: from <= p < to ==> IsSpace(text[p])
  {
    if AllSpace(Slice(text, from, to)) {
      forall p | from <= p < to ensures IsSpace(text[p]) {
        assert Slice(text, from, to)[p - from] == text[p];
      }
    }
  }

  lemma StepwiseOrdered(text: Text, ordered: seq<Segment>, i: nat, j: nat)
    requires Fitting(text, ordered) && Stepwise(text, ordered, |ordered|) && i < j < |ordered|
    ensures ordered[i].end <= ordered[j].start
    decreases j
  {
    assert GapAllowed(text, ordered[j - 1], ordered[j]);
    if i < j - 1 {
      StepwiseOrdered(text, ordered, i, j - 1);
    }
  }

  /** A position after the first n segments began is in one of them, or after the last of them. */
  lemma StepwiseCovers(text: Text, ordered: seq<Segment>, n: nat, p: int)
    requires Fitting(text, ordered) && Stepwise(text, ordered, |ordered|) && 1 <= n <= |ordered|
    requires ordered[0].start <= p < ordered[n - 1].end && !IsSpace(text[p])
    ensures InSome(ordered, p)
  {
    if p < ordered[n - 1].start {
      assert GapAllowed(text, ordered[n - 2], ordered[n - 1]);
      SliceSpace(text, ordered[n - 2].end, ordered[n - 1].start);
      StepwiseCovers(text, ordered, n - 1, p);
    }
  }

  lemma TilesFromSteps(text: Text, ordered: seq<Segment>)
    requires ordered != [] && Fitting(text, ordered) && Stepwise(text, ordered, |ordered|)
    requires forall p :: 0 <= p < ordered[0].start ==> IsSpace(text[p])
    requires forall p :: ordered[|ordered| - 1].end <= p < |text| ==> IsSpace(text[p])
    ensures Tiles(text, ordered)
  {
    forall i, j | 0 <= i < j < |ordered| ensures ordered[i].end <= ordered[j].start {
      StepwiseOrdered(text, ordered, i, j);
    }
    forall p | 0 <= p < |text| && !IsSpace(text[p]) ensures InSome(ordered, p) {
      StepwiseCovers(text, ordered, |ordered|, p);
    }
  }

  lemma StepsFromTiles(text: Text, ordered: seq<Segment>)
    requires ordered != [] && Fitting(text, ordered) && Tiles(text, ordered)
    ensures Stepwise(text, ordered, |ordered|)
    ensures forall p :: 0 <= p < ordered[0].start ==> IsSpace(text[p])
    ensures forall p :: ordered[|ordered| - 1].end <= p < |text| ==> IsSpace(text[p])
  {
    forall i | 1 <= i < |ordered| ensures GapAllowed(text, ordered[i - 1], ordered[i]) {
      SliceSpace(text, ordered[i - 1].end, ordered[i].start);
      forall p | ordered[i - 1].end <= p < ordered[i].start ensures IsSpace(text[p]) {
        NotInSome(text, ordered, i, p);
      }
    }
    forall p | 0 <= p < ordered[0].start ensures IsSpace(text[p]) {
      NotInSome(text, ordered, 0, p);
    }
    forall p | ordered[|ordered| - 1].end <= p < |text| ensures IsSpace(text[p]) {
      NotInSome(text, ordered, |ordered|, p);
    }
  }

  /** A position between two neighbours is in no segment. */
  lemma NotInSome(text: Text, ordered: seq<Segment>, i: nat, p: int)
    requires Fitting(text, ordered) && Tiles(text, ordered) && i <= |ordered| && 0 <= p < |text|
    requires (i > 0 ==> ordered[i - 1].end <= p) && (i < |ordered| ==> p < ordered[i].start)
    ensures IsSpace(text[p])
  {
    forall j | 0 <= j < |ordered| ensures !(ordered[j].start <= p < ordered[j].end) {
      assert j < i - 1 ==> ordered[j].end <= ordered[i - 1].start;
      assert j > i ==> ordered[i].end <= ordered[j].start;
    }
  }

  ghost predicate Fits(doc: Document, k: int, values: seq<Segment>) {
    && 0 <= k < |doc| && values != []
    && forall v :: v in values ==> v.verified && v.host == k && SegmentFits(doc, v)
  }

  lemma OrderedFitting(doc: Document, k: int, values: seq<Segment>)
    requires Fits(doc, k, values)
    ensures Fitting(doc[k].text, Ordered(values)) && Ordered(values) != []
    ensures forall v :: v in Ordered(values) ==> v.hash == Sha256(doc[k].text)
  {
    SortSorts(values, EarlierStart);
    forall i | 0 <= i < |values| ensures Ordered(values)[i].start < Ordered(values)[i].end <= |doc[k].text| {
      assert Ordered(values)[i] in values;
    }
  }

  /** A paragraph can be planned if and only if its segments tile it. */
  lemma PlannableExactly(doc: Document, k: int, values: seq<Segment>)
    requires Fits(doc, k, values)
    ensures PlanParagraph(SourceOf(doc, k), values).Success? <==> Tiles(doc[k].text, Ordered(values))
  {
    hide Sort, Slice, AllSpace, IsSpace, SegmentFits;
    var text, ordered := doc[k].text, Ordered(values);
    OrderedFitting(doc, k, values);
    GapsWhenStepwise(text, ordered, |ordered|);
    SliceSpace(text, 0, ordered[0].start);
    SliceSpace(text, ordered[|ordered| - 1].end, |text|);
    SourceReads(doc, k);
    if Tiles(text, ordered) {
      StepsFromTiles(text, ordered);
    } else if Stepwise(text, ordered, |ordered|) && AllSpace(Slice(text, 0, ordered[0].start))
              && AllSpace(Slice(text, ordered[|ordered| - 1].end, |text|)) {
      TilesFromSteps(text, ordered);
    }
  }

  // ---------------------------------------------------------------- when a plan succeeds

  lemma {:induction false} HostsSucceed(snapshot: seq<Source>, segments: seq<Segment>, hosts: seq<int>)
    ensures PlanHosts(snapshot, segments, hosts).Success? <==>
            forall h :: h in hosts ==> PlanHost(snapshot, segments, h).Success?
  {
    hide PlanHost;
    if hosts != [] {
      var before, last := hosts[..|hosts| - 1], hosts[|hosts| - 1];
      HostsSucceed(snapshot, segments, before);
      assert hosts == before + [last];
      assert last in hosts && forall h :: h in hosts <==> h in before || h == last;
    }
  }

  lemma HostSucceeds(doc: Document, segments: seq<Segment>, h: int)
    requires SegmentsFit(doc, segments) && GroupOf(segments, h) != []
    ensures PlanHost(SnapshotOf(doc), segments, h).Success? <==>
            (Due(doc, segments, h) ==> Tiles(doc[h].text, At(segments, h)))
  {
    hide PlanParagraph, Tiles, SegmentsFit, AllThere, CompleteGroup;
    SourceAtDocument(doc, h);
    CompleteExactly(segments, h);
    if 0 <= h < |doc| {
      GroupFits(doc, segments, h);
      PlannableExactly(doc, h, GroupOf(segments, h));
    }
  }

  /** Planning succeeds if and only if the segments tile every paragraph that is due. */
  lemma PlanSucceedsExactly(doc: Document, segments: seq<Segment>)
    requires SegmentsFit(doc, segments)
    ensures CreatedPlan(SnapshotOf(doc), segments).Success? <==>
            forall k :: Due(doc, segments, k) ==> Tiles(doc[k].text, At(segments, k))
  {
    hide PlanHost, Tiles, SegmentsFit, PlanHosts;
    HostsSucceed(SnapshotOf(doc), segments, Hosts(segments));
    HostsAreGroups(segments);
    forall h | GroupOf(segments, h) != []
      ensures PlanHost(SnapshotOf(doc), segments, h).Success? <==>
              (Due(doc, segments, h) ==> Tiles(doc[h].text, At(segments, h)))
    {
      HostSucceeds(doc, segments, h);
    }
    forall k | Due(doc, segments, k) ensures GroupOf(segments, k) != [] {
      CompleteExactly(segments, k);
    }
  }

  // ---------------------------------------------------------------- one position

  lemma DeletableExactly(doc: Document, segments: seq<Segment>, k: int)
    ensures Deletable(SnapshotOf(doc), segments, k) <==> EmptyBetween(doc, segments, k)
  {
    if 0 < k < |doc| - 1 {
      assert SnapshotOf(doc)[k] == SourceOf(doc, k) && SnapshotOf(doc)[k - 1].index == k - 1;
      assert SnapshotOf(doc)[k + 1].index == k + 1;
      GroupMembers(segments, k - 1);
      GroupMembers(segments, k + 1);
    }
  }

  lemma DuePlanned(doc: Document, segments: seq<Segment>, k: int)
    requires SegmentsFit(doc, segments) && CreatedPlan(SnapshotOf(doc), segments).Success? && Due(doc, segments, k)
    ensures GroupOf(segments, k) != [] && k in Hosts(segments)
    ensures PlanHost(SnapshotOf(doc), segments, k) == PlanParagraph(SourceOf(doc, k), GroupOf(segments, k))
    ensures PlanHost(SnapshotOf(doc), segments, k).Success?
  {
    hide PlanParagraph, SegmentsFit;
    CompleteExactly(segments, k);
    HostsAreGroups(segments);
    SourceAtDocument(doc, k);
    PlannedCompletely(SnapshotOf(doc), segments, Hosts(segments), k);
  }

  /** Nothing but a due paragraph is planned. */
  lemma PlannedDue(doc: Document, segments: seq<Segment>, k: int)
    requires PlanHost(SnapshotOf(doc), segments, k).Success? && PlanHost(SnapshotOf(doc), segments, k).value.Some?
    ensures Due(doc, segments, k)
  {
    hide PlanParagraph;
    SourceAtDocument(doc, k);
    CompleteExactly(segments, k);
  }

  /** A paragraph that needs no item is one segment already. */
  lemma WholeAlready(doc: Document, k: int, values: seq<Segment>)
    requires Fits(doc, k, values) && PlanParagraph(SourceOf(doc, k), values) == Success(None)
    ensures Fragmented(doc[k], Ordered(values)) == [doc[k]]
  {
    hide Sort, AllSpace, IsSpace, SegmentFits;
    var text, ordered := doc[k].text, Ordered(values);
    OrderedFitting(doc, k, values);
    GapsBetweenAre(text, ordered, |ordered|);
    assert |ordered| == 1;
    assert text[0..|text|] == text;
  }

  /** An item leaves the segments. */
  lemma ItemFragments(doc: Document, k: int, values: seq<Segment>, item: Item)
    requires Fits(doc, k, values) && PlanParagraph(SourceOf(doc, k), values) == Success(Some(item))
    requires GapsLeftToRight(item) == item.gaps && !item.deleteEmpty
    ensures 0 <= item.trimStart && item.trimEnd <= |doc[k].text|
    ensures InOrder(item.trimStart, GapsOf(doc[k].text, item, false), item.trimEnd)
    ensures Replacement(doc[k], item, false) == Fragmented(doc[k], Ordered(values))
  {
    hide Sort, PlanParagraph, SegmentFits, Fragments, InOrder;
    ParagraphReplacement(doc, k, values);
    OrderedFitting(doc, k, values);
    TextsFragmented(doc[k], Ordered(values));
  }

  lemma TextsFragmented(p: Paragraph, ordered: seq<Segment>)
    requires Fitting(p.text, ordered)
    ensures AsParagraphs(p, SegmentTexts(p.text, ordered, |ordered|)) == Fragmented(p, ordered)
  {
  }

  lemma DueBecomes(doc: Document, segments: seq<Segment>, changes: map<int, Document>, k: nat)
    requires Planned(doc, segments, changes) && Due(doc, segments, k)
    ensures Patched(doc, changes, k) == Fragmented(doc[k], At(segments, k))
  {
    hide SegmentsFit, PlanParagraph, CreatedPlan, Changes, Due, PlanHost, Fragmented;
    var items := CreatedPlan(SnapshotOf(doc), segments).value.items;
    assert 0 <= k < |doc| by { DueInside(doc, segments, k); }
    DuePlanned(doc, segments, k);
    GroupFits(doc, segments, k);
    assert Fits(doc, k, GroupOf(segments, k));
    PlanDistinct(doc, segments);
    if PlanHost(SnapshotOf(doc), segments, k).value.Some? {
      var item := PlanHost(SnapshotOf(doc), segments, k).value.value;
      PlannedHost(doc, segments, k);
      PlannedIn(doc, segments, k);
      var i :| 0 <= i < |items| && items[i] == item;
      ChangesFind(doc, items, i, false);
      ItemFragments(doc, k, GroupOf(segments, k), item);
    } else {
      WholeAlready(doc, k, GroupOf(segments, k));
      if k in changes {
        var i :| 0 <= i < |items| && items[i].index == k;
        ItemOrigin(doc, segments, i);
        DeletedHasNoGroup(doc, segments, k);
        assert false;
      }
    }
  }

  lemma DueInside(doc: Document, segments: seq<Segment>, k: int)
    requires Due(doc, segments, k)
    ensures 0 <= k < |doc|
  {
  }

  lemma PlannedIn(doc: Document, segments: seq<Segment>, k: int)
    requires CreatedPlan(SnapshotOf(doc), segments).Success? && k in Hosts(segments)
    requires PlanHost(SnapshotOf(doc), segments, k).Success? && PlanHost(SnapshotOf(doc), segments, k).value.Some?
    ensures PlanHost(SnapshotOf(doc), segments, k).value.value in CreatedPlan(SnapshotOf(doc), segments).value.items
  {
    hide PlanHost, PlanHosts, Deletions;
    PlannedCompletely(SnapshotOf(doc), segments, Hosts(segments), k);
  }

  lemma DeletedHasNoGroup(doc: Document, segments: seq<Segment>, k: int)
    requires SegmentsFit(doc, segments) && Deletable(SnapshotOf(doc), segments, k)
    ensures GroupOf(segments, k) == []
  {
    DeletableExactly(doc, segments, k);
    EmptyHasNoGroup(doc, segments, k);
  }

  lemma EmptyGoes(doc: Document, segments: seq<Segment>, changes: map<int, Document>, k: nat)
    requires Planned(doc, segments, changes) && EmptyBetween(doc, segments, k)
    ensures Patched(doc, changes, k) == []
  {
    hide SegmentsFit, CreatedPlan, Changes, PlanHost, Due;
    DeletableExactly(doc, segments, k);
    DeletableChanges(doc, segments, changes, k);
    EmptyHasNoGroup(doc, segments, k);
    ChangedPosition(doc, segments, changes, k);
    SortOfNothing();
  }

  lemma SortOfNothing()
    ensures Ordered([]) == []
  {
  }

  lemma OthersStay(doc: Document, segments: seq<Segment>, changes: map<int, Document>, k: nat)
    requires Planned(doc, segments, changes) && k < |doc|
    requires !Due(doc, segments, k) && !EmptyBetween(doc, segments, k)
    ensures Patched(doc, changes, k) == [doc[k]]
  {
    hide SegmentsFit, CreatedPlan, PlanHost, Due, EmptyBetween, Deletable;
    if k in changes {
      var items := CreatedPlan(SnapshotOf(doc), segments).value.items;
      var i :| 0 <= i < |items| && items[i].index == k;
      ItemOrigin(doc, segments, i);
      DeletableExactly(doc, segments, k);
      if PlanHost(SnapshotOf(doc), segments, k) == Success(Some(items[i])) {
        PlannedDue(doc, segments, k);
      }
      assert false;
    }
  }

  // ---------------------------------------------------------------- the whole document

  lemma {:induction false} PatchIsNormal(doc: Document, segments: seq<Segment>, changes: map<int, Document>, n: nat)
    requires Planned(doc, segments, changes) && n <= |doc|
    ensures Patch(doc, changes, n) == Normal(doc, segments, n)
    decreases n
  {
    hide Planned, NormalAt, Patched;
    if n > 0 {
      PatchIsNormal(doc, segments, changes, n - 1);
      PositionIsNormal(doc, segments, changes, n - 1);
    }
  }

  lemma PositionIsNormal(doc: Document, segments: seq<Segment>, changes: map<int, Document>, k: nat)
    requires Planned(doc, segments, changes) && k < |doc|
    ensures Patched(doc, changes, k) == NormalAt(doc, segments, k)
  {
    hide Planned, Due, EmptyBetween, Patched, Fragmented;
    if Due(doc, segments, k) {
      DueBecomes(doc, segments, changes, k);
    } else if EmptyBetween(doc, segments, k) {
      EmptyGoes(doc, segments, changes, k);
    } else {
      OthersStay(doc, segments, changes, k);
    }
  }

  /** A successful plan describes exactly the normal form of the document. */
  lemma PlanIsNormal(doc: Document, segments: seq<Segment>)
    requires SegmentsFit(doc, segments) && CreatedPlan(SnapshotOf(doc), segments).Success?
    ensures AllAccepted(doc, CreatedPlan(SnapshotOf(doc), segments).value.items)
    ensures Rewrite(doc, CreatedPlan(SnapshotOf(doc), segments).value.items) == Normal(doc, segments, |doc|)
  {
    PlanFits(doc, segments);
    PatchIsNormal(doc, segments, Changes(doc, CreatedPlan(SnapshotOf(doc), segments).value.items, false), |doc|);
  }

  /** Planning and editing together: where the segments tile every due paragraph, the worker's plan, carried out by the
      host, leaves the normal form; without items the document is in normal form already. */
  lemma NormalizationReachesNormal(doc: Document, segments: seq<Segment>)
    requires ValidDocument(doc) && SegmentsFit(doc, segments)
    requires forall k :: Due(doc, segments, k) ==> Tiles(doc[k].text, At(segments, k))
    ensures CreatedPlan(SnapshotOf(doc), segments).Success?
    ensures var plan := CreatedPlan(SnapshotOf(doc), segments).value;
            && (plan.items == [] ==> Normal(doc, segments, |doc|) == doc)
            && (plan.items != [] && plan.created + plan.trimmed + plan.removed <= BATCH_LIMIT ==>
                  var normal := Normal(doc, segments, |doc|);
                  Batch(doc, plan.items, Sha256(Visible(doc)), true) ==
                  (Success(Report(plan.split, plan.created, plan.trimmed, plan.removed, |normal|)), normal))
  {
    hide SegmentsFit, Due, Tiles, CreatedPlan, Normal, Batch;
    PlanSucceedsExactly(doc, segments);
    var plan := CreatedPlan(SnapshotOf(doc), segments).value;
    PlanIsNormal(doc, segments);
    if plan.items == [] {
      PatchUntouched(doc, Changes(doc, plan.items, false), 0, |doc|);
    } else if plan.created + plan.trimmed + plan.removed <= BATCH_LIMIT {
      NormalizationSucceeds(doc, segments);
      assert SnapshotOf(doc)[..|doc|] == SnapshotOf(doc) && doc[..|doc|] == doc;
      SnapshotVisibleIs(doc, |doc|);
    }
  }
}
