/** Every plan the worker builds from verified segments passes the host's checks, with the same counts. */
module StructurePlanFits {
  import opened Results
  import opened Utf16
  import opened Sorting
  import HostText
  import opened StructureModel
  import opened StructureResult
  import opened StructureHost
  import opened StructurePlan

  /** What recognition mapping guarantees of a verified segment: its range slices the paragraph it names,
      and its hash is that paragraph's. */
  ghost predicate SegmentFits(doc: Document, s: Segment) {
    s.verified && 0 <= s.host < |doc| ==>
      && HostText.RawSlice(doc[s.host].text, s.start, s.end).Some?
      && s.hash == Sha256(doc[s.host].text)
  }

  ghost predicate SegmentsFit(doc: Document, segments: seq<Segment>) {
    forall i :: 0 <= i < |segments| ==> SegmentFits(doc, segments[i])
  }

  // ---------------------------------------------------------------- groups

  lemma {:induction false} GroupMembers(segments: seq<Segment>, host: int)
    ensures forall v :: v in GroupOf(segments, host) <==> v in segments && v.verified && v.host == host
  {
    if segments != [] {
      GroupMembers(segments[..|segments| - 1], host);
      assert segments == segments[..|segments| - 1] + [segments[|segments| - 1]];
    }
  }

  lemma {:induction false} SourceAtSnapshot(doc: Document, k: nat, host: int)
    requires k <= |doc|
    ensures SourceAt(SnapshotOf(doc)[..k], host) == if 0 <= host < k then Some(SourceOf(doc, host)) else None
    decreases k
  {
    if k > 0 {
      assert SnapshotOf(doc)[..k][..k - 1] == SnapshotOf(doc)[..k - 1];
      SourceAtSnapshot(doc, k - 1, host);
    }
  }

  lemma {:induction false} SourceAtDocument(doc: Document, host: int)
    ensures SourceAt(SnapshotOf(doc), host) == if 0 <= host < |doc| then Some(SourceOf(doc, host)) else None
  {
    assert SnapshotOf(doc)[..|doc|] == SnapshotOf(doc);
    SourceAtSnapshot(doc, |doc|, host);
  }

  // ---------------------------------------------------------------- one planned paragraph is accepted

  /** Segments of one paragraph, left to right. */
  ghost predicate LeftToRight(text: Text, ordered: seq<Segment>) {
    && (forall i :: 0 <= i < |ordered| ==> HostText.RawSlice(text, ordered[i].start, ordered[i].end).Some?)
    && (forall i :: 1 <= i < |ordered| ==> GapAllowed(text, ordered[i - 1], ordered[i]))
  }

  lemma {:induction false} GapsBetweenAre(text: Text, ordered: seq<Segment>, n: nat)
    requires n <= |ordered| && GapsBetween(text, ordered, n).Some?
    ensures var gaps := GapsBetween(text, ordered, n).value;
            && |gaps| == (if n <= 1 then 0 else n - 1)
            && forall i :: 0 <= i < |gaps| ==>
                 gaps[i] == Gap(ordered[i].end, ordered[i + 1].start) && GapAllowed(text, ordered[i], ordered[i + 1])
    decreases n
  {
    if n > 1 {
      GapsBetweenAre(text, ordered, n - 1);
    }
  }

  lemma {:induction false} GapShape(text: Text, ordered: seq<Segment>, gaps: seq<Gap>, i: nat)
    requires GapsBetween(text, ordered, |ordered|) == Some(gaps) && i < |gaps|
    ensures i + 1 < |ordered| && gaps[i].start == ordered[i].end
  {
    GapsBetweenAre(text, ordered, |ordered|);
    assert gaps[i] == Gap(ordered[i].end, ordered[i + 1].start);
  }

  lemma SegmentBounds(text: Text, ordered: seq<Segment>, i: nat)
    requires LeftToRight(text, ordered) && i < |ordered|
    ensures ordered[i].start < ordered[i].end <= |text| && IsBoundary(text, ordered[i].end)
  {
    assert HostText.RawSlice(text, ordered[i].start, ordered[i].end).Some?;
  }

  ghost predicate Ascending(gaps: seq<Gap>) {
    forall i, j :: 0 <= i < j < |gaps| ==> gaps[i].start < gaps[j].start
  }

  lemma {:induction false} ReverseAppend<T>(s: seq<T>, x: T)
    ensures Reverse(s + [x]) == [x] + Reverse(s)
  {
    if s == [] {
      assert Reverse([x][1..]) == [];
    } else {
      assert (s + [x])[1..] == s[1..] + [x];
      ReverseAppend(s[1..], x);
    }
  }

  lemma {:induction false} ReverseTwice<T>(s: seq<T>)
    ensures Reverse(Reverse(s)) == s
  {
    if s != [] {
      ReverseTwice(s[1..]);
      ReverseAppend(Reverse(s[1..]), s[0]);
    }
  }

  /** Sorting an ascending list right to left reverses it. */
  lemma {:induction false} SortAscending(gaps: seq<Gap>)
    requires Ascending(gaps)
    ensures Sort(gaps, LaterGap) == Reverse(gaps)
  {
    if gaps != [] {
      var front, last := gaps[..|gaps| - 1], gaps[|gaps| - 1];
      SortAscending(front);
      ReverseMembers(front);
      forall y | y in Reverse(front) ensures LaterGap(last, y) {
        var i :| 0 <= i < |front| && front[i] == y;
      }
      InsertFront(Reverse(front), last, LaterGap);
      assert gaps == front + [last];
      ReverseAppend(front, last);
    }
  }

  /** Gaps between segments fit, right to left. */
  lemma {:induction false} GapsBetweenFit(text: Text, item: Item, ordered: seq<Segment>, n: nat, nextStart: int)
    requires 1 <= n <= |ordered| && LeftToRight(text, ordered) && GapsBetween(text, ordered, n).Some?
    requires item.trimStart <= ordered[0].start && ordered[n - 1].start < item.trimEnd <= |text|
    requires ordered[n - 1].end <= nextStart && ordered[n - 1].start < nextStart
    ensures GapsFit(text, item, Reverse(GapsBetween(text, ordered, n).value), nextStart)
    decreases n
  {
    if n > 1 {
      var before := GapsBetween(text, ordered, n - 1).value;
      var g := Gap(ordered[n - 2].end, ordered[n - 1].start);
      assert GapAllowed(text, ordered[n - 2], ordered[n - 1]);
      GapsBetweenFit(text, item, ordered, n - 1, g.start);
      ReverseAppend(before, g);
      StartsAscend(text, ordered, 0, n - 2);
      assert Slice(text, g.start, g.end) == text[g.start..g.end];
      assert ([g] + Reverse(before))[1..] == Reverse(before);
    }
  }

  lemma StartsAscend(text: Text, ordered: seq<Segment>, i: nat, j: nat)
    requires i <= j < |ordered| && LeftToRight(text, ordered)
    ensures ordered[i].start <= ordered[j].start && (i < j ==> ordered[i].end <= ordered[j].start)
    decreases j
  {
    if i < j {
      StartsAscend(text, ordered, i, j - 1);
      assert GapAllowed(text, ordered[j - 1], ordered[j]);
    }
  }

  lemma {:induction false} GapsAscend(text: Text, ordered: seq<Segment>)
    requires LeftToRight(text, ordered) && GapsBetween(text, ordered, |ordered|).Some?
    ensures Ascending(GapsBetween(text, ordered, |ordered|).value)
  {
    var gaps := GapsBetween(text, ordered, |ordered|).value;
    forall i, j | 0 <= i < j < |gaps| ensures gaps[i].start < gaps[j].start {
      GapShape(text, ordered, gaps, i);
      GapShape(text, ordered, gaps, j);
      StartsAscend(text, ordered, i, j);
      SegmentBounds(text, ordered, j);
    }
  }

  /** What a planned paragraph's segments look like. */
  lemma PlannedSegments(doc: Document, host: int, values: seq<Segment>)
    requires 0 <= host < |doc| && values != []
    requires forall v :: v in values ==> v.verified && v.host == host && SegmentFits(doc, v)
    requires PlanParagraph(SourceOf(doc, host), values).Success?
    ensures Ordered(values) != [] && LeftToRight(doc[host].text, Ordered(values))
    ensures GapsBetween(doc[host].text, Ordered(values), |Ordered(values)|).Some?
  {
    SortSorts(values, EarlierStart);
    var ordered, text := Ordered(values), doc[host].text;
    forall i | 0 <= i < |ordered| ensures HostText.RawSlice(text, ordered[i].start, ordered[i].end).Some? {
      assert ordered[i] in values;
    }
    GapsBetweenAre(text, ordered, |ordered|);
    var gaps := GapsBetween(text, ordered, |ordered|).value;
    forall i | 1 <= i < |ordered| ensures GapAllowed(text, ordered[i - 1], ordered[i]) {
      assert gaps[i - 1] == Gap(ordered[i - 1].end, ordered[i].start);
    }
  }

  /** The gaps of a planned item pass the host's gap check. */
  lemma {:induction false} GapsAccepted(text: Text, item: Item, ordered: seq<Segment>)
    requires ordered != [] && LeftToRight(text, ordered)
    requires GapsBetween(text, ordered, |ordered|) == Some(item.gaps)
    requires item.trimStart == ordered[0].start && item.trimEnd == ordered[|ordered| - 1].end
    ensures GapsFit(text, item, GapsRightToLeft(item), |text| + 1) && GapsLeftToRight(item) == item.gaps
    ensures 0 <= item.trimStart <= item.trimEnd <= |text|
    ensures forall g :: g in item.gaps && 0 <= g.start <= |text| ==> IsBoundary(text, g.start)
  {
    var last := ordered[|ordered| - 1];
    StartsAscend(text, ordered, 0, |ordered| - 1);
    assert HostText.RawSlice(text, last.start, last.end).Some?;
    GapsBetweenFit(text, item, ordered, |ordered|, |text| + 1);
    GapsAscend(text, ordered);
    SortAscending(item.gaps);
    ReverseTwice(item.gaps);
    GapsAtCharacters(text, ordered);
  }

  lemma {:induction false} GapsAtCharacters(text: Text, ordered: seq<Segment>)
    requires LeftToRight(text, ordered) && GapsBetween(text, ordered, |ordered|).Some?
    ensures forall g :: g in GapsBetween(text, ordered, |ordered|).value && 0 <= g.start <= |text| ==>
              IsBoundary(text, g.start)
  {
    var gaps := GapsBetween(text, ordered, |ordered|).value;
    forall g | g in gaps && 0 <= g.start <= |text| ensures IsBoundary(text, g.start) {
      var i :| 0 <= i < |gaps| && gaps[i] == g;
      GapShape(text, ordered, gaps, i);
      SegmentBounds(text, ordered, i);
    }
  }

  lemma PlannedItem(source: Source, values: seq<Segment>)
    requires values != []
    requires var r := PlanParagraph(source, values); r.Success? && r.value.Some?
    ensures var item, ordered := PlanParagraph(source, values).value.value, Ordered(values);
            && |ordered| == |values| && GapsBetween(source.text, ordered, |ordered|) == Some(item.gaps)
            && item.index == values[0].host && item.hash == ordered[0].hash && !item.deleteEmpty
            && item.trimStart == ordered[0].start && item.trimEnd == ordered[|ordered| - 1].end
            && AllSpace(Slice(source.text, 0, item.trimStart))
            && AllSpace(Slice(source.text, item.trimEnd, |source.text|))
            && (item.gaps != [] || item.trimStart > 0 || item.trimEnd < |source.text|)
  {
    hide GapsBetween, Slice, Sort;
    SortSorts(values, EarlierStart);
  }

  lemma TrimsAccepted(text: Text, item: Item)
    requires 0 <= item.trimStart <= item.trimEnd <= |text|
    requires AllSpace(Slice(text, 0, item.trimStart)) && AllSpace(Slice(text, item.trimEnd, |text|))
    ensures TrimFits(text, item)
  {
    assert Slice(text, 0, item.trimStart) == text[..item.trimStart];
    assert Slice(text, item.trimEnd, |text|) == text[item.trimEnd..];
  }

  lemma SourceReads(doc: Document, host: int)
    requires 0 <= host < |doc|
    ensures SourceOf(doc, host).text == doc[host].text
  {
  }

  /** A planned paragraph passes the host's check, and no split falls inside a surrogate pair. */
  lemma PlannedAccepted(doc: Document, host: int, values: seq<Segment>)
    requires 0 <= host < |doc| && values != [] && !doc[host].inTable
    requires forall v :: v in values ==> v.verified && v.host == host && SegmentFits(doc, v)
    requires var r := PlanParagraph(SourceOf(doc, host), values); r.Success? && r.value.Some?
    ensures var item := PlanParagraph(SourceOf(doc, host), values).value.value;
            && Accepts(doc, item) && ItemSplitsAtCharacters(doc, item)
            && item.index == host && !item.deleteEmpty
            && (item.gaps != [] || item.trimStart > 0 || item.trimEnd < |doc[host].text|)
            && GapsLeftToRight(item) == item.gaps
  {
    hide GapsBetween, GapsFit, LeftToRight, SourceOf, PlanParagraph, GapsLeftToRight, GapsRightToLeft, IsBoundary,
        Slice, AllSpace, TrimFits, Sort;
    PlannedSegments(doc, host, values);
    SortSorts(values, EarlierStart);
    var ordered, text := Ordered(values), doc[host].text;
    var item := PlanParagraph(SourceOf(doc, host), values).value.value;
    PlannedItem(SourceOf(doc, host), values);
    SourceReads(doc, host);
    GapsAccepted(text, item, ordered);
    assert ordered[0] in values && values[0] in values;
    TrimsAccepted(text, item);
  }

  // ---------------------------------------------------------------- all items

  /** What is known of every item planned from segments. */
  ghost predicate HostItem(doc: Document, segments: seq<Segment>, item: Item) {
    && Accepts(doc, item) && ItemSplitsAtCharacters(doc, item) && !item.deleteEmpty
    && (item.gaps != [] || item.trimStart > 0 || item.trimEnd < |doc[item.index].text|)
    && GroupOf(segments, item.index) != [] && GapsLeftToRight(item) == item.gaps
  }

  lemma PlannedHost(doc: Document, segments: seq<Segment>, host: int)
    requires SegmentsFit(doc, segments)
    requires PlanHost(SnapshotOf(doc), segments, host).Success?
    requires PlanHost(SnapshotOf(doc), segments, host).value.Some?
    ensures var item := PlanHost(SnapshotOf(doc), segments, host).value.value;
            HostItem(doc, segments, item) && item.index == host
  {
    SourceAtDocument(doc, host);
    var values := GroupOf(segments, host);
    GroupMembers(segments, host);
    forall v | v in values ensures v.verified && v.host == host && SegmentFits(doc, v) {
      var i :| 0 <= i < |segments| && segments[i] == v;
    }
    PlannedAccepted(doc, host, values);
  }

  lemma {:induction false} PlannedHosts(doc: Document, segments: seq<Segment>, hosts: seq<int>)
    requires SegmentsFit(doc, segments)
    requires forall i, j :: 0 <= i < j < |hosts| ==> hosts[i] != hosts[j]
    requires PlanHosts(SnapshotOf(doc), segments, hosts).Success?
    ensures var items := PlanHosts(SnapshotOf(doc), segments, hosts).value;
            && DistinctIndices(items)
            && forall i :: 0 <= i < |items| ==> HostItem(doc, segments, items[i]) && items[i].index in hosts
  {
    hide PlanHost, HostItem, SegmentsFit;
    if hosts != [] {
      var before, last := hosts[..|hosts| - 1], hosts[|hosts| - 1];
      PlannedHosts(doc, segments, before);
      if PlanHost(SnapshotOf(doc), segments, last).value.Some? {
        PlannedHost(doc, segments, last);
      }
      assert forall h :: h in before ==> h in hosts && h != last;
      assert last in hosts;
    }
  }

  /** What is known of every deletion. */
  ghost predicate DeletionItem(doc: Document, segments: seq<Segment>, item: Item) {
    && Accepts(doc, item) && item.deleteEmpty && GapsLeftToRight(item) == item.gaps
    && Deletable(SnapshotOf(doc), segments, item.index)
  }

  lemma OneDeletionFits(doc: Document, segments: seq<Segment>, k: int)
    requires Deletable(SnapshotOf(doc), segments, k)
    ensures DeletionItem(doc, segments, Deletion(SnapshotOf(doc)[k]))
  {
    var item := Deletion(SnapshotOf(doc)[k]);
    assert SnapshotOf(doc)[k] == SourceOf(doc, k);
    assert GapsRightToLeft(item) == [];
  }

  ghost predicate IsDeletion(snapshot: seq<Source>, segments: seq<Segment>, item: Item, n: nat) {
    && 0 <= item.index < n <= |snapshot|
    && Deletable(snapshot, segments, item.index) && item == Deletion(snapshot[item.index])
  }

  lemma {:induction false} DeletionsAre(snapshot: seq<Source>, segments: seq<Segment>, n: nat)
    requires n <= |snapshot| && forall k :: 0 <= k < |snapshot| ==> snapshot[k].index == k
    ensures forall i :: 0 <= i < |Deletions(snapshot, segments, n)| ==>
              IsDeletion(snapshot, segments, Deletions(snapshot, segments, n)[i], n)
    ensures forall i, j :: 0 <= i < j < |Deletions(snapshot, segments, n)| ==>
              Deletions(snapshot, segments, n)[i].index < Deletions(snapshot, segments, n)[j].index
    decreases n
  {
    if n > 0 {
      DeletionsAre(snapshot, segments, n - 1);
      var before, items := Deletions(snapshot, segments, n - 1), Deletions(snapshot, segments, n);
      assert snapshot[n - 1].index == n - 1;
      forall i | 0 <= i < |items| ensures IsDeletion(snapshot, segments, items[i], n) {
        if i < |before| {
          assert items[i] == before[i] && IsDeletion(snapshot, segments, before[i], n - 1);
        }
      }
      forall i, j | 0 <= i < j < |items| ensures items[i].index < items[j].index {
        assert items[i] == before[i] && IsDeletion(snapshot, segments, before[i], n - 1);
        assert j < |before| ==> items[j] == before[j];
      }
    }
  }

  lemma {:induction false} DeletionsContain(snapshot: seq<Source>, segments: seq<Segment>, n: nat, k: nat)
    requires k < n <= |snapshot| && Deletable(snapshot, segments, k)
    ensures Deletion(snapshot[k]) in Deletions(snapshot, segments, n)
    decreases n
  {
    hide Deletable, Deletion;
    if k < n - 1 {
      DeletionsContain(snapshot, segments, n - 1, k);
    }
  }

  lemma {:induction false} DeletionsFitHost(doc: Document, segments: seq<Segment>)
    ensures var items := Deletions(SnapshotOf(doc), segments, |doc|);
            && (forall i :: 0 <= i < |items| ==> DeletionItem(doc, segments, items[i]))
            && DistinctIndices(items)
  {
    DeletionsAre(SnapshotOf(doc), segments, |doc|);
    var items := Deletions(SnapshotOf(doc), segments, |doc|);
    forall i | 0 <= i < |items| ensures DeletionItem(doc, segments, items[i]) {
      assert IsDeletion(SnapshotOf(doc), segments, items[i], |doc|);
      OneDeletionFits(doc, segments, items[i].index);
    }
  }

  lemma {:induction false} RecognizedNotEmpty(doc: Document, segments: seq<Segment>, k: int)
    requires SegmentsFit(doc, segments) && 0 <= k < |doc| && GroupOf(segments, k) != []
    ensures doc[k].text != []
  {
    GroupMembers(segments, k);
    var v := GroupOf(segments, k)[0];
    var i :| 0 <= i < |segments| && segments[i] == v;
    assert SegmentFits(doc, segments[i]);
  }

  /** Nothing is recognized in an empty paragraph. */
  lemma {:induction false} EmptyHasNoGroup(doc: Document, segments: seq<Segment>, k: int)
    requires SegmentsFit(doc, segments) && 0 <= k < |doc| && doc[k].text == []
    ensures GroupOf(segments, k) == []
  {
    if GroupOf(segments, k) != [] {
      RecognizedNotEmpty(doc, segments, k);
    }
  }

  lemma Disjoint(doc: Document, segments: seq<Segment>, planned: Item, deletion: Item)
    requires SegmentsFit(doc, segments) && HostItem(doc, segments, planned) && DeletionItem(doc, segments, deletion)
    ensures planned.index != deletion.index
  {
    assert SnapshotOf(doc)[deletion.index] == SourceOf(doc, deletion.index);
    EmptyHasNoGroup(doc, segments, deletion.index);
  }

  /** An item of a plan, of either kind. */
  ghost predicate PlanItem(doc: Document, segments: seq<Segment>, item: Item) {
    HostItem(doc, segments, item) || DeletionItem(doc, segments, item)
  }

  lemma PlanItemFits(doc: Document, segments: seq<Segment>, item: Item)
    requires PlanItem(doc, segments, item)
    ensures Accepts(doc, item) && ItemSplitsAtCharacters(doc, item) && GapsLeftToRight(item) == item.gaps
  {
  }

  lemma JoinItems(doc: Document, segments: seq<Segment>, planned: seq<Item>, deletions: seq<Item>)
    requires SegmentsFit(doc, segments)
    requires forall i :: 0 <= i < |planned| ==> HostItem(doc, segments, planned[i])
    requires forall i :: 0 <= i < |deletions| ==> DeletionItem(doc, segments, deletions[i])
    requires DistinctIndices(planned) && DistinctIndices(deletions)
    ensures DistinctIndices(planned + deletions)
    ensures forall i :: 0 <= i < |planned + deletions| ==> PlanItem(doc, segments, (planned + deletions)[i])
  {
    forall i, j | 0 <= i < |planned| && 0 <= j < |deletions| ensures planned[i].index != deletions[j].index {
      Disjoint(doc, segments, planned[i], deletions[j]);
    }
  }

  /** Every plan: distinct indices, accepted by the host item by item, every split between characters. */
  lemma PlanFits(doc: Document, segments: seq<Segment>)
    requires SegmentsFit(doc, segments)
    requires CreatedPlan(SnapshotOf(doc), segments).Success?
    ensures var items := CreatedPlan(SnapshotOf(doc), segments).value.items;
            && AllAccepted(doc, items) && DistinctIndices(items) && SplitsAtCharacters(doc, items)
            && forall i :: 0 <= i < |items| ==> PlanItem(doc, segments, items[i])
  {
    HostsAreGroups(segments);
    PlannedHosts(doc, segments, Hosts(segments));
    DeletionsFitHost(doc, segments);
    var planned, deletions := PlanHosts(SnapshotOf(doc), segments, Hosts(segments)).value,
        Deletions(SnapshotOf(doc), segments, |doc|);
    JoinItems(doc, segments, planned, deletions);
    var items := planned + deletions;
    forall i | 0 <= i < |items| ensures Accepts(doc, items[i]) && ItemSplitsAtCharacters(doc, items[i]) {
      PlanItemFits(doc, segments, items[i]);
    }
  }

  // ---------------------------------------------------------------- counts

  lemma {:induction false} SumSame(items: seq<Item>, f: Item -> int, g: Item -> int)
    requires forall i :: 0 <= i < |items| ==> f(items[i]) == g(items[i])
    ensures Sum(items, f) == Sum(items, g)
  {
    if items != [] {
      SumSame(items[1..], f, g);
    }
  }

  lemma EveryItemCounts(doc: Document, segments: seq<Segment>, items: seq<Item>)
    requires forall i :: 0 <= i < |items| ==> PlanItem(doc, segments, items[i])
    ensures |items| <= Total(doc, items)
  {
    if items != [] {
      EveryItemCounts(doc, segments, items[1..]);
      ItemCounts(doc, segments, items[0]);
    }
  }

  lemma ItemCounts(doc: Document, segments: seq<Segment>, item: Item)
    requires PlanItem(doc, segments, item)
    ensures Boundaries(item) + Removed(item) + TrimmedIn(doc)(item) >= 1
  {
  }

  /** The worker's four counts are the host's. */
  lemma PlanCounts(doc: Document, segments: seq<Segment>)
    requires SegmentsFit(doc, segments)
    requires CreatedPlan(SnapshotOf(doc), segments).Success?
    ensures var plan := CreatedPlan(SnapshotOf(doc), segments).value;
            && plan.split == Sum(plan.items, Splits) && plan.created == Sum(plan.items, Boundaries)
            && plan.removed == Sum(plan.items, Removed) && plan.trimmed == Sum(plan.items, TrimmedIn(doc))
            && |plan.items| <= Total(doc, plan.items)
  {
    PlanFits(doc, segments);
    var items := CreatedPlan(SnapshotOf(doc), segments).value.items;
    forall i | 0 <= i < |items| ensures TrimCountIn(SnapshotOf(doc))(items[i]) == TrimmedIn(doc)(items[i]) {
      assert Accepts(doc, items[i]);
      SourceAtDocument(doc, items[i].index);
    }
    SumSame(items, TrimCountIn(SnapshotOf(doc)), TrimmedIn(doc));
    EveryItemCounts(doc, segments, items);
  }

  lemma SnapshotVisibleIs(doc: Document, k: nat)
    requires k <= |doc|
    ensures SnapshotVisible(SnapshotOf(doc)[..k]) == Visible(doc[..k])
    decreases k
  {
    if k > 0 {
      assert SnapshotOf(doc)[..k][..k - 1] == SnapshotOf(doc)[..k - 1] && doc[..k][..k - 1] == doc[..k - 1];
      SnapshotVisibleIs(doc, k - 1);
    }
  }

  /** From snapshot to saved document: a non-empty plan of at most 200 operations succeeds, the host reports
      exactly the counts the worker predicted, and the document is the planned one. */
  lemma {:induction false} NormalizationSucceeds(doc: Document, segments: seq<Segment>)
    requires ValidDocument(doc) && SegmentsFit(doc, segments)
    requires CreatedPlan(SnapshotOf(doc), segments).Success?
    requires var plan := CreatedPlan(SnapshotOf(doc), segments).value;
             plan.items != [] && plan.created + plan.trimmed + plan.removed <= BATCH_LIMIT
    ensures var plan := CreatedPlan(SnapshotOf(doc), segments).value;
            && AllAccepted(doc, plan.items)
            && var after := Rewrite(doc, plan.items);
            && Batch(doc, plan.items, Sha256(SnapshotVisible(SnapshotOf(doc))), true) ==
               (Success(Report(plan.split, plan.created, plan.trimmed, plan.removed, |after|)), after)
            && Visible(after) == Visible(doc)
            && |after| == |doc| + plan.created - plan.removed
  {
    var plan := CreatedPlan(SnapshotOf(doc), segments).value;
    PlanFits(doc, segments);
    PlanCounts(doc, segments);
    assert SnapshotOf(doc)[..|doc|] == SnapshotOf(doc) && doc[..|doc|] == doc;
    SnapshotVisibleIs(doc, |doc|);
    BatchReachesPlan(doc, plan.items, Sha256(Visible(doc)));
  }
}
