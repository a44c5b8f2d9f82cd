/** The worker's planner: from a snapshot and recognized segments to normalization items. */
module StructurePlan {
  import opened Results
  import opened Utf16
  import opened Sorting
  import opened StructureModel

  datatype RecognizedType = Heading(level: int) | Body | OtherType

  /** A recognized segment: a UTF-16 range of one host paragraph. */
  datatype Segment = Segment(host: int, start: nat, end: nat, hash: Digest, kind: RecognizedType, verified: bool,
                             total: int, located: int)

  datatype Source = Source(index: int, text: Text, isInTable: bool, hasSectionBreak: bool, hasPageBreak: bool,
                           hasObject: bool)

  datatype PlanError = PlanRangeMismatch

  datatype Plan = Plan(items: seq<Item>, split: int, created: int, trimmed: int, removed: int)

  /** What reading every paragraph of the document yields. */
  function SourceOf(doc: Document, i: nat): Source
    requires i < |doc|
  {
    var p := doc[i];
    var candidate := p.text == [] && !p.inTable;
    Source(i, p.text, p.inTable, p.sectionBreak, FF in p.text || (candidate && p.pageBreakBefore),
           candidate && p.hasObject)
  }

  function SnapshotOf(doc: Document): (r: seq<Source>)
    ensures |r| == |doc|
  {
    seq(|doc|, i requires 0 <= i < |doc| => SourceOf(doc, i))
  }

  /** `Array.prototype.slice` on a string, for non-negative offsets. */
  function Slice(t: Text, from: nat, to: nat): Text {
    var a, b := if from < |t| then from else |t|, if to < |t| then to else |t|;
    if a < b then t[a..b] else []
  }

  /** The visible text the worker computes from its snapshot and sends along. */
  function SnapshotVisible(snapshot: seq<Source>): Text {
    if snapshot == [] then []
    else SnapshotVisible(snapshot[..|snapshot| - 1]) + VisibleText(snapshot[|snapshot| - 1].text)
  }

  // ---------------------------------------------------------------- grouping

  /** The verified segments of one host paragraph, in order of appearance. */
  function GroupOf(segments: seq<Segment>, host: int): seq<Segment> {
    if segments == [] then []
    else
      var last := segments[|segments| - 1];
      GroupOf(segments[..|segments| - 1], host) + if last.verified && last.host == host then [last] else []
  }

  /** The host paragraphs with verified segments, in order of first appearance. */
  function Hosts(segments: seq<Segment>): seq<int> {
    if segments == [] then []
    else
      var last, before := segments[|segments| - 1], Hosts(segments[..|segments| - 1]);
      if last.verified && last.host !in before then before + [last.host] else before
  }

  lemma {:induction false} HostsAreGroups(segments: seq<Segment>)
    ensures forall h :: h in Hosts(segments) <==> GroupOf(segments, h) != []
    ensures forall i, j :: 0 <= i < j < |Hosts(segments)| ==> Hosts(segments)[i] != Hosts(segments)[j]
  {
    if segments != [] {
      HostsAreGroups(segments[..|segments| - 1]);
    }
  }

  function SourceAt(snapshot: seq<Source>, host: int): Option<Source> {
    if snapshot == [] then None
    else if snapshot[|snapshot| - 1].index == host then Some(snapshot[|snapshot| - 1])
    else SourceAt(snapshot[..|snapshot| - 1], host)
  }

  // ---------------------------------------------------------------- one paragraph

  predicate EarlierStart(a: Segment, b: Segment) { a.start < b.start }

  function Ordered(values: seq<Segment>): seq<Segment> { Sort(values, EarlierStart) }

  function MaxTotal(values: seq<Segment>): int
    requires values != []
  {
    if |values| == 1 then values[0].total
    else
      var m := MaxTotal(values[..|values| - 1]);
      if values[|values| - 1].total > m then values[|values| - 1].total else m
  }

  /** All segments of the physical paragraph are there and each says so. */
  predicate CompleteGroup(values: seq<Segment>) {
    values != [] && |values| == MaxTotal(values) && forall v :: v in values ==> v.located == MaxTotal(values)
  }

  predicate GapAllowed(text: Text, previous: Segment, current: Segment) {
    && previous.end <= current.start
    && AllSpace(Slice(text, previous.end, current.start))
    && 1 <= current.start < |text|
  }

  /** The gaps between the first n segments, unless one is not allowed. */
  function GapsBetween(text: Text, ordered: seq<Segment>, n: nat): Option<seq<Gap>>
    requires n <= |ordered|
  {
    if n <= 1 then Some([])
    else match GapsBetween(text, ordered, n - 1)
      case None => None
      case Some(gaps) =>
        if GapAllowed(text, ordered[n - 2], ordered[n - 1])
        then Some(gaps + [Gap(ordered[n - 2].end, ordered[n - 1].start)]) else None
  }

  predicate Plannable(source: Option<Source>, values: seq<Segment>) {
    source.Some? && !source.value.isInTable && CompleteGroup(values)
  }

  /** The item for a plannable paragraph; no item when nothing would change. */
  function PlanParagraph(source: Source, values: seq<Segment>): Result<Option<Item>, PlanError>
    requires values != []
  {
    SortSorts(values, EarlierStart);
    var ordered := Ordered(values);
    var first, last := ordered[0], ordered[|ordered| - 1];
    if exists v :: v in ordered && v.hash != first.hash then Failure(PlanRangeMismatch)
    else match GapsBetween(source.text, ordered, |ordered|)
      case None => Failure(PlanRangeMismatch)
      case Some(gaps) =>
        if !AllSpace(Slice(source.text, 0, first.start)) || !AllSpace(Slice(source.text, last.end, |source.text|))
        then Failure(PlanRangeMismatch)
        else if gaps == [] && first.start == 0 && last.end >= |source.text| then Success(None)
        else Success(Some(Item(values[0].host, first.hash, gaps, first.start, last.end, false)))
  }

  function PlanHost(snapshot: seq<Source>, segments: seq<Segment>, host: int): Result<Option<Item>, PlanError> {
    var values := GroupOf(segments, host);
    var source := SourceAt(snapshot, host);
    if !Plannable(source, values) then Success(None) else PlanParagraph(source.value, values)
  }

  /** The items of the first n paragraphs that have verified segments. */
  function PlanHosts(snapshot: seq<Source>, segments: seq<Segment>, hosts: seq<int>): Result<seq<Item>, PlanError> {
    if hosts == [] then Success([])
    else match PlanHosts(snapshot, segments, hosts[..|hosts| - 1])
      case Failure(e) => Failure(e)
      case Success(items) =>
        match PlanHost(snapshot, segments, hosts[|hosts| - 1])
        case Failure(e) => Failure(e)
        case Success(None) => Success(items)
        case Success(Some(item)) => Success(items + [item])
  }

  // ---------------------------------------------------------------- empty paragraphs

  predicate HasHeading(values: seq<Segment>) {
    exists v :: v in values && v.verified && v.kind.Heading? && 1 <= v.kind.level <= 4
  }

  predicate HasBody(values: seq<Segment>) {
    exists v :: v in values && v.verified && v.kind == Body
  }

  /** An interior empty paragraph without marks, between a heading and body text. */
  predicate Deletable(snapshot: seq<Source>, segments: seq<Segment>, k: int) {
    && 1 <= k < |snapshot| - 1
    && snapshot[k].text == [] && !snapshot[k].isInTable
    && !snapshot[k].hasSectionBreak && !snapshot[k].hasPageBreak && !snapshot[k].hasObject
    && HasHeading(GroupOf(segments, snapshot[k - 1].index))
    && HasBody(GroupOf(segments, snapshot[k + 1].index))
  }

  function Deletion(source: Source): Item { Item(source.index, Sha256([]), [], 0, 0, true) }

  function Deletions(snapshot: seq<Source>, segments: seq<Segment>, n: nat): seq<Item>
    requires n <= |snapshot|
  {
    if n == 0 then []
    else
      Deletions(snapshot, segments, n - 1)
      + if Deletable(snapshot, segments, n - 1) then [Deletion(snapshot[n - 1])] else []
  }

  // ---------------------------------------------------------------- the plan

  function PlanItems(snapshot: seq<Source>, segments: seq<Segment>): Result<seq<Item>, PlanError> {
    match PlanHosts(snapshot, segments, Hosts(segments))
    case Failure(e) => Failure(e)
    case Success(items) => Success(items + Deletions(snapshot, segments, |snapshot|))
  }

  function SourceLength(snapshot: seq<Source>, host: int): nat {
    match SourceAt(snapshot, host)
    case None => 0
    case Some(source) => |source.text|
  }

  function TrimCount(snapshot: seq<Source>, item: Item): int {
    if item.deleteEmpty then 0
    else (if item.trimStart > 0 then 1 else 0) + if item.trimEnd < SourceLength(snapshot, item.index) then 1 else 0
  }

  function TrimCountIn(snapshot: seq<Source>): Item -> int { item => TrimCount(snapshot, item) }

  function PlanOf(snapshot: seq<Source>, items: seq<Item>): Plan {
    Plan(items, Sum(items, Splits), Sum(items, Boundaries), Sum(items, TrimCountIn(snapshot)), Sum(items, Removed))
  }

  function CreatedPlan(snapshot: seq<Source>, segments: seq<Segment>): Result<Plan, PlanError> {
    match PlanItems(snapshot, segments)
    case Failure(e) => Failure(e)
    case Success(items) => Success(PlanOf(snapshot, items))
  }

  /** The planner: group, plan each group, then look for deletable empty paragraphs. */
  method CreatePlan(snapshot: seq<Source>, segments: seq<Segment>) returns (r: Result<Plan, PlanError>)
    ensures r == CreatedPlan(snapshot, segments)
  {
    var hosts, grouped := GroupByHost(segments);
    var planned := PlanGroups(snapshot, segments, hosts, grouped);
    if planned.Failure? {
      return Failure(planned.error);
    }
    var deletions := CollectDeletions(snapshot, segments);
    return Success(PlanOf(snapshot, planned.value + deletions));
  }

  /** The grouping loop; the second result is the map, the first its insertion order. */
  method GroupByHost(segments: seq<Segment>) returns (hosts: seq<int>, grouped: map<int, seq<Segment>>)
    ensures hosts == Hosts(segments)
    ensures forall h :: h in hosts ==> h in grouped && grouped[h] == GroupOf(segments, h)
  {
    grouped, hosts := map[], [];
    for i := 0 to |segments|
      invariant hosts == Hosts(segments[..i])
      invariant forall h :: h in grouped <==> h in hosts
      invariant forall h :: h in grouped ==> grouped[h] == GroupOf(segments[..i], h)
    {
      var item := segments[i];
      assert segments[..i + 1][..i] == segments[..i];
      HostsAreGroups(segments[..i]);
      if item.verified {
        if item.host !in grouped {
          grouped, hosts := grouped[item.host := [item]], hosts + [item.host];
        } else {
          grouped := grouped[item.host := grouped[item.host] + [item]];
        }
      }
    }
    assert segments[..|segments|] == segments;
  }

  method PlanGroups(snapshot: seq<Source>, segments: seq<Segment>, hosts: seq<int>, grouped: map<int, seq<Segment>>)
    returns (r: Result<seq<Item>, PlanError>)
    requires forall h :: h in hosts ==> h in grouped && grouped[h] == GroupOf(segments, h)
    ensures r == PlanHosts(snapshot, segments, hosts)
  {
    var items: seq<Item> := [];
    for i := 0 to |hosts|
      invariant PlanHosts(snapshot, segments, hosts[..i]) == Success(items)
    {
      var host := hosts[i];
      assert host in hosts;
      var values, source := grouped[host], SourceAt(snapshot, host);
      assert hosts[..i + 1][..i] == hosts[..i];
      if Plannable(source, values) {
        var planned := PlanGroup(source.value, values);
        if planned.Failure? {
          HostFailureStays(snapshot, segments, hosts, i + 1);
          return planned.PropagateFailure();
        }
        if planned.value.Some? {
          items := items + [planned.value.value];
        }
      }
    }
    assert hosts[..|hosts|] == hosts;
    return Success(items);
  }

  method CollectDeletions(snapshot: seq<Source>, segments: seq<Segment>) returns (items: seq<Item>)
    ensures items == Deletions(snapshot, segments, |snapshot|)
  {
    items := [];
    if |snapshot| == 0 {
      return;
    }
    var k := 1;
    assert Deletions(snapshot, segments, 0) == [];
    while k < |snapshot| - 1
      invariant 1 <= k <= |snapshot| && (|snapshot| > 1 ==> k <= |snapshot| - 1)
      invariant items == Deletions(snapshot, segments, k)
    {
      if Deletable(snapshot, segments, k) {
        items := items + [Deletion(snapshot[k])];
      }
      k := k + 1;
    }
  }

  lemma {:induction false} HostFailureStays(snapshot: seq<Source>, segments: seq<Segment>, hosts: seq<int>, n: nat)
    requires n <= |hosts| && PlanHosts(snapshot, segments, hosts[..n]).Failure?
    ensures PlanHosts(snapshot, segments, hosts) == PlanHosts(snapshot, segments, hosts[..n])
    decreases |hosts|
  {
    if n < |hosts| {
      assert hosts[..|hosts| - 1][..n] == hosts[..n];
      HostFailureStays(snapshot, segments, hosts[..|hosts| - 1], n);
    } else {
      assert hosts[..n] == hosts;
    }
  }

  /** The planner's inner loop over the ordered segments of one paragraph. */
  method PlanGroup(source: Source, values: seq<Segment>) returns (r: Result<Option<Item>, PlanError>)
    requires values != []
    ensures r == PlanParagraph(source, values)
  {
    SortSorts(values, EarlierStart);
    var ordered := Ordered(values);
    var first, last := ordered[0], ordered[|ordered| - 1];
    if exists v :: v in ordered && v.hash != first.hash {
      return Failure(PlanRangeMismatch);
    }
    var gaps: seq<Gap> := [];
    for i := 1 to |ordered|
      invariant GapsBetween(source.text, ordered, i) == Some(gaps)
    {
      if !GapAllowed(source.text, ordered[i - 1], ordered[i]) {
        GapRefusalStays(source.text, ordered, i + 1, |ordered|);
        return Failure(PlanRangeMismatch);
      }
      gaps := gaps + [Gap(ordered[i - 1].end, ordered[i].start)];
    }
    if !AllSpace(Slice(source.text, 0, first.start)) || !AllSpace(Slice(source.text, last.end, |source.text|)) {
      return Failure(PlanRangeMismatch);
    }
    if gaps != [] || first.start > 0 || last.end < |source.text| {
      return Success(Some(Item(values[0].host, first.hash, gaps, first.start, last.end, false)));
    }
    return Success(None);
  }

  lemma {:induction false} GapRefusalStays(text: Text, ordered: seq<Segment>, n: nat, m: nat)
    requires n <= m <= |ordered| && GapsBetween(text, ordered, n) == None
    ensures GapsBetween(text, ordered, m) == None
    decreases m
  {
    if n < m {
      GapRefusalStays(text, ordered, n, m - 1);
    }
  }
}
