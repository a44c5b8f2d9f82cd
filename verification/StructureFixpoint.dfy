/** Normalization is done after one round: planning on the re-recognized result finds nothing. */
module StructureFixpoint {
  import opened Results
  import opened Utf16
  import opened Sorting
  import opened StructureModel
  import opened StructureEdit
  import opened StructurePlan
  import opened StructurePlanFits

  /** A paragraph with the segments recognized in it. */
  datatype Bound = Bound(p: Paragraph, segments: seq<Segment>)

  function Rehost(segments: seq<Segment>, host: int): (r: seq<Segment>)
    ensures |r| == |segments|
  {
    seq(|segments|, i requires 0 <= i < |segments| => segments[i].(host := host))
  }

  /** The recognition of a bound document, paragraph by paragraph. */
  function Recognition(bound: seq<Bound>, n: nat): seq<Segment>
    requires n <= |bound|
  {
    if n == 0 then [] else Recognition(bound, n - 1) + Rehost(bound[n - 1].segments, n - 1)
  }

  function Paragraphs(bound: seq<Bound>): (r: Document)
    ensures |r| == |bound|
  {
    seq(|bound|, i requires 0 <= i < |bound| => bound[i].p)
  }

  /** A fragment is recognized again as one whole-paragraph segment of the type it had. */
  function Whole(text: Text, kind: RecognizedType): Segment {
    Segment(0, 0, |text|, Sha256(text), kind, true, 1, 1)
  }

  function Recognized(ps: Document, ordered: seq<Segment>): (r: seq<Bound>)
    ensures |r| == |ps|
  {
    seq(|ps|, i requires 0 <= i < |ps| =>
          Bound(ps[i], [Whole(ps[i].text, if i < |ordered| then ordered[i].kind else OtherType)]))
  }

  function ReboundAt(doc: Document, segments: seq<Segment>, changes: map<int, Document>, k: nat): seq<Bound>
    requires k < |doc|
  {
    if k in changes then Recognized(changes[k], Ordered(GroupOf(segments, k)))
        else [Bound(doc[k], GroupOf(segments, k))]
  }

  function Blocks(doc: Document, segments: seq<Segment>, changes: map<int, Document>): (r: seq<seq<Bound>>)
    ensures |r| == |doc|
  {
    seq(|doc|, k requires 0 <= k < |doc| => ReboundAt(doc, segments, changes, k))
  }

  /** The first n blocks, one after the other. */
  function Joined<T>(blocks: seq<seq<T>>, n: nat): seq<T>
    requires n <= |blocks|
  {
    if n == 0 then [] else Joined(blocks, n - 1) + blocks[n - 1]
  }

  /** The changed document with its new recognition: fragments recognized again, other paragraphs as before. */
  function Rebound(doc: Document, segments: seq<Segment>, changes: map<int, Document>): seq<Bound> {
    Joined(Blocks(doc, segments, changes), |doc|)
  }

  // ---------------------------------------------------------------- elements of joined blocks

  /** The element just before block k. */
  lemma {:induction false} LastOfPrevious<T>(blocks: seq<seq<T>>, k: nat)
    requires 1 <= k <= |blocks| && blocks[k - 1] != []
    ensures 0 < |Joined(blocks, k)| <= |Joined(blocks, |blocks|)|
    ensures Joined(blocks, |blocks|)[|Joined(blocks, k)| - 1] == blocks[k - 1][|blocks[k - 1]| - 1]
  {
    JoinedPrefix(blocks, k, |blocks|);
    Located(blocks, |Joined(blocks, k)| - 1, k - 1);
  }

  /** The element just after block k. */
  lemma {:induction false} FirstOfNext<T>(blocks: seq<seq<T>>, k: nat)
    requires k + 1 < |blocks| && blocks[k + 1] != []
    ensures |Joined(blocks, k)| + |blocks[k]| < |Joined(blocks, |blocks|)|
    ensures Joined(blocks, |blocks|)[|Joined(blocks, k)| + |blocks[k]|] == blocks[k + 1][0]
  {
    Located(blocks, |Joined(blocks, k + 1)|, k + 1);
  }

  lemma LocateAt<T>(blocks: seq<seq<T>>, j: nat) returns (k: nat, i: nat)
    requires j < |Joined(blocks, |blocks|)|
    ensures k < |blocks| && i < |blocks[k]| && j == |Joined(blocks, k)| + i
    ensures Joined(blocks, |blocks|)[j] == blocks[k][i]
  {
    k := Locate(blocks, |blocks|, j);
    i := j - |Joined(blocks, k)|;
    Located(blocks, j, k);
  }

  /** Every element comes from one block. */
  lemma Locate<T>(blocks: seq<seq<T>>, n: nat, j: nat) returns (k: nat)
    requires n <= |blocks| && j < |Joined(blocks, n)|
    ensures k < n && |Joined(blocks, k)| <= j < |Joined(blocks, k + 1)|
    decreases n
  {
    k := n - 1;
    if j < |Joined(blocks, n - 1)| {
      k := Locate(blocks, n - 1, j);
    }
  }

  lemma {:induction false} JoinedPrefix<T>(blocks: seq<seq<T>>, k: nat, n: nat)
    requires k <= n <= |blocks|
    ensures Joined(blocks, k) <= Joined(blocks, n)
    decreases n
  {
    if k < n {
      JoinedPrefix(blocks, k, n - 1);
    }
  }

  /** The element at j is in block k. */
  lemma {:induction false} Located<T>(blocks: seq<seq<T>>, j: nat, k: nat)
    requires k < |blocks| && |Joined(blocks, k)| <= j < |Joined(blocks, k)| + |blocks[k]|
    ensures j < |Joined(blocks, |blocks|)|
    ensures Joined(blocks, |blocks|)[j] == blocks[k][j - |Joined(blocks, k)|]
  {
    JoinedPrefix(blocks, k + 1, |blocks|);
    assert Joined(blocks, |blocks|)[j] == Joined(blocks, k + 1)[j];
  }

  /** Where the block of position k starts. */
  function Start(doc: Document, segments: seq<Segment>, changes: map<int, Document>, k: nat): nat
    requires k <= |doc|
  {
    |Joined(Blocks(doc, segments, changes), k)|
  }

  lemma FromBlock(doc: Document, segments: seq<Segment>, changes: map<int, Document>, j: nat)
    returns (k: nat, i: nat)
    requires j < |Rebound(doc, segments, changes)|
    ensures k < |doc| && i < |ReboundAt(doc, segments, changes, k)| && j == Start(doc, segments, changes, k) + i
    ensures Rebound(doc, segments, changes)[j] == ReboundAt(doc, segments, changes, k)[i]
  {
    k, i := LocateAt(Blocks(doc, segments, changes), j);
  }

  lemma NextStart(doc: Document, segments: seq<Segment>, changes: map<int, Document>, k: nat)
    requires k < |doc|
    ensures Start(doc, segments, changes, k + 1) == Start(doc, segments, changes, k)
              + |ReboundAt(doc, segments, changes, k)|
    ensures Start(doc, segments, changes, |doc|) == |Rebound(doc, segments, changes)|
  {
  }

  lemma {:induction false} ReboundIsPatch(doc: Document, segments: seq<Segment>, changes: map<int, Document>, k: nat)
    requires k <= |doc|
    ensures Paragraphs(Joined(Blocks(doc, segments, changes), k)) == Patch(doc, changes, k)
    decreases k
  {
    hide ReboundAt;
    var blocks := Blocks(doc, segments, changes);
    if k > 0 {
      ReboundIsPatch(doc, segments, changes, k - 1);
      BlockParagraphs(doc, segments, changes, k - 1);
      ParagraphsAppend(Joined(blocks, k - 1), blocks[k - 1]);
    }
  }

  lemma BlockParagraphs(doc: Document, segments: seq<Segment>, changes: map<int, Document>, k: nat)
    requires k < |doc|
    ensures Paragraphs(Blocks(doc, segments, changes)[k]) == Patched(doc, changes, k)
  {
  }

  lemma ParagraphsAppend(a: seq<Bound>, b: seq<Bound>)
    ensures Paragraphs(a + b) == Paragraphs(a) + Paragraphs(b)
  {
  }

  // ---------------------------------------------------------------- groups of a flattened recognition

  lemma {:induction false} GroupAppend(a: seq<Segment>, b: seq<Segment>, host: int)
    ensures GroupOf(a + b, host) == GroupOf(a, host) + GroupOf(b, host)
    decreases |b|
  {
    if b == [] {
      assert a + b == a;
    } else {
      assert (a + b)[..|a + b| - 1] == a + b[..|b| - 1];
      GroupAppend(a, b[..|b| - 1], host);
    }
  }

  ghost predicate AllVerified(segments: seq<Segment>) {
    forall i :: 0 <= i < |segments| ==> segments[i].verified
  }

  lemma {:induction false} GroupOfRehost(segments: seq<Segment>, host: int, other: int)
    requires AllVerified(segments)
    ensures GroupOf(Rehost(segments, host), other) == if other == host then Rehost(segments, host) else []
  {
    if segments != [] {
      assert Rehost(segments, host)[..|segments| - 1] == Rehost(segments[..|segments| - 1], host);
      GroupOfRehost(segments[..|segments| - 1], host, other);
    }
  }

  lemma RecognitionStep(bound: seq<Bound>, n: nat, host: int)
    requires 0 < n <= |bound| && AllVerified(bound[n - 1].segments)
    ensures host != n - 1 ==> GroupOf(Recognition(bound, n), host) == GroupOf(Recognition(bound, n - 1), host)
    ensures host == n - 1 ==>
              GroupOf(Recognition(bound, n), host) == GroupOf(Recognition(bound, n - 1), host)
                  + Rehost(bound[n - 1].segments, host)
  {
    GroupAppend(Recognition(bound, n - 1), Rehost(bound[n - 1].segments, n - 1), host);
    GroupOfRehost(bound[n - 1].segments, n - 1, host);
  }

  lemma {:induction false} NoGroupBeyond(bound: seq<Bound>, n: nat, host: int)
    requires n <= |bound| && !(0 <= host < n) && forall i :: 0 <= i < n ==> AllVerified(bound[i].segments)
    ensures GroupOf(Recognition(bound, n), host) == []
    decreases n
  {
    if n > 0 {
      NoGroupBeyond(bound, n - 1, host);
      RecognitionStep(bound, n, host);
    }
  }

  /** The group of a host paragraph is what is bound to it. */
  lemma {:induction false} GroupOfRecognition(bound: seq<Bound>, n: nat, host: nat)
    requires host < n <= |bound| && forall i :: 0 <= i < n ==> AllVerified(bound[i].segments)
    ensures GroupOf(Recognition(bound, n), host) == Rehost(bound[host].segments, host)
    decreases n
  {
    RecognitionStep(bound, n, host);
    if host < n - 1 {
      GroupOfRecognition(bound, n - 1, host);
    } else {
      NoGroupBeyond(bound, n - 1, host);
    }
  }

  // ---------------------------------------------------------------- the host field does not matter

  lemma {:induction false} InsertRehost(s: seq<Segment>, x: Segment, host: int)
    ensures Insert(Rehost(s, host), x.(host := host), EarlierStart) == Rehost(Insert(s, x, EarlierStart), host)
  {
    if s != [] && EarlierStart(x, s[|s| - 1]) {
      assert Rehost(s, host)[..|s| - 1] == Rehost(s[..|s| - 1], host);
      InsertRehost(s[..|s| - 1], x, host);
    }
  }

  lemma OrderedRehost(s: seq<Segment>, host: int)
    ensures Ordered(Rehost(s, host)) == Rehost(Ordered(s), host)
  {
    if s != [] {
      assert Rehost(s, host)[..|s| - 1] == Rehost(s[..|s| - 1], host);
      OrderedRehost(s[..|s| - 1], host);
      InsertRehost(Ordered(s[..|s| - 1]), s[|s| - 1], host);
    }
  }

  lemma {:induction false} GapsRehost(text: Text, ordered: seq<Segment>, host: int, n: nat)
    requires n <= |ordered|
    ensures GapsBetween(text, Rehost(ordered, host), n) == GapsBetween(text, ordered, n)
    decreases n
  {
    if n > 1 {
      GapsRehost(text, ordered, host, n - 1);
    }
  }

  lemma {:induction false} MaxRehost(s: seq<Segment>, host: int)
    requires s != []
    ensures MaxTotal(Rehost(s, host)) == MaxTotal(s)
  {
    if |s| > 1 {
      assert Rehost(s, host)[..|s| - 1] == Rehost(s[..|s| - 1], host);
      MaxRehost(s[..|s| - 1], host);
    }
  }

  lemma CompleteRehost(s: seq<Segment>, host: int)
    ensures CompleteGroup(Rehost(s, host)) <==> CompleteGroup(s)
  {
    if s != [] {
      MaxRehost(s, host);
      var r := Rehost(s, host);
      assert forall i :: 0 <= i < |s| ==> r[i].located == s[i].located;
      if CompleteGroup(r) {
        forall v | v in s ensures v.located == MaxTotal(s) {
          var i :| 0 <= i < |s| && s[i] == v;
          assert r[i] in r;
        }
      }
      if CompleteGroup(s) {
        forall v | v in r ensures v.located == MaxTotal(r) {
          var i :| 0 <= i < |r| && r[i] == v;
          assert s[i] in s;
        }
      }
    }
  }

  /** A paragraph that needs nothing needs nothing at another index either. */
  lemma NothingRehost(a: Source, b: Source, values: seq<Segment>, host: int)
    requires values != [] && a.text == b.text
    requires PlanParagraph(a, values) == Success(None)
    ensures PlanParagraph(b, Rehost(values, host)) == Success(None)
  {
    SortSorts(values, EarlierStart);
    OrderedRehost(values, host);
    var ordered := Ordered(values);
    var moved := Rehost(ordered, host);
    GapsRehost(a.text, ordered, host, |ordered|);
    forall v | v in moved ensures v.hash == moved[0].hash {
      var i :| 0 <= i < |moved| && moved[i] == v;
      assert ordered[i] in ordered;
    }
  }

  // ---------------------------------------------------------------- what a successful plan says paragraph by paragraph

  lemma {:induction false} PlannedCompletely(snapshot: seq<Source>, segments: seq<Segment>, hosts: seq<int>, host: int)
    requires PlanHosts(snapshot, segments, hosts).Success? && host in hosts
    ensures PlanHost(snapshot, segments, host).Success?
    ensures PlanHost(snapshot, segments, host).value.Some? ==>
              PlanHost(snapshot, segments, host).value.value in PlanHosts(snapshot, segments, hosts).value
  {
    if hosts[|hosts| - 1] != host {
      assert host in hosts[..|hosts| - 1];
      PlannedCompletely(snapshot, segments, hosts[..|hosts| - 1], host);
    }
  }

  function SegmentTexts(text: Text, ordered: seq<Segment>, n: nat): (r: seq<Text>)
    requires n <= |ordered|
    ensures |r| == n
  {
    seq(n, i requires 0 <= i < n => SegmentText(text, ordered[i]))
  }

  /** The gaps between planned segments are in order. */
  lemma {:induction false} SegmentGapsInOrder(text: Text, ordered: seq<Segment>, n: nat)
    requires 1 <= n <= |ordered| && LeftToRight(text, ordered) && GapsBetween(text, ordered, n).Some?
    ensures InOrder(ordered[0].start, GapsBetween(text, ordered, n).value, ordered[n - 1].start)
    decreases n
  {
    if n > 1 {
      var before, g := GapsBetween(text, ordered, n - 1).value, Gap(ordered[n - 2].end, ordered[n - 1].start);
      SegmentGapsInOrder(text, ordered, n - 1);
      SegmentBounds(text, ordered, n - 2);
      InOrderWiden(ordered[0].start, before, ordered[n - 2].start, g.start);
      assert GapAllowed(text, ordered[n - 2], ordered[n - 1]);
      InOrderAppend(ordered[0].start, before, g, ordered[n - 1].start);
    }
  }

  lemma {:induction false} SegmentsInOrder(text: Text, ordered: seq<Segment>, n: nat)
    requires 1 <= n <= |ordered| && LeftToRight(text, ordered) && GapsBetween(text, ordered, n).Some?
    ensures ordered[n - 1].end <= |text|
            && InOrder(ordered[0].start, GapsBetween(text, ordered, n).value, ordered[n - 1].end)
  {
    SegmentBounds(text, ordered, n - 1);
    SegmentGapsInOrder(text, ordered, n);
    InOrderWiden(ordered[0].start, GapsBetween(text, ordered, n).value, ordered[n - 1].start, ordered[n - 1].end);
  }

  lemma SegmentTextsMore(text: Text, ordered: seq<Segment>, n: nat)
    requires 1 <= n <= |ordered|
    ensures SegmentTexts(text, ordered, n) == SegmentTexts(text, ordered, n - 1) + [SegmentText(text, ordered[n - 1])]
  {
  }

  /** The fragments of a planned paragraph are its segments, in order. */
  lemma {:induction false} FragmentsAreSegments(text: Text, ordered: seq<Segment>, n: nat)
    requires 1 <= n <= |ordered| && LeftToRight(text, ordered) && GapsBetween(text, ordered, n).Some?
    ensures ordered[n - 1].end <= |text|
            && InOrder(ordered[0].start, GapsBetween(text, ordered, n).value, ordered[n - 1].end)
    ensures Fragments(text, ordered[0].start, GapsBetween(text, ordered, n).value, ordered[n - 1].end) ==
            SegmentTexts(text, ordered, n)
    decreases n
  {
    SegmentsInOrder(text, ordered, n);
    SegmentTextsMore(text, ordered, n);
    if n == 1 {
      assert GapsBetween(text, ordered, 1).value == [];
    } else {
      assert GapsBetween(text, ordered, n - 1).Some?;
      FragmentsAreSegments(text, ordered, n - 1);
      LastFragment(text, ordered, n);
    }
  }

  lemma LastFragment(text: Text, ordered: seq<Segment>, n: nat)
    requires 2 <= n <= |ordered| && LeftToRight(text, ordered) && GapsBetween(text, ordered, n).Some?
    ensures InOrder(ordered[0].start, GapsBetween(text, ordered, n - 1).value, ordered[n - 2].end)
            && ordered[n - 2].end <= |text|
    ensures ordered[n - 1].end <= |text|
            && InOrder(ordered[0].start, GapsBetween(text, ordered, n).value, ordered[n - 1].end)
    ensures Fragments(text, ordered[0].start, GapsBetween(text, ordered, n).value, ordered[n - 1].end) ==
            Fragments(text, ordered[0].start, GapsBetween(text, ordered, n - 1).value, ordered[n - 2].end)
            + [SegmentText(text, ordered[n - 1])]
  {
    var before, g := GapsBetween(text, ordered, n - 1).value, Gap(ordered[n - 2].end, ordered[n - 1].start);
    SegmentBounds(text, ordered, n - 2);
    SegmentBounds(text, ordered, n - 1);
    SegmentGapsInOrder(text, ordered, n - 1);
    InOrderWiden(ordered[0].start, before, ordered[n - 2].start, g.start);
    assert GapAllowed(text, ordered[n - 2], ordered[n - 1]);
    FragmentsAppend(text, ordered[0].start, before, g, ordered[n - 1].end);
  }

  function SegmentText(text: Text, s: Segment): Text { Slice(text, s.start, s.end) }

  lemma {:induction false} PlannedFrom(doc: Document, segments: seq<Segment>, hosts: seq<int>, i: nat)
    requires SegmentsFit(doc, segments) && PlanHosts(SnapshotOf(doc), segments, hosts).Success?
    requires i < |PlanHosts(SnapshotOf(doc), segments, hosts).value|
    ensures var item := PlanHosts(SnapshotOf(doc), segments, hosts).value[i];
            PlanHost(SnapshotOf(doc), segments, item.index) == Success(Some(item))
    decreases |hosts|
  {
    var before, last := hosts[..|hosts| - 1], hosts[|hosts| - 1];
    if i < |PlanHosts(SnapshotOf(doc), segments, before).value| {
      PlannedFrom(doc, segments, before, i);
    } else {
      PlannedHost(doc, segments, last);
    }
  }

  /** The replacement of a planned paragraph: one non-empty paragraph per segment. */
  lemma {:induction false} PlannedReplacement(doc: Document, segments: seq<Segment>, item: Item)
    requires SegmentsFit(doc, segments) && PlanHost(SnapshotOf(doc), segments, item.index) == Success(Some(item))
    ensures HostItem(doc, segments, item)
    ensures InOrder(item.trimStart, GapsOf(doc[item.index].text, item, false), item.trimEnd) && 0 <= item.trimStart
            && item.trimEnd <= |doc[item.index].text|
    ensures var r, ordered := Replacement(doc[item.index], item, false), Ordered(GroupOf(segments, item.index));
            |r| == |ordered| > 0 && forall i :: 0 <= i < |r| ==>
                r[i].text == SegmentText(doc[item.index].text, ordered[i]) != []
  {
    hide SegmentsFit, Ordered, PlanParagraph, SegmentFits;
    PlannedHost(doc, segments, item.index);
    SourceAtDocument(doc, item.index);
    GroupFits(doc, segments, item.index);
    ParagraphReplacement(doc, item.index, GroupOf(segments, item.index));
  }

  lemma {:induction false} GroupFits(doc: Document, segments: seq<Segment>, host: int)
    requires SegmentsFit(doc, segments)
    ensures forall v :: v in GroupOf(segments, host) ==> v.verified && v.host == host && SegmentFits(doc, v)
  {
    GroupMembers(segments, host);
    forall v | v in GroupOf(segments, host) ensures SegmentFits(doc, v) {
      var i :| 0 <= i < |segments| && segments[i] == v;
    }
  }

  lemma ParagraphReplacement(doc: Document, host: int, values: seq<Segment>)
    requires 0 <= host < |doc| && values != []
    requires forall v :: v in values ==> v.verified && v.host == host && SegmentFits(doc, v)
    requires var r := PlanParagraph(SourceOf(doc, host), values); r.Success? && r.value.Some?
    ensures var item, ordered, text := PlanParagraph(SourceOf(doc, host), values).value.value, Ordered(values),
              doc[host].text;
            && 0 <= item.trimStart && item.trimEnd <= |text| && InOrder(item.trimStart, item.gaps, item.trimEnd)
            && Fragments(text, item.trimStart, item.gaps, item.trimEnd) == SegmentTexts(text, ordered, |ordered|)
            && |ordered| > 0 && forall i :: 0 <= i < |ordered| ==> SegmentText(text, ordered[i]) != []
  {
    hide Fragments, InOrder;
    PlannedSegments(doc, host, values);
    var ordered, text := Ordered(values), doc[host].text;
    FragmentsAreSegments(text, ordered, |ordered|);
    forall i | 0 <= i < |ordered| ensures SegmentText(text, ordered[i]) != [] {
      SegmentBounds(text, ordered, i);
    }
  }

  // ---------------------------------------------------------------- one position of the document

  /** The changes of the plan for a document. */
  ghost predicate Planned(doc: Document, segments: seq<Segment>, changes: map<int, Document>) {
    && SegmentsFit(doc, segments) && CreatedPlan(SnapshotOf(doc), segments).Success?
    && AllAccepted(doc, CreatedPlan(SnapshotOf(doc), segments).value.items)
    && changes == Changes(doc, CreatedPlan(SnapshotOf(doc), segments).value.items, false)
  }

  lemma PlanDistinct(doc: Document, segments: seq<Segment>)
    requires SegmentsFit(doc, segments) && CreatedPlan(SnapshotOf(doc), segments).Success?
    ensures DistinctIndices(CreatedPlan(SnapshotOf(doc), segments).value.items)
  {
    PlanFits(doc, segments);
  }

  /** Where the i-th item of a plan comes from. */
  lemma ItemOrigin(doc: Document, segments: seq<Segment>, i: nat)
    requires SegmentsFit(doc, segments) && CreatedPlan(SnapshotOf(doc), segments).Success?
    requires i < |CreatedPlan(SnapshotOf(doc), segments).value.items|
    ensures var item := CreatedPlan(SnapshotOf(doc), segments).value.items[i];
            || PlanHost(SnapshotOf(doc), segments, item.index) == Success(Some(item))
            || (0 <= item.index < |doc| && item.deleteEmpty && Deletable(SnapshotOf(doc), segments, item.index))
  {
    var planned := PlanHosts(SnapshotOf(doc), segments, Hosts(segments)).value;
    if i < |planned| {
      PlannedFrom(doc, segments, Hosts(segments), i);
    } else {
      DeletedPosition(doc, segments, i - |planned|);
    }
  }

  /** A paragraph that disappears was deletable; one that is replaced becomes its segments. */
  lemma {:induction false} ChangedPosition(doc: Document, segments: seq<Segment>, changes: map<int, Document>, k: int)
    requires Planned(doc, segments, changes) && k in changes
    ensures 0 <= k < |doc|
    ensures changes[k] == [] ==> Deletable(SnapshotOf(doc), segments, k)
    ensures changes[k] != [] ==> |changes[k]| == |Ordered(GroupOf(segments, k))|
    ensures forall i :: 0 <= i < |changes[k]| ==> changes[k][i].text != []
  {
    hide CreatedPlan, Changes, Deletable, PlanHost, Ordered, GroupOf;
    var items := CreatedPlan(SnapshotOf(doc), segments).value.items;
    PlanDistinct(doc, segments);
    var i :| 0 <= i < |items| && items[i].index == k;
    ChangesFind(doc, items, i, false);
    ItemOrigin(doc, segments, i);
    if PlanHost(SnapshotOf(doc), segments, k) == Success(Some(items[i])) {
      PlannedReplacement(doc, segments, items[i]);
    }
  }

  lemma {:induction false} DeletedPosition(doc: Document, segments: seq<Segment>, i: nat)
    requires i < |Deletions(SnapshotOf(doc), segments, |doc|)|
    ensures var item := Deletions(SnapshotOf(doc), segments, |doc|)[i];
            0 <= item.index < |doc| && item.deleteEmpty && Deletable(SnapshotOf(doc), segments, item.index)
  {
    DeletionsFitHost(doc, segments);
    assert DeletionItem(doc, segments, Deletions(SnapshotOf(doc), segments, |doc|)[i]);
  }

  lemma PlannedIndexChanges(doc: Document, segments: seq<Segment>, changes: map<int, Document>,
                                               item: Item)
    requires Planned(doc, segments, changes) && item in CreatedPlan(SnapshotOf(doc), segments).value.items
    ensures item.index in changes
  {
    var items := CreatedPlan(SnapshotOf(doc), segments).value.items;
    var i :| 0 <= i < |items| && items[i] == item;
  }

  /** A deletable paragraph is deleted. */
  lemma DeletableChanges(doc: Document, segments: seq<Segment>, changes: map<int, Document>, k: int)
    requires Planned(doc, segments, changes) && Deletable(SnapshotOf(doc), segments, k)
    ensures k in changes
  {
    DeletionsContain(SnapshotOf(doc), segments, |doc|, k);
    assert SnapshotOf(doc)[k] == SourceOf(doc, k);
    PlannedIndexChanges(doc, segments, changes, Deletion(SnapshotOf(doc)[k]));
  }

  /** A paragraph that stays needs nothing. */
  lemma {:induction false} UnchangedPosition(doc: Document, segments: seq<Segment>, changes: map<int, Document>, k: int)
    requires Planned(doc, segments, changes) && k !in changes && GroupOf(segments, k) != []
    ensures PlanHost(SnapshotOf(doc), segments, k) == Success(None)
  {
    HostsAreGroups(segments);
    PlannedCompletely(SnapshotOf(doc), segments, Hosts(segments), k);
    if PlanHost(SnapshotOf(doc), segments, k).value.Some? {
      PlannedHost(doc, segments, k);
      PlannedIndexChanges(doc, segments, changes, PlanHost(SnapshotOf(doc), segments, k).value.value);
    }
  }

  lemma ReboundAtVerified(doc: Document, segments: seq<Segment>, changes: map<int, Document>, k: nat)
    requires k < |doc|
    ensures forall i :: 0 <= i < |ReboundAt(doc, segments, changes, k)| ==>
              AllVerified(ReboundAt(doc, segments, changes, k)[i].segments)
  {
    GroupVerified(segments, k);
  }

  /** A paragraph recognized as a whole needs nothing. */
  lemma WholeNeedsNothing(source: Source, kind: RecognizedType, host: int)
    ensures PlanParagraph(source, Rehost([Whole(source.text, kind)], host)) == Success(None)
  {
    var values := Rehost([Whole(source.text, kind)], host);
    assert values[..0] == [];
    assert Sort(values, EarlierStart) == values;
  }

  lemma FragmentPlansNothing(source: Source, changed: Document, ordered: seq<Segment>, i: nat,
                                                host: int)
    requires i < |changed| && source.text == changed[i].text
    ensures PlanParagraph(source, Rehost(Recognized(changed, ordered)[i].segments, host)) == Success(None)
  {
    WholeNeedsNothing(source, Recognized(changed, ordered)[i].segments[0].kind, host);
  }

  lemma {:induction false} KeptPlansNothing(doc: Document, segments: seq<Segment>, changes: map<int, Document>, k: nat,
                                            source: Source, host: int)
    requires Planned(doc, segments, changes) && k < |doc| && k !in changes
    requires source.text == doc[k].text && source.isInTable == doc[k].inTable
    ensures var values := Rehost(GroupOf(segments, k), host);
            Plannable(Some(source), values) ==> PlanParagraph(source, values) == Success(None)
  {
    SourceAtDocument(doc, k);
    CompleteRehost(GroupOf(segments, k), host);
    if Plannable(Some(source), Rehost(GroupOf(segments, k), host)) {
      UnchangedPosition(doc, segments, changes, k);
      NothingRehost(SourceOf(doc, k), source, GroupOf(segments, k), host);
    }
  }

  /** The group and the source the planner sees at position j of the result. */
  lemma {:induction false} SeenAt(bound: seq<Bound>, j: nat)
    requires j < |bound| && forall i :: 0 <= i < |bound| ==> AllVerified(bound[i].segments)
    ensures GroupOf(Recognition(bound, |bound|), j) == Rehost(bound[j].segments, j)
    ensures SourceAt(SnapshotOf(Paragraphs(bound)), j) == Some(SourceOf(Paragraphs(bound), j))
    ensures SourceOf(Paragraphs(bound), j).text == bound[j].p.text
    ensures SourceOf(Paragraphs(bound), j).isInTable == bound[j].p.inTable
  {
    GroupOfRecognition(bound, |bound|, j);
    SourceAtDocument(Paragraphs(bound), j);
  }

  /** Neither a fragment nor a kept paragraph is planned again. */
  lemma ElementPlansNothing(doc: Document, segments: seq<Segment>, changes: map<int, Document>,
                                               k: nat, i: nat,
                                               source: Source, host: int)
    requires Planned(doc, segments, changes) && k < |doc| && i < |ReboundAt(doc, segments, changes, k)|
    requires source.text == ReboundAt(doc, segments, changes, k)[i].p.text
    requires source.isInTable == ReboundAt(doc, segments, changes, k)[i].p.inTable
    ensures var values := Rehost(ReboundAt(doc, segments, changes, k)[i].segments, host);
            Plannable(Some(source), values) ==> PlanParagraph(source, values) == Success(None)
  {
    if k in changes {
      FragmentPlansNothing(source, changes[k], Ordered(GroupOf(segments, k)), i, host);
    } else {
      KeptPlansNothing(doc, segments, changes, k, source, host);
    }
  }

  /** No paragraph of the result is planned again. */
  lemma PositionPlansNothing(doc: Document, segments: seq<Segment>, changes: map<int, Document>,
                                                j: nat)
    requires Planned(doc, segments, changes) && j < |Rebound(doc, segments, changes)|
    ensures var bound := Rebound(doc, segments, changes);
            PlanHost(SnapshotOf(Paragraphs(bound)), Recognition(bound, |bound|), j) == Success(None)
  {
    var bound := Rebound(doc, segments, changes);
    var k, i := FromBlock(doc, segments, changes, j);
    BoundVerified(doc, segments, changes);
    SeenAt(bound, j);
    ElementPlansNothing(doc, segments, changes, k, i, SourceOf(Paragraphs(bound), j), j);
  }

  lemma BoundVerified(doc: Document, segments: seq<Segment>, changes: map<int, Document>)
    ensures forall i :: 0 <= i < |Rebound(doc, segments, changes)| ==>
              AllVerified(Rebound(doc, segments, changes)[i].segments)
  {
    forall j | 0 <= j < |Rebound(doc, segments, changes)|
      ensures AllVerified(Rebound(doc, segments, changes)[j].segments)
    {
      var k, i := FromBlock(doc, segments, changes, j);
      ReboundAtVerified(doc, segments, changes, k);
    }
  }

  // ---------------------------------------------------------------- no further deletion

  /** The last element before position k, when the paragraph at k - 1 stays or splits. */
  lemma Before(doc: Document, segments: seq<Segment>, changes: map<int, Document>, k: nat)
    requires 1 <= k <= |doc| && ReboundAt(doc, segments, changes, k - 1) != []
    ensures 0 < Start(doc, segments, changes, k) <= |Rebound(doc, segments, changes)|
    ensures Rebound(doc, segments, changes)[Start(doc, segments, changes, k) - 1] ==
            ReboundAt(doc, segments, changes, k - 1)[|ReboundAt(doc, segments, changes, k - 1)| - 1]
  {
    hide Joined;
    var blocks := Blocks(doc, segments, changes);
    assert blocks[k - 1] == ReboundAt(doc, segments, changes, k - 1);
    LastOfPrevious(blocks, k);
  }

  /** The first element after a kept paragraph k, when the paragraph at k + 1 stays or splits. */
  lemma After(doc: Document, segments: seq<Segment>, changes: map<int, Document>, k: nat)
    requires k + 1 < |doc| && k !in changes && ReboundAt(doc, segments, changes, k + 1) != []
    ensures Start(doc, segments, changes, k) + 1 < |Rebound(doc, segments, changes)|
    ensures Rebound(doc, segments, changes)[Start(doc, segments, changes, k) + 1] ==
              ReboundAt(doc, segments, changes, k + 1)[0]
  {
    var blocks := Blocks(doc, segments, changes);
    assert |blocks[k]| == 1 && blocks[k + 1] == ReboundAt(doc, segments, changes, k + 1);
    FirstOfNext(blocks, k);
  }

  /** Every kind found in `values` is found in `group`. */
  ghost predicate KindsWithin(values: seq<Segment>, group: seq<Segment>) {
    forall v :: v in values ==> exists g :: g in group && g.verified && g.kind == v.kind
  }

  lemma KindsTransfer(values: seq<Segment>, group: seq<Segment>)
    requires KindsWithin(values, group)
    ensures HasHeading(values) ==> HasHeading(group)
    ensures HasBody(values) ==> HasBody(group)
  {
    if HasHeading(values) {
      var v :| v in values && v.verified && v.kind.Heading? && 1 <= v.kind.level <= 4;
      var g :| g in group && g.verified && g.kind == v.kind;
    }
    if HasBody(values) {
      var v :| v in values && v.verified && v.kind == Body;
      var g :| g in group && g.verified && g.kind == v.kind;
    }
  }

  lemma RehostKinds(group: seq<Segment>, host: int)
    requires AllVerified(group)
    ensures KindsWithin(Rehost(group, host), group)
  {
    forall v | v in Rehost(group, host) ensures exists g :: g in group && g.verified && g.kind == v.kind {
      var i :| 0 <= i < |group| && Rehost(group, host)[i] == v;
      assert group[i] in group;
    }
  }

  lemma WholeKinds(text: Text, group: seq<Segment>, i: nat, host: int)
    requires i < |Ordered(group)| && AllVerified(group)
    ensures KindsWithin(Rehost([Whole(text, Ordered(group)[i].kind)], host), group)
  {
    SortSorts(group, EarlierStart);
    assert Ordered(group)[i] in group;
  }

  /** The kinds found at a position of the result were found at the position it comes from. */
  lemma {:induction false} KindsComeFrom(doc: Document, segments: seq<Segment>, changes: map<int, Document>, k: nat,
                                         i: nat, host: int)
    requires Planned(doc, segments, changes) && k < |doc| && i < |ReboundAt(doc, segments, changes, k)|
    ensures KindsWithin(Rehost(ReboundAt(doc, segments, changes, k)[i].segments, host), GroupOf(segments, k))
  {
    GroupVerified(segments, k);
    if k in changes {
      ChangedPosition(doc, segments, changes, k);
      WholeKinds(changes[k][i].text, GroupOf(segments, k), i, host);
    } else {
      RehostKinds(GroupOf(segments, k), host);
    }
  }

  lemma {:induction false} GroupVerified(segments: seq<Segment>, k: int)
    ensures AllVerified(GroupOf(segments, k))
  {
    GroupMembers(segments, k);
    assert forall i :: 0 <= i < |GroupOf(segments, k)| ==> GroupOf(segments, k)[i] in GroupOf(segments, k);
  }

  /** An empty paragraph of the result is an unchanged empty paragraph of the original. */
  lemma EmptyStays(doc: Document, segments: seq<Segment>, changes: map<int, Document>, j: nat)
    returns (k: nat)
    requires Planned(doc, segments, changes) && j < |Rebound(doc, segments, changes)|
    requires Rebound(doc, segments, changes)[j].p.text == []
    ensures k < |doc| && k !in changes && j == Start(doc, segments, changes, k)
    ensures Rebound(doc, segments, changes)[j].p == doc[k]
  {
    var i: nat;
    k, i := FromBlock(doc, segments, changes, j);
    if k in changes {
      ChangedPosition(doc, segments, changes, k);
    }
  }

  ghost predicate PlainEmpty(p: Paragraph) {
    p.text == [] && !p.inTable && !p.sectionBreak && !p.pageBreakBefore && !p.hasObject
  }

  /** The planner's test, in terms of the document itself. */
  lemma {:induction false} DeletableIff(doc: Document, segments: seq<Segment>, k: int)
    ensures Deletable(SnapshotOf(doc), segments, k) <==>
            1 <= k < |doc| - 1 && PlainEmpty(doc[k]) && HasHeading(GroupOf(segments, k - 1))
                && HasBody(GroupOf(segments, k + 1))
  {
    if 1 <= k < |doc| - 1 {
      assert SnapshotOf(doc)[k] == SourceOf(doc, k);
      assert SnapshotOf(doc)[k - 1].index == k - 1 && SnapshotOf(doc)[k + 1].index == k + 1;
    }
  }

  lemma {:induction false} DeletionNeedsNeighbours(doc: Document, segments: seq<Segment>, n: int)
    requires Deletable(SnapshotOf(doc), segments, n)
    ensures GroupOf(segments, n - 1) != [] && GroupOf(segments, n + 1) != []
  {
    DeletableIff(doc, segments, n);
  }

  /** The neighbour of an empty paragraph is not deleted: deletion needs recognized neighbours. */
  lemma NeighbourStays(doc: Document, segments: seq<Segment>, changes: map<int, Document>, k: nat,
                                          n: nat)
    requires Planned(doc, segments, changes) && k < |doc| && doc[k].text == [] && n < |doc|
             && (n == k + 1 || k == n + 1)
    ensures ReboundAt(doc, segments, changes, n) != []
  {
    if n in changes && changes[n] == [] {
      assert Deletable(SnapshotOf(doc), segments, n) by { ChangedPosition(doc, segments, changes, n); }
      NotBesideEmpty(doc, segments, k, n);
    }
  }

  lemma NotBesideEmpty(doc: Document, segments: seq<Segment>, k: nat, n: int)
    requires SegmentsFit(doc, segments) && k < |doc| && Deletable(SnapshotOf(doc), segments, n)
             && (n == k + 1 || k == n + 1)
    ensures doc[k].text != []
  {
    DeletionNeedsNeighbours(doc, segments, n);
    RecognizedNotEmpty(doc, segments, k);
  }

  lemma {:induction false} KindsAt(doc: Document, segments: seq<Segment>, changes: map<int, Document>, k: nat, i: nat,
                                   host: int,
                                   seen: Bound)
    requires Planned(doc, segments, changes) && k < |doc| && i < |ReboundAt(doc, segments, changes, k)|
    requires seen == ReboundAt(doc, segments, changes, k)[i]
    ensures HasHeading(Rehost(seen.segments, host)) ==> HasHeading(GroupOf(segments, k))
    ensures HasBody(Rehost(seen.segments, host)) ==> HasBody(GroupOf(segments, k))
  {
    KindsComeFrom(doc, segments, changes, k, i, host);
    KindsTransfer(Rehost(seen.segments, host), GroupOf(segments, k));
  }

  /** Kinds seen in an element of the result were recognized at the position it comes from. */
  ghost predicate ComesFrom(doc: Document, segments: seq<Segment>, changes: map<int, Document>, seen: Bound, k: int) {
    0 <= k < |doc|
    && exists i: nat ::
         i < |ReboundAt(doc, segments, changes, k)| && seen == ReboundAt(doc, segments, changes, k)[i]
  }

  /** The last element before an unchanged empty paragraph comes from the paragraph before. */
  lemma SeenBefore(doc: Document, segments: seq<Segment>, changes: map<int, Document>, j: nat,
                                      k: nat)
    requires Planned(doc, segments, changes) && 1 <= k < |doc| && doc[k].text == []
    requires j == Start(doc, segments, changes, k)
    ensures 1 <= j <= |Rebound(doc, segments, changes)|
    ensures ComesFrom(doc, segments, changes, Rebound(doc, segments, changes)[j - 1], k - 1)
  {
    hide Planned, Rebound, Joined, Blocks, Start, ReboundAt;
    NeighbourStays(doc, segments, changes, k, k - 1);
    Before(doc, segments, changes, k);
  }

  /** The first element after an unchanged empty paragraph comes from the paragraph after. */
  lemma SeenAfter(doc: Document, segments: seq<Segment>, changes: map<int, Document>, j: nat, k: nat)
    requires Planned(doc, segments, changes) && k + 1 < |doc| && doc[k].text == [] && k !in changes
    requires j == Start(doc, segments, changes, k)
    ensures j + 1 < |Rebound(doc, segments, changes)|
    ensures ComesFrom(doc, segments, changes, Rebound(doc, segments, changes)[j + 1], k + 1)
  {
    hide Planned, Rebound, Joined, Blocks, Start, ReboundAt;
    NeighbourStays(doc, segments, changes, k, k + 1);
    After(doc, segments, changes, k);
  }

  lemma {:induction false} SeenThere(doc: Document, segments: seq<Segment>, changes: map<int, Document>, seen: Bound,
                                     k: int, host: int)
    requires Planned(doc, segments, changes) && ComesFrom(doc, segments, changes, seen, k)
    ensures HasHeading(Rehost(seen.segments, host)) ==> HasHeading(GroupOf(segments, k))
    ensures HasBody(Rehost(seen.segments, host)) ==> HasBody(GroupOf(segments, k))
  {
    var i: nat :| i < |ReboundAt(doc, segments, changes, k)| && seen == ReboundAt(doc, segments, changes, k)[i];
    KindsAt(doc, segments, changes, k, i, host, seen);
  }

  lemma InteriorBefore(doc: Document, segments: seq<Segment>, changes: map<int, Document>, j: nat,
                                          k: nat)
    requires k < |doc| && k !in changes
    requires j == Start(doc, segments, changes, k) && 1 <= j < |Rebound(doc, segments, changes)| - 1
    ensures 1 <= k < |doc| - 1
  {
    NextStart(doc, segments, changes, k);
  }

  lemma {:induction false} SeenDeletable(bound: seq<Bound>, j: int)
    requires forall i :: 0 <= i < |bound| ==> AllVerified(bound[i].segments)
    requires Deletable(SnapshotOf(Paragraphs(bound)), Recognition(bound, |bound|), j)
    ensures 1 <= j < |bound| - 1 && PlainEmpty(bound[j].p)
    ensures HasHeading(Rehost(bound[j - 1].segments, j - 1)) && HasBody(Rehost(bound[j + 1].segments, j + 1))
  {
    hide Deletable, Recognition, GroupOf, Rehost, SnapshotOf;
    DeletableIff(Paragraphs(bound), Recognition(bound, |bound|), j);
    SeenAt(bound, j - 1);
    SeenAt(bound, j + 1);
  }

  /** What makes a paragraph of the result deletable was there before, around the paragraph it comes from. */
  lemma SeenAround(doc: Document, segments: seq<Segment>, changes: map<int, Document>, j: nat,
                                      k: nat,
                                      before: Bound, after: Bound)
    requires Planned(doc, segments, changes) && 1 <= k < |doc| - 1 && doc[k].text == [] && k !in changes
    requires j == Start(doc, segments, changes, k) && 1 <= j < |Rebound(doc, segments, changes)| - 1
    requires before == Rebound(doc, segments, changes)[j - 1] && after == Rebound(doc, segments, changes)[j + 1]
    ensures ComesFrom(doc, segments, changes, before, k - 1) && ComesFrom(doc, segments, changes, after, k + 1)
  {
    SeenBefore(doc, segments, changes, j, k);
    SeenAfter(doc, segments, changes, j, k);
  }

  lemma KindsAround(doc: Document, segments: seq<Segment>, changes: map<int, Document>, j: nat,
                                       k: nat,
                                       before: Bound, after: Bound)
    requires Planned(doc, segments, changes) && j > 0
    requires ComesFrom(doc, segments, changes, before, k - 1) && ComesFrom(doc, segments, changes, after, k + 1)
    requires HasHeading(Rehost(before.segments, j - 1)) && HasBody(Rehost(after.segments, j + 1))
    ensures HasHeading(GroupOf(segments, k - 1)) && HasBody(GroupOf(segments, k + 1))
  {
    SeenThere(doc, segments, changes, before, k - 1, j - 1);
    SeenThere(doc, segments, changes, after, k + 1, j + 1);
  }

  lemma WasDeletable(doc: Document, segments: seq<Segment>, changes: map<int, Document>,
                                        bound: seq<Bound>, j: int)
    returns (k: nat)
    requires Planned(doc, segments, changes) && bound == Rebound(doc, segments, changes)
    requires Deletable(SnapshotOf(Paragraphs(bound)), Recognition(bound, |bound|), j)
    ensures k !in changes && 1 <= k < |doc| - 1 && PlainEmpty(doc[k])
    ensures HasHeading(GroupOf(segments, k - 1)) && HasBody(GroupOf(segments, k + 1))
  {
    BoundVerified(doc, segments, changes);
    SeenDeletable(bound, j);
    k := EmptyStays(doc, segments, changes, j);
    InteriorBefore(doc, segments, changes, j, k);
    SeenAround(doc, segments, changes, j, k, bound[j - 1], bound[j + 1]);
    KindsAround(doc, segments, changes, j, k, bound[j - 1], bound[j + 1]);
  }

  /** No paragraph of the result is newly deletable. */
  lemma NoNewDeletion(doc: Document, segments: seq<Segment>, changes: map<int, Document>, j: int)
    requires Planned(doc, segments, changes)
    ensures var bound := Rebound(doc, segments, changes);
            !Deletable(SnapshotOf(Paragraphs(bound)), Recognition(bound, |bound|), j)
  {
    var bound := Rebound(doc, segments, changes);
    if Deletable(SnapshotOf(Paragraphs(bound)), Recognition(bound, |bound|), j) {
      var k := WasDeletable(doc, segments, changes, bound, j);
      WouldBeDeleted(doc, segments, changes, k);
    }
  }

  lemma {:induction false} WouldBeDeleted(doc: Document, segments: seq<Segment>, changes: map<int, Document>, k: nat)
    requires Planned(doc, segments, changes) && 1 <= k < |doc| - 1 && PlainEmpty(doc[k])
    requires HasHeading(GroupOf(segments, k - 1)) && HasBody(GroupOf(segments, k + 1))
    ensures k in changes
  {
    DeletableIff(doc, segments, k);
    DeletableChanges(doc, segments, changes, k);
  }

  // ---------------------------------------------------------------- the fixed point

  lemma {:induction false} NoHostPlanned(snapshot: seq<Source>, segments: seq<Segment>, hosts: seq<int>)
    requires forall h :: h in hosts ==> PlanHost(snapshot, segments, h) == Success(None)
    ensures PlanHosts(snapshot, segments, hosts) == Success([])
  {
    if hosts != [] {
      NoHostPlanned(snapshot, segments, hosts[..|hosts| - 1]);
      assert hosts[|hosts| - 1] in hosts;
    }
  }

  lemma {:induction false} NoDeletions(snapshot: seq<Source>, segments: seq<Segment>, n: nat)
    requires n <= |snapshot| && forall k :: !Deletable(snapshot, segments, k)
    ensures Deletions(snapshot, segments, n) == []
    decreases n
  {
    if n > 0 {
      NoDeletions(snapshot, segments, n - 1);
    }
  }

  /** Take any plan of any verified recognition, carry it out, and let every fragment be recognized as one
      whole-paragraph segment of the type it had while all other paragraphs keep their segments: planning
      again finds nothing to split, trim or delete. */
  lemma {:induction false} PlanningAgainFindsNothing(doc: Document, segments: seq<Segment>)
    requires SegmentsFit(doc, segments) && CreatedPlan(SnapshotOf(doc), segments).Success?
    ensures AllAccepted(doc, CreatedPlan(SnapshotOf(doc), segments).value.items)
    ensures var items := CreatedPlan(SnapshotOf(doc), segments).value.items;
            var bound := Rebound(doc, segments, Changes(doc, items, false));
            && Paragraphs(bound) == Rewrite(doc, items)
            && CreatedPlan(SnapshotOf(Rewrite(doc, items)), Recognition(bound, |bound|)) ==
               Success(Plan([], 0, 0, 0, 0))
  {
    PlanFits(doc, segments);
    var items := CreatedPlan(SnapshotOf(doc), segments).value.items;
    var changes := Changes(doc, items, false);
    var bound := Rebound(doc, segments, changes);
    ReboundIsPatch(doc, segments, changes, |doc|);
    var snapshot, recognition := SnapshotOf(Paragraphs(bound)), Recognition(bound, |bound|);
    forall h | h in Hosts(recognition) ensures PlanHost(snapshot, recognition, h) == Success(None) {
      if 0 <= h < |bound| {
        PositionPlansNothing(doc, segments, changes, h);
      } else {
        SourceAtDocument(Paragraphs(bound), h);
      }
    }
    NoHostPlanned(snapshot, recognition, Hosts(recognition));
    forall k: int ensures !Deletable(snapshot, recognition, k) {
      NoNewDeletion(doc, segments, changes, k);
    }
    NoDeletions(snapshot, recognition, |snapshot|);
  }
}
