/** The host's normalization batch: validation, in-place edits inside one undo record, the final check,
    saving, and rolling back. */
module StructureHost {
  import opened Results
  import opened Utf16
  import opened Sorting
  import opened StructureModel
  import opened StructureRefusal
  import opened StructureEdit
  import opened StructureResult

  datatype Report = Report(split: int, created: int, trimmed: int, removed: int, paragraphsAfter: int)

  /** The document token: a hash of path, paragraph count and section count. */
  datatype Token = Token(path: Text, paragraphCount: nat, sectionCount: nat)

  // ---------------------------------------------------------------- the batch as a function of the document

  function FirstError(doc: Document, items: seq<Item>): (r: Option<Error>)
    ensures r == None <==> AllAccepted(doc, items)
  {
    if items == [] then None
    else if CheckItem(doc, items[0]).Some? then
      assert !Accepts(doc, items[0]);
      CheckItem(doc, items[0])
    else
      assert Accepts(doc, items[0]);
      var r := FirstError(doc, items[1..]);
      assert r == None ==> AllAccepted(doc, items) by {
        assert forall i :: 1 <= i < |items| ==> items[i] == items[1..][i - 1];
      }
      assert r != None ==> !AllAccepted(doc, items) by {
        if AllAccepted(doc, items) {
          assert forall i :: 0 <= i < |items[1..]| ==> items[1..][i] == items[i + 1];
        }
      }
      r
  }

  function Total(doc: Document, items: seq<Item>): int {
    Sum(items, Boundaries) + Sum(items, Removed) + Sum(items, TrimmedIn(doc))
  }

  /** Why the batch is refused before anything is edited; `None` when editing starts. */
  function Refusal(doc: Document, items: seq<Item>, expected: Digest): (r: Option<Error>)
    ensures r == None ==> AllAccepted(doc, items)
  {
    if items == [] then Some(PlanInvalid)
    else if Sha256(Visible(doc)) != expected then Some(RangeMismatch)
    else if |items| > BATCH_LIMIT then Some(PlanInvalid)
    else if FirstError(doc, items).Some? then FirstError(doc, items)
    else if !(1 <= Total(doc, items) <= BATCH_LIMIT) then Some(PlanInvalid)
    else None
  }

  /** How many edits carry the item out. */
  ghost function EditCount(doc: Document, item: Item): int {
    if !Accepts(doc, item) then 0
    else
      AcceptedOffsets(doc, item);
      if item.deleteEmpty then 1 else |OpsOf(item, |doc[item.index].text|)|
  }

  ghost function EditCounts(doc: Document, items: seq<Item>): int {
    if items == [] then 0 else EditCount(doc, items[0]) + EditCounts(doc, items[1..])
  }

  lemma EditCountIs(doc: Document, item: Item)
    requires Accepts(doc, item)
    ensures EditCount(doc, item) == Boundaries(item) + Removed(item) + Trimmed(doc, item)
  {
    hide GapsFit;
    AcceptedOffsets(doc, item);
    if !item.deleteEmpty {
      SortKeepsLength(item.gaps);
      var length := |doc[item.index].text|;
      var ops := SplitOps(GapsRightToLeft(item)) + TailOps(item.trimEnd, length) + FrontOps(item.trimStart);
      SortLengthKept(ops);
    }
  }

  lemma {:induction false} SortLengthKept(ops: seq<Op>)
    ensures |Sort(ops, RightmostFirst)| == |ops|
  {
    if ops != [] {
      SortLengthKept(ops[..|ops| - 1]);
      InsertKeeps(Sort(ops[..|ops| - 1], RightmostFirst), ops[|ops| - 1], RightmostFirst);
    }
  }

  /** The total that is held against the limit is the number of edits. */
  lemma {:induction false} TotalIsEdits(doc: Document, items: seq<Item>)
    requires AllAccepted(doc, items)
    ensures Total(doc, items) == EditCounts(doc, items)
  {
    if items != [] {
      EditCountIs(doc, items[0]);
      TotalIsEdits(doc, items[1..]);
    }
  }

  lemma AcceptedAll(doc: Document, items: seq<Item>)
    ensures AllAccepted(doc, items) <==>
            forall item :: item in items ==> Stands(doc, item) && Doable(doc[item.index], item)
  {
    hide Doable, Accepts;
    forall item | item in items
      ensures Accepts(doc, item) <==> Stands(doc, item) && Doable(doc[item.index], item)
    {
      AcceptedExactly(doc, item);
    }
    if forall item :: item in items ==> Stands(doc, item) && Doable(doc[item.index], item) {
      assert forall i :: 0 <= i < |items| ==> items[i] in items;
    }
  }

  /** Editing starts if and only if there are items, at most as many as the limit, the visible text is the expected one,
      every item's paragraph stands and can be edited as asked, and there are edits, at most as many as the limit. */
  lemma NotRefusedExactly(doc: Document, items: seq<Item>, expected: Digest)
    ensures Refusal(doc, items, expected) == None <==>
            && items != [] && |items| <= BATCH_LIMIT && Sha256(Visible(doc)) == expected
            && (forall item :: item in items ==> Stands(doc, item) && Doable(doc[item.index], item))
            && 1 <= EditCounts(doc, items) <= BATCH_LIMIT
  {
    hide Doable, Accepts, FirstError, Total, EditCounts;
    AcceptedAll(doc, items);
    if AllAccepted(doc, items) {
      TotalIsEdits(doc, items);
    }
  }

  lemma {:induction false} FirstErrorIs(doc: Document, items: seq<Item>)
    ensures FirstError(doc, items) in {None, Some(PlanInvalid), Some(RangeMismatch)}
  {
    if items != [] {
      FirstErrorIs(doc, items[1..]);
    }
  }

  /** A batch with an item that does not fit its paragraph is refused before anything is edited. */
  lemma StaleRefused(doc: Document, items: seq<Item>, expected: Digest)
    requires exists item :: item in items && !(Stands(doc, item) && Doable(doc[item.index], item))
    ensures Refusal(doc, items, expected) in {Some(PlanInvalid), Some(RangeMismatch)}
  {
    hide Doable, Accepts, FirstError;
    NotRefusedExactly(doc, items, expected);
    FirstErrorIs(doc, items);
  }

  lemma SortedAccepted(doc: Document, items: seq<Item>)
    requires AllAccepted(doc, items)
    ensures AllAccepted(doc, Sort(items, HigherIndex))
    ensures |Sort(items, HigherIndex)| == |items|
  {
    SortSorts(items, HigherIndex);
    forall i | 0 <= i < |Sort(items, HigherIndex)| ensures Accepts(doc, Sort(items, HigherIndex)[i]) {
      assert Sort(items, HigherIndex)[i] in items;
    }
  }

  function ReportOf(doc: Document, items: seq<Item>, after: Document): Report {
    Report(Sum(items, Splits), Sum(items, Boundaries), Sum(items, TrimmedIn(doc)), Sum(items, Removed), |after|)
  }

  predicate Complete(doc: Document, items: seq<Item>, after: Document) {
    && |after| == |doc| + Sum(items, Boundaries) - Sum(items, Removed)
    && Visible(after) == Visible(doc)
  }

  /** Outcome and final document of a batch on a document whose token is current. */
  function Batch(doc: Document, items: seq<Item>, expected: Digest, saves: bool): (Result<Report, Error>, Document) {
    if Refusal(doc, items, expected).Some? then (Failure(Refusal(doc, items, expected).value), doc)
    else
      SortedAccepted(doc, items);
      match RunItems(doc, doc, Sort(items, HigherIndex))
      case None => (Failure(EditFailed), doc)
      case Some(after) =>
        if !Complete(doc, items, after) then (Failure(Incomplete), doc)
        else if !saves then (Failure(SaveFailed), doc)
        else (Success(ReportOf(doc, items, after)), after)
  }

  /** Where the operations on one paragraph get to: the first one that fails is the last. */
  function OpsReach(doc: Document, i: nat, raw: Text, ops: seq<Op>): (r: Document)
    ensures RunOps(doc, i, raw, ops).Some? ==> RunOps(doc, i, raw, ops) == Some(r)
    decreases |ops|
  {
    if ops == [] || ApplyOp(doc, i, raw, ops[0]).None? then doc
    else OpsReach(ApplyOp(doc, i, raw, ops[0]).value, i, raw, ops[1..])
  }

  /** Where the edits get to. */
  function ItemsReach(doc: Document, original: Document, items: seq<Item>): (r: Document)
    requires AllAccepted(original, items)
    ensures RunItems(doc, original, items).Some? ==> RunItems(doc, original, items) == Some(r)
    decreases |items|
  {
    if items == [] then doc
    else
      AcceptedOffsets(original, items[0]);
      var raw := original[items[0].index].text;
      match RunItem(doc, items[0], raw)
      case None => if items[0].deleteEmpty then doc else OpsReach(doc, items[0].index, raw, OpsOf(items[0], |raw|))
      case Some(next) => ItemsReach(next, original, items[1..])
  }

  /** The document that a batch leaves behind when its Undo throws. */
  function LeftAsIs(doc: Document, items: seq<Item>): Document
    requires AllAccepted(doc, items)
  {
    SortedAccepted(doc, items);
    ItemsReach(doc, doc, Sort(items, HigherIndex))
  }

  /** What the host checks after Undo. */
  predicate Undoes(doc: Document, undone: Option<Document>) {
    undone.Some? && |undone.value| == |doc| && Visible(undone.value) == Visible(doc)
  }

  // ---------------------------------------------------------------- the host object

  class Host {
    const fullName: Text
    const sectionCount: nat
    var paragraphs: Document
    var descriptor: Option<Token>

    constructor (fullName: Text, sectionCount: nat, paragraphs: Document)
      ensures this.paragraphs == paragraphs && descriptor == None
      ensures this.fullName == fullName && this.sectionCount == sectionCount
    {
      this.fullName, this.sectionCount := fullName, sectionCount;
      this.paragraphs, descriptor := paragraphs, None;
    }

    function CurrentToken(): Token
      reads this
    {
      Token(fullName, |paragraphs|, sectionCount)
    }

    method CaptureDescriptor() returns (token: Token)
      modifies this`descriptor
      ensures token == CurrentToken() && descriptor == Some(token)
    {
      token := CurrentToken();
      descriptor := Some(token);
    }

    predicate TokenValid(token: Token)
      reads this
    {
      descriptor == Some(token) && token == CurrentToken()
    }

    /** `saves` is whether the editor reports the document saved in the end, and `undone` the document its Undo leaves
        (`None` when Undo throws).  Undo is believed when paragraph count and visible text are those of before. */
    method ApplyNormalizationBatch(token: Token, items: seq<Item>, expected: Digest, saves: bool,
                                   undone: Option<Document>)
      returns (r: Result<Report, Error>)
      modifies this
      ensures !old(TokenValid(token)) ==>
                r == Failure(TokenChanged) && paragraphs == old(paragraphs) && descriptor == old(descriptor)
      ensures old(descriptor) != Some(token) || token.path != fullName || token.paragraphCount != |old(paragraphs)|
              || token.sectionCount != sectionCount ==>
                r == Failure(TokenChanged) && paragraphs == old(paragraphs)
      ensures old(TokenValid(token)) && Batch(old(paragraphs), items, expected, saves).0.Success? ==>
                (r, paragraphs) == Batch(old(paragraphs), items, expected, saves)
      ensures old(TokenValid(token)) && Refusal(old(paragraphs), items, expected).Some? ==>
                r == Failure(Refusal(old(paragraphs), items, expected).value) && paragraphs == old(paragraphs)
      ensures old(TokenValid(token)) && Refusal(old(paragraphs), items, expected) == None && r.Failure? ==>
                if Undoes(old(paragraphs), undone)
                then r == Batch(old(paragraphs), items, expected, saves).0 && paragraphs == undone.value
                else r == Failure(RollbackFailed)
                     && paragraphs == if undone.Some? then undone.value else LeftAsIs(old(paragraphs), items)
      ensures old(TokenValid(token)) ==>
                descriptor == if Refusal(old(paragraphs), items, expected).Some? then old(descriptor) else None
      ensures r.Failure? && r.error != RollbackFailed ==>
                |paragraphs| == |old(paragraphs)| && Visible(paragraphs) == Visible(old(paragraphs))
      ensures r.Failure? && undone == Some(old(paragraphs)) ==> paragraphs == old(paragraphs)
      ensures (exists item :: item in items
                 && !(Stands(old(paragraphs), item) && Doable(old(paragraphs)[item.index], item))) ==>
                && r.Failure? && r.error in {TokenChanged, PlanInvalid, RangeMismatch}
                && paragraphs == old(paragraphs) && descriptor == old(descriptor)
    {
      hide Doable;
      if !TokenValid(token) {
        return Failure(TokenChanged);
      }
      var trimmed, refusal := Validate(items, expected);
      if exists item :: item in items && !(Stands(paragraphs, item) && Doable(paragraphs[item.index], item)) {
        StaleRefused(paragraphs, items, expected);
      }
      if refusal.Some? {
        return Failure(refusal.value);
      }
      SortedAccepted(paragraphs, items);
      ghost var was := paragraphs;
      var countBefore, visibleBefore := |paragraphs|, Visible(paragraphs);
      descriptor := None;
      var edited := Edit(items);
      var error := None;
      if !edited {
        error := Some(EditFailed);
      } else if !(|paragraphs| == countBefore + Sum(items, Boundaries) - Sum(items, Removed)
                  && Visible(paragraphs) == visibleBefore) {
        error := Some(Incomplete);
      } else if !saves {
        error := Some(SaveFailed);
      }
      if error.Some? {
        if undone == None {
          return Failure(RollbackFailed);
        }
        paragraphs := undone.value;
        return Failure(if |paragraphs| == countBefore && Visible(paragraphs) == visibleBefore then error.value
                       else RollbackFailed);
      }
      return Success(Report(Sum(items, Splits), Sum(items, Boundaries), trimmed, Sum(items, Removed), |paragraphs|));
    }

    /** The checks before anything is edited, item by item. */
    method Validate(items: seq<Item>, expected: Digest) returns (trimmed: int, refusal: Option<Error>)
      ensures refusal == Refusal(paragraphs, items, expected)
      ensures refusal == None ==> trimmed == Sum(items, TrimmedIn(paragraphs))
    {
      trimmed := 0;
      if items == [] {
        return 0, Some(PlanInvalid);
      }
      if Sha256(Visible(paragraphs)) != expected {
        return 0, Some(RangeMismatch);
      }
      if |items| > BATCH_LIMIT {
        return 0, Some(PlanInvalid);
      }
      for k := 0 to |items|
        invariant FirstError(paragraphs, items) == FirstError(paragraphs, items[k..])
        invariant Sum(items, TrimmedIn(paragraphs)) == trimmed + Sum(items[k..], TrimmedIn(paragraphs))
      {
        var item := items[k];
        var error := CheckOne(item);
        assert items[k..][0] == item && items[k..][1..] == items[k + 1..];
        if error.Some? {
          return trimmed, error;
        }
        trimmed := trimmed + Trimmed(paragraphs, item);
      }
      var total := Sum(items, Boundaries) + Sum(items, Removed) + trimmed;
      return trimmed, if 1 <= total <= BATCH_LIMIT then None else Some(PlanInvalid);
    }

    method CheckOne(item: Item) returns (error: Option<Error>)
      ensures error == CheckItem(paragraphs, item)
    {
      if item.index < 0 {
        return Some(PlanInvalid);
      }
      if item.index >= |paragraphs| {
        return Some(RangeMismatch);
      }
      var p := paragraphs[item.index];
      if p.inTable || Sha256(p.text) != item.hash {
        return Some(RangeMismatch);
      }
      if item.deleteEmpty {
        return if DeletionFits(p, item) then None else Some(PlanInvalid);
      }
      if !TrimFits(p.text, item) {
        return Some(PlanInvalid);
      }
      var gaps, previousStart := GapsRightToLeft(item), |p.text| + 1;
      for k := 0 to |gaps|
        invariant GapsFit(p.text, item, gaps, |p.text| + 1) == GapsFit(p.text, item, gaps[k..], previousStart)
      {
        assert gaps[k..][0] == gaps[k] && gaps[k..][1..] == gaps[k + 1..];
        if !GapFits(p.text, item, gaps[k], previousStart) {
          return Some(PlanInvalid);
        }
        previousStart := gaps[k].start;
      }
      return None;
    }

    /** The edit loops: paragraphs in descending order, operations right to left, original offsets. */
    method Edit(items: seq<Item>) returns (ok: bool)
      requires AllAccepted(paragraphs, items) && AllAccepted(paragraphs, Sort(items, HigherIndex))
      modifies this`paragraphs
      ensures ok == RunItems(old(paragraphs), old(paragraphs), Sort(items, HigherIndex)).Some?
      ensures paragraphs == ItemsReach(old(paragraphs), old(paragraphs), Sort(items, HigherIndex))
    {
      hide Sort, OpsOf, OpsReach;
      var sorted, original := Sort(items, HigherIndex), paragraphs;
      for k := 0 to |sorted|
        invariant RunItems(paragraphs, original, sorted[k..]) == RunItems(original, original, sorted)
        invariant ItemsReach(paragraphs, original, sorted[k..]) == ItemsReach(original, original, sorted)
      {
        var item := sorted[k];
        assert Accepts(original, item);
        AcceptedOffsets(original, item);
        assert sorted[k..][0] == item && sorted[k..][1..] == sorted[k + 1..];
        if item.deleteEmpty {
          if item.index >= |paragraphs| {
            return false;
          }
          paragraphs := paragraphs[..item.index] + paragraphs[item.index + 1..];
        } else {
          var raw := original[item.index].text;
          var done := EditParagraph(item.index, raw, OpsOf(item, |raw|));
          if !done {
            return false;
          }
        }
      }
      return true;
    }

    method EditParagraph(i: nat, raw: Text, ops: seq<Op>) returns (ok: bool)
      modifies this`paragraphs
      ensures ok == RunOps(old(paragraphs), i, raw, ops).Some?
      ensures paragraphs == OpsReach(old(paragraphs), i, raw, ops)
    {
      for k := 0 to |ops|
        invariant RunOps(paragraphs, i, raw, ops[k..]) == RunOps(old(paragraphs), i, raw, ops)
        invariant OpsReach(paragraphs, i, raw, ops[k..]) == OpsReach(old(paragraphs), i, raw, ops)
      {
        var op := ops[k];
        assert ops[k..][0] == op && ops[k..][1..] == ops[k + 1..];
        if i >= |paragraphs| || !(op.start <= op.end <= |raw|) {
          return false;
        }
        var range := SplitRange(paragraphs[i].text, raw, op.start, op.end);
        if range == None {
          return false;
        }
        var (from, to) := range.value;
        if op.kind == Trim {
          paragraphs := paragraphs[i := Cut(paragraphs[i], from, to)];
        } else {
          paragraphs := paragraphs[..i] + Break(paragraphs[i], from, to) + paragraphs[i + 1..];
        }
      }
      return true;
    }
  }

  /** From UTF-16 offsets of the original text to a range of the live one, by character ordinals. */
  method SplitRange(live: Text, raw: Text, start: nat, end: nat) returns (r: Option<(nat, nat)>)
    requires start <= end <= |raw|
    ensures r == ReadRange(live, raw, start, end)
  {
    var head := raw[..end];
    var first := CharacterOrdinal(head, start);
    if first == None || first.value > CharCount(live) {
      return None;
    }
    var from := CharStart(live, first.value);
    if start == end {
      return Some((from, from));
    }
    var last := CharacterOrdinal(head, end);
    if last == None || last.value > CharCount(live) {
      return None;
    }
    var to := CharStart(live, last.value);
    if to <= from || HostText.Strip(live[from..to]) != raw[start..end] {
      return None;
    }
    return Some((from, to));
  }

  // ---------------------------------------------------------------- what a batch achieves

  /** An accepted batch with distinct indices on a document whose visible text is the expected one succeeds,
      reports the counts of its plan, and leaves the document with every split where it lands; that is the
      planned document iff no split falls inside a surrogate pair. */
  lemma {:induction false} BatchReachesPlan(doc: Document, items: seq<Item>, expected: Digest)
    requires ValidDocument(doc) && Refusal(doc, items, expected) == None && DistinctIndices(items)
    ensures var (r, after) := Batch(doc, items, expected, true);
            && r == Success(ReportOf(doc, items, after))
            && after == RewriteLanded(doc, items)
            && Visible(after) == Visible(doc)
            && |after| == |doc| + Sum(items, Boundaries) - Sum(items, Removed)
            && (after == Rewrite(doc, items) <==> SplitsAtCharacters(doc, items))
  {
    hide RunItems, Patch, Changes, Visible, SplitsAtCharacters, FirstError;
    EditsLand(doc, items);
    CountFrom(doc, items, true);
    VisibleUnchanged(doc, items, true);
    LandedExactly(doc, items);
  }

  // ---------------------------------------------------------------- a split inside a surrogate pair

  const PAIR: Text := [0xD83D, 0xDE00]
  const PAIR_ALONE: Document := [Paragraph(PAIR, false, false, false, false)]
  const SPLIT_PAIR := Item(0, Sha256(PAIR), [Gap(1, 1)], 0, 2, false)

  lemma SplitPairAccepted()
    ensures Accepts(PAIR_ALONE, SPLIT_PAIR)
    ensures Refusal(PAIR_ALONE, [SPLIT_PAIR], Sha256(Visible(PAIR_ALONE))) == None
  {
    assert SPLIT_PAIR.gaps[..0] == [] && Sort([], LaterGap) == [];
    assert GapsRightToLeft(SPLIT_PAIR) == [Gap(1, 1)];
    assert [Gap(1, 1)][1..] == [] && GapsFit(PAIR, SPLIT_PAIR, [Gap(1, 1)], 3);
    assert Accepts(PAIR_ALONE, SPLIT_PAIR);
    assert [SPLIT_PAIR][1..] == [];
    assert Boundaries(SPLIT_PAIR) == 1 && Removed(SPLIT_PAIR) == 0 && TrimmedIn(PAIR_ALONE)(SPLIT_PAIR) == 0;
    assert Sum([], Boundaries) == Sum([], Removed) == Sum([], TrimmedIn(PAIR_ALONE)) == 0;
    assert Total(PAIR_ALONE, [SPLIT_PAIR]) == 1;
  }

  /** A zero-width split between the halves of a surrogate pair is accepted and reported as done,
      but falls after the pair. */
  lemma PairNotSplit()
    ensures exists doc: Document, items: seq<Item>, expected ::
              && ValidDocument(doc) && Refusal(doc, items, expected) == None && DistinctIndices(items)
              && Batch(doc, items, expected, true).0.Success?
              && Batch(doc, items, expected, true).1 != Rewrite(doc, items)
  {
    hide Refusal, Batch, Rewrite, RewriteLanded, Visible, Sort, FirstError;
    SplitPairAccepted();
    var items, expected := [SPLIT_PAIR], Sha256(Visible(PAIR_ALONE));
    BatchReachesPlan(PAIR_ALONE, items, expected);
    assert Gap(1, 1) in items[0].gaps && !IsBoundary(PAIR, 1);
    assert !ItemSplitsAtCharacters(PAIR_ALONE, items[0]);
    assert !SplitsAtCharacters(PAIR_ALONE, items);
  }
}
