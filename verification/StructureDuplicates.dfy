/** Batches that name a paragraph twice, which the host does not refuse: for which lists of paragraph numbers the edits
    are sure to reach the planned document. */
module StructureDuplicates {
  import opened Results
  import opened Utf16
  import opened Sorting
  import opened StructureModel
  import opened StructureEdit
  import opened StructureResult
  import opened StructureHost

  predicate HasIndices(items: seq<Item>, indices: seq<int>) {
    |items| == |indices| && forall i :: 0 <= i < |items| ==> items[i].index == indices[i]
  }

  predicate Distinct(indices: seq<int>) {
    forall i, j :: 0 <= i < j < |indices| ==> indices[i] != indices[j]
  }

  /** Numbers the host refuses whatever else the items say. */
  predicate AlwaysRefused(indices: seq<int>) {
    |indices| > BATCH_LIMIT || exists i :: 0 <= i < |indices| && indices[i] < 0
  }

  /** Every batch with these numbers that is not refused ends in the planned document, splits taken where they land. */
  ghost predicate AlwaysReachesPlan(indices: seq<int>) {
    forall doc: Document, items: seq<Item>, expected ::
      HasIndices(items, indices) && ValidDocument(doc) && Refusal(doc, items, expected) == None ==>
        Batch(doc, items, expected, true).1 == RewriteLanded(doc, items)
  }

  // ---------------------------------------------------------------- deletions in a document of empty paragraphs

  const EMPTY := Paragraph([], false, false, false, false)
  const WORD := Paragraph([0x61], false, false, false, false)

  function EmptiesAndWord(n: nat): (r: Document)
    ensures |r| == n + 1
    ensures forall i :: 0 <= i < n ==> r[i] == EMPTY
    ensures r[n] == WORD
  {
    seq(n, i => EMPTY) + [WORD]
  }

  function Deletion(index: int): Item {
    Item(index, Sha256([]), [], 0, 0, true)
  }

  predicate Deletions(items: seq<Item>, below: int) {
    forall i :: 0 <= i < |items| ==> 0 <= items[i].index < below && items[i] == Deletion(items[i].index)
  }

  lemma DeletionsAccepted(n: nat, items: seq<Item>)
    requires Deletions(items, n)
    ensures AllAccepted(EmptiesAndWord(n), items)
  {
    forall i | 0 <= i < |items| ensures Accepts(EmptiesAndWord(n), items[i]) {
      assert EmptiesAndWord(n)[items[i].index] == EMPTY;
      assert items[i] == Deletion(items[i].index);
    }
  }

  lemma {:induction false} DeletionsCount(doc: Document, items: seq<Item>, n: int)
    requires Deletions(items, n)
    ensures Sum(items, Boundaries) == 0 && Sum(items, Removed) == |items| && Sum(items, TrimmedIn(doc)) == 0
  {
    if items != [] {
      assert items[0] == Deletion(items[0].index);
      DeletionsCount(doc, items[1..], n);
    }
  }

  lemma OneFewer(n: nat, i: nat)
    requires i < n
    ensures EmptiesAndWord(n)[..i] + EmptiesAndWord(n)[i + 1..] == EmptiesAndWord(n - 1)
  {
  }

  /** Every deletion takes one empty paragraph away, whichever it names. */
  lemma {:induction false} DeletionsRun(n: nat, doc: Document, items: seq<Item>)
    requires AllAccepted(doc, items) && |items| <= n && Deletions(items, n - |items| + 1)
    ensures RunItems(EmptiesAndWord(n), doc, items) == Some(EmptiesAndWord(n - |items|))
    decreases |items|
  {
    if items != [] {
      assert items[0] == Deletion(items[0].index);
      OneFewer(n, items[0].index);
      DeletionsRun(n - 1, doc, items[1..]);
    }
  }

  lemma {:induction false} SortedDeletions(items: seq<Item>, n: int)
    requires Deletions(items, n)
    ensures Deletions(Sort(items, HigherIndex), n) && |Sort(items, HigherIndex)| == |items|
  {
    SortSorts(items, HigherIndex);
    forall i | 0 <= i < |items|
      ensures 0 <= Sort(items, HigherIndex)[i].index < n
      ensures Sort(items, HigherIndex)[i] == Deletion(Sort(items, HigherIndex)[i].index)
    {
      assert Sort(items, HigherIndex)[i] in items;
    }
  }

  lemma EmptiesInvisible(n: nat)
    ensures Visible(EmptiesAndWord(n)) == VisibleText(WORD.text)
  {
    var empties: Document := seq(n, i => EMPTY);
    assert EmptiesAndWord(n)[..n] == empties;
    NothingVisible(empties);
  }

  lemma {:induction false} NothingVisible(doc: Document)
    requires forall i :: 0 <= i < |doc| ==> doc[i] == EMPTY
    ensures Visible(doc) == []
  {
    if doc != [] {
      NothingVisible(doc[..|doc| - 1]);
    }
  }

  /** The batch is carried out and reported as done, with one paragraph fewer for every item. */
  lemma DeletionsDone(n: nat, items: seq<Item>)
    requires items != [] && |items| <= BATCH_LIMIT && |items| <= n && Deletions(items, n - |items| + 1)
    ensures var doc := EmptiesAndWord(n);
            && Refusal(doc, items, Sha256(Visible(doc))) == None
            && Batch(doc, items, Sha256(Visible(doc)), true).0.Success?
            && Batch(doc, items, Sha256(Visible(doc)), true).1 == EmptiesAndWord(n - |items|)
  {
    var doc := EmptiesAndWord(n);
    DeletionsAccepted(n, items);
    DeletionsCount(doc, items, n);
    assert FirstError(doc, items) == None && Total(doc, items) == |items|;
    SortedDeletions(items, n - |items| + 1);
    SortedAccepted(doc, items);
    DeletionsRun(n, doc, Sort(items, HigherIndex));
    EmptiesInvisible(n);
    EmptiesInvisible(n - |items|);
    assert Complete(doc, items, EmptiesAndWord(n - |items|));
  }

  /** The plan removes every paragraph that is named, once. */
  lemma {:induction false} PlanRemoves(doc: Document, items: seq<Item>, indices: seq<int>, n: int, landed: bool)
    requires AllAccepted(doc, items) && Deletions(items, n) && n <= |doc| && HasIndices(items, indices)
    ensures |Patch(doc, Changes(doc, items, landed), |doc|)| >= |doc| - |items|
    ensures !Distinct(indices) ==> |Patch(doc, Changes(doc, items, landed), |doc|)| > |doc| - |items|
    decreases |items|
  {
    if items == [] {
      PatchUntouched(doc, Changes(doc, items, landed), 0, |doc|);
    } else {
      PlanRemoves(doc, items[1..], indices[1..], n, landed);
      OneRemoval(doc, items, n, landed);
      if forall i :: 0 <= i < |items[1..]| ==> items[1..][i].index != indices[0] {
        FirstIsNew(indices, items[1..]);
      }
    }
  }

  /** The first item takes its paragraph away unless another one does. */
  lemma {:induction false} OneRemoval(doc: Document, items: seq<Item>, n: int, landed: bool)
    requires AllAccepted(doc, items) && Deletions(items, n) && n <= |doc| && items != []
    ensures |Patch(doc, Changes(doc, items, landed), |doc|)| == |Patch(doc, Changes(doc, items[1..], landed), |doc|)|
              - if exists i :: 1 <= i < |items| && items[i].index == items[0].index then 0 else 1
  {
    hide Patch, Accepts;
    var changes, k := Changes(doc, items[1..], landed), items[0].index;
    assert items[0] == Deletion(k);
    assert k in changes <==> exists i :: 1 <= i < |items| && items[i].index == k by {
      if i :| 1 <= i < |items| && items[i].index == k {
        assert items[1..][i - 1].index == k;
      }
    }
    if k in changes {
      DeletedOnce(doc, items[1..], n, k, landed);
      assert changes[k := []] == changes;
    } else {
      PatchLength(doc, changes, k, [], |doc|);
    }
  }

  lemma FirstIsNew(indices: seq<int>, rest: seq<Item>)
    requires indices != [] && HasIndices(rest, indices[1..])
    requires forall i :: 0 <= i < |rest| ==> rest[i].index != indices[0]
    ensures Distinct(indices[1..]) ==> Distinct(indices)
  {
    forall j | 0 < j < |indices| ensures indices[0] != indices[j] {
      assert rest[j - 1].index == indices[1..][j - 1] == indices[j];
    }
    forall i, j | 0 < i < j < |indices| && Distinct(indices[1..]) ensures indices[i] != indices[j] {
      assert indices[1..][i - 1] == indices[i] && indices[1..][j - 1] == indices[j];
    }
  }

  lemma {:induction false} DeletedOnce(doc: Document, items: seq<Item>, n: int, k: int, landed: bool)
    requires AllAccepted(doc, items) && Deletions(items, n) && k in Changes(doc, items, landed)
    ensures Changes(doc, items, landed)[k] == []
    decreases |items|
  {
    if items != [] {
      assert items[0] == Deletion(items[0].index);
      if items[0].index != k {
        DeletedOnce(doc, items[1..], n, k, landed);
      }
    }
  }

  // ---------------------------------------------------------------- the exact condition

  function Highest(indices: seq<int>): (r: int)
    ensures forall i :: 0 <= i < |indices| ==> indices[i] <= r
    ensures r >= 0
  {
    if indices == [] then 0
    else
      var r := Highest(indices[1..]);
      assert forall i :: 1 <= i < |indices| ==> indices[i] == indices[1..][i - 1];
      if indices[0] > r then indices[0] else r
  }

  function DeletionsOf(indices: seq<int>): (r: seq<Item>)
    ensures HasIndices(r, indices)
  {
    seq(|indices|, i requires 0 <= i < |indices| => Deletion(indices[i]))
  }

  lemma {:induction false} DeletionsBelow(indices: seq<int>)
    requires !AlwaysRefused(indices)
    ensures Deletions(DeletionsOf(indices), Highest(indices) + 1)
  {
  }

  /** Any list that repeats a number: deletions of empty paragraphs that are not refused, succeed, and miss the plan. */
  lemma RepetitionMisses(indices: seq<int>) returns (doc: Document, items: seq<Item>)
    requires !Distinct(indices) && !AlwaysRefused(indices)
    ensures HasIndices(items, indices) && ValidDocument(doc) && Refusal(doc, items, Sha256(Visible(doc))) == None
    ensures Batch(doc, items, Sha256(Visible(doc)), true).0.Success?
    ensures Batch(doc, items, Sha256(Visible(doc)), true).1 !in {Rewrite(doc, items), RewriteLanded(doc, items)}
  {
    var n := Highest(indices) + |indices|;
    doc, items := EmptiesAndWord(n), DeletionsOf(indices);
    DeletionsBelow(indices);
    DeletionsDone(n, items);
    DeletionsMiss(n, items, indices);
  }

  lemma DeletionsMiss(n: nat, items: seq<Item>, indices: seq<int>)
    requires |items| <= n && Deletions(items, n) && HasIndices(items, indices) && !Distinct(indices)
    ensures AllAccepted(EmptiesAndWord(n), items)
    ensures EmptiesAndWord(n - |items|)
            !in {Rewrite(EmptiesAndWord(n), items), RewriteLanded(EmptiesAndWord(n), items)}
  {
    DeletionsAccepted(n, items);
    PlanRemoves(EmptiesAndWord(n), items, indices, n, false);
    PlanRemoves(EmptiesAndWord(n), items, indices, n, true);
  }

  /** A list of paragraph numbers is safe, whatever the document and the items, if and only if it repeats none or is
      refused outright. */
  lemma DuplicatesExactly(indices: seq<int>)
    ensures AlwaysReachesPlan(indices) <==> Distinct(indices) || AlwaysRefused(indices)
  {
    if !Distinct(indices) && !AlwaysRefused(indices) {
      var doc, items := RepetitionMisses(indices);
    } else {
      forall doc: Document, items: seq<Item>, expected
        | HasIndices(items, indices) && ValidDocument(doc) && Refusal(doc, items, expected) == None
        ensures Batch(doc, items, expected, true).1 == RewriteLanded(doc, items)
      {
        NotRefused(doc, items, expected, indices);
        BatchReachesPlan(doc, items, expected);
      }
    }
  }

  lemma NotRefused(doc: Document, items: seq<Item>, expected: Digest, indices: seq<int>)
    requires HasIndices(items, indices) && Refusal(doc, items, expected) == None
    requires Distinct(indices) || AlwaysRefused(indices)
    ensures DistinctIndices(items)
  {
    forall i | 0 <= i < |items| ensures indices[i] >= 0 {
      assert Accepts(doc, items[i]);
    }
  }

  /** The host's final check need not notice: two deletions of paragraph 0 also remove the empty paragraph that moved
      there, and the batch is reported as done. */
  lemma DuplicatesNotRefused()
    ensures exists doc: Document, items: seq<Item>, expected ::
              && ValidDocument(doc) && Refusal(doc, items, expected) == None && !DistinctIndices(items)
              && Batch(doc, items, expected, true).0.Success?
              && Batch(doc, items, expected, true).1 != Rewrite(doc, items)
  {
    assert [0, 0][0] == [0, 0][1] && !Distinct([0, 0]);
    var doc, items := RepetitionMisses([0, 0]);
    assert items[0].index == items[1].index;
  }
}
