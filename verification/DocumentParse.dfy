/** Parsing for the repair: every element tree gives elements in document order, and they render back to the tree. */
module DocumentParse {
  import opened Results
  import opened DocumentRepair
  import opened DocumentSurgery

  /** The elements of a tree in document order, the first of them at number `base`. */
  function Numbered(t: Tree, parent: int, base: nat): (doc: Document)
    ensures doc != [] && doc[0] == Node(t.tag, t.embed, t.text, t.tail, parent)
    decreases t, 1
  {
    [Node(t.tag, t.embed, t.text, t.tail, parent)] + NumberedAll(t.children, base, base + 1)
  }

  function NumberedAll(ts: seq<Tree>, parent: int, base: nat): Document
    decreases ts, 0
  {
    if ts == [] then []
    else
      var first := Numbered(ts[0], parent, base);
      first + NumberedAll(ts[1..], parent, base + |first|)
  }

  function Parse(t: Tree): Document { Numbered(t, -1, 0) }

  /** Below the top, a parent is an earlier element of the same tree. */
  lemma {:induction false} ParentsInside(t: Tree, parent: int, base: nat)
    ensures forall i :: 0 < i < |Numbered(t, parent, base)| ==> base <= Numbered(t, parent, base)[i].parent < base + i
    decreases t, 1
  {
    AllParentsInside(t.children, base, base + 1);
  }

  lemma {:induction false} AllParentsInside(ts: seq<Tree>, parent: int, base: nat)
    requires parent < base
    ensures forall i :: 0 <= i < |NumberedAll(ts, parent, base)| ==>
              NumberedAll(ts, parent, base)[i].parent == parent
                  || base <= NumberedAll(ts, parent, base)[i].parent < base + i
    decreases ts, 0
  {
    if ts != [] {
      var first := Numbered(ts[0], parent, base);
      ParentsInside(ts[0], parent, base);
      AllParentsInside(ts[1..], parent, base + |first|);
    }
  }

  /** The tree stands in the document from `x` on, and no later element has a parent in it. */
  ghost predicate Stands(doc: Document, t: Tree, x: nat) {
    && Parents(doc) && x < |doc|
    && StandsAt(doc, Numbered(t, doc[x].parent, x), x)
  }

  ghost predicate StandsAt(doc: Document, part: Document, x: nat) {
    && x + |part| <= |doc| && doc[x..x + |part|] == part
    && forall k: nat :: x + |part| <= k < |doc| ==> !(x <= doc[k].parent < x + |part|)
  }

  /** Trees that are the rest of one element's children. */
  ghost predicate AllStand(doc: Document, ts: seq<Tree>, parent: nat, x: nat) {
    && Parents(doc) && parent < x <= |doc|
    && x + |NumberedAll(ts, parent, x)| <= |doc|
    && doc[x..x + |NumberedAll(ts, parent, x)|] == NumberedAll(ts, parent, x)
    && forall k: nat :: x + |NumberedAll(ts, parent, x)| <= k < |doc| ==>
         doc[k].parent != parent && !(x <= doc[k].parent < x + |NumberedAll(ts, parent, x)|)
  }

  lemma ChildrenStand(doc: Document, t: Tree, x: nat)
    requires Stands(doc, t, x)
    ensures AllStand(doc, t.children, x, x + 1)
    ensures doc[x].tag == t.tag && doc[x].embed == t.embed && doc[x].text == t.text && doc[x].tail == t.tail
  {
    var whole := Numbered(t, doc[x].parent, x);
    var below := NumberedAll(t.children, x, x + 1);
    assert whole[1..] == below && doc[x..x + |whole|][1..] == doc[x + 1..x + |whole|];
    assert doc[x] == doc[x..x + |whole|][0];
  }

  lemma Halves(doc: Document, first: Document, rest: Document, x: nat)
    requires x + |first| + |rest| <= |doc| && doc[x..x + |first + rest|] == first + rest
    ensures doc[x..x + |first|] == first && doc[x + |first|..x + |first| + |rest|] == rest
    ensures forall k: nat :: x <= k < x + |first| ==> doc[k] == first[k - x]
    ensures forall k: nat :: x + |first| <= k < x + |first| + |rest| ==> doc[k] == rest[k - x - |first|]
  {
    var all := first + rest;
    forall k: nat | x <= k < x + |all| ensures doc[k] == all[k - x] {
      assert doc[x..x + |all|][k - x] == doc[k];
    }
  }

  lemma {:induction false} FirstStands(doc: Document, ts: seq<Tree>, parent: nat, x: nat)
    requires AllStand(doc, ts, parent, x) && ts != []
    ensures Stands(doc, ts[0], x) && doc[x].parent == parent
    ensures AllStand(doc, ts[1..], parent, x + |Numbered(ts[0], parent, x)|)
    ensures forall k: nat :: x < k < x + |Numbered(ts[0], parent, x)| ==> doc[k].parent != parent
  {
    var first := Numbered(ts[0], parent, x);
    var rest := NumberedAll(ts[1..], parent, x + |first|);
    assert NumberedAll(ts, parent, x) == first + rest;
    Halves(doc, first, rest, x);
    AllParentsInside(ts[1..], parent, x + |first|);
    ParentsInside(ts[0], parent, x);
    forall k: nat | x + |first| <= k < |doc| ensures !(x <= doc[k].parent < x + |first|) {
      if k < x + |first| + |rest| {
        assert doc[k] == rest[k - x - |first|];
      }
    }
  }

  /** A standing tree is what the document renders there. */
  lemma StandingRenders(doc: Document, t: Tree, x: nat)
    requires Stands(doc, t, x)
    ensures Whole(doc, x) == t
    decreases t, 1
  {
    ChildrenStand(doc, t, x);
    ChildrenRender(doc, t.children, x, x + 1);
    SkipTo(doc, x, 0, x + 1);
    WholeChildren(doc, x);
    assert Whole(doc, x).children == Trees(doc, Children(doc, x), {});
  }

  /** Before `to` nothing has the parent `x`. */
  lemma {:induction false} SkipTo(doc: Document, x: nat, from: nat, to: nat)
    requires Parents(doc) && from <= to <= |doc|
    requires forall k :: from <= k < to ==> doc[k].parent != x
    ensures ChildrenFrom(doc, x, from) == ChildrenFrom(doc, x, to)
    decreases |doc| - from
  {
    if from < to {
      SkipTo(doc, x, from + 1, to);
    }
  }

  /** A child, and then nothing of the same parent until `next`. */
  lemma {:induction false} ChildThenSkip(doc: Document, x: nat, child: nat, next: nat)
    requires Parents(doc) && child < next <= |doc| && doc[child].parent == x
    requires forall k :: child < k < next ==> doc[k].parent != x
    ensures ChildrenFrom(doc, x, child) == [child] + ChildrenFrom(doc, x, next)
  {
    SkipTo(doc, x, child + 1, next);
  }

  lemma TreesOfMore(doc: Document, c: nat, cs: seq<nat>, ts: seq<Tree>)
    requires Parents(doc) && c < |doc| && (forall d :: d in cs ==> d < |doc|) && Trees(doc, cs, {}) == ts
    ensures Trees(doc, [c] + cs, {}) == [Whole(doc, c)] + ts
  {
  }

  /** Where the trees after the first one stand. */
  function After(ts: seq<Tree>, parent: int, x: nat): nat
    requires ts != []
  {
    x + |Numbered(ts[0], parent, x)|
  }

  lemma {:induction false} ListGrows(doc: Document, ts: seq<Tree>, parent: nat, x: nat)
    requires AllStand(doc, ts, parent, x) && ts != []
    ensures Stands(doc, ts[0], x) && AllStand(doc, ts[1..], parent, After(ts, parent, x))
    ensures ChildrenFrom(doc, parent, x) == [x] + ChildrenFrom(doc, parent, After(ts, parent, x))
  {
    FirstStands(doc, ts, parent, x);
    ChildThenSkip(doc, parent, x, After(ts, parent, x));
  }

  ghost predicate RenderAs(doc: Document, cs: seq<nat>, ts: seq<Tree>) {
    Parents(doc) && (forall c :: c in cs ==> c < |doc|) && Trees(doc, cs, {}) == ts
  }

  lemma RenderMore(doc: Document, c: nat, cs: seq<nat>, ts: seq<Tree>)
    requires ts != [] && c < |doc| && RenderAs(doc, cs, ts[1..]) && Whole(doc, c) == ts[0]
    ensures RenderAs(doc, [c] + cs, ts)
  {
    TreesOfMore(doc, c, cs, ts[1..]);
    assert ts == [ts[0]] + ts[1..];
  }

  lemma {:induction false} ChildrenRender(doc: Document, ts: seq<Tree>, parent: nat, x: nat)
    requires AllStand(doc, ts, parent, x)
    ensures RenderAs(doc, ChildrenFrom(doc, parent, x), ts)
    decreases ts, 0
  {
    if ts == [] {
      SkipTo(doc, parent, x, |doc|);
    } else {
      ListGrows(doc, ts, parent, x);
      StandingRenders(doc, ts[0], x);
      ChildrenRender(doc, ts[1..], parent, After(ts, parent, x));
      RenderMore(doc, x, ChildrenFrom(doc, parent, After(ts, parent, x)), ts);
    }
  }

  // Document order

  ghost predicate OrderFrom(doc: Document, p: nat)
    requires Parents(doc)
  {
    forall m: nat, k: nat :: p <= m <= k < |doc| && Under(doc, p, k) ==> Under(doc, p, m)
  }

  lemma {:induction false} InsideIsUnder(doc: Document, x: nat, n: nat, m: nat)
    requires Parents(doc) && x + n <= |doc| && x <= m < x + n
    requires forall k :: x < k < x + n ==> x <= doc[k].parent
    ensures Under(doc, x, m)
    decreases m
  {
    if m != x {
      InsideIsUnder(doc, x, n, doc[m].parent);
    }
  }

  lemma {:induction false} OutsideIsNotUnder(doc: Document, x: nat, n: nat, k: nat)
    requires Parents(doc) && n > 0 && x + n <= k < |doc|
    requires forall i: nat :: x + n <= i < |doc| ==> !(x <= doc[i].parent < x + n)
    ensures !Under(doc, x, k)
    decreases k
  {
    if doc[k].parent >= x + n {
      OutsideIsNotUnder(doc, x, n, doc[k].parent);
    }
  }

  lemma {:induction false} StandingInOrder(doc: Document, t: Tree, x: nat)
    requires Stands(doc, t, x)
    ensures forall p: nat :: x <= p < x + |Numbered(t, doc[x].parent, x)| ==> OrderFrom(doc, p)
    decreases t, 1
  {
    var n := |Numbered(t, doc[x].parent, x)|;
    ParentsInside(t, doc[x].parent, x);
    forall k | x < k < x + n ensures x <= doc[k].parent {
      assert doc[k] == doc[x..x + n][k - x];
    }
    forall m: nat, k: nat | x <= m <= k < |doc| && Under(doc, x, k) ensures Under(doc, x, m) {
      if k >= x + n { OutsideIsNotUnder(doc, x, n, k); }
      InsideIsUnder(doc, x, n, m);
    }
    ChildrenStand(doc, t, x);
    AllInOrder(doc, t.children, x, x + 1);
  }

  lemma {:induction false} AllInOrder(doc: Document, ts: seq<Tree>, parent: nat, x: nat)
    requires AllStand(doc, ts, parent, x)
    ensures forall p: nat :: x <= p < x + |NumberedAll(ts, parent, x)| ==> OrderFrom(doc, p)
    decreases ts, 0
  {
    if ts != [] {
      FirstStands(doc, ts, parent, x);
      StandingInOrder(doc, ts[0], x);
      AllInOrder(doc, ts[1..], parent, x + |Numbered(ts[0], parent, x)|);
    }
  }

  /** Every tree parses into a document in document order that renders back to the tree. */
  lemma ParseFits(t: Tree)
    ensures Parsed(Parse(t)) && Whole(Parse(t), 0) == t
  {
    var doc := Parse(t);
    ParentsInside(t, -1, 0);
    assert doc[0..|doc|] == doc;
    assert Stands(doc, t, 0);
    StandingRenders(doc, t, 0);
    StandingInOrder(doc, t, 0);
    forall p: nat, m: nat, k: nat | p <= m <= k < |doc| && Under(doc, p, k) ensures Under(doc, p, m) {
      assert OrderFrom(doc, p);
    }
  }

  /** The repair of a document: parse, remove, serialize. */
  method Repair(t: Tree, ids: set<string>) returns (r: Result<(Tree, nat), RepairError>)
    ensures r.Success? ==> r.value.0 == Repaired(t, ids) && !AnyBroken(r.value.0, ids)
    ensures r.Success? ==> Repaired(r.value.0, ids) == r.value.0
    ensures Parsed(Parse(t))
    ensures r.Success? ==> r.value.1 == |Order(Parse(t), ids, |Parse(t)|)|
    ensures r.Success? <==>
              AllInDrawings(Parse(t), ids, |Parse(t)|) && BrokenCount(Parse(t), ids, |Parse(t)|) == |ids|
                  && !Doomed(t, ids)
  {
    ParseFits(t);
    var doc := Parse(t);
    r := RemoveBrokenDrawings(doc, ids);
    if r.Success? {
      RepairIsComplete(doc, ids);
    }
  }

  /** What the caller makes of it: one drawing for every broken relationship, or nothing. */
  method ApplyDrawings(t: Tree, ids: set<string>) returns (r: Result<Tree, RepairError>)
    ensures Parsed(Parse(t))
    ensures r.Success? <==>
              && AllInDrawings(Parse(t), ids, |Parse(t)|) && BrokenCount(Parse(t), ids, |Parse(t)|) == |ids|
              && OneEach(Parse(t), ids, |Parse(t)|) && !Doomed(t, ids)
    ensures r.Success? ==> r.value == Repaired(t, ids) && !AnyBroken(r.value, ids)
  {
    var repaired := Repair(t, ids);
    if repaired.Failure? {
      return Failure(repaired.error);
    }
    OrderCounts(Parse(t), ids, |Parse(t)|);
    if repaired.value.1 != |ids| {
      return Failure(RemovedCountMismatch);
    }
    return Success(repaired.value.0);
  }
}
