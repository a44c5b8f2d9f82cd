/** The repair as the server performs it: elements in document order, each knowing its parent, children removed in
    place. */
module DocumentSurgery {
  import opened Results
  import opened DocumentRepair

  /** A parsed element; `parent` is -1 for the root.  Elements are numbered in document order. */
  datatype Node = Node(tag: Tag, embed: Option<string>, text: string, tail: string, parent: int)

  type Document = seq<Node>

  datatype RepairError = ReferenceHasNoDrawing | DrawingCountMismatch | DrawingParentMissing | RemovedCountMismatch

  /** `k` is the element `p` or lies below it. */
  predicate Under(doc: Document, p: nat, k: int)
    requires Parents(doc) && k < |doc|
    decreases k
  {
    k == p || (k > p && Under(doc, p, doc[k].parent))
  }

  ghost predicate Parents(doc: Document) {
    && doc != [] && doc[0].parent == -1
    && forall i {:trigger doc[i]} :: 0 < i < |doc| ==> 0 <= doc[i].parent < i
  }

  /** Elements below one element stand together. */
  ghost predicate DocumentOrder(doc: Document)
    requires Parents(doc)
  {
    forall p: nat, m: nat, k: nat :: p <= m <= k < |doc| && Under(doc, p, k) ==> Under(doc, p, m)
  }

  ghost predicate Parsed(doc: Document) {
    Parents(doc) && DocumentOrder(doc)
  }

  // The document as a tree, without the removed elements

  function ChildrenFrom(doc: Document, x: nat, from: nat): (cs: seq<nat>)
    requires from <= |doc|
    ensures forall c :: c in cs <==> from <= c < |doc| && doc[c].parent == x
    ensures forall i, j :: 0 <= i < j < |cs| ==> cs[i] < cs[j]
    decreases |doc| - from
  {
    if from == |doc| then []
    else if doc[from].parent == x then
      var rest := ChildrenFrom(doc, x, from + 1);
      assert forall j :: 0 <= j < |rest| ==> rest[j] in rest;
      [from] + rest
    else ChildrenFrom(doc, x, from + 1)
  }

  /** An element's children in document order. */
  function Children(doc: Document, x: nat): seq<nat> { ChildrenFrom(doc, x, 0) }

  function Keep(cs: seq<nat>, removed: set<nat>): (kept: seq<nat>)
    ensures forall c :: c in kept <==> c in cs && c !in removed
  {
    if cs == [] then []
    else if cs[0] in removed then Keep(cs[1..], removed)
    else [cs[0]] + Keep(cs[1..], removed)
  }

  function Rendered(doc: Document, x: nat, removed: set<nat>): Tree
    requires Parents(doc) && x < |doc|
    decreases |doc| - x
  {
    var cs := Keep(Children(doc, x), removed);
    Element(doc[x].tag, doc[x].embed, doc[x].text, doc[x].tail,
            seq(|cs|, i requires 0 <= i < |cs| => assert cs[i] in cs; Rendered(doc, cs[i], removed)))
  }

  function Whole(doc: Document, x: nat): Tree
    requires Parents(doc) && x < |doc|
  {
    Rendered(doc, x, {})
  }

  lemma {:induction false} KeepAll(cs: seq<nat>)
    ensures Keep(cs, {}) == cs
  {
    if cs != [] {
      KeepAll(cs[1..]);
    }
  }

  /** What the filter takes out, by number. */
  predicate Gone(doc: Document, ids: set<string>, x: nat)
    requires Parents(doc) && x < |doc|
  {
    Doomed(Whole(doc, x), ids) || Emptied(Whole(doc, x), ids)
  }

  function Trees(doc: Document, cs: seq<nat>, removed: set<nat>): seq<Tree>
    requires Parents(doc) && forall c :: c in cs ==> c < |doc|
  {
    seq(|cs|, i requires 0 <= i < |cs| => assert cs[i] in cs; Rendered(doc, cs[i], removed))
  }

  ghost predicate Exactly(doc: Document, ids: set<string>, removed: set<nat>)
    requires Parents(doc)
  {
    forall c: nat :: 0 < c < |doc| ==> (c in removed <==> Gone(doc, ids, c))
  }

  /** Removing exactly what the filter takes out renders the filtered tree. */
  lemma {:induction false} RendersRepaired(doc: Document, ids: set<string>, x: nat, removed: set<nat>)
    requires Parents(doc) && x < |doc| && Exactly(doc, ids, removed)
    ensures Rendered(doc, x, removed) == Repaired(Whole(doc, x), ids)
    decreases |doc| - x, 1, 0
  {
    var cs := Children(doc, x);
    KeepAll(cs);
    ChildrenRenderRepaired(doc, ids, x, cs, removed);
    assert Whole(doc, x).children == Trees(doc, cs, {});
    assert Rendered(doc, x, removed).children == Trees(doc, Keep(cs, removed), removed);
  }

  lemma {:induction false} ChildrenRenderRepaired(doc: Document, ids: set<string>, x: nat, cs: seq<nat>,
                                                  removed: set<nat>)
    requires Parents(doc) && x < |doc| && Exactly(doc, ids, removed)
    requires forall c :: c in cs ==> x < c < |doc|
    ensures Trees(doc, Keep(cs, removed), removed) == RepairedAll(Trees(doc, cs, {}), ids)
    decreases |doc| - x, 0, |cs|
  {
    if cs != [] {
      assert cs[0] in cs && forall c :: c in cs[1..] ==> c in cs;
      ChildrenRenderRepaired(doc, ids, x, cs[1..], removed);
      TreesSplit(doc, cs, {});
      if cs[0] !in removed {
        RendersRepaired(doc, ids, cs[0], removed);
        TreesSplit(doc, Keep(cs, removed), removed);
      }
    }
  }

  lemma {:induction false} TreesSplit(doc: Document, cs: seq<nat>, removed: set<nat>)
    requires Parents(doc) && (forall c :: c in cs ==> c < |doc|) && cs != []
    ensures cs[0] in cs && forall c :: c in cs[1..] ==> c < |doc|
    ensures Trees(doc, cs, removed)[0] == Rendered(doc, cs[0], removed)
    ensures Trees(doc, cs, removed)[1..] == Trees(doc, cs[1..], removed)
  {
    assert forall c :: c in cs[1..] ==> c in cs;
  }

  // Climbing to the nearest drawing

  predicate Broken(doc: Document, ids: set<string>, b: nat)
    requires b < |doc|
  {
    doc[b].tag == Blip && doc[b].embed.Some? && doc[b].embed.value in ids
  }

  /** Up the parent map to the first drawing, or to the root. */
  function Climb(doc: Document, i: nat): (r: nat)
    requires Parents(doc) && i < |doc|
    ensures r <= i
  {
    if i == 0 || doc[i].tag == Drawing then i else Climb(doc, doc[i].parent)
  }

  lemma {:induction false} ClimbStaysAbove(doc: Document, i: nat)
    requires Parents(doc) && i < |doc|
    ensures Under(doc, Climb(doc, i), i)
    decreases i
  {
    if i != 0 && doc[i].tag != Drawing {
      ClimbStaysAbove(doc, doc[i].parent);
    }
  }

  /** From `b` up to `x` without passing a drawing on the way. */
  predicate Open(doc: Document, b: int, x: nat)
    requires Parents(doc) && b < |doc|
    decreases b
  {
    b == x || (b > x && doc[b].tag != Drawing && Open(doc, doc[b].parent, x))
  }

  lemma {:induction false} OpenIsClimb(doc: Document, b: nat, x: nat)
    requires Parents(doc) && b < |doc| && x < |doc| && doc[x].tag == Drawing
    ensures Open(doc, b, x) <==> Climb(doc, b) == x
    decreases b
  {
    if b > x && doc[b].tag != Drawing {
      OpenIsClimb(doc, doc[b].parent, x);
    }
  }

  lemma {:induction false} OpenThroughChild(doc: Document, b: nat, c: nat, x: nat)
    requires Parents(doc) && b < |doc| && c < |doc| && doc[c].parent == x && doc[c].tag != Drawing && Open(doc, b, c)
    ensures Open(doc, b, x)
    decreases b
  {
    if b != c {
      OpenThroughChild(doc, doc[b].parent, c, x);
    }
  }

  lemma ChildOnTheWay(doc: Document, b: nat, x: nat) returns (c: nat)
    requires Parents(doc) && b < |doc| && b != x && Open(doc, b, x)
    ensures c < |doc| && doc[c].parent == x && doc[c].tag != Drawing && Open(doc, b, c)
    decreases b
  {
    if doc[b].parent == x {
      c := b;
    } else {
      c := ChildOnTheWay(doc, doc[b].parent, x);
    }
  }

  /** The whole tree of an element has the whole trees of its children below it. */
  lemma WholeChildren(doc: Document, x: nat)
    requires Parents(doc) && x < |doc|
    ensures |Whole(doc, x).children| == |Children(doc, x)|
    ensures forall i :: 0 <= i < |Children(doc, x)| ==>
              x < Children(doc, x)[i] < |doc| && doc[Children(doc, x)[i]].parent == x
              && Whole(doc, x).children[i] == Whole(doc, Children(doc, x)[i])
  {
    var cs := Children(doc, x);
    KeepAll(cs);
    forall i | 0 <= i < |cs| ensures x < cs[i] < |doc| && doc[cs[i]].parent == x {
      assert cs[i] in cs;
    }
  }

  ghost predicate OpenFromBroken(doc: Document, ids: set<string>, x: nat)
    requires Parents(doc)
  {
    exists b: nat :: b < |doc| && Broken(doc, ids, b) && Open(doc, b, x)
  }

  lemma {:induction false} ReachesByClimbing(doc: Document, ids: set<string>, x: nat)
    requires Parents(doc) && x < |doc|
    ensures Reaches(Whole(doc, x), ids) <==> OpenFromBroken(doc, ids, x)
    decreases |doc| - x
  {
    var cs, t := Children(doc, x), Whole(doc, x);
    WholeChildren(doc, x);
    forall i | 0 <= i < |cs| ensures Reaches(t.children[i], ids) <==> OpenFromBroken(doc, ids, cs[i]) {
      ReachesByClimbing(doc, ids, cs[i]);
    }
    if BrokenBlip(t, ids) {
      assert Broken(doc, ids, x) && Open(doc, x, x);
    } else {
      if Reaches(t, ids) {
        var i :| 0 <= i < |t.children| && t.children[i].tag != Drawing && Reaches(t.children[i], ids);
        var b: nat :| b < |doc| && Broken(doc, ids, b) && Open(doc, b, cs[i]);
        OpenThroughChild(doc, b, cs[i], x);
      }
      if OpenFromBroken(doc, ids, x) {
        var b: nat :| b < |doc| && Broken(doc, ids, b) && Open(doc, b, x);
        var c := ChildOnTheWay(doc, b, x);
        assert c in cs;
        var i :| 0 <= i < |cs| && cs[i] == c;
        assert OpenFromBroken(doc, ids, cs[i]);
        assert t.children[i].tag != Drawing && Reaches(t.children[i], ids);
      }
    }
  }

  /** Met before position `n`: the drawings the first broken images climb to. */
  ghost predicate Met(doc: Document, ids: set<string>, n: nat, d: nat)
    requires Parents(doc) && n <= |doc|
  {
    exists b: nat :: b < n && Broken(doc, ids, b) && Climb(doc, b) == d
  }

  lemma DoomedByClimbing(doc: Document, ids: set<string>, d: nat)
    requires Parents(doc) && d < |doc|
    ensures Doomed(Whole(doc, d), ids) <==> doc[d].tag == Drawing && Met(doc, ids, |doc|, d)
  {
    ReachesByClimbing(doc, ids, d);
    if doc[d].tag == Drawing {
      forall b: nat | b < |doc| ensures Open(doc, b, d) <==> Climb(doc, b) == d {
        OpenIsClimb(doc, b, d);
      }
    }
  }

  // The order in which the drawings go

  /** The drawings to remove, each at its first broken image. */
  function Order(doc: Document, ids: set<string>, n: nat): seq<nat>
    requires Parents(doc) && n <= |doc|
  {
    if n == 0 then []
    else if Broken(doc, ids, n - 1) && Climb(doc, n - 1) !in Order(doc, ids, n - 1) then
      Order(doc, ids, n - 1) + [Climb(doc, n - 1)]
    else Order(doc, ids, n - 1)
  }

  lemma {:induction false} OrderIsMet(doc: Document, ids: set<string>, n: nat, d: nat)
    requires Parents(doc) && n <= |doc|
    ensures d in Order(doc, ids, n) <==> Met(doc, ids, n, d)
  {
    if n > 0 {
      OrderIsMet(doc, ids, n - 1, d);
      if Met(doc, ids, n, d) && !Met(doc, ids, n - 1, d) {
        assert Broken(doc, ids, n - 1) && Climb(doc, n - 1) == d;
      }
    }
  }

  /** The `k`-th drawing goes at some broken image `b` below it, after exactly the drawings met before `b`. */
  lemma OrderAt(doc: Document, ids: set<string>, n: nat, k: nat) returns (b: nat)
    requires Parents(doc) && n <= |doc| && k < |Order(doc, ids, n)|
    ensures b < n && Broken(doc, ids, b) && Climb(doc, b) == Order(doc, ids, n)[k]
    ensures Order(doc, ids, n)[..k] == Order(doc, ids, b)
    ensures Order(doc, ids, n)[k] !in Order(doc, ids, n)[..k]
  {
    if k < |Order(doc, ids, n - 1)| {
      b := OrderAt(doc, ids, n - 1, k);
      assert Order(doc, ids, n)[..k] == Order(doc, ids, n - 1)[..k];
    } else {
      b := n - 1;
      assert Order(doc, ids, n)[..k] == Order(doc, ids, n - 1);
    }
  }

  /** Whatever lies below an earlier sibling comes before whatever lies below a later one. */
  lemma {:induction false} SiblingsApart(doc: Document, c: nat, d: nat, b: nat)
    requires Parsed(doc) && c < d < |doc| && doc[c].parent == doc[d].parent && b < |doc| && Under(doc, c, b)
    ensures b < d
  {
    if b >= d {
      assert Under(doc, c, d);
      NotUnderParent(doc, c);
      assert false;
    }
  }

  lemma {:induction false} NotUnderParent(doc: Document, c: nat)
    requires Parents(doc) && c < |doc|
    ensures !Under(doc, c, doc[c].parent)
  {
  }

  lemma {:induction false} UnderThrough(doc: Document, p: nat, c: nat, k: nat)
    requires Parents(doc) && p < |doc| && c < |doc| && k < |doc| && doc[c].parent == p && Under(doc, c, k)
    ensures Under(doc, p, k)
    decreases k
  {
    if k != c {
      UnderThrough(doc, p, c, doc[k].parent);
    }
  }

  // The runs that go with them

  /** `j` is the last doomed child of a run that empties. */
  predicate Empties(doc: Document, ids: set<string>, r: nat, j: nat)
    requires Parents(doc) && r < |doc| && j < |doc|
  {
    && doc[r].tag == Run && doc[j].parent == r && Doomed(Whole(doc, j), ids)
    && (forall c: nat :: c < j && doc[c].parent == r ==> doc[c].tag == RunProperties || Gone(doc, ids, c))
    && (forall c: nat :: j < c < |doc| && doc[c].parent == r ==> doc[c].tag == RunProperties)
  }

  lemma {:induction false} ChildOfEmptied(doc: Document, ids: set<string>, r: nat, i: nat, c: nat)
    requires Parents(doc) && r < |doc| && c < |doc| && doc[c].parent == r
    requires i < |Whole(doc, r).children| && EmptiesWith(Whole(doc, r), i, ids) && i < |Children(doc, r)|
    ensures c < Children(doc, r)[i] ==> doc[c].tag == RunProperties || Gone(doc, ids, c)
    ensures c > Children(doc, r)[i] ==> doc[c].tag == RunProperties
  {
    hide Doomed, Emptied, ChildrenFrom;
    var cs, t := Children(doc, r), Whole(doc, r);
    WholeChildren(doc, r);
    assert c in cs;
    var k :| 0 <= k < |cs| && cs[k] == c;
    assert t.children[k] == Whole(doc, c);
  }

  lemma {:induction false} EmptiesFromTree(doc: Document, ids: set<string>, r: nat, i: nat)
    requires Parents(doc) && r < |doc| && doc[r].tag == Run
    requires i < |Whole(doc, r).children| && EmptiesWith(Whole(doc, r), i, ids)
    ensures i < |Children(doc, r)| && Children(doc, r)[i] < |doc| && Empties(doc, ids, r, Children(doc, r)[i])
  {
    hide Doomed, Gone, Children;
    WholeChildren(doc, r);
    forall c: nat | c < |doc| && doc[c].parent == r
      ensures c < Children(doc, r)[i] ==> doc[c].tag == RunProperties || Gone(doc, ids, c)
      ensures c > Children(doc, r)[i] ==> doc[c].tag == RunProperties
    {
      ChildOfEmptied(doc, ids, r, i, c);
    }
  }

  lemma {:induction false} EmptiesInTree(doc: Document, ids: set<string>, r: nat, j: nat)
    requires Parents(doc) && r < |doc| && j < |doc| && Empties(doc, ids, r, j)
    ensures exists i :: 0 <= i < |Whole(doc, r).children| && EmptiesWith(Whole(doc, r), i, ids)
  {
    var cs, t := Children(doc, r), Whole(doc, r);
    WholeChildren(doc, r);
    assert j in cs;
    var i :| 0 <= i < |cs| && cs[i] == j;
    forall k | 0 <= k < |cs|
      ensures k < i ==> t.children[k].tag == RunProperties || Doomed(t.children[k], ids) || Emptied(t.children[k], ids)
      ensures k > i ==> t.children[k].tag == RunProperties
    {
      assert t.children[k] == Whole(doc, cs[k]);
    }
    assert EmptiesWith(t, i, ids);
  }

  lemma {:induction false} EmptiesIsEmptied(doc: Document, ids: set<string>, r: nat)
    requires Parents(doc) && r < |doc|
    ensures Emptied(Whole(doc, r), ids) <==> exists j: nat :: j < |doc| && Empties(doc, ids, r, j)
  {
    if Emptied(Whole(doc, r), ids) {
      EmptiedWithSome(Whole(doc, r), ids);
      var i :| 0 <= i < |Whole(doc, r).children| && EmptiesWith(Whole(doc, r), i, ids);
      EmptiesFromTree(doc, ids, r, i);
    }
    if j: nat :| j < |doc| && Empties(doc, ids, r, j) {
      EmptiesInTree(doc, ids, r, j);
    }
  }

  /** The last doomed child of a run is one. */
  lemma EmptiesOnce(doc: Document, ids: set<string>, r: nat, j: nat, k: nat)
    requires Parents(doc) && r < |doc| && j < |doc| && k < |doc| && Empties(doc, ids, r, j) && Empties(doc, ids, r, k)
    ensures j == k
  {
  }

  /** Every broken image lies in a drawing. */
  ghost predicate AllInDrawings(doc: Document, ids: set<string>, n: nat)
    requires Parents(doc) && n <= |doc|
  {
    forall b: nat :: b < n && Broken(doc, ids, b) ==> doc[Climb(doc, b)].tag == Drawing
  }

  /** What is removed when the drawings met before `b` have gone: they, and the runs whose last doomed child is among
      them. */
  ghost predicate RemovedBy(doc: Document, ids: set<string>, b: nat, removed: set<nat>)
    requires Parents(doc) && b <= |doc|
  {
    forall x: nat :: x < |doc| ==>
      (x in removed <==> Met(doc, ids, b, x) || (x > 0 && EmptiesBefore(doc, ids, b, x)))
  }

  ghost predicate EmptiesBefore(doc: Document, ids: set<string>, b: nat, x: nat)
    requires Parents(doc) && b <= |doc| && x < |doc|
  {
    exists j: nat :: j < |doc| && Met(doc, ids, b, j) && Empties(doc, ids, x, j)
  }

  /** The situation in which drawing `d` goes. */
  ghost predicate Going(doc: Document, ids: set<string>, b: nat, d: nat, removed: set<nat>) {
    && Parsed(doc) && b < |doc| && d < |doc|
    && AllInDrawings(doc, ids, |doc|)
    && Broken(doc, ids, b) && Climb(doc, b) == d && !Met(doc, ids, b, d)
    && RemovedBy(doc, ids, b, removed)
  }

  lemma EarlierSiblingGone(doc: Document, ids: set<string>, b: nat, d: nat, removed: set<nat>,
                                              c: nat)
    requires Going(doc, ids, b, d, removed) && c < d && doc[c].parent == doc[d].parent && Gone(doc, ids, c)
    ensures c in removed
  {
    DoomedByClimbing(doc, ids, c);
    EmptiesIsEmptied(doc, ids, c);
    if Doomed(Whole(doc, c), ids) {
      MetBelow(doc, ids, b, d, c, c);
    } else {
      var j: nat :| j < |doc| && Empties(doc, ids, c, j);
      DoomedByClimbing(doc, ids, j);
      MetBelow(doc, ids, b, d, c, j);
      assert EmptiesBefore(doc, ids, b, c);
    }
  }

  /** A drawing at or right below an earlier sibling is met before `b`. */
  lemma {:induction false} MetBelow(doc: Document, ids: set<string>, b: nat, d: nat, c: nat, j: nat)
    requires Parsed(doc) && b < |doc| && Climb(doc, b) == d && c < d && doc[c].parent == doc[d].parent
    requires j < |doc| && (j == c || doc[j].parent == c) && Met(doc, ids, |doc|, j)
    ensures Met(doc, ids, b, j)
  {
    var e: nat :| e < |doc| && Broken(doc, ids, e) && Climb(doc, e) == j;
    ClimbStaysAbove(doc, e);
    if j != c {
      UnderThrough(doc, c, j, e);
    }
    SiblingsApart(doc, c, d, e);
  }

  lemma LaterSiblingStays(doc: Document, ids: set<string>, b: nat, d: nat, removed: set<nat>, c: nat)
    requires Going(doc, ids, b, d, removed) && d < c < |doc| && doc[c].parent == doc[d].parent
    ensures c !in removed
  {
    ClimbStaysAbove(doc, b);
    SiblingsApart(doc, d, c, b);
  }

  /** The test the code makes after removing a drawing from a run: only properties are left exactly when the run
      empties with this drawing. */
  lemma OnlyPropertiesLeft(doc: Document, ids: set<string>, b: nat, d: nat, removed: set<nat>,
                                              r: nat)
    requires Going(doc, ids, b, d, removed) && doc[d].parent == r && r < |doc| && doc[r].tag == Run
    ensures (forall c: nat :: c < |doc| && doc[c].parent == r && c !in removed && c != d ==>
              doc[c].tag == RunProperties)
            <==> Empties(doc, ids, r, d)
  {
    DoomedByClimbing(doc, ids, d);
    assert Met(doc, ids, |doc|, d);
    forall c: nat | c < |doc| && doc[c].parent == r
      ensures c < d && Gone(doc, ids, c) ==> c in removed
      ensures c > d ==> c !in removed
      ensures c in removed ==> Gone(doc, ids, c)
    {
      if c < d && Gone(doc, ids, c) { EarlierSiblingGone(doc, ids, b, d, removed, c); }
      if c > d { LaterSiblingStays(doc, ids, b, d, removed, c); }
      if c in removed { RemovedIsGone(doc, ids, b, removed, c); }
    }
  }

  lemma RemovedIsGone(doc: Document, ids: set<string>, b: nat, removed: set<nat>, c: nat)
    requires Parents(doc) && b <= |doc| && c < |doc| && AllInDrawings(doc, ids, |doc|)
    requires RemovedBy(doc, ids, b, removed) && c in removed
    ensures Gone(doc, ids, c)
  {
    DoomedByClimbing(doc, ids, c);
    EmptiesIsEmptied(doc, ids, c);
    if Met(doc, ids, b, c) {
      assert Met(doc, ids, |doc|, c);
    }
  }

  /** What goes with drawing `d`. */
  ghost function With(doc: Document, ids: set<string>, d: nat): set<nat>
    requires Parents(doc) && d < |doc|
  {
    if doc[d].parent > 0 && Empties(doc, ids, doc[d].parent, d) then {d, doc[d].parent as nat} else {d}
  }

  lemma RemovedStep(doc: Document, ids: set<string>, b: nat, d: nat, removed: set<nat>)
    requires Going(doc, ids, b, d, removed)
    ensures RemovedBy(doc, ids, b + 1, removed + With(doc, ids, d))
  {
    forall x: nat ensures Met(doc, ids, b + 1, x) <==> x == d || Met(doc, ids, b, x) {
      if Met(doc, ids, b + 1, x) {
        var e: nat :| e < b + 1 && Broken(doc, ids, e) && Climb(doc, e) == x;
      }
    }
    forall x: nat | x < |doc|
      ensures EmptiesBefore(doc, ids, b + 1, x) <==> EmptiesBefore(doc, ids, b, x) || Empties(doc, ids, x, d)
    {
    }
  }

  lemma GoneIsRemoved(doc: Document, ids: set<string>, removed: set<nat>, c: nat)
    requires Parents(doc) && RemovedBy(doc, ids, |doc|, removed) && 0 < c < |doc| && Gone(doc, ids, c)
    ensures c in removed
  {
    DoomedByClimbing(doc, ids, c);
    EmptiesIsEmptied(doc, ids, c);
    if Emptied(Whole(doc, c), ids) {
      var j: nat :| j < |doc| && Empties(doc, ids, c, j);
      DoomedByClimbing(doc, ids, j);
      assert EmptiesBefore(doc, ids, |doc|, c);
    }
  }

  lemma RemovedInTheEnd(doc: Document, ids: set<string>, removed: set<nat>)
    requires Parents(doc) && AllInDrawings(doc, ids, |doc|) && RemovedBy(doc, ids, |doc|, removed)
    ensures Exactly(doc, ids, removed)
  {
    forall c: nat | 0 < c < |doc| ensures c in removed <==> Gone(doc, ids, c) {
      if c in removed { RemovedIsGone(doc, ids, |doc|, removed, c); }
      if Gone(doc, ids, c) { GoneIsRemoved(doc, ids, removed, c); }
    }
  }

  // The surgery

  function RemoveFirst(cs: seq<nat>, d: nat): seq<nat> {
    if cs == [] then [] else if cs[0] == d then cs[1..] else [cs[0]] + RemoveFirst(cs[1..], d)
  }

  lemma {:induction false} RemovingKeeps(cs: seq<nat>, removed: set<nat>, d: nat)
    requires forall i, j :: 0 <= i < j < |cs| ==> cs[i] < cs[j]
    requires d !in removed
    ensures Keep(cs, removed + {d}) == if d in cs then RemoveFirst(Keep(cs, removed), d) else Keep(cs, removed)
  {
    if cs != [] {
      RemovingKeeps(cs[1..], removed, d);
      if cs[0] == d {
        assert d !in cs[1..];
      }
    }
  }

  /** The live child lists: what the parsed document had, without the removed elements. */
  ghost predicate Live(doc: Document, kids: seq<seq<nat>>, removed: set<nat>) {
    |kids| == |doc| && forall x :: 0 <= x < |doc| ==> kids[x] == Keep(Children(doc, x), removed)
  }

  lemma {:induction false} DetachKeeps(doc: Document, kids: seq<seq<nat>>, removed: set<nat>, d: nat)
    requires Parents(doc) && 0 < d < |doc| && Live(doc, kids, removed) && d !in removed
    ensures Live(doc, kids[doc[d].parent := RemoveFirst(kids[doc[d].parent], d)], removed + {d})
  {
    forall x: nat | x < |doc|
      ensures Keep(Children(doc, x), removed + {d})
           == if x == doc[d].parent then RemoveFirst(kids[x], d) else kids[x]
    {
      RemovingKeeps(Children(doc, x), removed, d);
    }
  }

  predicate OnlyProperties(doc: Document, cs: seq<nat>) {
    forall c :: c in cs ==> c < |doc| && doc[c].tag == RunProperties
  }

  lemma NotYetRemoved(doc: Document, ids: set<string>, b: nat, d: nat, removed: set<nat>, r: nat)
    requires Going(doc, ids, b, d, removed)
    ensures d !in removed
    ensures r < |doc| && Empties(doc, ids, r, d) ==> r !in removed
  {
    if r < |doc| && Empties(doc, ids, r, d) && EmptiesBefore(doc, ids, b, r) {
      var j: nat :| j < |doc| && Met(doc, ids, b, j) && Empties(doc, ids, r, j);
      EmptiesOnce(doc, ids, r, j, d);
    }
  }

  /** Removing drawing `d` from its parent, and then perhaps its run, as the code does. */
  lemma {:induction false} DrawingGoes(doc: Document, ids: set<string>, b: nat, d: nat, removed: set<nat>,
                                       kids: seq<seq<nat>>)
    requires Going(doc, ids, b, d, removed) && Live(doc, kids, removed) && d > 0
    ensures Live(doc, kids[doc[d].parent := RemoveFirst(kids[doc[d].parent], d)], removed + {d})
    ensures doc[doc[d].parent].tag == Run ==>
              (OnlyProperties(doc, RemoveFirst(kids[doc[d].parent], d)) <==> Empties(doc, ids, doc[d].parent, d))
  {
    hide Reaches, Emptied, Empties, Doomed, Whole, ChildrenFrom;
    var p := doc[d].parent;
    NotYetRemoved(doc, ids, b, d, removed, p);
    DetachKeeps(doc, kids, removed, d);
    if doc[p].tag == Run {
      OnlyPropertiesLeft(doc, ids, b, d, removed, p);
      RemovingKeeps(Children(doc, p), removed, d);
      var left := Keep(Children(doc, p), removed + {d});
      assert forall c: nat :: c in left <==> c < |doc| && doc[c].parent == p && c !in removed && c != d;
    }
  }

  lemma RunGoes(doc: Document, ids: set<string>, b: nat, d: nat, removed: set<nat>,
                                   kids: seq<seq<nat>>)
    requires Going(doc, ids, b, d, removed) && d > 0 && doc[d].parent > 0 && Live(doc, kids, removed + {d})
    requires Empties(doc, ids, doc[d].parent, d)
    ensures Live(doc, kids[doc[doc[d].parent].parent := RemoveFirst(kids[doc[doc[d].parent].parent], doc[d].parent)],
                 removed + With(doc, ids, d))
  {
    var p := doc[d].parent;
    NotYetRemoved(doc, ids, b, d, removed, p);
    DetachKeeps(doc, kids, removed + {d}, p);
    assert removed + {d} + {p} == removed + With(doc, ids, d);
  }

  lemma {:induction false} SameOrderSameRemoved(doc: Document, ids: set<string>, b: nat, e: nat, removed: set<nat>)
    requires Parents(doc) && b <= |doc| && e <= |doc| && Order(doc, ids, b) == Order(doc, ids, e)
    requires RemovedBy(doc, ids, b, removed)
    ensures RemovedBy(doc, ids, e, removed)
  {
    forall x: nat ensures Met(doc, ids, b, x) <==> Met(doc, ids, e, x) {
      OrderIsMet(doc, ids, b, x);
      OrderIsMet(doc, ids, e, x);
    }
    forall x: nat | x < |doc| ensures EmptiesBefore(doc, ids, b, x) <==> EmptiesBefore(doc, ids, e, x) {
    }
  }

  /** The serialized document: the root with its live descendants. */
  function Serialized(doc: Document, kids: seq<seq<nat>>, x: nat): Tree
    requires |kids| == |doc| && x < |doc| && forall y, c :: 0 <= y < |doc| && c in kids[y] ==> y < c < |doc|
    decreases |doc| - x
  {
    Element(doc[x].tag, doc[x].embed, doc[x].text, doc[x].tail,
            seq(|kids[x]|, i requires 0 <= i < |kids[x]| =>
                  assert kids[x][i] in kids[x]; Serialized(doc, kids, kids[x][i])))
  }

  lemma {:induction false} SerializedIsRendered(doc: Document, kids: seq<seq<nat>>, removed: set<nat>, x: nat)
    requires Parents(doc) && x < |doc| && Live(doc, kids, removed)
    ensures forall y, c :: 0 <= y < |doc| && c in kids[y] ==> y < c < |doc|
    ensures Serialized(doc, kids, x) == Rendered(doc, x, removed)
    decreases |doc| - x
  {
    forall y, c | 0 <= y < |doc| && c in kids[y] ensures y < c < |doc| {
      assert c in Children(doc, y);
    }
    assert forall i :: 0 <= i < |kids[x]| ==> kids[x][i] in kids[x];
    forall i | 0 <= i < |kids[x]| ensures Serialized(doc, kids, kids[x][i]) == Rendered(doc, kids[x][i], removed) {
      SerializedIsRendered(doc, kids, removed, kids[x][i]);
    }
  }

  /** The elements of a list without repetition, each at its first place. */
  function Distinct(s: seq<nat>): seq<nat> {
    if s == [] then []
    else
      var front := Distinct(s[..|s| - 1]);
      if s[|s| - 1] in front then front else front + [s[|s| - 1]]
  }

  function BrokenCount(doc: Document, ids: set<string>, n: nat): nat
    requires n <= |doc|
  {
    if n == 0 then 0 else BrokenCount(doc, ids, n - 1) + if Broken(doc, ids, n - 1) then 1 else 0
  }

  /** The first loop: for every broken image the drawing around it. */
  method FindDrawings(doc: Document, ids: set<string>) returns (r: Result<seq<nat>, RepairError>)
    requires Parents(doc)
    ensures r.Success? <==> AllInDrawings(doc, ids, |doc|)
    ensures r.Success? ==> |r.value| == BrokenCount(doc, ids, |doc|) && Distinct(r.value) == Order(doc, ids, |doc|)
    ensures r.Failure? ==> r.error == ReferenceHasNoDrawing
  {
    var drawings: seq<nat> := [];
    for b := 0 to |doc|
      invariant AllInDrawings(doc, ids, b)
      invariant |drawings| == BrokenCount(doc, ids, b) && Distinct(drawings) == Order(doc, ids, b)
    {
      if Broken(doc, ids, b) {
        var current := b;
        while current != 0 && doc[current].tag != Drawing
          invariant 0 <= current <= b && Climb(doc, current) == Climb(doc, b)
        {
          current := doc[current].parent;
        }
        if doc[current].tag != Drawing {
          assert Broken(doc, ids, b) && doc[Climb(doc, b)].tag != Drawing;
          return Failure(ReferenceHasNoDrawing);
        }
        assert (drawings + [current])[..|drawings|] == drawings;
        drawings := drawings + [current];
      }
    }
    return Success(drawings);
  }

  /** One drawing goes, and its run when only properties are left in it. */
  method DetachDrawing(doc: Document, d: nat, kids: seq<seq<nat>>, ghost ids: set<string>, ghost b: nat,
                       ghost removed: set<nat>)
    returns (next: seq<seq<nat>>)
    requires Going(doc, ids, b, d, removed) && d > 0 && Live(doc, kids, removed)
    ensures Live(doc, next, removed + With(doc, ids, d))
  {
    DrawingGoes(doc, ids, b, d, removed, kids);
    var owner := doc[d].parent;
    next := kids[owner := RemoveFirst(kids[owner], d)];
    if doc[owner].tag == Run && OnlyProperties(doc, next[owner]) && doc[owner].parent >= 0 {
      RunGoes(doc, ids, b, d, removed, next);
      next := next[doc[owner].parent := RemoveFirst(next[doc[owner].parent], owner)];
    }
  }

  /** Where the removal stands after `k` drawings: everything met before `b` has gone. */
  ghost predicate Standing(doc: Document, ids: set<string>, k: nat, b: nat, removed: set<nat>) {
    && Parsed(doc) && AllInDrawings(doc, ids, |doc|) && b <= |doc|
    && RemovedBy(doc, ids, b, removed)
    && k <= |Order(doc, ids, |doc|)| && Order(doc, ids, b) == Order(doc, ids, |doc|)[..k]
  }

  lemma NextGoes(doc: Document, ids: set<string>, k: nat, b: nat, removed: set<nat>) returns (e: nat)
    requires Standing(doc, ids, k, b, removed) && k < |Order(doc, ids, |doc|)|
    ensures Going(doc, ids, e, Order(doc, ids, |doc|)[k], removed)
    ensures Standing(doc, ids, k + 1, e + 1, removed + With(doc, ids, Order(doc, ids, |doc|)[k]))
  {
    var drawings := Order(doc, ids, |doc|);
    e := OrderAt(doc, ids, |doc|, k);
    SameOrderSameRemoved(doc, ids, b, e, removed);
    OrderIsMet(doc, ids, e, drawings[k]);
    RemovedStep(doc, ids, e, drawings[k], removed);
    assert drawings[..k + 1] == drawings[..k] + [drawings[k]];
  }

  lemma {:induction false} AllGone(doc: Document, ids: set<string>, b: nat, removed: set<nat>, kids: seq<seq<nat>>)
    requires Parsed(doc)
    requires Standing(doc, ids, |Order(doc, ids, |doc|)|, b, removed) && Live(doc, kids, removed)
    ensures forall y, c :: 0 <= y < |doc| && c in kids[y] ==> y < c < |doc|
    ensures Serialized(doc, kids, 0) == Repaired(Whole(doc, 0), ids)
  {
    var drawings := Order(doc, ids, |doc|);
    assert drawings[..|drawings|] == drawings;
    SameOrderSameRemoved(doc, ids, b, |doc|, removed);
    RemovedInTheEnd(doc, ids, removed);
    SerializedIsRendered(doc, kids, removed, 0);
    RendersRepaired(doc, ids, 0, removed);
  }

  lemma {:induction false} RootDoomed(doc: Document, ids: set<string>)
    requires Parsed(doc) && AllInDrawings(doc, ids, |doc|)
    ensures Doomed(Whole(doc, 0), ids) <==> 0 in Order(doc, ids, |doc|)
  {
    DoomedByClimbing(doc, ids, 0);
    OrderIsMet(doc, ids, |doc|, 0);
  }

  lemma NothingGoneYet(doc: Document, ids: set<string>, kids: seq<seq<nat>>)
    requires Parsed(doc) && AllInDrawings(doc, ids, |doc|)
    requires |kids| == |doc| && forall x :: 0 <= x < |doc| ==> kids[x] == Children(doc, x)
    ensures Standing(doc, ids, 0, 0, {}) && Live(doc, kids, {})
  {
    assert Order(doc, ids, |doc|)[..0] == [];
    forall x | 0 <= x < |doc| ensures kids[x] == Keep(Children(doc, x), {}) {
      KeepAll(Children(doc, x));
    }
  }

  ghost predicate Reached(doc: Document, ids: set<string>, kids: seq<seq<nat>>, k: nat) {
    exists b: nat, removed: set<nat> :: Standing(doc, ids, k, b, removed) && Live(doc, kids, removed)
  }

  /** One round of the second loop; the root has no parent to be removed from. */
  method DetachNext(doc: Document, drawings: seq<nat>, k: nat, kids: seq<seq<nat>>, ghost ids: set<string>)
    returns (next: seq<seq<nat>>, ok: bool)
    requires Parsed(doc) && drawings == Order(doc, ids, |doc|) && k < |drawings| && Reached(doc, ids, kids, k)
    ensures ok <==> drawings[k] != 0
    ensures ok ==> Reached(doc, ids, next, k + 1)
  {
    ghost var b: nat, removed: set<nat> :| Standing(doc, ids, k, b, removed) && Live(doc, kids, removed);
    var d := drawings[k];
    ghost var e := NextGoes(doc, ids, k, b, removed);
    if doc[d].parent < 0 {
      return kids, false;
    }
    next := DetachDrawing(doc, d, kids, ids, e, removed);
    ok := true;
    assert Standing(doc, ids, k + 1, e + 1, removed + With(doc, ids, d));
  }

  /** The second loop: the drawings go one by one. */
  method DetachAll(doc: Document, drawings: seq<nat>, ghost ids: set<string>) returns (kids: seq<seq<nat>>, ok: bool)
    requires Parsed(doc) && AllInDrawings(doc, ids, |doc|) && drawings == Order(doc, ids, |doc|)
    ensures ok <==> 0 !in drawings
    ensures ok ==> Reached(doc, ids, kids, |drawings|)
  {
    kids := seq(|doc|, x requires 0 <= x < |doc| => Children(doc, x));
    NothingGoneYet(doc, ids, kids);
    assert Reached(doc, ids, kids, 0);
    var k := 0;
    ok := true;
    while k < |drawings|
      invariant 0 <= k <= |drawings| && Reached(doc, ids, kids, k)
      invariant ok && forall i :: 0 <= i < k ==> drawings[i] != 0
    {
      kids, ok := DetachNext(doc, drawings, k, kids, ids);
      if !ok {
        return;
      }
      k := k + 1;
    }
  }

  /** Removes the drawings around broken images, and the runs that empty with them. */
  method RemoveBrokenDrawings(doc: Document, ids: set<string>) returns (r: Result<(Tree, nat), RepairError>)
    requires Parsed(doc)
    ensures r.Success? <==>
              AllInDrawings(doc, ids, |doc|) && BrokenCount(doc, ids, |doc|) == |ids| && !Doomed(Whole(doc, 0), ids)
    ensures r.Success? ==> r.value == (Repaired(Whole(doc, 0), ids), |Order(doc, ids, |doc|)|)
    ensures r == Failure(ReferenceHasNoDrawing) <==> !AllInDrawings(doc, ids, |doc|)
    ensures r == Failure(DrawingCountMismatch) <==>
              AllInDrawings(doc, ids, |doc|) && BrokenCount(doc, ids, |doc|) != |ids|
  {
    var found := FindDrawings(doc, ids);
    if found.Failure? {
      return Failure(found.error);
    }
    if |found.value| != |ids| {
      return Failure(DrawingCountMismatch);
    }
    RootDoomed(doc, ids);
    var drawings := Distinct(found.value);
    var kids, ok := DetachAll(doc, drawings, ids);
    if !ok {
      return Failure(DrawingParentMissing);
    }
    ghost var b: nat, removed: set<nat> :| Standing(doc, ids, |drawings|, b, removed) && Live(doc, kids, removed);
    AllGone(doc, ids, b, removed, kids);
    return Success((Serialized(doc, kids, 0), |drawings|));
  }

  /** No two broken images are in the same drawing. */
  ghost predicate OneEach(doc: Document, ids: set<string>, n: nat)
    requires Parents(doc) && n <= |doc|
  {
    forall a: nat, b: nat :: a < b < n && Broken(doc, ids, a) && Broken(doc, ids, b) ==> Climb(doc, a) != Climb(doc, b)
  }

  /** There are as many drawings as broken images exactly when each has its own. */
  lemma {:induction false} OrderCounts(doc: Document, ids: set<string>, n: nat)
    requires Parents(doc) && n <= |doc|
    ensures |Order(doc, ids, n)| <= BrokenCount(doc, ids, n)
    ensures |Order(doc, ids, n)| == BrokenCount(doc, ids, n) <==> OneEach(doc, ids, n)
    decreases n
  {
    if n > 0 {
      OrderCounts(doc, ids, n - 1);
      if Broken(doc, ids, n - 1) {
        OrderIsMet(doc, ids, n - 1, Climb(doc, n - 1));
      }
    }
  }

  /** A successful repair leaves no broken image anywhere in the document, and has nothing left to do. */
  lemma {:induction false} RepairIsComplete(doc: Document, ids: set<string>)
    requires Parsed(doc) && AllInDrawings(doc, ids, |doc|) && !Doomed(Whole(doc, 0), ids)
    ensures !AnyBroken(Repaired(Whole(doc, 0), ids), ids)
    ensures Repaired(Repaired(Whole(doc, 0), ids), ids) == Repaired(Whole(doc, 0), ids)
  {
    ReachesByClimbing(doc, ids, 0);
    if b: nat :| b < |doc| && Broken(doc, ids, b) && Open(doc, b, 0) {
      OpenFromRoot(doc, b);
    }
    NoBrokenLeft(Whole(doc, 0), ids);
    RepairedOnce(Whole(doc, 0), ids);
  }

  lemma {:induction false} OpenFromRoot(doc: Document, b: nat)
    requires Parents(doc) && b < |doc| && Open(doc, b, 0)
    ensures Climb(doc, b) == 0
    decreases b
  {
    if b != 0 {
      OpenFromRoot(doc, doc[b].parent);
    }
  }
}
