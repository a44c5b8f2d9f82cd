/** Taking drawings with broken images out of a document: surgery through a parent map, against a recursive filter. */
module DocumentRepair {
  import opened Results

  datatype Tag = Drawing | Run | RunProperties | Blip | Other(name: string)

  /** An XML element as a value: `text` comes before its first child, `tail` after its end and goes with it. */
  datatype Tree = Element(tag: Tag, embed: Option<string>, text: string, tail: string, children: seq<Tree>)

  // The filter, on the tree

  predicate BrokenBlip(t: Tree, ids: set<string>) {
    t.tag == Blip && t.embed.Some? && t.embed.value in ids
  }

  /** A broken image is reached without entering another drawing. */
  predicate Reaches(t: Tree, ids: set<string>) {
    || BrokenBlip(t, ids)
    || exists i :: 0 <= i < |t.children| && t.children[i].tag != Drawing && Reaches(t.children[i], ids)
  }

  /** The nearest enclosing drawing of a broken image. */
  predicate Doomed(t: Tree, ids: set<string>) {
    t.tag == Drawing && Reaches(t, ids)
  }

  /** A run that empties, with one of its children. */
  predicate Emptied(t: Tree, ids: set<string>)
    decreases t, 1
  {
    t.tag == Run && exists j :: 0 <= j < |t.children| && EmptiesWith(t, j, ids)
  }

  /** The run empties when its last doomed drawing, child number j, goes: only run properties and doomed or emptied
      children came before, and only run properties come after. */
  predicate EmptiesWith(t: Tree, j: nat, ids: set<string>)
    requires j < |t.children|
    decreases t, 0
  {
    && Doomed(t.children[j], ids)
    && (forall i :: 0 <= i < j ==>
          t.children[i].tag == RunProperties || Doomed(t.children[i], ids) || Emptied(t.children[i], ids))
    && (forall i :: j < i < |t.children| ==> t.children[i].tag == RunProperties)
  }

  lemma {:induction false} EmptiedWithSome(t: Tree, ids: set<string>)
    requires Emptied(t, ids)
    ensures exists j :: 0 <= j < |t.children| && EmptiesWith(t, j, ids)
  {
  }

  function Repaired(t: Tree, ids: set<string>): Tree {
    t.(children := RepairedAll(t.children, ids))
  }

  function RepairedAll(ts: seq<Tree>, ids: set<string>): seq<Tree> {
    if ts == [] then []
    else if Doomed(ts[0], ids) || Emptied(ts[0], ids) then RepairedAll(ts[1..], ids)
    else [Repaired(ts[0], ids)] + RepairedAll(ts[1..], ids)
  }

  predicate AnyBroken(t: Tree, ids: set<string>) {
    BrokenBlip(t, ids) || exists i :: 0 <= i < |t.children| && AnyBroken(t.children[i], ids)
  }

  /** What stays in a list of children: each kept child repaired, in order. */
  lemma {:induction false} KeptOf(ts: seq<Tree>, ids: set<string>)
    ensures forall u :: u in RepairedAll(ts, ids) ==>
              exists i :: 0 <= i < |ts| && u == Repaired(ts[i], ids) && !Doomed(ts[i], ids) && !Emptied(ts[i], ids)
  {
    if ts != [] {
      KeptOf(ts[1..], ids);
      forall u | u in RepairedAll(ts, ids)
        ensures exists i :: 0 <= i < |ts| && u == Repaired(ts[i], ids) && !Doomed(ts[i], ids) && !Emptied(ts[i], ids)
      {
        if u in RepairedAll(ts[1..], ids) {
          var i :| 0 <= i < |ts[1..]| && u == Repaired(ts[1..][i], ids) && !Doomed(ts[1..][i], ids)
              && !Emptied(ts[1..][i], ids);
          assert ts[1..][i] == ts[i + 1];
        }
      }
    }
  }

  /** When every broken image lies in some drawing below the top, none is left. */
  lemma {:induction false} NoBrokenLeft(t: Tree, ids: set<string>)
    requires !Reaches(t, ids)
    ensures !AnyBroken(Repaired(t, ids), ids)
    decreases t
  {
    KeptOf(t.children, ids);
    var kept := RepairedAll(t.children, ids);
    forall k | 0 <= k < |kept| ensures !AnyBroken(kept[k], ids) {
      assert kept[k] in kept;
      var i :| 0 <= i < |t.children| && kept[k] == Repaired(t.children[i], ids) && !Doomed(t.children[i], ids);
      NoBrokenLeft(t.children[i], ids);
    }
  }

  lemma {:induction false} NothingReached(t: Tree, ids: set<string>)
    requires !AnyBroken(t, ids)
    ensures !Reaches(t, ids) && !Doomed(t, ids) && !Emptied(t, ids)
    decreases t
  {
    forall i | 0 <= i < |t.children| ensures !Reaches(t.children[i], ids) && !Doomed(t.children[i], ids) {
      NothingReached(t.children[i], ids);
    }
  }

  /** A document without broken images is left as it is; so repairing twice changes nothing more. */
  lemma {:induction false} WholeStaysWhole(t: Tree, ids: set<string>)
    requires !AnyBroken(t, ids)
    ensures Repaired(t, ids) == t
    decreases t, 1
  {
    AllStayWhole(t, 0, ids);
    assert t.children[0..] == t.children;
  }

  lemma {:induction false} AllStayWhole(t: Tree, k: nat, ids: set<string>)
    requires !AnyBroken(t, ids) && k <= |t.children|
    ensures RepairedAll(t.children[k..], ids) == t.children[k..]
    decreases t, 0, |t.children| - k
  {
    if k < |t.children| {
      var rest := t.children[k..];
      assert rest[0] == t.children[k] && rest[1..] == t.children[k + 1..];
      NothingReached(t.children[k], ids);
      WholeStaysWhole(t.children[k], ids);
      AllStayWhole(t, k + 1, ids);
    }
  }

  lemma {:induction false} RepairedOnce(t: Tree, ids: set<string>)
    requires !Reaches(t, ids)
    ensures Repaired(Repaired(t, ids), ids) == Repaired(t, ids)
  {
    NoBrokenLeft(t, ids);
    WholeStaysWhole(Repaired(t, ids), ids);
  }

  // What goes and what stays

  /** The last child that is a doomed drawing. */
  lemma LastDoomed(t: Tree, n: nat, ids: set<string>) returns (j: nat)
    requires n <= |t.children| && exists i :: 0 <= i < n && Doomed(t.children[i], ids)
    ensures j < n && Doomed(t.children[j], ids) && forall i :: j < i < n ==> !Doomed(t.children[i], ids)
  {
    hide Doomed;
    j := n - 1;
    if !Doomed(t.children[j], ids) {
      j := LastDoomed(t, n - 1, ids);
    }
  }

  /** A run without runs in it goes if and only if it holds doomed drawings, and nothing else but run properties. */
  lemma RunGoesExactly(t: Tree, ids: set<string>)
    requires t.tag == Run && forall c :: c in t.children ==> c.tag != Run
    ensures Emptied(t, ids) <==>
            && (exists c :: c in t.children && Doomed(c, ids))
            && (forall c :: c in t.children ==> c.tag == RunProperties || Doomed(c, ids))
  {
    if (exists c :: c in t.children && Doomed(c, ids))
       && (forall c :: c in t.children ==> c.tag == RunProperties || Doomed(c, ids)) {
      var c :| c in t.children && Doomed(c, ids);
      var i :| 0 <= i < |t.children| && t.children[i] == c;
      var j := LastDoomed(t, |t.children|, ids);
      assert forall i :: 0 <= i < |t.children| ==> t.children[i] in t.children;
      assert EmptiesWith(t, j, ids);
    }
    if Emptied(t, ids) {
      EmptiedWithSome(t, ids);
      assert forall i :: 0 <= i < |t.children| ==> !Emptied(t.children[i], ids);
    }
  }

  /** The elements outside doomed drawings, in document order, except runs and what run properties hold. */
  function Content(t: Tree, ids: set<string>): seq<(Tag, Option<string>, string, string)>
    decreases t, |t.children| + 1
  {
    if Doomed(t, ids) || t.tag == RunProperties then []
    else (if t.tag == Run then [] else [(t.tag, t.embed, t.text, t.tail)]) + ContentFrom(t, 0, ids)
  }

  function ContentFrom(t: Tree, k: nat, ids: set<string>): seq<(Tag, Option<string>, string, string)>
    requires k <= |t.children|
    decreases t, |t.children| - k
  {
    if k == |t.children| then [] else Content(t.children[k], ids) + ContentFrom(t, k + 1, ids)
  }

  lemma {:induction false} EmptiedHasNone(t: Tree, ids: set<string>)
    requires Emptied(t, ids)
    ensures Content(t, ids) == []
    decreases t, 1
  {
    hide Doomed;
    EmptiedWithSome(t, ids);
    forall i | 0 <= i < |t.children| ensures Content(t.children[i], ids) == [] {
      if Emptied(t.children[i], ids) {
        EmptiedHasNone(t.children[i], ids);
      }
    }
    NoneFrom(t, 0, ids);
    assert t.tag == Run;
  }

  lemma {:induction false} NoneFrom(t: Tree, k: nat, ids: set<string>)
    requires k <= |t.children| && forall i :: 0 <= i < |t.children| ==> Content(t.children[i], ids) == []
    ensures ContentFrom(t, k, ids) == []
    decreases |t.children| - k
  {
    hide Content;
    if k < |t.children| {
      NoneFrom(t, k + 1, ids);
    }
  }

  lemma KeptNotDoomed(t: Tree, ids: set<string>)
    requires !Doomed(t, ids)
    ensures !Doomed(Repaired(t, ids), ids)
  {
    if t.tag == Drawing {
      NoBrokenLeft(t, ids);
      NothingReached(Repaired(t, ids), ids);
    }
  }

  /** Nothing else goes: every element outside the doomed drawings that is no run and no run property is still there
      after the repair, in the same order, with its text and what follows it. */
  lemma {:induction false} ContentStays(t: Tree, ids: set<string>)
    requires !Doomed(t, ids)
    ensures Content(Repaired(t, ids), ids) == Content(t, ids)
    decreases t, 2
  {
    hide Doomed, RepairedAll;
    KeptNotDoomed(t, ids);
    assert t.children[0..] == t.children && RepairedAll(t.children, ids)[0..] == RepairedAll(t.children, ids);
    ContentStaysFrom(t, 0, Repaired(t, ids), 0, ids);
  }

  lemma {:induction false} ContentStaysFrom(t: Tree, k: nat, u: Tree, m: nat, ids: set<string>)
    requires k <= |t.children| && m <= |u.children| && u.children[m..] == RepairedAll(t.children[k..], ids)
    ensures ContentFrom(u, m, ids) == ContentFrom(t, k, ids)
    decreases t, 1, |t.children| - k
  {
    hide Doomed, Emptied, Repaired;
    if k < |t.children| {
      var rest := t.children[k..];
      assert rest[0] == t.children[k] && rest[1..] == t.children[k + 1..];
      if Doomed(t.children[k], ids) {
        ContentStaysFrom(t, k + 1, u, m, ids);
      } else if Emptied(t.children[k], ids) {
        EmptiedHasNone(t.children[k], ids);
        ContentStaysFrom(t, k + 1, u, m, ids);
      } else {
        assert u.children[m..][0] == u.children[m] && u.children[m..][1..] == u.children[m + 1..];
        ContentStays(t.children[k], ids);
        ContentStaysFrom(t, k + 1, u, m + 1, ids);
      }
    }
  }
}
