/** Sequences cut at a separator, and joined with it. */
module Joining {
  import opened Results

  /** What stands before the first `c`, and what stands after it if there is one. */
  function Cut<T(==)>(s: seq<T>, c: T): (r: (seq<T>, Option<seq<T>>))
    ensures c !in r.0
    ensures r.1.None? ==> r.0 == s
    ensures r.1.Some? ==> s == r.0 + [c] + r.1.value
  {
    if s == [] then ([], None)
    else if s[0] == c then ([], Some(s[1..]))
    else
      var (before, after) := Cut(s[1..], c);
      ([s[0]] + before, after)
  }

  lemma {:induction false} CutAt<T>(before: seq<T>, c: T, after: seq<T>)
    requires c !in before
    ensures Cut(before + [c] + after, c) == (before, Some(after))
    ensures Cut(before, c) == (before, None)
  {
    var s := before + [c] + after;
    if before == [] {
      assert s[1..] == after;
    } else {
      CutAt(before[1..], c, after);
      assert s[0] == before[0] && s[1..] == before[1..] + [c] + after;
      assert [before[0]] + before[1..] == before;
    }
  }

  function Split<T(==)>(s: seq<T>, c: T): seq<seq<T>>
    decreases |s|
  {
    var (before, after) := Cut(s, c);
    if after.None? then [before] else [before] + Split(after.value, c)
  }

  function Join<T>(parts: seq<seq<T>>, c: T): seq<T> {
    if parts == [] then []
    else if |parts| == 1 then parts[0]
    else parts[0] + [c] + Join(parts[1..], c)
  }

  lemma {:induction false} SplitJoin<T>(parts: seq<seq<T>>, c: T)
    requires parts != [] && forall p :: p in parts ==> c !in p
    ensures Split(Join(parts, c), c) == parts
  {
    if |parts| == 1 {
      CutAt(parts[0], c, []);
    } else {
      CutAt(parts[0], c, Join(parts[1..], c));
      SplitJoin(parts[1..], c);
    }
  }
}
