/** The fingerprint as the plugin stores it: signatures sorted and joined by "|", against the multiset it stands for. */
module PreviewFingerprint {
  import opened Joining
  import opened Sorting
  import opened Utf16

  const BAR: CodeUnit := 0x7C
  const COLON: CodeUnit := 0x3A
  const SPACE: CodeUnit := 0x20

  /** White space has become single spaces, none of them at an end. */
  predicate Collapsed(t: Text) {
    forall i :: 0 <= i < |t| && IsSpace(t[i]) ==> t[i] == SPACE && 0 < i < |t| - 1 && t[i + 1] != SPACE
  }

  /** A content, after a colon. */
  predicate EndsInContent(t: Text) {
    t != [] && ((t[0] == COLON && Collapsed(t[1..])) || EndsInContent(t[1..]))
  }

  /** An author, a colon, initials, a colon, and a content. Authors and initials may hold anything. */
  predicate IsSignature(t: Text) {
    t != [] && ((t[0] == COLON && EndsInContent(t[1..])) || IsSignature(t[1..]))
  }

  type SignatureText = t: Text | IsSignature(t) witness [COLON, COLON]

  /** Author, initials and text of a comment, joined into one string. */
  datatype Signature = Signature(value: SignatureText)

  /** Signatures in the order of their code units. */
  predicate Before(a: Signature, b: Signature) { Less(a.value, b.value) }

  predicate Less(a: Text, b: Text)
    decreases |a|
  {
    b != [] && (a == [] || a[0] < b[0] || (a[0] == b[0] && Less(a[1..], b[1..])))
  }

  function Texts(values: seq<Signature>): (r: seq<Text>)
    ensures |r| == |values| && forall i :: 0 <= i < |r| ==> r[i] == values[i].value
  {
    seq(|values|, i requires 0 <= i < |values| => values[i].value)
  }

  function Joined(values: seq<Signature>): Text {
    Join(Texts(Sort(values, Before)), BAR)
  }

  /** Whatever stands before a signature can belong to its author. */
  lemma {:induction false} SignatureExtends(before: Text, t: Text)
    requires IsSignature(t)
    ensures IsSignature(before + t)
  {
    if before == [] {
      assert before + t == t;
    } else {
      SignatureExtends(before[1..], t);
      assert (before + t)[1..] == before[1..] + t;
    }
  }

  // The order is total

  lemma {:induction false} LessOneWay(a: Text, b: Text)
    ensures Less(a, b) ==> !Less(b, a)
    ensures !Less(a, b) && !Less(b, a) ==> a == b
    decreases |a|
  {
    if a != [] && b != [] && a[0] == b[0] {
      LessOneWay(a[1..], b[1..]);
      assert a == [a[0]] + a[1..] && b == [b[0]] + b[1..];
    }
  }

  lemma {:induction false} LessThrough(a: Text, b: Text, c: Text)
    ensures Less(a, b) && Less(b, c) ==> Less(a, c)
    decreases |a|
  {
    if a != [] && b != [] && c != [] {
      LessThrough(a[1..], b[1..], c[1..]);
    }
  }

  lemma BeforeIsTotal()
    ensures StrictWeakOrder(Before)
    ensures forall a, b :: !Before(a, b) && !Before(b, a) ==> a == b
  {
    forall a: Signature, b: Signature
      ensures Before(a, b) ==> !Before(b, a)
      ensures !Before(a, b) && !Before(b, a) ==> a == b
    {
      LessOneWay(a.value, b.value);
    }
    forall a: Signature, b: Signature, c: Signature | !Before(b, a) && !Before(c, b) ensures !Before(c, a) {
      LessOneWay(a.value, b.value);
      LessOneWay(b.value, c.value);
      LessOneWay(a.value, c.value);
      LessThrough(a.value, b.value, c.value);
    }
  }

  /** A text is less than its continuations, and otherwise the first code unit that differs decides. */
  lemma {:induction false} LessExactly(a: Text, b: Text)
    ensures Less(a, b) <==>
            || a < b
            || exists k :: 0 <= k < |a| && k < |b| && a[..k] == b[..k] && a[k] < b[k]
    decreases |a|
  {
    if a != [] && b != [] && a[0] == b[0] {
      LessExactly(a[1..], b[1..]);
      assert a == [a[0]] + a[1..] && b == [b[0]] + b[1..];
      assert a < b <==> a[1..] < b[1..];
      if k :| 0 <= k < |a[1..]| && k < |b[1..]| && a[1..][..k] == b[1..][..k] && a[1..][k] < b[1..][k] {
        assert a[..k + 1] == [a[0]] + a[1..][..k] && b[..k + 1] == [b[0]] + b[1..][..k];
        assert a[k + 1] < b[k + 1];
      }
      if k :| 0 <= k < |a| && k < |b| && a[..k] == b[..k] && a[k] < b[k] {
        assert k > 0;
        assert a[1..][..k - 1] == a[..k][1..] && b[1..][..k - 1] == b[..k][1..];
        assert a[1..][k - 1] < b[1..][k - 1];
      }
    } else if a != [] && b != [] {
      assert a[..0] == b[..0];
      if k :| 0 <= k < |a| && k < |b| && a[..k] == b[..k] && a[k] < b[k] {
        assert k > 0 ==> a[..k][0] == b[..k][0];
      }
    }
  }

  // A multiset has one sorted sequence

  lemma LastIsGreatest(s: seq<Signature>, x: Signature)
    requires s != [] && Sorted(s, Before) && x in s
    ensures !Before(s[|s| - 1], x)
  {
    var i :| 0 <= i < |s| && s[i] == x;
    LessOneWay(x.value, x.value);
  }

  lemma SameLast(s: seq<Signature>, t: seq<Signature>)
    requires Sorted(s, Before) && Sorted(t, Before) && multiset(s) == multiset(t) && s != [] && t != []
    ensures s[|s| - 1] == t[|t| - 1]
  {
    hide Less;
    var x, y := s[|s| - 1], t[|t| - 1];
    assert x in multiset(t) && y in multiset(s);
    LastIsGreatest(s, y);
    LastIsGreatest(t, x);
    LessOneWay(x.value, y.value);
  }

  lemma WithoutLast(s: seq<Signature>)
    requires s != []
    ensures multiset(s[..|s| - 1]) == multiset(s) - multiset{s[|s| - 1]}
    ensures Sorted(s, Before) ==> Sorted(s[..|s| - 1], Before)
  {
    assert s == s[..|s| - 1] + [s[|s| - 1]];
  }

  lemma SortedOnce(s: seq<Signature>, t: seq<Signature>)
    requires Sorted(s, Before) && Sorted(t, Before) && multiset(s) == multiset(t)
    ensures s == t
    decreases |s|
  {
    hide Sorted, Before;
    assert |multiset(s)| == |s| && |multiset(t)| == |t|;
    if s != [] {
      SameLast(s, t);
      WithoutLast(s);
      WithoutLast(t);
      SortedOnce(s[..|s| - 1], t[..|t| - 1]);
      SameEnds(s, t);
    }
  }

  lemma SameEnds(s: seq<Signature>, t: seq<Signature>)
    requires s != [] && t != [] && s[..|s| - 1] == t[..|t| - 1] && s[|s| - 1] == t[|t| - 1]
    ensures s == t
  {
    assert s == s[..|s| - 1] + [s[|s| - 1]] && t == t[..|t| - 1] + [t[|t| - 1]];
  }

  // The string and the multiset

  /** Equal comments give equal fingerprints, in whatever order they stand: the check raises no false alarm. */
  lemma SameCommentsSameFingerprint(a: seq<Signature>, b: seq<Signature>)
    requires multiset(a) == multiset(b)
    ensures Joined(a) == Joined(b)
  {
    BeforeIsTotal();
    SortSorts(a, Before);
    SortSorts(b, Before);
    SortedOnce(Sort(a, Before), Sort(b, Before));
  }

  // What the string tells of the comments that are stored

  /** A signature that is two signatures in order, joined. */
  predicate Parts(t: Text, i: nat)
    requires i < |t|
  {
    t[i] == BAR && IsSignature(t[..i]) && IsSignature(t[i + 1..]) && !Less(t[i + 1..], t[..i])
  }

  /** A comment cannot be added, removed or changed without changing the fingerprint. */
  ghost predicate Guards(a: seq<Signature>) {
    forall b :: Joined(b) == Joined(a) ==> multiset(b) == multiset(a)
  }

  /** The fingerprint guards the stored comments if and only if there is none, or a single one that is not itself two
      signatures joined: two comments or more can always be replaced by one. */
  lemma GuardsExactly(a: seq<Signature>)
    ensures Guards(a) <==> |a| == 0 || (|a| == 1 && forall i :: 0 <= i < |a[0].value| ==> !Parts(a[0].value, i))
  {
    hide Joined, Parts;
    if |a| == 0 {
      NoneGuarded(a);
    } else if |a| >= 2 {
      OneForMany(a);
    } else if i :| 0 <= i < |a[0].value| && Parts(a[0].value, i) {
      TwoForOne(a, i);
    } else {
      OneGuarded(a);
    }
  }

  lemma JoinedIsEmpty(values: seq<Signature>)
    ensures Joined(values) == [] <==> values == []
  {
    BeforeIsTotal();
    SortSorts(values, Before);
  }

  lemma NoneGuarded(a: seq<Signature>)
    requires a == []
    ensures Guards(a)
  {
    hide Joined;
    forall b | Joined(b) == Joined(a) ensures multiset(b) == multiset(a) {
      JoinedIsEmpty(a);
      JoinedIsEmpty(b);
    }
  }

  /** One comment joined is its signature; two in order, their signatures with the separator. */
  lemma JoinedFew(one: Signature, two: Signature)
    ensures Joined([one]) == one.value
    ensures !Before(two, one) ==> Joined([one, two]) == one.value + [BAR] + two.value
  {
    hide Sort, Before, Join, IsSignature;
    SortOfSorted([one], Before);
    assert Texts([one]) == [one.value];
    JoinFew(one.value, two.value);
    if !Before(two, one) {
      SortOfSorted([one, two], Before);
      assert Texts([one, two]) == [one.value, two.value];
    }
  }

  lemma JoinFew(one: Text, two: Text)
    ensures Join([one], BAR) == one && Join([one, two], BAR) == one + [BAR] + two
  {
    assert [one, two][1..] == [two];
  }

  /** The joined string is the least signature, the separator, and the others joined, which is a signature again. */
  lemma JoinedMany(values: seq<Signature>)
    requires |values| >= 2
    ensures exists least: Signature, rest: SignatureText ::
              Joined(values) == least.value + [BAR] + rest && !Less(rest, least.value)
  {
    BeforeIsTotal();
    SortSorts(values, Before);
    var sorted := Sort(values, Before);
    var rest := Join(Texts(sorted)[1..], BAR);
    assert Texts(sorted)[1..] == Texts(sorted[1..]);
    JoinIsSignature(sorted[1..]);
    LessExtended(sorted[1].value, rest, sorted[0].value);
    assert !Before(sorted[1], sorted[0]);
    assert Joined(values) == sorted[0].value + [BAR] + rest && !Less(rest, sorted[0].value);
  }

  lemma JoinIsSignature(values: seq<Signature>)
    requires values != []
    ensures IsSignature(Join(Texts(values), BAR)) && values[0].value <= Join(Texts(values), BAR)
  {
    if |values| > 1 {
      JoinIsSignature(values[1..]);
      assert Texts(values)[1..] == Texts(values[1..]);
      SignatureExtends(values[0].value + [BAR], Join(Texts(values[1..]), BAR));
    }
  }

  lemma {:induction false} LessExtended(prefix: Text, t: Text, b: Text)
    requires prefix <= t
    ensures Less(t, b) ==> Less(prefix, b)
    decreases |prefix|
  {
    if prefix != [] && b != [] {
      assert prefix[0] == t[0];
      LessExtended(prefix[1..], t[1..], b[1..]);
    }
  }

  lemma OneForMany(a: seq<Signature>)
    requires |a| >= 2
    ensures !Guards(a)
  {
    hide Joined, IsSignature, Less;
    JoinedMany(a);
    var least: Signature, rest: SignatureText :| Joined(a) == least.value + [BAR] + rest && !Less(rest, least.value);
    SignatureExtends(least.value + [BAR], rest);
    var one := Signature(Joined(a));
    JoinedFew(one, one);
    assert |multiset([one])| == 1 && |multiset(a)| == |a|;
    assert Joined([one]) == Joined(a);
  }

  /** Two comments without author, initials and content, and the one that stands for both. */
  lemma SeparatorHidesChange()
    ensures exists a, b :: |a| == 2 && |b| == 1 && Joined(a) == Joined(b)
  {
    hide Joined, Less;
    var empty, both := Signature([COLON, COLON]), Signature([COLON, COLON, BAR, COLON, COLON]);
    LessOneWay(empty.value, empty.value);
    JoinedFew(empty, empty);
    JoinedFew(both, both);
    assert Joined([empty, empty]) == Joined([both]);
  }

  lemma TwoForOne(a: seq<Signature>, i: nat)
    requires |a| == 1 && i < |a[0].value| && Parts(a[0].value, i)
    ensures !Guards(a)
  {
    hide Joined, IsSignature, Less;
    var v := a[0].value;
    var one, two := Signature(v[..i]), Signature(v[i + 1..]);
    JoinedFew(one, two);
    JoinedFew(a[0], a[0]);
    assert a == [a[0]] && v == v[..i] + [BAR] + v[i + 1..];
    assert |multiset([one, two])| == 2 && |multiset(a)| == 1;
    assert Joined([one, two]) == Joined(a);
  }

  lemma JoinedHasParts(values: seq<Signature>, t: Text)
    requires |values| >= 2 && Joined(values) == t
    ensures exists i :: 0 <= i < |t| && Parts(t, i)
  {
    hide Joined, IsSignature, Less;
    JoinedMany(values);
    var least: Signature, rest: SignatureText :| t == least.value + [BAR] + rest && !Less(rest, least.value);
    var i := |least.value|;
    assert t[..i] == least.value && t[i + 1..] == rest;
    assert Parts(t, i);
  }

  lemma OneGuarded(a: seq<Signature>)
    requires |a| == 1 && forall i :: 0 <= i < |a[0].value| ==> !Parts(a[0].value, i)
    ensures Guards(a)
  {
    hide Joined, IsSignature, Parts;
    JoinedFew(a[0], a[0]);
    assert a == [a[0]];
    forall b | Joined(b) == Joined(a) ensures multiset(b) == multiset(a) {
      JoinedIsEmpty(b);
      JoinedIsEmpty(a);
      if |b| >= 2 {
        JoinedHasParts(b, a[0].value);
        assert false;
      }
      JoinedFew(b[0], b[0]);
      assert b == [b[0]];
    }
  }

  // What the string tells of two lists without the separator

  predicate Separable(values: seq<Signature>) {
    forall v :: v in values ==> BAR !in v.value
  }

  lemma {:induction false} JoinedApart(values: seq<Signature>)
    requires Separable(values) && values != []
    ensures Split(Joined(values), BAR) == Texts(Sort(values, Before))
  {
    BeforeIsTotal();
    SortSorts(values, Before);
    var sorted := Sort(values, Before);
    forall p | p in Texts(sorted) ensures BAR !in p {
      var i :| 0 <= i < |sorted| && Texts(sorted)[i] == p;
      assert sorted[i] in values;
    }
    SplitJoin(Texts(sorted), BAR);
  }

  /** Between comments without the separator the fingerprint tells every difference. */
  lemma FingerprintTells(a: seq<Signature>, b: seq<Signature>)
    requires Separable(a) && Separable(b)
    ensures Joined(a) == Joined(b) <==> multiset(a) == multiset(b)
  {
    hide Joined;
    if multiset(a) == multiset(b) {
      SameCommentsSameFingerprint(a, b);
    }
    if Joined(a) == Joined(b) {
      JoinedIsEmpty(a);
      JoinedIsEmpty(b);
      if a != [] {
        BeforeIsTotal();
        SortSorts(a, Before);
        SortSorts(b, Before);
        JoinedApart(a);
        JoinedApart(b);
        TextsTell(Sort(a, Before), Sort(b, Before));
      }
    }
  }

  lemma TextsTell(s: seq<Signature>, t: seq<Signature>)
    requires Texts(s) == Texts(t)
    ensures s == t
  {
    forall i | 0 <= i < |s| ensures s[i] == t[i] {
      assert Texts(s)[i] == Texts(t)[i];
    }
  }

  // What the string tells of comments that were added

  /** The length of the signatures joined, and of one more separator. */
  function Length(values: seq<Signature>): nat {
    if values == [] then 0 else Length(values[..|values| - 1]) + |values[|values| - 1].value| + 1
  }

  lemma {:induction false} InsertLength(s: seq<Signature>, x: Signature)
    ensures Length(Insert(s, x, Before)) == Length(s) + |x.value| + 1
  {
    hide Before;
    if s == [] || !Before(x, s[|s| - 1]) {
      assert (s + [x])[..|s|] == s;
    } else {
      var front := Insert(s[..|s| - 1], x, Before);
      InsertLength(s[..|s| - 1], x);
      assert (front + [s[|s| - 1]])[..|front|] == front;
    }
  }

  lemma {:induction false} SortLength(values: seq<Signature>)
    ensures Length(Sort(values, Before)) == Length(values)
  {
    if values != [] {
      SortLength(values[..|values| - 1]);
      InsertLength(Sort(values[..|values| - 1], Before), values[|values| - 1]);
    }
  }

  lemma {:induction false} LengthAppends(s: seq<Signature>, t: seq<Signature>)
    ensures Length(s + t) == Length(s) + Length(t)
    decreases |t|
  {
    if t == [] {
      assert s + t == s;
    } else {
      LengthAppends(s, t[..|t| - 1]);
      assert (s + t)[..|s + t| - 1] == s + t[..|t| - 1];
    }
  }

  lemma {:induction false} JoinLength(values: seq<Signature>)
    ensures |Join(Texts(values), BAR)| == if values == [] then 0 else Length(values) - 1
  {
    if |values| == 1 {
      assert values[..0] == [];
    } else if |values| > 1 {
      JoinLength(values[1..]);
      assert Texts(values)[1..] == Texts(values[1..]);
      LengthAppends(values[..1], values[1..]);
      assert values == values[..1] + values[1..] && values[..1][..0] == [];
    }
  }

  lemma {:induction false} JoinedLength(values: seq<Signature>)
    ensures |Joined(values)| == if values == [] then 0 else Length(values) - 1
  {
    BeforeIsTotal();
    SortSorts(values, Before);
    SortLength(values);
    JoinLength(Sort(values, Before));
  }

  /** A comment more is always noticed, whatever the signatures contain: the string gets longer. */
  lemma AddedIsNoticed(user: seq<Signature>, stray: seq<Signature>)
    requires stray != []
    ensures Joined(user + stray) != Joined(user)
  {
    hide Joined, IsSignature;
    JoinedLength(user + stray);
    JoinedLength(user);
    LengthAppends(user, stray);
    var last := stray[|stray| - 1].value;
    assert Length(stray) >= |last| + 1 && |last| >= 1 by {
      SignatureNotEmpty(last);
    }
  }

  lemma {:induction false} SignatureNotEmpty(t: Text)
    requires IsSignature(t)
    ensures |t| >= 2
  {
    if !(t[0] == COLON && EndsInContent(t[1..])) {
      SignatureNotEmpty(t[1..]);
    }
  }

  // The fingerprint of a multiset

  ghost function Listed(signs: multiset<Signature>): (values: seq<Signature>)
    ensures multiset(values) == signs
  {
    if signs == multiset{} then []
    else
      var s :| s in signs;
      Listed(signs - multiset{s}) + [s]
  }

  /** The string that is stored for these signatures, whatever order the comments stand in. */
  ghost function Stored(signs: multiset<Signature>): Text { Joined(Listed(signs)) }

  lemma StoredIs(values: seq<Signature>)
    ensures Stored(multiset(values)) == Joined(values)
  {
    SameCommentsSameFingerprint(Listed(multiset(values)), values);
  }

  /** A change of the stored comments is always noticed if and only if there is none of them, or a single one that is
      not itself two signatures joined. */
  lemma NoticedExactly(users: multiset<Signature>)
    ensures (forall now :: Stored(now) == Stored(users) ==> now == users) <==>
            |users| == 0 || (|users| == 1 && forall s, i :: s in users && 0 <= i < |s.value| ==> !Parts(s.value, i))
  {
    hide Joined, Parts, Listed;
    var u := Listed(users);
    GuardsExactly(u);
    assert |u| == |users|;
    assert |u| == 1 ==> u[0] in users && forall s :: s in users ==> s in u;
    if Guards(u) {
      forall now | Stored(now) == Stored(users) ensures now == users {
        assert Joined(Listed(now)) == Joined(u);
      }
    } else {
      var b :| Joined(b) == Joined(u) && multiset(b) != multiset(u);
      StoredIs(b);
    }
  }

  lemma StrayIsNoticed(user: multiset<Signature>, stray: multiset<Signature>)
    ensures Stored(user + stray) == Stored(user) <==> stray == multiset{}
  {
    hide Joined, Listed;
    var u, s := Listed(user), Listed(stray);
    if stray == multiset{} {
      assert user + stray == user;
    } else {
      assert s != [];
      assert multiset(u + s) == user + stray;
      StoredIs(u + s);
      AddedIsNoticed(u, s);
    }
  }
}
