/** The preview session: comments are added in batches, found again by signature, and deleted, among the user's own. */
module PreviewComments {
  import opened PreviewFingerprint
  import opened Utf16

  const HOST_PREVIEW_BATCH_LIMIT := 5

  /** A comment of the open document: its identity, and its signature. */
  datatype Comment = Comment(id: nat, signature: Signature)

  /** `user` is the fingerprint of the comments that were there first. */
  datatype Session = Session(id: string, token: string, path: string, created: seq<Comment>, user: Text)

  /** What the host makes of one item: it adds a comment at `place` in the document's order; or it fails after adding
      one, before the session has recorded it; or before adding any. */
  datatype Fate = Adds(comment: Comment, place: nat) | Strays(comment: Comment, place: nat) | Refused

  datatype PreviewError = BatchInvalid | SessionMismatch | TargetRefused | DocumentChanged | RebindFailed
                        | CommentLost | CleanupFailed | UserCommentChanged

  // Signatures

  function Signatures(comments: seq<Comment>): seq<Signature> {
    seq(|comments|, i requires 0 <= i < |comments| => comments[i].signature)
  }

  /** The signatures without their order. */
  function Signs(comments: seq<Comment>): multiset<Signature> {
    multiset(Signatures(comments))
  }

  lemma SignsOfJoin(left: seq<Comment>, right: seq<Comment>)
    ensures Signs(left + right) == Signs(left) + Signs(right)
  {
    assert Signatures(left + right) == Signatures(left) + Signatures(right);
  }

  lemma SignsOfMore(comments: seq<Comment>, next: Comment)
    ensures Signs(comments + [next]) == Signs(comments) + multiset{next.signature}
  {
    assert Signatures(comments + [next]) == Signatures(comments) + [next.signature];
  }

  lemma SignsOfTake(comments: seq<Comment>, i: nat)
    requires i < |comments|
    ensures Signs(comments[..i + 1]) == Signs(comments[..i]) + multiset{comments[i].signature}
  {
    assert comments[..i + 1] == comments[..i] + [comments[i]];
    SignsOfMore(comments[..i], comments[i]);
  }

  ghost predicate Distinct(comments: seq<Comment>) {
    forall i, j :: 0 <= i < j < |comments| ==> comments[i].id != comments[j].id
  }

  /** The comments with one signature, in document order. */
  function With(comments: seq<Comment>, signature: Signature): seq<Comment> {
    if comments == [] then []
    else if comments[|comments| - 1].signature == signature then
      With(comments[..|comments| - 1], signature) + [comments[|comments| - 1]]
    else With(comments[..|comments| - 1], signature)
  }

  lemma {:induction false} WithCounts(comments: seq<Comment>, signature: Signature)
    ensures |With(comments, signature)| == Signs(comments)[signature]
  {
    if comments != [] {
      WithCounts(comments[..|comments| - 1], signature);
      SignsOfTake(comments, |comments| - 1);
      assert comments[..|comments|] == comments;
    }
  }

  lemma {:induction false} WithHolds(comments: seq<Comment>, signature: Signature)
    ensures forall c :: c in With(comments, signature) <==> c in comments && c.signature == signature
    ensures Distinct(comments) ==> Distinct(With(comments, signature))
  {
    if comments != [] {
      var front := comments[..|comments| - 1];
      WithHolds(front, signature);
      assert comments == front + [comments[|comments| - 1]];
      assert forall c :: c in With(front, signature) ==> c in front;
    }
  }

  function Inserted(comments: seq<Comment>, place: nat, comment: Comment): seq<Comment>
    requires place <= |comments|
  {
    comments[..place] + [comment] + comments[place..]
  }

  lemma InsertingCounts(comments: seq<Comment>, place: nat, comment: Comment)
    requires place <= |comments|
    ensures Signs(Inserted(comments, place, comment)) == Signs(comments) + multiset{comment.signature}
  {
    var left, right := comments[..place], comments[place..];
    assert Signs(comments) == Signs(left) + Signs(right) by {
      SignsOfJoin(left, right);
      assert comments == left + right;
    }
    SignsOfMore(left, comment);
    SignsOfJoin(left + [comment], right);
  }

  lemma InsertingKeepsDistinct(comments: seq<Comment>, place: nat, comment: Comment)
    requires place <= |comments| && Distinct(comments) && forall c :: c in comments ==> c.id != comment.id
    ensures Distinct(Inserted(comments, place, comment))
  {
    forall i, j | 0 <= i < j < |comments| + 1
      ensures Inserted(comments, place, comment)[i].id != Inserted(comments, place, comment)[j].id
    {
      assert forall k :: 0 <= k < |comments| ==> comments[k] in comments;
    }
  }

  function Deleted(comments: seq<Comment>, comment: Comment): seq<Comment> {
    if comments == [] then []
    else if comments[0] == comment then comments[1..]
    else [comments[0]] + Deleted(comments[1..], comment)
  }

  lemma {:induction false} DeletingCounts(comments: seq<Comment>, comment: Comment)
    requires comment in comments
    ensures Signs(Deleted(comments, comment)) + multiset{comment.signature} == Signs(comments)
  {
    var rest := comments[1..];
    assert Signatures(comments) == [comments[0].signature] + Signatures(rest);
    if comments[0] != comment {
      DeletingCounts(rest, comment);
      assert Signatures(Deleted(comments, comment)) == [comments[0].signature] + Signatures(Deleted(rest, comment));
    }
  }

  lemma {:induction false} DeletingKeeps(comments: seq<Comment>, comment: Comment)
    requires Distinct(comments)
    ensures Distinct(Deleted(comments, comment))
    ensures forall c :: c in Deleted(comments, comment) <==> c in comments && c != comment
  {
    if comments != [] {
      var rest := comments[1..];
      DeletingKeeps(rest, comment);
      assert comments == [comments[0]] + rest;
      assert forall c :: c in rest ==> c.id != comments[0].id;
    }
  }

  // The session's two searches

  function Count(counts: map<Signature, nat>, signature: Signature): nat {
    if signature in counts then counts[signature] else 0
  }

  ghost predicate Counts(counts: map<Signature, nat>, signs: multiset<Signature>) {
    forall s :: Count(counts, s) == signs[s]
  }

  lemma CountingOff(signs: multiset<Signature>, seen: multiset<Signature>, signature: Signature)
    ensures (signs - seen)[signature] == 0 ==>
              signs - (seen + multiset{signature}) == signs - seen
              && (seen + multiset{signature}) - signs == (seen - signs) + multiset{signature}
    ensures (signs - seen)[signature] > 0 ==>
              signs - (seen + multiset{signature}) == (signs - seen) - multiset{signature}
              && (seen + multiset{signature}) - signs == seen - signs
  {
  }

  lemma CountsMore(counts: map<Signature, nat>, signs: multiset<Signature>, s: Signature)
    requires Counts(counts, signs)
    ensures Counts(counts[s := Count(counts, s) + 1], signs + multiset{s})
  {
  }

  lemma CountsLess(counts: map<Signature, nat>, signs: multiset<Signature>, s: Signature)
    requires Counts(counts, signs) && Count(counts, s) > 0
    ensures Counts(counts[s := Count(counts, s) - 1], signs - multiset{s})
  {
  }

  /** The state of the second loop after `seen`: what is left to count off, and what was kept. */
  ghost predicate CountedOff(excluded: map<Signature, nat>, values: seq<Signature>, signs: multiset<Signature>,
                             seen: multiset<Signature>) {
    Counts(excluded, signs - seen) && multiset(values) == seen - signs
  }

  lemma CountOffOne(excluded: map<Signature, nat>, values: seq<Signature>,
                                       signs: multiset<Signature>,
                                       seen: multiset<Signature>, s: Signature)
    requires CountedOff(excluded, values, signs, seen)
    ensures Count(excluded, s) > 0 ==>
              CountedOff(excluded[s := Count(excluded, s) - 1], values, signs, seen + multiset{s})
    ensures Count(excluded, s) == 0 ==> CountedOff(excluded, values + [s], signs, seen + multiset{s})
  {
    CountingOff(signs, seen, s);
    if Count(excluded, s) > 0 {
      CountsLess(excluded, signs - seen, s);
    }
  }

  lemma NothingCounted()
    ensures Counts(map[], Signs([]))
  {
  }

  lemma NothingSeen(excluded: map<Signature, nat>, signs: multiset<Signature>)
    requires Counts(excluded, signs)
    ensures CountedOff(excluded, [], signs, Signs([]))
  {
    assert Signs([]) == multiset{} && signs - multiset{} == signs;
  }

  /** The string stored for the comments with the excluded ones counted off. */
  method Fingerprint(comments: seq<Comment>, excludedComments: seq<Comment>) returns (text: Text)
    ensures text == Stored(Signs(comments) - Signs(excludedComments))
  {
    hide Stored, Joined, Signs, Counts, IsSignature;
    var excluded: map<Signature, nat> := map[];
    NothingCounted();
    for k := 0 to |excludedComments|
      invariant Counts(excluded, Signs(excludedComments[..k]))
    {
      var signature := excludedComments[k].signature;
      SignsOfTake(excludedComments, k);
      CountsMore(excluded, Signs(excludedComments[..k]), signature);
      excluded := excluded[signature := Count(excluded, signature) + 1];
    }
    assert excludedComments[..|excludedComments|] == excludedComments;
    var values: seq<Signature> := [];
    NothingSeen(excluded, Signs(excludedComments));
    assert excludedComments[..0] == [] && comments[..0] == [];
    for i := 0 to |comments|
      invariant CountedOff(excluded, values, Signs(excludedComments), Signs(comments[..i]))
    {
      var signature := comments[i].signature;
      SignsOfTake(comments, i);
      CountOffOne(excluded, values, Signs(excludedComments), Signs(comments[..i]), signature);
      var remaining := Count(excluded, signature);
      if remaining > 0 {
        excluded := excluded[signature := remaining - 1];
      } else {
        values := values + [signature];
      }
    }
    assert comments[..|comments|] == comments;
    StoredIs(values);
    text := Joined(values);
  }

  function Bucket(available: map<Signature, seq<Comment>>, signature: Signature): seq<Comment> {
    if signature in available then available[signature] else []
  }

  method Available(comments: seq<Comment>) returns (available: map<Signature, seq<Comment>>)
    ensures forall s :: Bucket(available, s) == With(comments, s)
  {
    available := map[];
    for i := 0 to |comments|
      invariant forall s :: Bucket(available, s) == With(comments[..i], s)
    {
      var signature := comments[i].signature;
      assert comments[..i + 1][..i] == comments[..i];
      available := available[signature := Bucket(available, signature) + [comments[i]]];
    }
    assert comments[..|comments|] == comments;
  }

  lemma MeetSize(a: multiset<Signature>, b: multiset<Signature>)
    ensures |a * b| <= |a|
    ensures |a * b| == |a| <==> a <= b
  {
    assert a == (a * b) + (a - b);
    assert a <= b ==> a * b == a;
    if |a * b| == |a| {
      assert |a - b| == 0;
      assert a - b == multiset{};
      forall s ensures a[s] <= b[s] {
        assert (a - b)[s] == 0;
      }
    }
  }

  lemma MeetStep(a: multiset<Signature>, b: multiset<Signature>, signature: Signature)
    ensures (a * b)[signature] < b[signature] ==> (a + multiset{signature}) * b == a * b + multiset{signature}
    ensures (a * b)[signature] >= b[signature] ==> (a + multiset{signature}) * b == a * b
  {
  }

  ghost predicate Remaining(available: map<Signature, seq<Comment>>, comments: seq<Comment>,
                            used: multiset<Signature>) {
    forall s :: used[s] <= |With(comments, s)| && Bucket(available, s) == With(comments, s)[used[s]..]
  }

  ghost predicate Unused(available: map<Signature, seq<Comment>>, rebound: seq<Comment>) {
    forall s, c :: c in Bucket(available, s) ==> c !in rebound
  }

  lemma {:induction false} RemainingLess(available: map<Signature, seq<Comment>>, comments: seq<Comment>,
                                         used: multiset<Signature>, s: Signature)
    requires Remaining(available, comments, used) && Bucket(available, s) != []
    ensures Remaining(available[s := Bucket(available, s)[1..]], comments, used + multiset{s})
    ensures used[s] < |With(comments, s)|
  {
  }

  /** One search step: the first comment left with this signature. */
  lemma TakeFirst(available: map<Signature, seq<Comment>>, comments: seq<Comment>,
                                     rebound: seq<Comment>, signature: Signature)
    requires Distinct(comments) && Distinct(rebound) && (forall c :: c in rebound ==> c in comments)
    requires Remaining(available, comments, Signs(rebound)) && Unused(available, rebound)
    requires Bucket(available, signature) != []
    ensures Bucket(available, signature)[0] in comments && Bucket(available, signature)[0].signature == signature
    ensures Distinct(rebound + [Bucket(available, signature)[0]])
    ensures Unused(available[signature := Bucket(available, signature)[1..]],
              rebound + [Bucket(available, signature)[0]])
  {
    var found := Bucket(available, signature)[0];
    WithHolds(comments, signature);
    assert found in With(comments, signature);
    forall c | c in rebound ensures c.id != found.id {
      assert c in comments && c != found;
    }
    var rest := available[signature := Bucket(available, signature)[1..]];
    forall s, c | c in Bucket(rest, s) ensures c !in rebound + [found] {
      WithHolds(comments, s);
      assert c in Bucket(available, s) && c in With(comments, s);
    }
  }

  /** After the first `k` of the session's comments were looked for. */
  ghost predicate Searched(available: map<Signature, seq<Comment>>, comments: seq<Comment>, created: seq<Comment>,
                           k: nat, rebound: seq<Comment>)
    requires k <= |created|
  {
    && Signs(rebound) == Signs(created[..k]) * Signs(comments)
    && Distinct(rebound) && (forall c :: c in rebound ==> c in comments)
    && Remaining(available, comments, Signs(rebound)) && Unused(available, rebound)
    && |rebound| <= k && (|rebound| == k ==> Signatures(rebound) == Signatures(created[..k]))
  }

  lemma SearchFinds(available: map<Signature, seq<Comment>>, comments: seq<Comment>,
                                       created: seq<Comment>, k: nat, rebound: seq<Comment>)
    requires Distinct(comments) && k < |created| && Searched(available, comments, created, k, rebound)
    requires Bucket(available, created[k].signature) != []
    ensures Searched(available[created[k].signature := Bucket(available, created[k].signature)[1..]], comments, created,
                     k + 1, rebound + [Bucket(available, created[k].signature)[0]])
  {
    hide Signs, Distinct, With, Bucket, IsSignature;
    var signature := created[k].signature;
    var found := Bucket(available, signature)[0];
    TakeFirst(available, comments, rebound, signature);
    RemainingLess(available, comments, Signs(rebound), signature);
    SignsOfTake(created, k);
    WithCounts(comments, signature);
    MeetStep(Signs(created[..k]), Signs(comments), signature);
    SignsOfMore(rebound, found);
    assert Signatures(created[..k + 1]) == Signatures(created[..k]) + [signature];
    assert Signatures(rebound + [found]) == Signatures(rebound) + [signature];
  }

  lemma SearchMisses(available: map<Signature, seq<Comment>>, comments: seq<Comment>,
                                        created: seq<Comment>, k: nat, rebound: seq<Comment>)
    requires k < |created| && Searched(available, comments, created, k, rebound)
    requires Bucket(available, created[k].signature) == []
    ensures Searched(available, comments, created, k + 1, rebound)
  {
    SignsOfTake(created, k);
    WithCounts(comments, created[k].signature);
    MeetStep(Signs(created[..k]), Signs(comments), created[k].signature);
  }

  lemma SearchEnds(available: map<Signature, seq<Comment>>, comments: seq<Comment>,
                                      created: seq<Comment>, rebound: seq<Comment>)
    requires Searched(available, comments, created, |created|, rebound)
    ensures |rebound| == |created| <==> Signs(created) <= Signs(comments)
    ensures |rebound| == |created| ==> Signatures(rebound) == Signatures(created)
    ensures Distinct(rebound) && forall c :: c in rebound ==> c in comments
  {
    assert created[..|created|] == created;
    MeetSize(Signs(created), Signs(comments));
    assert |Signs(rebound)| == |rebound| && |Signs(created)| == |created|;
  }

  lemma {:induction false} SearchStarts(available: map<Signature, seq<Comment>>, comments: seq<Comment>,
                                        created: seq<Comment>)
    requires Distinct(comments) && forall s :: Bucket(available, s) == With(comments, s)
    ensures Searched(available, comments, created, 0, [])
  {
    hide With;
    assert created[..0] == [] && Signs([]) == multiset{};
  }

  /** The search for the session's comments among those of the document succeeds exactly when the document still has
      them all, counted by signature; and it never finds one comment twice. */
  method Rebind(comments: seq<Comment>, created: seq<Comment>) returns (rebound: seq<Comment>)
    requires Distinct(comments)
    ensures |rebound| == |created| <==> Signs(created) <= Signs(comments)
    ensures |rebound| == |created| ==> Signatures(rebound) == Signatures(created)
    ensures Distinct(rebound) && forall c :: c in rebound ==> c in comments
  {
    hide Searched, Signs, Signatures, Distinct;
    var available := Available(comments);
    SearchStarts(available, comments, created);
    rebound := [];
    for k := 0 to |created|
      invariant Searched(available, comments, created, k, rebound)
    {
      var matches := Bucket(available, created[k].signature);
      if matches != [] {
        SearchFinds(available, comments, created, k, rebound);
        available := available[created[k].signature := matches[1..]];
        rebound := rebound + [matches[0]];
      } else {
        SearchMisses(available, comments, created, k, rebound);
      }
    }
    SearchEnds(available, comments, created, rebound);
  }
}
