/** The preview service: batches of comments applied and cleared, with the user's comments guarded by a fingerprint. */
module PreviewSession {
  import opened Results
  import opened PreviewComments
  import opened PreviewFingerprint

  ghost predicate New(comments: seq<Comment>, comment: Comment) {
    forall c :: c in comments ==> c.id != comment.id
  }

  /** The comments still to come get new identities. */
  ghost predicate FatesFit(comments: seq<Comment>, fates: seq<Fate>, from: nat) {
    && (forall i :: from <= i < |fates| && !fates[i].Refused? ==> New(comments, fates[i].comment))
    && (forall i, j :: from <= i < j < |fates| && !fates[i].Refused? && !fates[j].Refused? ==>
          fates[i].comment.id != fates[j].comment.id)
  }

  /** The comments the first items add, up to the first failure. */
  function Added(fates: seq<Fate>): seq<Comment> {
    if fates == [] || !fates[0].Adds? then [] else [fates[0].comment] + Added(fates[1..])
  }

  lemma {:induction false} AddedMore(fates: seq<Fate>, k: nat)
    requires k < |fates| && forall i :: 0 <= i < k ==> fates[i].Adds?
    ensures Added(fates[..k + 1]) == Added(fates[..k]) + (if fates[k].Adds? then [fates[k].comment] else [])
    ensures !fates[k].Adds? ==> Added(fates) == Added(fates[..k])
    decreases k
  {
    if k > 0 {
      assert fates[..k + 1][1..] == fates[1..][..k] && fates[..k][1..] == fates[1..][..k - 1];
      AddedMore(fates[1..], k - 1);
    }
  }

  /** The comment that the first item without a recorded comment leaves behind, if it leaves one. */
  function FirstStray(fates: seq<Fate>): seq<Comment> {
    if fates == [] || fates[0].Refused? then []
    else if fates[0].Strays? then [fates[0].comment]
    else FirstStray(fates[1..])
  }

  lemma {:induction false} FirstStrayIs(fates: seq<Fate>, k: nat)
    requires k < |fates| && fates[k].Strays? && forall i :: 0 <= i < k ==> fates[i].Adds?
    ensures FirstStray(fates) == [fates[k].comment] && Signs(FirstStray(fates)) == multiset{fates[k].comment.signature}
    decreases k
  {
    if k > 0 {
      assert fates[1..][k - 1] == fates[k];
      FirstStrayIs(fates[1..], k - 1);
    } else {
      SignsOfMore([], fates[0].comment);
      assert [] + [fates[0].comment] == [fates[0].comment];
    }
  }

  /** The first item that does not get a recorded comment. */
  function FirstMiss(fates: seq<Fate>): (n: nat)
    ensures n <= |fates| && (n < |fates| ==> !fates[n].Adds?) && forall i :: 0 <= i < n ==> fates[i].Adds?
  {
    if fates == [] || !fates[0].Adds? then 0 else 1 + FirstMiss(fates[1..])
  }

  /** The session records the comments of the items before the first failure, in their order; a failure that comes
      after its comment leaves that one comment behind. */
  lemma {:induction false} AddedExactly(fates: seq<Fate>)
    ensures |Added(fates)| == FirstMiss(fates)
    ensures forall i :: 0 <= i < FirstMiss(fates) ==> Added(fates)[i] == fates[i].comment
    ensures FirstStray(fates) == if FirstMiss(fates) < |fates| && fates[FirstMiss(fates)].Strays?
                                 then [fates[FirstMiss(fates)].comment] else []
  {
    if fates != [] && fates[0].Adds? {
      AddedExactly(fates[1..]);
    }
  }

  lemma {:induction false} FirstMissIs(fates: seq<Fate>, n: nat)
    requires n <= |fates| && (n < |fates| ==> !fates[n].Adds?) && forall i :: 0 <= i < n ==> fates[i].Adds?
    ensures FirstMiss(fates) == n
  {
    var m := FirstMiss(fates);
  }

  lemma {:induction false} NoStray(fates: seq<Fate>, k: nat)
    requires k <= |fates| && (forall i :: 0 <= i < k ==> fates[i].Adds?) && (k < |fates| ==> fates[k].Refused?)
    ensures FirstStray(fates) == [] && Signs(FirstStray(fates)) == multiset{}
    decreases k
  {
    if k > 0 {
      NoStray(fates[1..], k - 1);
    }
  }

  lemma NoSigns()
    ensures Signs([]) == multiset{}
  {
  }

  /** The call belongs to the session. */
  predicate Matches(session: Session, id: string, token: string, path: string) {
    session.id == id && session.token == token && session.path == path
  }

  lemma Adding(comments: seq<Comment>, place: nat, comment: Comment, fates: seq<Fate>, k: nat)
    requires place <= |comments| && k < |fates| && !fates[k].Refused? && fates[k].comment == comment
    requires Distinct(comments) && FatesFit(comments, fates, k)
    ensures Distinct(Inserted(comments, place, comment)) && FatesFit(Inserted(comments, place, comment), fates, k + 1)
    ensures Signs(Inserted(comments, place, comment)) == Signs(comments) + multiset{comment.signature}
  {
    InsertingCounts(comments, place, comment);
    InsertingKeepsDistinct(comments, place, comment);
    forall i | k + 1 <= i < |fates| && !fates[i].Refused?
      ensures New(Inserted(comments, place, comment), fates[i].comment)
    {
      assert New(comments, fates[i].comment);
      assert forall c :: c in Inserted(comments, place, comment) ==> c in comments || c == comment;
    }
  }

  /** The session with the first `k` items added, when none of them was refused. */
  ghost predicate Applied(comments: seq<Comment>, active: Option<Session>, before: seq<Comment>, first: Session,
                          fates: seq<Fate>, k: nat)
    requires k <= |fates|
  {
    && Distinct(comments) && FatesFit(comments, fates, k)
    && active == Some(first.(created := first.created + Added(fates[..k])))
    && Signs(comments) == Signs(before) + Signs(Added(fates[..k]))
  }

  lemma ApplyingOne(comments: seq<Comment>, active: Option<Session>, before: seq<Comment>,
                                       first: Session, fates: seq<Fate>, k: nat, place: nat)
    requires k < |fates| && place <= |comments| && fates[k].Adds? && forall i :: 0 <= i < k ==> fates[i].Adds?
    requires Applied(comments, active, before, first, fates, k)
    ensures Applied(Inserted(comments, place, fates[k].comment),
                    Some(active.value.(created := active.value.created + [fates[k].comment])), before, first, fates,
                        k + 1)
  {
    AddedMore(fates, k);
    Adding(comments, place, fates[k].comment, fates, k);
    SignsOfMore(Added(fates[..k]), fates[k].comment);
    assert first.created + Added(fates[..k + 1]) == active.value.created + [fates[k].comment];
  }

  /** The batch stops after `k` items. */
  lemma {:induction false} StopsAt(fates: seq<Fate>, k: nat)
    requires k <= |fates| && (forall i :: 0 <= i < k ==> fates[i].Adds?) && (k < |fates| ==> !fates[k].Adds?)
    ensures FirstMiss(fates) == k && Added(fates) == Added(fates[..k])
  {
    FirstMissIs(fates, k);
    if k < |fates| {
      AddedMore(fates, k);
    } else {
      assert fates[..k] == fates;
    }
  }

  /** The clean-up batch after `deleted` deletions; `others` are the comments that are not the session's. */
  ghost predicate Clearing(comments: seq<Comment>, active: Option<Session>, first: Session, wanted: seq<Comment>,
                           deleted: nat, others: multiset<Signature>)
  {
    && deleted <= |wanted|
    && active == Some(first.(created := wanted[..|wanted| - deleted]))
    && Distinct(comments) && Distinct(wanted)
    && (forall i :: 0 <= i < |wanted| - deleted ==> wanted[i] in comments)
    && Signs(comments) == others + Signs(wanted[..|wanted| - deleted])
  }

  lemma Cancelling(a: multiset<Signature>, b: multiset<Signature>, c: multiset<Signature>,
                                      d: multiset<Signature>)
    requires a + d == b + (c + d)
    ensures a == b + c
  {
    forall s ensures a[s] == (b + c)[s] {
      assert (a + d)[s] == (b + (c + d))[s];
    }
  }

  lemma {:induction false} ClearingOne(comments: seq<Comment>, active: Option<Session>, first: Session,
                                       wanted: seq<Comment>, deleted: nat, others: multiset<Signature>)
    requires Clearing(comments, active, first, wanted, deleted, others) && deleted < |wanted|
    ensures Clearing(Deleted(comments, wanted[|wanted| - deleted - 1]),
                     Some(active.value.(created := active.value.created[..|active.value.created| - 1])),
                     first, wanted, deleted + 1, others)
  {
    hide Signs, Deleted, Signatures;
    var last := wanted[|wanted| - deleted - 1];
    SignsOfTake(wanted, |wanted| - deleted - 1);
    DeletingCounts(comments, last);
    DeletingKeeps(comments, last);
    Cancelling(Signs(Deleted(comments, last)), others, Signs(wanted[..|wanted| - deleted - 1]),
        multiset{last.signature});
    assert wanted[..|wanted| - deleted][..|wanted| - deleted - 1] == wanted[..|wanted| - deleted - 1];
    forall i | 0 <= i < |wanted| - deleted - 1 ensures wanted[i] in Deleted(comments, last) {
      assert wanted[i].id != last.id;
    }
  }

  lemma ApplyingStarts(comments: seq<Comment>, first: Session, fates: seq<Fate>)
    requires Distinct(comments) && FatesFit(comments, fates, 0)
    ensures Applied(comments, Some(first), comments, first, fates, 0)
  {
    assert fates[..0] == [];
    assert first.created + [] == first.created;
    assert Signs([]) == multiset{};
  }

  lemma ClearingStarts(comments: seq<Comment>, first: Session, rebound: seq<Comment>,
                                          others: multiset<Signature>)
    requires Distinct(comments) && Distinct(rebound) && Signatures(rebound) == Signatures(first.created)
    requires forall c :: c in rebound ==> c in comments
    requires Signs(comments) == others + Signs(first.created)
    ensures Clearing(comments, Some(first.(created := rebound)), first, rebound, 0, others)
  {
    assert rebound[..|rebound|] == rebound;
  }

  /** After a batch the fingerprint without the remaining previews is that of the other comments again. */
  lemma ClearingEnds(comments: seq<Comment>, active: Option<Session>, first: Session,
                                        wanted: seq<Comment>, deleted: nat, others: multiset<Signature>)
    requires Clearing(comments, active, first, wanted, deleted, others)
    requires Signatures(wanted) == Signatures(first.created)
    ensures Signs(comments) - Signs(active.value.created) == others
    ensures Signs(comments) == others + Signs(first.created[..|wanted| - deleted])
    ensures Signs(active.value.created) == Signs(first.created[..|wanted| - deleted])
    ensures Distinct(comments) && |first.created| == |wanted| && |active.value.created| == |wanted| - deleted
    ensures active.value == first.(created := active.value.created)
  {
    hide Distinct;
    var n := |wanted| - deleted;
    assert |first.created| == |Signatures(first.created)| == |wanted|;
    assert Signatures(wanted[..n]) == Signatures(first.created[..n]) by {
      assert Signatures(wanted[..n]) == Signatures(wanted)[..n];
      assert Signatures(first.created[..n]) == Signatures(first.created)[..n];
    }
  }

  datatype Cleared = Cleared(deleted: nat, remaining: nat)

  /** The document still has every comment of the session, counted by signature. */
  ghost predicate Found(comments: seq<Comment>, session: Session) { Signs(session.created) <= Signs(comments) }

  /** The comments that are not the session's. */
  ghost function Others(comments: seq<Comment>, session: Session): multiset<Signature> {
    Signs(comments) - Signs(session.created)
  }

  /** The integrity check on the strings. */
  ghost predicate Intact(comments: seq<Comment>, session: Session) {
    Stored(Others(comments, session)) == session.user
  }

  /** A comment of one of these signatures cannot be deleted. */
  ghost predicate Blocked(comments: seq<Comment>, created: seq<Comment>, stuck: set<nat>) {
    exists c :: c in comments && c.id in stuck && c.signature in Signs(created)
  }

  lemma OthersAre(comments: seq<Comment>, session: Session, others: multiset<Signature>)
    requires Signs(comments) == others + Signs(session.created)
    ensures Found(comments, session) && Others(comments, session) == others
  {
  }

  lemma OthersBalance(comments: seq<Comment>, session: Session)
    requires Found(comments, session)
    ensures Signs(comments) == Others(comments, session) + Signs(session.created)
  {
  }

  lemma BlockedBy(comments: seq<Comment>, first: Session, wanted: seq<Comment>, stuck: set<nat>)
    requires Signatures(wanted) == Signatures(first.created) && forall c :: c in wanted ==> c in comments
    requires exists c :: c in wanted && c.id in stuck
    ensures Blocked(comments, first.created, stuck)
  {
    var c :| c in wanted && c.id in stuck;
    var i :| 0 <= i < |wanted| && wanted[i] == c;
    assert Signatures(first.created)[i] == c.signature;
  }

  /** The comments are the user's, the stray ones and the session's, counted by signature. */
  ghost predicate Balance(comments: seq<Comment>, session: Session, users: multiset<Signature>,
                          stray: multiset<Signature>) {
    session.user == Stored(users) && Signs(comments) == users + stray + Signs(session.created)
  }

  lemma {:induction false} BalanceAdds(before: seq<Comment>, comments: seq<Comment>, first: Session,
                                       fates: seq<Fate>, users: multiset<Signature>, stray: multiset<Signature>)
    requires Signs(comments) == Signs(before) + Signs(Added(fates)) + Signs(FirstStray(fates))
    ensures Balance(before, first, users, stray) ==>
              Balance(comments, first.(created := first.created + Added(fates)), users,
                      stray + Signs(FirstStray(fates)))
  {
    hide Signs, Stored, Added, FirstStray;
    SignsOfJoin(first.created, Added(fates));
  }

  class PreviewService {
    var comments: seq<Comment>
    var active: Option<Session>
    /** The signatures of the comments that were there when the session began. */
    ghost var users: multiset<Signature>
    /** The signatures of the comments that the session added without recording them. */
    ghost var stray: multiset<Signature>

    constructor (comments: seq<Comment>)
      requires Distinct(comments)
      ensures Valid() && this.comments == comments && active == None
    {
      this.comments := comments;
      active, users, stray := None, multiset{}, multiset{};
    }

    ghost predicate Valid()
      reads this
    {
      Distinct(comments)
    }

    /** Nobody but the session has touched the comments since it began. */
    ghost predicate Kept()
      reads this
    {
      active.Some? ==> Balance(comments, active.value, users, stray)
    }

    lemma KeptIs()
      ensures Kept() <==> (active.Some? ==> Balance(comments, active.value, users, stray))
    {
    }

    method Apply(token: string, path: string, id: string, fates: seq<Fate>) returns (r: Result<nat, PreviewError>)
      requires Valid() && FatesFit(comments, fates, 0)
      modifies this
      ensures Valid() && (old(Kept()) ==> Kept())
      ensures r == Failure(BatchInvalid) <==> !(1 <= |fates| <= HOST_PREVIEW_BATCH_LIMIT)
      ensures r == Failure(SessionMismatch) <==>
                1 <= |fates| <= HOST_PREVIEW_BATCH_LIMIT
                && old(active).Some? && !Matches(old(active).value, id, token, path)
      ensures r.Failure? && r.error in {BatchInvalid, SessionMismatch} ==>
                comments == old(comments) && active == old(active) && users == old(users) && stray == old(stray)
      ensures r.Success? ==> FirstMiss(fates) == |fates| && r.value == |fates|
      ensures r.Failure? && r.error !in {BatchInvalid, SessionMismatch} ==>
                FirstMiss(fates) < |fates|
                && r.error == if fates[FirstMiss(fates)].Refused? then TargetRefused else CommentLost
      ensures r.Success? || r.error !in {BatchInvalid, SessionMismatch} ==>
                && Signs(comments) == Signs(old(comments)) + Signs(Added(fates)) + Signs(FirstStray(fates))
                && active.Some? && Matches(active.value, id, token, path)
                && active.value.created == (if old(active).Some? then old(active).value.created else []) + Added(fates)
                && active.value.user == (if old(active).Some? then old(active).value.user
                                         else Stored(Signs(old(comments))))
                && users == (if old(active).Some? then old(users) else Signs(old(comments)))
                && stray == (if old(active).Some? then old(stray) else multiset{}) + Signs(FirstStray(fates))
    {
      hide Added, Signs, Signatures, IsSignature, Distinct, FirstStray, Stored, FirstMiss, FatesFit, Balance, Kept;
      if |fates| < 1 || |fates| > HOST_PREVIEW_BATCH_LIMIT {
        return Failure(BatchInvalid);
      }
      Begin(token, path, id);
      KeptIs();
      if !Matches(active.value, id, token, path) {
        return Failure(SessionMismatch);
      }
      ghost var first, startStray := active.value, stray;
      var done := AddItems(fates, first);
      StopsAt(fates, done);
      if done < |fates| && fates[done].Strays? {
        LoseOne(fates, done);
        BalanceAdds(old(comments), comments, first, fates, users, startStray);
        KeptIs();
        return Failure(CommentLost);
      }
      NoStray(fates, done);
      assert stray == startStray + multiset{};
      BalanceAdds(old(comments), comments, first, fates, users, startStray);
      KeptIs();
      if done < |fates| {
        return Failure(TargetRefused);
      }
      return Success(done);
    }

    /** A first batch starts the session, with the fingerprint of the comments that are there. */
    method Begin(token: string, path: string, id: string)
      requires Valid()
      modifies this`active, this`users, this`stray
      ensures Valid() && active.Some? && (old(Kept()) ==> Kept())
      ensures old(active).Some? ==> active == old(active) && users == old(users) && stray == old(stray)
      ensures old(active).None? ==>
                && active == Some(Session(id, token, path, [], Stored(Signs(comments))))
                && users == Signs(comments) && stray == multiset{}
    {
      hide Signs, Distinct, Stored;
      NoSigns();
      if active.None? {
        var user := Fingerprint(comments, []);
        active := Some(Session(id, token, path, [], user));
        users, stray := Signs(comments), multiset{};
        assert Signs(comments) - multiset{} == Signs(comments) == users + stray + multiset{};
      }
    }

    /** A comment is in the document but could not be found again or given its author. */
    method LoseOne(fates: seq<Fate>, k: nat)
      requires Valid() && k < |fates| && fates[k].Strays? && FatesFit(comments, fates, k)
      requires forall i :: 0 <= i < k ==> fates[i].Adds?
      modifies this`comments, this`stray
      ensures Valid() && stray == old(stray) + Signs(FirstStray(fates))
      ensures Signs(comments) == Signs(old(comments)) + Signs(FirstStray(fates))
    {
      var place := if fates[k].place <= |comments| then fates[k].place else |comments|;
      Adding(comments, place, fates[k].comment, fates, k);
      FirstStrayIs(fates, k);
      comments := Inserted(comments, place, fates[k].comment);
      stray := stray + Signs(FirstStray(fates));
    }

    /** Adds the items' comments up to the first failure. */
    method AddItems(fates: seq<Fate>, ghost first: Session) returns (done: nat)
      requires Distinct(comments) && FatesFit(comments, fates, 0) && active == Some(first)
      modifies this`comments, this`active
      ensures done <= |fates| && Applied(comments, active, old(comments), first, fates, done)
      ensures forall i :: 0 <= i < done ==> fates[i].Adds?
      ensures done < |fates| ==> !fates[done].Adds?
    {
      hide Inserted, Signs, FatesFit;
      ApplyingStarts(comments, first, fates);
      done := 0;
      while done < |fates| && fates[done].Adds?
        invariant 0 <= done <= |fates|
        invariant forall i :: 0 <= i < done ==> fates[i].Adds?
        invariant Applied(comments, active, old(comments), first, fates, done)
      {
        var comment := fates[done].comment;
        var place := if fates[done].place <= |comments| then fates[done].place else |comments|;
        ApplyingOne(comments, active, old(comments), first, fates, done, place);
        comments := Inserted(comments, place, comment);
        active := Some(active.value.(created := active.value.created + [comment]));
        done := done + 1;
      }
    }

    /** `stuck`: the comments whose deletion throws. */
    method Clear(token: string, path: string, batchSize: int, stuck: set<nat>)
      returns (r: Result<Cleared, PreviewError>)
      requires Valid()
      modifies this`comments, this`active
      ensures Valid() && (old(Kept()) ==> Kept())
      ensures r == Failure(BatchInvalid) <==> !(1 <= batchSize <= HOST_PREVIEW_BATCH_LIMIT)
      ensures r == Failure(DocumentChanged) <==>
                1 <= batchSize <= HOST_PREVIEW_BATCH_LIMIT && old(active).Some? && old(active).value.path != path
      ensures r.Failure? && r.error in {BatchInvalid, DocumentChanged} ==>
                comments == old(comments) && active == old(active)
      ensures 1 <= batchSize <= HOST_PREVIEW_BATCH_LIMIT && old(active).None? ==>
                r == Success(Cleared(0, 0)) && comments == old(comments) && active.None?
      ensures 1 <= batchSize <= HOST_PREVIEW_BATCH_LIMIT && old(active).Some? && old(active).value.path == path ==>
                BatchCleared(r, old(comments), comments, old(active).value.(token := token), active, batchSize, stuck)
      ensures old(Kept()) && old(active).Some? && stuck == {}
              && 1 <= batchSize <= HOST_PREVIEW_BATCH_LIMIT && old(active).value.path == path ==>
                if stray == multiset{} then r.Success? else r == Failure(UserCommentChanged)
    {
      hide Signs, Distinct, Stored, Signatures, Balance, BatchCleared, Found, Intact, Others;
      if batchSize < 1 || batchSize > HOST_PREVIEW_BATCH_LIMIT {
        return Failure(BatchInvalid);
      }
      if active.None? {
        return Success(Cleared(0, 0));
      }
      if active.value.path != path {
        return Failure(DocumentChanged);
      }
      if active.value.token != token {
        active := Some(active.value.(token := token));
      }
      ghost var session := active.value;
      r := ClearBatch(batchSize, stuck);
      assert session == old(active).value.(token := token);
      BatchBalances(r, old(comments), comments, old(active).value, token, active, batchSize, stuck, users, stray);
    }

    /** While nobody else touches the comments, the session's are found, and the check sees every stray one. */
    lemma KeptIntact()
      requires active.Some?
      ensures Kept() ==>
                && Found(comments, active.value) && Others(comments, active.value) == users + stray
                && (Intact(comments, active.value) <==> stray == multiset{})
    {
      if Kept() {
        OthersAre(comments, active.value, users + stray);
        StrayIsNoticed(users, stray);
      }
    }

    /** Finds the session's comments again, deletes the last ones, and checks the user's. */
    method ClearBatch(batchSize: int, stuck: set<nat>) returns (r: Result<Cleared, PreviewError>)
      requires Valid() && active.Some? && batchSize >= 1
      modifies this`comments, this`active
      ensures Valid() && BatchCleared(r, old(comments), comments, old(active).value, active, batchSize, stuck)
    {
      hide Signs, Signatures, Distinct, Clearing, Stored;
      ghost var first, others := active.value, Others(comments, active.value);
      var rebound := Rebind(comments, active.value.created);
      if |rebound| != |active.value.created| {
        return Failure(RebindFailed);
      }
      OthersBalance(comments, first);
      active := Some(active.value.(created := rebound));
      ClearingStarts(comments, first, rebound, others);
      var deleted, ok := DeleteLast(batchSize, stuck, first, rebound, others);
      ClearingEnds(comments, active, first, rebound, deleted, others);
      if !ok {
        BlockedBy(old(comments), first, rebound, stuck);
        return Failure(CleanupFailed);
      }
      var remaining := |active.value.created|;
      var user := Fingerprint(comments, active.value.created);
      if user != active.value.user {
        return Failure(UserCommentChanged);
      }
      if remaining == 0 {
        NoSigns();
        active := None;
      }
      return Success(Cleared(deleted, remaining));
    }

    /** Deletes the session's last comments, at most `batchSize` of them. */
    method DeleteLast(batchSize: int, stuck: set<nat>, ghost first: Session, ghost wanted: seq<Comment>,
                      ghost others: multiset<Signature>)
      returns (deleted: nat, ok: bool)
      requires batchSize >= 1 && Clearing(comments, active, first, wanted, 0, others)
      modifies this`comments, this`active
      ensures Clearing(comments, active, first, wanted, deleted, others)
      ensures ok ==> deleted == if |wanted| < batchSize then |wanted| else batchSize
      ensures !ok ==> exists c :: c in wanted && c.id in stuck
    {
      deleted := 0;
      while |active.value.created| > 0 && deleted < batchSize
        invariant 0 <= deleted <= batchSize && Clearing(comments, active, first, wanted, deleted, others)
      {
        var created := active.value.created[|active.value.created| - 1];
        if created.id in stuck {
          return deleted, false;
        }
        ClearingOne(comments, active, first, wanted, deleted, others);
        comments := Deleted(comments, created);
        active := Some(active.value.(created := active.value.created[..|active.value.created| - 1]));
        deleted := deleted + 1;
      }
      return deleted, true;
    }

    /** The host's own clean-up of a document: batches until nothing of the session remains. */
    method ClearAll(token: string, path: string, stuck: set<nat>) returns (r: Result<nat, PreviewError>)
      requires Valid()
      modifies this`comments, this`active
      ensures Valid() && (old(Kept()) ==> Kept())
      ensures old(active).None? ==> r == Success(0) && comments == old(comments) && active.None?
      ensures r == Failure(DocumentChanged) <==> old(active).Some? && old(active).value.path != path
      ensures r == Failure(RebindFailed) <==>
                old(active).Some? && old(active).value.path == path && !Found(old(comments), old(active).value)
      ensures r == Failure(CleanupFailed) ==> stuck != {}
      ensures r == Failure(UserCommentChanged) ==> old(active).Some? && !Intact(old(comments), old(active).value)
      ensures old(active).Some? && r.Success? ==>
                && active.None? && r.value == |old(active).value.created|
                && Intact(old(comments), old(active).value)
                && Signs(comments) == Others(old(comments), old(active).value)
      ensures stuck == {} && old(active).Some? && old(active).value.path == path
              && Found(old(comments), old(active).value) ==>
                if Intact(old(comments), old(active).value) then r.Success? else r == Failure(UserCommentChanged)
      ensures old(Kept()) && old(active).Some? && stuck == {} && old(active).value.path == path ==>
                if stray == multiset{} then r.Success? && Signs(comments) == users else r == Failure(UserCommentChanged)
    {
      hide Signs, Distinct, Stored, Signatures, Found, Others, Intact, BatchCleared, Kept;
      var deleted: nat := 0;
      if active.Some? {
        KeptIntact();
      }
      while true
        invariant Valid() && (old(Kept()) ==> Kept())
        invariant old(active).None? ==> active.None? && comments == old(comments) && deleted == 0
        invariant old(active).Some? ==>
                    active.Some? && SameTask(old(comments), old(active).value, comments, active.value, deleted)
        invariant deleted > 0 ==> old(active).Some? && old(active).value.path == path
        decreases if active.Some? then |active.value.created| else 0
      {
        ghost var before, session := comments, active;
        var result := Clear(token, path, HOST_PREVIEW_BATCH_LIMIT, stuck);
        if session.Some? && session.value.path == path {
          BatchOfTask(result, old(comments), old(active).value, before, session.value, deleted, token, comments, active,
                      stuck);
        }
        if result.Failure? {
          return Failure(result.error);
        }
        deleted := deleted + result.value.deleted;
        if result.value.remaining == 0 {
          return Success(deleted);
        }
      }
    }
  }

  /** The clean-up of `first`, after `deleted` of its comments have been deleted. */
  ghost predicate SameTask(before: seq<Comment>, first: Session, comments: seq<Comment>, session: Session,
                           deleted: nat)
  {
    && session.user == first.user && session.path == first.path
    && deleted + |session.created| == |first.created|
    && (Found(comments, session) <==> Found(before, first))
    && (Found(before, first) ==> Others(comments, session) == Others(before, first))
  }

  lemma BatchOfTask(r: Result<Cleared, PreviewError>, before: seq<Comment>, first: Session,
                                       comments: seq<Comment>, session: Session, deleted: nat, token: string,
                                       now: seq<Comment>, active: Option<Session>, stuck: set<nat>)
    requires SameTask(before, first, comments, session, deleted)
    requires BatchCleared(r, comments, now, session.(token := token), active, HOST_PREVIEW_BATCH_LIMIT, stuck)
    ensures r == Failure(RebindFailed) <==> !Found(before, first)
    ensures r.Success? ==> Intact(before, first)
    ensures r == Failure(UserCommentChanged) ==> !Intact(before, first)
    ensures r == Failure(CleanupFailed) ==> stuck != {}
    ensures r.Failure? ==> r.error in {RebindFailed, CleanupFailed, UserCommentChanged}
    ensures r.Success? && r.value.remaining == 0 ==>
              && active.None? && Signs(now) == Others(before, first)
              && deleted + r.value.deleted == |first.created|
    ensures r.Success? && r.value.remaining > 0 ==>
              && active.Some? && SameTask(before, first, now, active.value, deleted + r.value.deleted)
              && |active.value.created| < |session.created|
  {
    hide Signs, Stored;
    assert Found(comments, session) <==> Found(comments, session.(token := token));
    assert Others(comments, session) == Others(comments, session.(token := token));
    if r.Success? {
      if r.value.remaining == 0 {
        assert Others(before, first) + multiset{} == Others(before, first);
      } else {
        OthersAre(now, active.value, Others(before, first));
      }
    }
  }

  /** A batch keeps the balance, and when nobody else has touched the comments it fails on stray comments alone. */
  lemma BatchBalances(r: Result<Cleared, PreviewError>, before: seq<Comment>, comments: seq<Comment>,
                                         session: Session, token: string, active: Option<Session>, batchSize: int,
                                         stuck: set<nat>, users: multiset<Signature>, stray: multiset<Signature>)
    requires BatchCleared(r, before, comments, session.(token := token), active, batchSize, stuck)
    ensures r.Failure? ==> r.error in {RebindFailed, CleanupFailed, UserCommentChanged}
    ensures Balance(before, session, users, stray) ==>
              && (active.Some? ==> Balance(comments, active.value, users, stray))
              && (stuck == {} ==> if stray == multiset{} then r.Success? else r == Failure(UserCommentChanged))
  {
    hide Signs, Stored;
    if Balance(before, session, users, stray) {
      OthersAre(before, session.(token := token), users + stray);
      StrayIsNoticed(users, stray);
    }
  }

  /** What one batch of the clean-up does, whoever has changed the comments before. */
  ghost predicate BatchCleared(r: Result<Cleared, PreviewError>, before: seq<Comment>, comments: seq<Comment>,
                               session: Session, active: Option<Session>, batchSize: int, stuck: set<nat>)
  {
    && (r == Failure(RebindFailed) <==> !Found(before, session))
    && (r == Failure(RebindFailed) ==> comments == before && active == Some(session))
    && (Found(before, session) ==>
          && (r.Success? ==> Intact(before, session))
          && (r.Failure? ==> r.error == CleanupFailed || r.error == UserCommentChanged)
          && (r == Failure(UserCommentChanged) ==> !Intact(before, session))
          && (r == Failure(CleanupFailed) ==> Blocked(before, session.created, stuck))
          && (active.Some? ==>
                && active.value == session.(created := active.value.created)
                && |active.value.created| <= |session.created|
                && Signs(active.value.created) == Signs(session.created[..|active.value.created|]))
          && Signs(comments) == Others(before, session)
                                + (if active.Some? then Signs(active.value.created) else multiset{}))
    && (r.Success? ==>
          && r.value.deleted == (if |session.created| < batchSize then |session.created| else batchSize)
          && r.value.remaining + r.value.deleted == |session.created|
          && (active.None? <==> r.value.remaining == 0)
          && (active.Some? ==> |active.value.created| == r.value.remaining))
    && (active.None? ==> r.Success?)
  }

  /** A comment that could not be given its author makes every later clean-up fail. */
  method StrayBlocksCleanup(comment: Comment)
    returns (applied: Result<nat, PreviewError>, cleared: Result<nat, PreviewError>)
    ensures applied == Failure(CommentLost) && cleared == Failure(UserCommentChanged)
  {
    hide Signs, Stored, Added, Balance, Found, Intact, Others, FirstStray, FirstMiss;
    var service := new PreviewService([]);
    var fates := [Strays(comment, 0)];
    FirstStrayIs(fates, 0);
    FirstMissIs(fates, 0);
    applied := service.Apply("token", "path", "session", fates);
    cleared := service.ClearAll("token", "path", {});
  }
}
