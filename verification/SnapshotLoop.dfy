/** Reading the document in batches: what the host answers, and the worker's loop over it. */
module SnapshotLoop {
  import opened Results
  import opened AdaptiveBatch

  const HOST_PARAGRAPH_BATCH_LIMIT := 10

  datatype SnapshotError = BatchInvalid | BatchEmpty | BatchOverflow

  /** The host's answer to one request: the paragraphs from `start`, at most `size` of them. */
  function Answer<P>(document: seq<P>, start: int, size: int): Result<seq<P>, SnapshotError> {
    if start < 0 || size < 1 || size > HOST_PARAGRAPH_BATCH_LIMIT then Failure(BatchInvalid)
    else if start >= |document| then Success([])
    else Success(document[start..Min(|document|, start + size)])
  }

  method ReadParagraphBatch<P>(document: seq<P>, start: int, size: int) returns (r: Result<seq<P>, SnapshotError>)
    ensures r == Answer(document, start, size)
  {
    if start < 0 || size < 1 || size > HOST_PARAGRAPH_BATCH_LIMIT {
      return Failure(BatchInvalid);
    }
    if start >= |document| {
      return Success([]);
    }
    var end := Min(|document|, start + size);
    var values := [];
    for index := start to end
      invariant values == document[start..index]
    {
      values := values + [document[index]];
    }
    return Success(values);
  }

  /** A request is refused for its numbers alone; otherwise the answer holds the asked paragraphs that exist, in
      order. */
  lemma AnswerExactly<P(!new)>(document: seq<P>, start: int, size: int)
    ensures var answer := Answer(document, start, size);
            && (answer == Failure(BatchInvalid) <==> start < 0 || size <= 0 || size > 10)
            && (answer.Success? ==>
                  && |answer.value| == (if start >= |document| then 0
                                        else if start + size <= |document| then size else |document| - start)
                  && forall i :: 0 <= i < |answer.value| ==>
                       0 <= start + i < |document| && answer.value[i] == document[start + i])
  {
  }

  /** A request the worker may make: within the document and within the host's limit. */
  predicate Allowed(start: nat, size: nat, total: nat) {
    1 <= size <= HOST_PARAGRAPH_BATCH_LIMIT && start + size <= total
  }

  /** Every allowed request is answered with some of the asked paragraphs, from the first on. */
  ghost predicate Obeys<P(!new)>(host: (nat, nat) -> Result<seq<P>, SnapshotError>, document: seq<P>) {
    forall start: nat, size: nat :: Allowed(start, size, |document|) ==>
      && host(start, size).Success?
      && 1 <= |host(start, size).value| <= size
      && host(start, size).value == document[start..start + |host(start, size).value|]
  }

  lemma HostObeys<P(!new)>(document: seq<P>)
    ensures Obeys((start, size) => Answer(document, start, size), document)
  {
    var host := (start: nat, size: nat) => Answer(document, start, size);
    forall start: nat, size: nat | Allowed(start, size, |document|)
      ensures host(start, size) == Success(document[start..start + size])
    {
    }
  }

  /** What the worker makes of an answer to a request for `size` paragraphs. */
  function Accepted<P>(answer: Result<seq<P>, SnapshotError>, size: nat): Result<seq<P>, SnapshotError> {
    if answer.Failure? then answer
    else if answer.value == [] then Failure(BatchEmpty)
    else if |answer.value| > size then Failure(BatchOverflow)
    else answer
  }

  /** The worker's loop, with `host` answering and `duration` telling how long each answer took.  It ends whatever the
      host answers, asks only for what the host allows, stops at the first unusable answer, and from a host that obeys
      it collects exactly the document. */
  method BuildSnapshot<P(!new)>(host: (nat, nat) -> Result<seq<P>, SnapshotError>, total: nat,
                                batch: AdaptiveBatchController,
                                duration: nat -> real, ghost document: seq<P>)
    returns (r: Result<seq<P>, SnapshotError>, requests: seq<(nat, nat)>)
    requires batch.Valid() && 1 <= batch.minimum && batch.maximum <= HOST_PARAGRAPH_BATCH_LIMIT
    requires |document| == total
    modifies batch
    ensures batch.Valid()
    ensures forall k :: 0 <= k < |requests| ==> Allowed(requests[k].0, requests[k].1, total)
    ensures forall k :: 0 <= k < |requests| - 1 ==> Accepted(host(requests[k].0, requests[k].1), requests[k].1).Success?
    ensures r.Failure? ==>
              requests != [] && r == Accepted(host(requests[|requests| - 1].0, requests[|requests| - 1].1),
                  requests[|requests| - 1].1)
    ensures r.Success? ==> |r.value| == total
    ensures Obeys(host, document) ==> r == Success(document)
  {
    var paragraphs: seq<P> := [];
    requests := [];
    var index := 0;
    while index < total
      invariant 0 <= index <= total && |paragraphs| == index && batch.Valid()
      invariant forall k :: 0 <= k < |requests| ==> Allowed(requests[k].0, requests[k].1, total)
      invariant forall k :: 0 <= k < |requests| ==> Accepted(host(requests[k].0, requests[k].1), requests[k].1).Success?
      invariant Obeys(host, document) ==> paragraphs == document[..index]
    {
      var requested := Min(batch.metrics.size, total - index);
      assert Allowed(index, requested, total);
      var answer := host(index, requested);
      requests := requests + [(index, requested)];
      if answer.Failure? {
        return answer, requests;
      }
      if answer.value == [] {
        return Failure(BatchEmpty), requests;
      }
      if |answer.value| > requested {
        return Failure(BatchOverflow), requests;
      }
      paragraphs := paragraphs + answer.value;
      index := index + |answer.value|;
      var size := batch.Record(duration(|requests|));
    }
    assert document[..index] == document;
    return Success(paragraphs), requests;
  }
}
