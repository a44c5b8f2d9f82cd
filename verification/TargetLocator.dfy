/** From a UTF-16 target range to the characters of the live paragraph. */
module TargetLocator {
  import opened Results
  import opened Utf16
  import opened HostText

  datatype Target = Target(rawHash: Digest, start: int, end: int, textHash: Digest)

  datatype LocateError = ParagraphChanged | OutOfBounds | HashMismatch | BoundaryInvalid | TextMismatch

  /** An accepted slice has character boundaries at both ends; of the ranges between boundaries only those
      touching an unpaired low surrogate are refused. */
  lemma SliceAccepted(t: Text, start: int, end: int)
    ensures RawSlice(t, start, end).Some? <==>
            && 0 <= start < end <= |t| && IsBoundary(t, start) && IsBoundary(t, end)
            && !IsLow(t[start]) && (end < |t| ==> !IsLow(t[end]))
  {
  }

  /** The characters number first + 1 to last, counted from 1, of an accepted range spell exactly its slice. */
  lemma SliceIsCharacters(t: Text, start: int, end: int)
    requires RawSlice(t, start, end).Some?
    ensures OrdinalAt(t, start).Some? && OrdinalAt(t, end).Some?
    ensures var first, last := OrdinalAt(t, start).value, OrdinalAt(t, end).value;
            first < last <= |Chars(t)| && Concat(Chars(t)[first..last]) == RawSlice(t, start, end).value
  {
    SliceAccepted(t, start, end);
    CharsBetween(t, start, end);
    OrdinalMonotone(t, start, end);
  }

  /** The locator: verify the paragraph, slice it, verify the slice, count characters, read the range back. */
  method Locate(rawText: Text, target: Target) returns (r: Result<(nat, nat), LocateError>)
    ensures r.Success? <==>
            && Sha256(rawText) == target.rawHash
            && RawSlice(rawText, target.start, target.end).Some?
            && Sha256(RawSlice(rawText, target.start, target.end).value) == target.textHash
            && Strip(RawSlice(rawText, target.start, target.end).value) ==
                 RawSlice(rawText, target.start, target.end).value
    ensures r.Success? ==>
              r.value.0 < r.value.1 <= |Chars(rawText)|
              && Sha256(Concat(Chars(rawText)[r.value.0..r.value.1])) == target.textHash
    ensures r != Failure(BoundaryInvalid)
    ensures r == Failure(ParagraphChanged) <==> Sha256(rawText) != target.rawHash
    ensures r == Failure(OutOfBounds) <==>
              Sha256(rawText) == target.rawHash && RawSlice(rawText, target.start, target.end) == None
    ensures r == Failure(HashMismatch) <==>
              && Sha256(rawText) == target.rawHash && RawSlice(rawText, target.start, target.end).Some?
              && Sha256(RawSlice(rawText, target.start, target.end).value) != target.textHash
    ensures r == Failure(TextMismatch) <==>
              && Sha256(rawText) == target.rawHash && RawSlice(rawText, target.start, target.end).Some?
              && Sha256(RawSlice(rawText, target.start, target.end).value) == target.textHash
              && Strip(RawSlice(rawText, target.start, target.end).value)
                 != RawSlice(rawText, target.start, target.end).value
  {
    if Sha256(rawText) != target.rawHash {
      return Failure(ParagraphChanged);
    }
    var fragment := RawSlice(rawText, target.start, target.end);
    if fragment == None {
      return Failure(OutOfBounds);
    }
    if Sha256(fragment.value) != target.textHash {
      return Failure(HashMismatch);
    }
    SliceIsCharacters(rawText, target.start, target.end);
    var first := CharacterOrdinal(rawText, target.start);
    var last := CharacterOrdinal(rawText, target.end);
    if first == None || last == None {
      return Failure(BoundaryInvalid);
    }
    var readback := Strip(Concat(Chars(rawText)[first.value..last.value]));
    if Sha256(readback) != target.textHash {
      return Failure(TextMismatch);
    }
    return Success((first.value, last.value));
  }
}
