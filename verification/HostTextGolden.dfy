/** The second canonicalizer, whose arrays are indexed by characters, and its agreement with the first. */
module HostTextGolden {
  import opened Utf16
  import opened HostText

  datatype Golden = Golden(canonical: Text, rawToCanonical: seq<nat>, canonicalToRawIndex: seq<nat>, warning: bool)

  /** The canonical offset at each character index of the units before `k`. */
  function GoldenRaw(nfkc: Normalizer, raw: Text, k: nat): seq<nat>
    requires k <= |raw| && UnitBoundary(raw, k)
  {
    if k == 0 then [0]
    else
      var s := UnitStart(raw, k);
      GoldenRaw(nfkc, raw, s)
      + (if raw[s..k] == [CR, LF] then [|Canon(nfkc, raw, s)|] else [])
      + [|Canon(nfkc, raw, k)|]
  }

  /** The character index recorded for each canonical character. */
  function GoldenEnds(nfkc: Normalizer, raw: Text, k: nat): (r: seq<nat>)
    requires k <= |raw| && UnitBoundary(raw, k)
    ensures |r| == |Offsets(nfkc, raw, k)|
  {
    if k == 0 then [0]
    else
      var s := UnitStart(raw, k);
      GoldenEnds(nfkc, raw, s) + Repeat(Ordinal(raw, k), |Chars(PieceOf(nfkc, raw, s, k))|)
  }

  ghost predicate GoldenUpTo(nfkc: Normalizer, raw: Text, k: nat, golden: Golden) {
    && k <= |raw| && UnitBoundary(raw, k)
    && golden.canonical == Canon(nfkc, raw, k)
    && golden.rawToCanonical == GoldenRaw(nfkc, raw, k)
    && golden.canonicalToRawIndex == GoldenEnds(nfkc, raw, k)
  }

  lemma OrdinalOfUnit(raw: Text, k: nat)
    requires k < |raw| && UnitBoundary(raw, k)
    ensures var next := k + UnitWidth(raw, k);
            Ordinal(raw, next) == Ordinal(raw, k) + if raw[k..next] == [CR, LF] then 2 else 1
  {
    var next := k + UnitWidth(raw, k);
    UnitStep(raw, k);
    if raw[k..next] == [CR, LF] {
      BoundaryInUnit((t: Text) => t, raw, k, k + 1);
      assert next == k + 2;
      assert IsBoundary(raw, k) && IsBoundary(raw, k + 1);
      assert Ordinal(raw, k + 1) == Ordinal(raw, k) + 1;
    } else {
      NoMiddle(raw, k);
      OrdinalStep(raw, k);
      if next == k + 2 {
        assert raw[k..next] == [raw[k], raw[k + 1]];
      }
    }
  }

  /** The inner loop over the characters of one piece: text, and one index per character. */
  method PushPiece(ends: seq<nat>, piece: Text, index: nat) returns (ends': seq<nat>, text: Text)
    ensures ends' == ends + Repeat(index, |Chars(piece)|) && text == piece
  {
    var chars := Chars(piece);
    ends', text := ends, [];
    assert chars[..0] == [];
    for n := 0 to |chars|
      invariant text == Concat(chars[..n]) && ends' == ends + Repeat(index, n)
    {
      ConcatGrows(chars, n);
      text := text + chars[n];
      ends' := ends' + [index];
      assert Repeat(index, n) + [index] == Repeat(index, n + 1);
    }
    CharsInSlice(piece, 0, |piece|);
    assert chars[..|chars|] == chars && piece[0..|piece|] == piece;
  }

  /** One turn of the loop, with the character index counted along. */
  method AddGoldenUnit(nfkc: Normalizer, raw: Text, golden: Golden, k: nat, index: nat)
    returns (golden': Golden, next: nat, index': nat)
    requires k < |raw| && GoldenUpTo(nfkc, raw, k, golden) && index == Ordinal(raw, k)
    ensures k < next && GoldenUpTo(nfkc, raw, next, golden') && index' == Ordinal(raw, next)
    ensures golden'.warning == golden.warning
  {
    hide Ordinal, CanonicalPiece, IsBoundary;
    UnitStep(raw, k);
    OrdinalOfUnit(raw, k);
    next := k + UnitWidth(raw, k);
    var value := raw[k..next];
    index' := index + if value == [CR, LF] then 2 else 1;
    var piece, marker := NextPiece(nfkc, raw, k, value);
    var ends, text := PushPiece(golden.canonicalToRawIndex, piece, index');
    var canonical := golden.canonical + text;
    var boundaries := golden.rawToCanonical + if value == [CR, LF] then [|golden.canonical|] else [];
    golden' := Golden(canonical, boundaries + [|canonical|], ends, golden.warning);
  }

  method Canonicalize(nfkc: Normalizer, raw: Text) returns (golden: Golden)
    ensures GoldenUpTo(nfkc, raw, |raw|, golden) && golden.warning == Warned(raw)
  {
    golden := Golden([], [0], [0], Warned(raw));
    var codeUnitIndex, rawIndex := 0, 0;
    while codeUnitIndex < |raw|
      invariant GoldenUpTo(nfkc, raw, codeUnitIndex, golden) && rawIndex == Ordinal(raw, codeUnitIndex)
      invariant golden.warning == Warned(raw)
      decreases |raw| - codeUnitIndex
    {
      golden, codeUnitIndex, rawIndex := AddGoldenUnit(nfkc, raw, golden, codeUnitIndex, rawIndex);
    }
  }

  // ---------------------------------------------------------------- agreement

  lemma {:induction false} GoldenRawLength(nfkc: Normalizer, raw: Text, k: nat)
    requires k <= |raw| && UnitBoundary(raw, k)
    ensures |GoldenRaw(nfkc, raw, k)| == Ordinal(raw, k) + 1
    decreases k
  {
    if k > 0 {
      GoldenRawLength(nfkc, raw, UnitStart(raw, k));
      UnitOfEnd(raw, k);
      OrdinalOfUnit(raw, UnitStart(raw, k));
    }
  }

  /** At the index of every character boundary stands its canonical offset. */
  lemma {:induction false} GoldenRawAt(nfkc: Normalizer, raw: Text, k: nat, r: nat)
    requires r <= k <= |raw| && UnitBoundary(raw, k) && IsBoundary(raw, r)
    ensures Ordinal(raw, r) < |GoldenRaw(nfkc, raw, k)|
    ensures GoldenRaw(nfkc, raw, k)[Ordinal(raw, r)] == |Canon(nfkc, raw, r)|
    decreases k
  {
    OrdinalMonotone(raw, r, k);
    GoldenRawLength(nfkc, raw, k);
    if k > 0 {
      var s := UnitStart(raw, k);
      if r <= s {
        GoldenRawAt(nfkc, raw, s, r);
      } else {
        GoldenRawInUnit(nfkc, raw, k, r);
      }
    }
  }

  lemma {:induction false} GoldenRawInUnit(nfkc: Normalizer, raw: Text, k: nat, r: nat)
    requires 0 < k <= |raw| && UnitBoundary(raw, k) && UnitStart(raw, k) < r <= k && IsBoundary(raw, r)
    requires Ordinal(raw, r) < |GoldenRaw(nfkc, raw, k)|
    ensures GoldenRaw(nfkc, raw, k)[Ordinal(raw, r)] == |Canon(nfkc, raw, r)|
  {
    hide PieceOf, CanonicalPiece;
    var s := UnitStart(raw, k);
    UnitOfEnd(raw, k);
    OrdinalOfUnit(raw, s);
    GoldenRawLength(nfkc, raw, s);
    GoldenRawLength(nfkc, raw, k);
    BoundaryInUnit(nfkc, raw, s, r);
    if r != k {
      assert raw[s..k] == [CR, LF] && r == s + 1;
    }
  }

  lemma {:induction false} GoldenEndsAt(nfkc: Normalizer, raw: Text, k: nat, j: nat)
    requires k <= |raw| && UnitBoundary(raw, k) && j < |Offsets(nfkc, raw, k)|
    ensures Ends(nfkc, raw, k)[j] <= k && IsBoundary(raw, Ends(nfkc, raw, k)[j])
    ensures GoldenEnds(nfkc, raw, k)[j] == Ordinal(raw, Ends(nfkc, raw, k)[j])
    decreases k
  {
    if k > 0 && j < |Offsets(nfkc, raw, UnitStart(raw, k))| {
      GoldenEndsAt(nfkc, raw, UnitStart(raw, k), j);
    }
  }

  /** Both canonicalizers yield the same text and warning on every string, and the character-indexed arrays are
      the UTF-16 maps with every index turned into the offset of its character. */
  lemma {:induction false} CanonicalizersAgree(nfkc: Normalizer, raw: Text, tape: Tape, golden: Golden)
    requires IsTape(nfkc, raw, tape)
    requires GoldenUpTo(nfkc, raw, |raw|, golden) && golden.warning == Warned(raw)
    ensures golden.canonical == tape.canonical && golden.warning == tape.warning
    ensures |golden.rawToCanonical| == CharCount(raw) + 1
    ensures forall i: nat :: i <= CharCount(raw) ==>
              CharStart(raw, i) in tape.rawToCanonical
              && golden.rawToCanonical[i] == tape.rawToCanonical[CharStart(raw, i)]
    ensures |golden.canonicalToRawIndex| == |Offsets(nfkc, raw, |raw|)|
    ensures forall j :: 0 <= j < |golden.canonicalToRawIndex| ==>
              Offsets(nfkc, raw, |raw|)[j] in tape.canonicalToRaw
              && golden.canonicalToRawIndex[j] <= CharCount(raw)
              && CharStart(raw, golden.canonicalToRawIndex[j]) == tape.canonicalToRaw[Offsets(nfkc, raw, |raw|)[j]]
    ensures forall c :: c in tape.canonicalToRaw ==> c in Offsets(nfkc, raw, |raw|)
    ensures forall r :: r in tape.rawToCanonical ==>
              0 <= r <= |raw| && IsBoundary(raw, r) && Ordinal(raw, r) <= CharCount(raw)
                  && CharStart(raw, Ordinal(raw, r)) == r
  {
    GoldenRawLength(nfkc, raw, |raw|);
    forall i: nat | i <= CharCount(raw)
      ensures CharStart(raw, i) in tape.rawToCanonical
      ensures golden.rawToCanonical[i] == tape.rawToCanonical[CharStart(raw, i)]
    {
      GoldenRawAt(nfkc, raw, |raw|, CharStart(raw, i));
    }
    forall j | 0 <= j < |golden.canonicalToRawIndex|
      ensures golden.canonicalToRawIndex[j] <= CharCount(raw)
      ensures Offsets(nfkc, raw, |raw|)[j] in tape.canonicalToRaw
      ensures CharStart(raw, golden.canonicalToRawIndex[j]) == tape.canonicalToRaw[Offsets(nfkc, raw, |raw|)[j]]
    {
      GoldenEndsAt(nfkc, raw, |raw|, j);
      CharStartIs(raw, Ends(nfkc, raw, |raw|)[j]);
    }
    forall r | r in tape.rawToCanonical
      ensures Ordinal(raw, r) <= CharCount(raw) && CharStart(raw, Ordinal(raw, r)) == r
    {
      CharStartIs(raw, r);
    }
  }
}
