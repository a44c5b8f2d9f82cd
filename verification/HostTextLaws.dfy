/** What the canonical text is, read off the canonicalizers' results through their own maps. */
module HostTextLaws {
  import opened Utf16
  import opened HostText
  import opened HostTextGolden

  // ---------------------------------------------------------------- units, by their neighbours

  /** Nothing separates a carriage return from its line feed, or the two halves of a surrogate pair. */
  ghost predicate Separates(raw: Text, k: nat)
    requires k <= |raw|
  {
    0 < k < |raw| ==>
      !(raw[k - 1] == 0x0D && raw[k] == 0x0A) && !(0xD800 <= raw[k - 1] <= 0xDBFF && 0xDC00 <= raw[k] <= 0xDFFF)
  }

  ghost predicate Unit(raw: Text, s: nat, e: nat) {
    && s < e <= |raw| && Separates(raw, s) && Separates(raw, e)
    && forall k :: s < k < e ==> !Separates(raw, k)
  }

  /** The canonical text of one unit. */
  ghost predicate Canonized(nfkc: Normalizer, unit: Text, atEnd: bool, piece: Text) {
    if atEnd && unit == [0x07] then piece == []
    else if unit == [0x0D, 0x0A] || unit == [0x0D] || unit == [0x0A] || unit == [0x0B] then piece == [0x0A]
    else if unit == [0xA0] || unit == [0x3000] then piece == [0x20]
    else piece == nfkc(unit)
  }

  lemma BoundaryExactly(raw: Text, k: nat)
    requires k <= |raw|
    ensures UnitBoundary(raw, k) <==> Separates(raw, k)
  {
  }

  lemma UnitIs(raw: Text, s: nat, e: nat)
    requires Unit(raw, s, e)
    ensures UnitBoundary(raw, s) && UnitBoundary(raw, e) && UnitStart(raw, e) == s
    ensures IsBoundary(raw, s) && IsBoundary(raw, e)
  {
    BoundaryExactly(raw, s);
    BoundaryExactly(raw, e);
    var w := UnitWidth(raw, s);
    UnitStep(raw, s);
    BoundaryExactly(raw, s + w);
    if w == 2 {
      BoundaryExactly(raw, s + 1);
    }
  }

  lemma CanonOfUnit(nfkc: Normalizer, raw: Text, s: nat, e: nat)
    requires Unit(raw, s, e)
    ensures Canon(nfkc, raw, s) <= Canon(nfkc, raw, e) <= Canon(nfkc, raw, |raw|)
    ensures Canonized(nfkc, raw[s..e], e == |raw|,
                      Canon(nfkc, raw, |raw|)[|Canon(nfkc, raw, s)|..|Canon(nfkc, raw, e)|])
  {
    UnitIs(raw, s, e);
    CanonGrows(nfkc, raw, s, e);
    CanonGrows(nfkc, raw, e, |raw|);
    SliceBetween(Canon(nfkc, raw, |raw|), Canon(nfkc, raw, s), PieceOf(nfkc, raw, s, e), Canon(nfkc, raw, e));
  }

  /** On the tape: what its map selects for a unit is one line feed for any line break, one space for the two wide
      spaces, nothing for the trailing cell marker, and the normalized unit otherwise. */
  lemma UnitOnTape(nfkc: Normalizer, raw: Text, tape: Tape, s: nat, e: nat)
    requires IsTape(nfkc, raw, tape) && Unit(raw, s, e)
    ensures s in tape.rawToCanonical && e in tape.rawToCanonical
    ensures tape.rawToCanonical[s] <= tape.rawToCanonical[e] <= |tape.canonical|
    ensures Canonized(nfkc, raw[s..e], e == |raw|, tape.canonical[tape.rawToCanonical[s]..tape.rawToCanonical[e]])
    ensures s == 0 ==> tape.rawToCanonical[s] == 0
    ensures e == |raw| ==> tape.rawToCanonical[e] == |tape.canonical|
    ensures tape.warning <==> raw[|raw| - 1] == 0x07
  {
    hide Canon, Canonized;
    UnitIs(raw, s, e);
    CanonOfUnit(nfkc, raw, s, e);
    NothingBefore(nfkc, raw);
  }

  lemma NothingBefore(nfkc: Normalizer, raw: Text)
    ensures Canon(nfkc, raw, 0) == []
  {
  }

  /** The same on the arrays of the second canonicalizer, which count characters. */
  lemma UnitOnGolden(nfkc: Normalizer, raw: Text, golden: Golden, s: nat, e: nat)
    requires GoldenUpTo(nfkc, raw, |raw|, golden) && Unit(raw, s, e)
    ensures Ordinal(raw, s) < |golden.rawToCanonical| && Ordinal(raw, e) < |golden.rawToCanonical|
    ensures var from, to := golden.rawToCanonical[Ordinal(raw, s)], golden.rawToCanonical[Ordinal(raw, e)];
            && from <= to <= |golden.canonical|
            && Canonized(nfkc, raw[s..e], e == |raw|, golden.canonical[from..to])
            && (s == 0 ==> from == 0) && (e == |raw| ==> to == |golden.canonical|)
  {
    hide Canon, Canonized, GoldenRaw, Ordinal;
    UnitIs(raw, s, e);
    CanonOfUnit(nfkc, raw, s, e);
    NothingBefore(nfkc, raw);
    GoldenRawAt(nfkc, raw, |raw|, s);
    GoldenRawAt(nfkc, raw, |raw|, e);
  }

  // ---------------------------------------------------------------- line breaks are alike

  /** The canonical text from left to right. */
  ghost function FromLeft(nfkc: Normalizer, raw: Text): Text
    decreases |raw|
  {
    if raw == [] then []
    else
      var w := UnitWidth(raw, 0);
      PieceOf(nfkc, raw, 0, w) + FromLeft(nfkc, raw[w..])
  }

  lemma WidthInside(raw: Text, k: nat)
    requires k < |raw|
    ensures UnitWidth(raw[k..], 0) == UnitWidth(raw, k)
  {
  }

  lemma {:induction false} CanonFrom(nfkc: Normalizer, raw: Text, k: nat)
    requires k <= |raw| && UnitBoundary(raw, k)
    ensures Canon(nfkc, raw, |raw|) == Canon(nfkc, raw, k) + FromLeft(nfkc, raw[k..])
    decreases |raw| - k
  {
    hide IsBoundary, CanonicalPiece;
    if k < |raw| {
      var w := UnitWidth(raw, k);
      WidthInside(raw, k);
      UnitStep(raw, k);
      CanonFrom(nfkc, raw, k + w);
      assert raw[k..][w..] == raw[k + w..] && raw[k..][0..w] == raw[k..k + w];
    }
  }

  lemma CanonIsFromLeft(nfkc: Normalizer, raw: Text)
    ensures Canon(nfkc, raw, |raw|) == FromLeft(nfkc, raw)
  {
    hide Canon, FromLeft;
    BoundaryExactly(raw, 0);
    NothingBefore(nfkc, raw);
    CanonFrom(nfkc, raw, 0);
    assert raw[0..] == raw;
  }

  /** Every kind of line break written as a line feed. */
  function LineFeeds(raw: Text): Text
    decreases |raw|
  {
    if raw == [] then []
    else if raw[0] == 0x0D && |raw| > 1 && raw[1] == 0x0A then [0x0A] + LineFeeds(raw[2..])
    else if raw[0] == 0x0D || raw[0] == 0x0B then [0x0A] + LineFeeds(raw[1..])
    else [raw[0]] + LineFeeds(raw[1..])
  }

  lemma LineFeedsStart(raw: Text)
    ensures raw == [] <==> LineFeeds(raw) == []
    ensures raw != [] ==> LineFeeds(raw)[0] == if raw[0] == 0x0D || raw[0] == 0x0B then 0x0A else raw[0]
  {
  }

  /** The first unit, with its line break written as a line feed. */
  lemma FirstUnit(raw: Text)
    requires raw != []
    ensures var w, other := UnitWidth(raw, 0), LineFeeds(raw);
            && LineFeeds(raw) == (if raw[0] == 0x0D || raw[0] == 0x0B then [0x0A] else raw[..w]) + LineFeeds(raw[w..])
            && UnitWidth(other, 0) == (if raw[0] == 0x0D || raw[0] == 0x0B then 1 else w)
  {
    LineFeedsStart(raw);
    LineFeedsStart(raw[1..]);
    if UnitWidth(raw, 0) == 2 && raw[0] != 0x0D {
      assert raw[1..][1..] == raw[2..];
      assert raw[..2] == [raw[0], raw[1]];
    } else if UnitWidth(raw, 0) == 1 {
      assert raw[..1] == [raw[0]];
    }
  }

  lemma SamePiece(nfkc: Normalizer, raw: Text)
    requires raw != []
    ensures var other := LineFeeds(raw);
            && other != []
            && PieceOf(nfkc, other, 0, UnitWidth(other, 0)) == PieceOf(nfkc, raw, 0, UnitWidth(raw, 0))
            && other[UnitWidth(other, 0)..] == LineFeeds(raw[UnitWidth(raw, 0)..])
  {
    var w, other := UnitWidth(raw, 0), LineFeeds(raw);
    FirstUnit(raw);
    LineFeedsStart(raw);
    LineFeedsStart(raw[w..]);
    assert raw[0..w] == raw[..w] && other[0..UnitWidth(other, 0)] == other[..UnitWidth(other, 0)];
    if raw[0] == 0x0D || raw[0] == 0x0B {
      assert raw[..w] == if w == 2 then [raw[0], raw[1]] else [raw[0]];
      assert other[..1] == [0x0A];
    } else {
      assert other[..w] == raw[..w];
    }
  }

  lemma {:induction false} LineFeedsFromLeft(nfkc: Normalizer, raw: Text)
    ensures FromLeft(nfkc, LineFeeds(raw)) == FromLeft(nfkc, raw)
    decreases |raw|
  {
    hide PieceOf, LineFeeds, UnitWidth;
    if raw == [] {
      LineFeedsStart(raw);
    } else {
      SamePiece(nfkc, raw);
      LineFeedsFromLeft(nfkc, raw[UnitWidth(raw, 0)..]);
    }
  }

  /** Which kind of line break a text has makes no difference to its canonical text. */
  lemma LineBreaksAlike(nfkc: Normalizer, raw: Text, tape: Tape, other: Tape)
    requires IsTape(nfkc, raw, tape) && IsTape(nfkc, LineFeeds(raw), other)
    ensures tape.canonical == other.canonical
  {
    CanonIsFromLeft(nfkc, raw);
    CanonIsFromLeft(nfkc, LineFeeds(raw));
    LineFeedsFromLeft(nfkc, raw);
  }

  // ---------------------------------------------------------------- the editor's terminators

  /** Ends in none of the editor's terminators. */
  ghost predicate Bare(t: Text) {
    t == [] || (t[|t| - 1] != 0x0D && t[|t| - 1] != 0x07 && !(|t| >= 2 && t[|t| - 2] == 0x0D && t[|t| - 1] == 0x0C))
  }

  /** Exactly the terminators go: a paragraph mark, a cell marker with or without one before it, and either of them
      before the pair that closes a section; a text that ends in none of them stays. */
  lemma StripExactly(t: Text)
    ensures Bare(t) ==> Strip(t) == t
    ensures Strip(t + [0x0D]) == t && Strip(t + [0x0D, 0x07]) == t
    ensures Strip(t + [0x0D, 0x0D, 0x0C]) == t && Strip(t + [0x0D, 0x07, 0x0D, 0x0C]) == t
    ensures (t == [] || t[|t| - 1] != 0x0D) ==> Strip(t + [0x07]) == t && Strip(t + [0x07, 0x0D, 0x0C]) == t
    ensures (t == [] || (t[|t| - 1] != 0x0D && t[|t| - 1] != 0x07)) ==> Strip(t + [0x0D, 0x0C]) == t
  {
    hide Strip;
    StripMark(t);
    StripCell(t);
    if Bare(t) {
      StripBare(t);
    }
    StripSection(t);
    StripSection(t + [0x0D]);
    StripSection(t + [0x07]);
    StripSection(t + [0x0D, 0x07]);
    assert t + [0x0D] + [0x0D, 0x0C] == t + [0x0D, 0x0D, 0x0C];
    assert t + [0x07] + [0x0D, 0x0C] == t + [0x07, 0x0D, 0x0C];
    assert t + [0x0D, 0x07] + [0x0D, 0x0C] == t + [0x0D, 0x07, 0x0D, 0x0C];
  }

  lemma StripBare(t: Text)
    requires Bare(t)
    ensures Strip(t) == t
  {
  }

  lemma StripMark(t: Text)
    ensures Strip(t + [0x0D]) == t
  {
    assert (t + [0x0D])[..|t|] == t;
  }

  lemma StripCell(t: Text)
    ensures Strip(t + [0x0D, 0x07]) == t
    ensures (t == [] || t[|t| - 1] != 0x0D) ==> Strip(t + [0x07]) == t
  {
    assert (t + [0x0D, 0x07])[..|t| + 1] == t + [0x0D] && (t + [0x0D])[..|t|] == t && (t + [0x07])[..|t|] == t;
  }

  /** The section's pair hides nothing from the other two rules but a pair of its own. */
  lemma StripSection(t: Text)
    ensures (t == [] || (t[|t| - 1] != 0x0D && t[|t| - 1] != 0x07)) ==> Strip(t + [0x0D, 0x0C]) == t
    ensures t != [] && t[|t| - 1] != 0x0C ==> Strip(t + [0x0D, 0x0C]) == Strip(t)
  {
    assert (t + [0x0D, 0x0C])[..|t|] == t;
  }
}
