/** host-text-v1: terminators, the two canonicalizers with their offset maps, and the slices built on them. */
module HostText {
  import opened Results
  import opened Utf16

  /** Drop the editor's own terminators, in this order: `\r\f`, `\x07`, `\r`. */
  function Strip(t: Text): Text {
    var a := if |t| >= 2 && t[|t| - 2] == CR && t[|t| - 1] == FF then t[..|t| - 2] else t;
    var b := if |a| >= 1 && a[|a| - 1] == BEL then a[..|a| - 1] else a;
    if |b| >= 1 && b[|b| - 1] == CR then b[..|b| - 1] else b
  }

  /** The slice of a UTF-16 range, refused when an end is out of order, out of bounds or at a low surrogate. */
  function RawSlice(t: Text, start: int, end: int): Option<Text> {
    if start < 0 || end <= start || end > |t| then None
    else if IsLow(t[start]) || (end < |t| && IsLow(t[end])) then None
    else Some(t[start..end])
  }

  // ---------------------------------------------------------------- pieces

  /** NFKC is a parameter: what it makes of one code point. */
  type Normalizer = Text -> Text

  function CanonicalPiece(nfkc: Normalizer, value: Text): Text {
    if value == [CR, LF] || value == [CR] || value == [LF] || value == [VT] then [LF]
    else if value == [0xA0] || value == [0x3000] then [0x20]
    else nfkc(value)
  }

  /** Offsets where one canonicalized unit ends and the next starts: character boundaries outside CRLF. */
  predicate UnitBoundary(raw: Text, k: nat)
    requires k <= |raw|
  {
    IsBoundary(raw, k) && !(0 < k < |raw| && raw[k - 1] == CR && raw[k] == LF)
  }

  /** How much the loop consumes at a unit boundary. */
  function UnitWidth(raw: Text, k: nat): (w: nat)
    requires k < |raw|
    ensures 1 <= w && k + w <= |raw|
  {
    if k + 1 < |raw| && raw[k] == CR && raw[k + 1] == LF then 2 else Width(raw, k)
  }

  /** Where the unit that ends at `k` starts. */
  function UnitStart(raw: Text, k: nat): (s: nat)
    requires 0 < k <= |raw| && UnitBoundary(raw, k)
    ensures s < k && UnitBoundary(raw, s)
  {
    if UnitBoundary(raw, k - 1) then k - 1 else k - 2
  }

  predicate IsTrailingMarker(raw: Text, s: nat, e: nat)
    requires s <= e <= |raw|
  {
    raw[s..e] == [BEL] && e == |raw|
  }

  function PieceOf(nfkc: Normalizer, raw: Text, s: nat, e: nat): Text
    requires s <= e <= |raw|
  {
    if IsTrailingMarker(raw, s, e) then [] else CanonicalPiece(nfkc, raw[s..e])
  }

  /** The canonical text of what precedes offset `k`; inside a unit, of what precedes the unit. */
  function Canon(nfkc: Normalizer, raw: Text, k: nat): Text
    requires k <= |raw|
  {
    if k == 0 then []
    else if !UnitBoundary(raw, k) then Canon(nfkc, raw, k - 1)
    else Canon(nfkc, raw, UnitStart(raw, k)) + PieceOf(nfkc, raw, UnitStart(raw, k), k)
  }

  lemma UnitStep(raw: Text, k: nat)
    requires k < |raw| && UnitBoundary(raw, k)
    ensures UnitBoundary(raw, k + UnitWidth(raw, k)) && UnitStart(raw, k + UnitWidth(raw, k)) == k
    ensures UnitWidth(raw, k) == 2 ==> !UnitBoundary(raw, k + 1)
  {
    OrdinalStep(raw, k);
  }

  // ---------------------------------------------------------------- the offset lists

  /** The canonical offsets after each of the first n characters, counted on from `base`. */
  function CharEnds(base: nat, chars: seq<Text>, n: nat): (r: seq<nat>)
    requires n <= |chars|
    ensures |r| == n
  {
    if n == 0 then [] else CharEnds(base, chars, n - 1) + [base + |Concat(chars[..n])|]
  }

  function Repeat(e: nat, n: nat): (r: seq<nat>)
    ensures |r| == n && forall i :: 0 <= i < n ==> r[i] == e
  {
    seq(n, _ => e)
  }

  /** The recorded canonical offsets, for the units before `k`. */
  function Offsets(nfkc: Normalizer, raw: Text, k: nat): (r: seq<nat>)
    requires k <= |raw| && UnitBoundary(raw, k)
    ensures |r| >= 1
  {
    if k == 0 then [0]
    else
      var s := UnitStart(raw, k);
      var chars := Chars(PieceOf(nfkc, raw, s, k));
      Offsets(nfkc, raw, s) + CharEnds(|Canon(nfkc, raw, s)|, chars, |chars|)
  }

  /** The raw offset recorded for each of them: the end of its unit. */
  function Ends(nfkc: Normalizer, raw: Text, k: nat): (r: seq<nat>)
    requires k <= |raw| && UnitBoundary(raw, k)
    ensures |r| == |Offsets(nfkc, raw, k)|
  {
    if k == 0 then [0]
    else
      var s := UnitStart(raw, k);
      Ends(nfkc, raw, s) + Repeat(k, |Chars(PieceOf(nfkc, raw, s, k))|)
  }

  function Warned(raw: Text): bool { |raw| > 0 && raw[|raw| - 1] == BEL }

  // ---------------------------------------------------------------- monotonicity

  lemma {:induction false} CanonGrows(nfkc: Normalizer, raw: Text, a: nat, b: nat)
    requires a <= b <= |raw|
    ensures Canon(nfkc, raw, a) <= Canon(nfkc, raw, b)
    decreases b
  {
    hide PieceOf;
    if a < b {
      if UnitBoundary(raw, b) {
        if a <= UnitStart(raw, b) {
          CanonGrows(nfkc, raw, a, UnitStart(raw, b));
        } else {
          assert !UnitBoundary(raw, a) && a == UnitStart(raw, b) + 1;
        }
      } else {
        CanonGrows(nfkc, raw, a, b - 1);
      }
    }
  }

  lemma ConcatGrows(chars: seq<Text>, n: nat)
    requires n < |chars|
    ensures Concat(chars[..n + 1]) == Concat(chars[..n]) + chars[n]
  {
    assert chars[..n + 1] == chars[..n] + [chars[n]];
    ConcatAppend(chars[..n], chars[n]);
  }

  lemma {:induction false} CharsNonEmpty(t: Text, a: nat, b: nat)
    requires a <= b <= |t| && IsBoundary(t, a) && IsBoundary(t, b)
    ensures forall i :: 0 <= i < |CharsIn(t, a, b)| ==> CharsIn(t, a, b)[i] != []
    decreases b - a
  {
    if a < b {
      CharsNonEmpty(t, a + Width(t, a), b);
    }
  }

  /** The offsets after the characters of a piece are increasing, and the last one is the end of the piece. */
  lemma {:induction false} CharEndsAre(base: nat, piece: Text, n: nat)
    requires n <= |Chars(piece)|
    ensures var r := CharEnds(base, Chars(piece), n);
            && (forall i :: 0 <= i < n ==> base < r[i] <= base + |Concat(Chars(piece)[..n])|)
            && (forall i, j :: 0 <= i < j < n ==> r[i] < r[j])
            && (n > 0 ==> r[n - 1] == base + |Concat(Chars(piece)[..n])|)
            && |Concat(Chars(piece)[..n])| <= |piece|
            && (n == |Chars(piece)| ==> Concat(Chars(piece)[..n]) == piece)
            && (n < |Chars(piece)| ==> |Concat(Chars(piece)[..n])| < |piece|)
  {
    CharsInSlice(piece, 0, |piece|);
    var chars := Chars(piece);
    assert chars[..|chars|] == chars && piece[0..|piece|] == piece;
    CharPrefix(base, piece, n);
    PrefixLength(piece, n);
  }

  lemma {:induction false} CharPrefix(base: nat, piece: Text, n: nat)
    requires n <= |Chars(piece)|
    ensures forall i :: 0 <= i < n ==> base < CharEnds(base, Chars(piece), n)[i] <= base + |Concat(Chars(piece)[..n])|
    ensures forall i, j :: 0 <= i < j < n ==> CharEnds(base, Chars(piece), n)[i] < CharEnds(base, Chars(piece), n)[j]
    decreases n
  {
    if n > 0 {
      CharPrefix(base, piece, n - 1);
      ConcatGrows(Chars(piece), n - 1);
      CharsNonEmpty(piece, 0, |piece|);
    }
  }

  lemma PrefixLength(piece: Text, n: nat)
    requires n <= |Chars(piece)|
    ensures |Concat(Chars(piece)[..n])| <= |Concat(Chars(piece))|
    ensures n < |Chars(piece)| ==> |Concat(Chars(piece)[..n])| < |Concat(Chars(piece))|
    decreases |Chars(piece)| - n
  {
    if n < |Chars(piece)| {
      PrefixLength(piece, n + 1);
      ConcatGrows(Chars(piece), n);
      CharsNonEmpty(piece, 0, |piece|);
    } else {
      assert Chars(piece)[..n] == Chars(piece);
    }
  }

  // ---------------------------------------------------------------- the recorded pairs

  /** What every recorded pair satisfies: the offset lies within the piece of the unit that ends there. */
  ghost predicate PairFits(nfkc: Normalizer, raw: Text, c: nat, e: nat) {
    e <= |raw| && UnitBoundary(raw, e) &&
    if e == 0 then c == 0
    else |Canon(nfkc, raw, UnitStart(raw, e))| < c <= |Canon(nfkc, raw, e)|
  }

  lemma {:induction false} PairsFit(nfkc: Normalizer, raw: Text, k: nat)
    requires k <= |raw| && UnitBoundary(raw, k)
    ensures forall j :: 0 <= j < |Offsets(nfkc, raw, k)| ==>
              PairFits(nfkc, raw, Offsets(nfkc, raw, k)[j], Ends(nfkc, raw, k)[j]) && Ends(nfkc, raw, k)[j] <= k
    decreases k
  {
    if k > 0 {
      var s := UnitStart(raw, k);
      var piece := PieceOf(nfkc, raw, s, k);
      PairsFit(nfkc, raw, s);
      CharEndsAre(|Canon(nfkc, raw, s)|, piece, |Chars(piece)|);
    }
  }

  /** Strictly increasing, ending at n. */
  ghost predicate AscendsTo(s: seq<nat>, n: nat) {
    && s != [] && s[|s| - 1] == n
    && (forall i :: 0 <= i < |s| ==> s[i] <= n)
    && (forall i, j :: 0 <= i < j < |s| ==> s[i] < s[j])
  }

  lemma {:induction false} OffsetsAscend(nfkc: Normalizer, raw: Text, k: nat)
    requires k <= |raw| && UnitBoundary(raw, k)
    ensures AscendsTo(Offsets(nfkc, raw, k), |Canon(nfkc, raw, k)|)
    decreases k
  {
    if k > 0 {
      var s := UnitStart(raw, k);
      OffsetsAscend(nfkc, raw, s);
      AscendOverPiece(Offsets(nfkc, raw, s), |Canon(nfkc, raw, s)|, PieceOf(nfkc, raw, s, k));
    }
  }

  lemma {:induction false} AscendOverPiece(offsets: seq<nat>, base: nat, piece: Text)
    requires AscendsTo(offsets, base)
    ensures AscendsTo(offsets + CharEnds(base, Chars(piece), |Chars(piece)|), base + |piece|)
  {
    var more := CharEnds(base, Chars(piece), |Chars(piece)|);
    CharEndsAre(base, piece, |Chars(piece)|);
    CharsOfNothing(piece);
    if more == [] {
      assert offsets + more == offsets;
    }
  }

  lemma CharsOfNothing(t: Text)
    ensures |Chars(t)| == 0 <==> t == []
  {
    CharsInSlice(t, 0, |t|);
    assert t[0..|t|] == t;
  }

  /** Nothing before the end of a unit is canonicalized to more than what precedes the unit. */
  lemma {:induction false} CanonBelow(nfkc: Normalizer, raw: Text, e: nat, r: nat)
    requires 0 < e <= |raw| && UnitBoundary(raw, e) && r < e
    ensures Canon(nfkc, raw, r) <= Canon(nfkc, raw, UnitStart(raw, e))
  {
    var s := UnitStart(raw, e);
    if r <= s {
      CanonGrows(nfkc, raw, r, s);
    } else {
      assert r == s + 1 && !UnitBoundary(raw, r);
    }
  }

  /** A recorded canonical offset and any raw offset: the two directions of the connection. */
  lemma {:induction false} PairConnects(nfkc: Normalizer, raw: Text, c: nat, e: nat, r: nat)
    requires PairFits(nfkc, raw, c, e) && r <= |raw|
    ensures e <= r <==> c <= |Canon(nfkc, raw, r)|
  {
    if e <= r {
      CanonGrows(nfkc, raw, e, r);
    } else {
      CanonBelow(nfkc, raw, e, r);
    }
  }

  // ---------------------------------------------------------------- the tape

  datatype Tape = Tape(raw: Text, canonical: Text, rawToCanonical: map<nat, nat>, canonicalToRaw: map<nat, nat>,
                       warning: bool)

  /** The raw side after the units before `k`, unit by unit: start, middle of a CRLF, end. */
  function RawMap(nfkc: Normalizer, raw: Text, k: nat): map<nat, nat>
    requires k <= |raw| && UnitBoundary(raw, k)
  {
    if k == 0 then map[0 := 0]
    else
      var s := UnitStart(raw, k);
      RawMap(nfkc, raw, s) + UnitMap(raw[s..k], s, |Canon(nfkc, raw, s)|) + map[k := |Canon(nfkc, raw, k)|]
  }

  function UnitMap(value: Text, s: nat, before: nat): map<nat, nat> {
    if value == [CR, LF] then map[s := before, s + 1 := before] else map[s := before]
  }

  /** It holds every character boundary so far, with the length of the canonical text before it. */
  ghost predicate RawMapIs(nfkc: Normalizer, raw: Text, k: nat, m: map<nat, nat>)
    requires k <= |raw|
  {
    && (forall r :: r in m <==> 0 <= r <= k && IsBoundary(raw, r))
    && (forall r :: r in m ==> m[r] == |Canon(nfkc, raw, r)|)
  }

  lemma {:induction false} RawMapHolds(nfkc: Normalizer, raw: Text, k: nat)
    requires k <= |raw| && UnitBoundary(raw, k)
    ensures RawMapIs(nfkc, raw, k, RawMap(nfkc, raw, k))
    decreases k
  {
    if k > 0 {
      var s := UnitStart(raw, k);
      RawMapHolds(nfkc, raw, s);
      UnitOfEnd(raw, k);
      RawMapGrows(nfkc, raw, s, k, RawMap(nfkc, raw, s));
    } else {
      assert RawMap(nfkc, raw, 0) == map[0 := 0];
    }
  }

  lemma UnitOfEnd(raw: Text, k: nat)
    requires 0 < k <= |raw| && UnitBoundary(raw, k)
    ensures k == UnitStart(raw, k) + UnitWidth(raw, UnitStart(raw, k))
  {
    UnitStep(raw, UnitStart(raw, k));
  }

  lemma {:induction false} RawMapGrows(nfkc: Normalizer, raw: Text, s: nat, next: nat, m: map<nat, nat>)
    requires s < |raw| && UnitBoundary(raw, s) && RawMapIs(nfkc, raw, s, m) && next == s + UnitWidth(raw, s)
    ensures RawMapIs(nfkc, raw, next, m + UnitMap(raw[s..next], s, |Canon(nfkc, raw, s)|)
              + map[next := |Canon(nfkc, raw, next)|])
  {
    var m' := m + UnitMap(raw[s..next], s, |Canon(nfkc, raw, s)|) + map[next := |Canon(nfkc, raw, next)|];
    forall r: nat
      ensures r in m' <==> r <= next && IsBoundary(raw, r)
      ensures r in m' ==> m'[r] == |Canon(nfkc, raw, r)|
    {
      RawMapGrowsAt(nfkc, raw, s, next, m, r);
    }
  }

  lemma {:induction false} RawMapGrowsAt(nfkc: Normalizer, raw: Text, s: nat, next: nat, m: map<nat, nat>, r: nat)
    requires s < |raw| && UnitBoundary(raw, s) && RawMapIs(nfkc, raw, s, m) && next == s + UnitWidth(raw, s)
    ensures var m' := m + UnitMap(raw[s..next], s, |Canon(nfkc, raw, s)|) + map[next := |Canon(nfkc, raw, next)|];
            (r in m' <==> r <= next && IsBoundary(raw, r)) && (r in m' ==> m'[r] == |Canon(nfkc, raw, r)|)
  {
    hide Canon;
    BoundaryInUnit(nfkc, raw, s, r);
  }

  /** A map made of a list of keys and a list of values. */
  ghost predicate Zips(m: map<nat, nat>, keys: seq<nat>, values: seq<nat>) {
    |keys| == |values|
    && (forall c :: c in m <==> c in keys)
    && (forall j :: 0 <= j < |keys| ==> keys[j] in m && m[keys[j]] == values[j])
  }

  ghost predicate IsTape(nfkc: Normalizer, raw: Text, tape: Tape) {
    && tape.raw == raw && tape.canonical == Canon(nfkc, raw, |raw|) && tape.warning == Warned(raw)
    && RawMapIs(nfkc, raw, |raw|, tape.rawToCanonical)
    && Zips(tape.canonicalToRaw, Offsets(nfkc, raw, |raw|), Ends(nfkc, raw, |raw|))
  }

  lemma ZipAppend(m: map<nat, nat>, keys: seq<nat>, values: seq<nat>, key: nat, value: nat)
    requires Zips(m, keys, values) && forall k :: k in keys ==> k < key
    ensures Zips(m[key := value], keys + [key], values + [value])
  {
  }

  /** The inner loop over the characters of one piece. */
  method RecordPiece(m: map<nat, nat>, ghost keys0: seq<nat>, ghost values0: seq<nat>, piece: Text, base: nat, end: nat)
    returns (m': map<nat, nat>, text: Text, offset: nat)
    requires Zips(m, keys0, values0) && forall k :: k in keys0 ==> k <= base
    ensures Zips(m', keys0 + CharEnds(base, Chars(piece), |Chars(piece)|), values0 + Repeat(end, |Chars(piece)|))
    ensures text == piece && offset == base + |piece|
  {
    var chars := Chars(piece);
    m', text, offset := m, [], base;
    assert chars[..0] == [] && keys0 + CharEnds(base, chars, 0) == keys0 && values0 + Repeat(end, 0) == values0;
    for n := 0 to |chars|
      invariant text == Concat(chars[..n]) && offset == base + |text|
      invariant Zips(m', keys0 + CharEnds(base, chars, n), values0 + Repeat(end, n))
    {
      CharEndsAre(base, piece, n);
      ConcatGrows(chars, n);
      CharsNonEmpty(piece, 0, |piece|);
      text := text + chars[n];
      offset := offset + |chars[n]|;
      KeysBelow(keys0, base, piece, n, offset);
      ZipAppend(m', keys0 + CharEnds(base, chars, n), values0 + Repeat(end, n), offset, end);
      assert keys0 + CharEnds(base, chars, n) + [offset] == keys0 + CharEnds(base, chars, n + 1);
      assert values0 + Repeat(end, n) + [end] == values0 + Repeat(end, n + 1);
      m' := m'[offset := end];
    }
    CharEndsAre(base, piece, |chars|);
  }

  lemma {:induction false} KeysBelow(keys0: seq<nat>, base: nat, piece: Text, n: nat, offset: nat)
    requires n < |Chars(piece)| && forall k :: k in keys0 ==> k <= base
    requires offset == base + |Concat(Chars(piece)[..n + 1])|
    ensures forall k :: k in keys0 + CharEnds(base, Chars(piece), n) ==> k < offset
  {
    CharEndsAre(base, piece, n);
    CharEndsAre(base, piece, n + 1);
    forall k | k in keys0 + CharEnds(base, Chars(piece), n) ensures k < offset {
      if k in CharEnds(base, Chars(piece), n) {
        var i :| 0 <= i < n && CharEnds(base, Chars(piece), n)[i] == k;
        assert CharEnds(base, Chars(piece), n + 1)[i] == k;
      }
    }
  }

  /** The raw map over one unit. */
  method RecordUnit(m: map<nat, nat>, s: nat, value: Text, before: nat, after: nat) returns (m': map<nat, nat>)
    requires |value| > 0
    ensures m' == m + UnitMap(value, s, before) + map[s + |value| := after]
  {
    m' := m[s := before];
    if value == [CR, LF] {
      m' := m'[s + 1 := before];
    }
    m' := m'[s + |value| := after];
  }

  /** The character boundaries up to the end of a unit. */
  lemma BoundaryInUnit(nfkc: Normalizer, raw: Text, k: nat, r: nat)
    requires k < |raw| && UnitBoundary(raw, k)
    ensures var next := k + UnitWidth(raw, k);
            (r <= next && IsBoundary(raw, r)) <==>
            (r <= k && IsBoundary(raw, r)) || (r == k + 1 && raw[k..next] == [CR, LF]) || r == next
    ensures raw[k..k + UnitWidth(raw, k)] == [CR, LF] ==>
              k + 1 < k + UnitWidth(raw, k) && Canon(nfkc, raw, k + 1) == Canon(nfkc, raw, k)
  {
    UnitStep(raw, k);
    if raw[k..k + UnitWidth(raw, k)] == [CR, LF] {
      CrlfMiddle(nfkc, raw, k);
    } else {
      NoMiddle(raw, k);
    }
  }

  lemma CrlfMiddle(nfkc: Normalizer, raw: Text, k: nat)
    requires k < |raw| && UnitBoundary(raw, k) && raw[k..k + UnitWidth(raw, k)] == [CR, LF]
    ensures k + 1 < |raw| && UnitWidth(raw, k) == 2 && IsBoundary(raw, k + 1)
    ensures Canon(nfkc, raw, k + 1) == Canon(nfkc, raw, k)
  {
    var value := raw[k..k + UnitWidth(raw, k)];
    assert |value| == 2 && raw[k] == value[0] && raw[k + 1] == value[1];
  }

  lemma NoMiddle(raw: Text, k: nat)
    requires k < |raw| && UnitBoundary(raw, k) && raw[k..k + UnitWidth(raw, k)] != [CR, LF]
    ensures UnitWidth(raw, k) == 2 ==> !IsBoundary(raw, k + 1)
  {
    if UnitWidth(raw, k) == 2 {
      assert raw[k..k + 2] == [raw[k], raw[k + 1]];
    }
  }

  /** The piece of the next unit, and whether the unit is the trailing marker. */
  method NextPiece(nfkc: Normalizer, raw: Text, k: nat, value: Text) returns (piece: Text, marker: bool)
    requires k < |raw| && UnitBoundary(raw, k) && value == raw[k..k + UnitWidth(raw, k)]
    ensures piece == PieceOf(nfkc, raw, k, k + UnitWidth(raw, k))
    ensures marker <==> k + UnitWidth(raw, k) == |raw| && Warned(raw)
  {
    WarnedStep(raw, k);
    marker := value == [BEL] && k + UnitWidth(raw, k) == |raw|;
    piece := if marker then [] else CanonicalPiece(nfkc, value);
  }

  /** The tape built from the units before `k`. */
  ghost predicate TapeUpTo(nfkc: Normalizer, raw: Text, k: nat, tape: Tape) {
    && k <= |raw| && UnitBoundary(raw, k) && tape.raw == raw
    && tape.canonical == Canon(nfkc, raw, k) && tape.warning == (k == |raw| && Warned(raw))
    && tape.rawToCanonical == RawMap(nfkc, raw, k)
    && Zips(tape.canonicalToRaw, Offsets(nfkc, raw, k), Ends(nfkc, raw, k))
  }

  /** The canonical side of one unit. */
  method AddPiece(nfkc: Normalizer, raw: Text, k: nat, next: nat, m: map<nat, nat>, canonical: Text, piece: Text)
    returns (m': map<nat, nat>, canonical': Text)
    requires k < next <= |raw| && UnitBoundary(raw, k) && UnitBoundary(raw, next) && UnitStart(raw, next) == k
    requires canonical == Canon(nfkc, raw, k) && piece == PieceOf(nfkc, raw, k, next)
    requires Zips(m, Offsets(nfkc, raw, k), Ends(nfkc, raw, k))
    ensures canonical' == Canon(nfkc, raw, next) && Zips(m', Offsets(nfkc, raw, next), Ends(nfkc, raw, next))
  {
    OffsetsUpTo(nfkc, raw, k);
    ghost var offsets, ends := Offsets(nfkc, raw, k), Ends(nfkc, raw, k);
    var text, after;
    m', text, after := RecordPiece(m, offsets, ends, piece, |canonical|, next);
    canonical' := canonical + text;
  }

  /** One turn of the canonicalizer's loop. */
  method AddUnit(nfkc: Normalizer, tape: Tape, k: nat) returns (tape': Tape, next: nat)
    requires k < |tape.raw| && TapeUpTo(nfkc, tape.raw, k, tape)
    ensures k < next && TapeUpTo(nfkc, tape.raw, next, tape')
  {
    hide Canon, IsBoundary, UnitWidth, Zips, Offsets, Ends, PieceOf, UnitMap, Warned;
    UnitStep(tape.raw, k);
    next := k + UnitWidth(tape.raw, k);
    var value := tape.raw[k..next];
    var piece, marker := NextPiece(nfkc, tape.raw, k, value);
    var canonicalToRaw, canonical := AddPiece(nfkc, tape.raw, k, next, tape.canonicalToRaw, tape.canonical, piece);
    var rawToCanonical := RecordUnit(tape.rawToCanonical, k, value, |tape.canonical|, |canonical|);
    tape' := Tape(tape.raw, canonical, rawToCanonical, canonicalToRaw, marker);
  }

  /** The UTF-16 canonicalizer: one pass, filling both maps. */
  method CreateTape(nfkc: Normalizer, raw: Text) returns (tape: Tape)
    ensures IsTape(nfkc, raw, tape)
  {
    tape := Tape(raw, [], map[0 := 0], map[0 := 0], false);
    var rawOffset := 0;
    while rawOffset < |raw|
      invariant TapeUpTo(nfkc, raw, rawOffset, tape)
      decreases |raw| - rawOffset
    {
      tape, rawOffset := AddUnit(nfkc, tape, rawOffset);
    }
    RawMapHolds(nfkc, raw, |raw|);
  }

  lemma {:induction false} OffsetsUpTo(nfkc: Normalizer, raw: Text, k: nat)
    requires k <= |raw| && UnitBoundary(raw, k)
    ensures forall c :: c in Offsets(nfkc, raw, k) ==> c <= |Canon(nfkc, raw, k)|
  {
    OffsetsAscend(nfkc, raw, k);
    forall c | c in Offsets(nfkc, raw, k) ensures c <= |Canon(nfkc, raw, k)| {
      var i :| 0 <= i < |Offsets(nfkc, raw, k)| && Offsets(nfkc, raw, k)[i] == c;
    }
  }

  lemma WarnedStep(raw: Text, k: nat)
    requires k < |raw| && UnitBoundary(raw, k)
    ensures var next := k + UnitWidth(raw, k);
            (raw[k..next] == [BEL] && next == |raw|) <==> (next == |raw| && Warned(raw))
  {
    var next := k + UnitWidth(raw, k);
    if next == |raw| && UnitWidth(raw, k) == 2 {
      assert raw[k..next] == [raw[k], raw[k + 1]];
    }
  }

  // ---------------------------------------------------------------- what the two maps are good for

  /** The maps form a Galois connection. */
  lemma MapsConnect(nfkc: Normalizer, raw: Text, tape: Tape, c: nat, r: nat)
    requires IsTape(nfkc, raw, tape) && c in tape.canonicalToRaw && r in tape.rawToCanonical
    ensures tape.canonicalToRaw[c] <= r <==> c <= tape.rawToCanonical[r]
  {
    var offsets := Offsets(nfkc, raw, |raw|);
    var j :| 0 <= j < |offsets| && offsets[j] == c;
    PairsFit(nfkc, raw, |raw|);
    PairConnects(nfkc, raw, c, Ends(nfkc, raw, |raw|)[j], r);
  }

  function RawRange(tape: Tape, start: int, end: int): Option<(nat, nat)> {
    if start < 0 || end <= start || start !in tape.canonicalToRaw || end !in tape.canonicalToRaw then None
    else
      var a, b := tape.canonicalToRaw[start], tape.canonicalToRaw[end];
      if a >= b then None else Some((a, b))
  }

  /** The canonical pieces of the units between two unit boundaries. */
  function Between(nfkc: Normalizer, raw: Text, a: nat, b: nat): Text
    requires a <= b <= |raw| && UnitBoundary(raw, a) && UnitBoundary(raw, b)
    decreases b
  {
    if a == b then []
    else
      UnitStartAbove(raw, a, b);
      Between(nfkc, raw, a, UnitStart(raw, b)) + PieceOf(nfkc, raw, UnitStart(raw, b), b)
  }

  lemma UnitStartAbove(raw: Text, a: nat, b: nat)
    requires a < b <= |raw| && UnitBoundary(raw, a) && UnitBoundary(raw, b)
    ensures a <= UnitStart(raw, b)
  {
  }

  lemma {:induction false} CanonBetween(nfkc: Normalizer, raw: Text, a: nat, b: nat)
    requires a <= b <= |raw| && UnitBoundary(raw, a) && UnitBoundary(raw, b)
    ensures Canon(nfkc, raw, b) == Canon(nfkc, raw, a) + Between(nfkc, raw, a, b)
    decreases b
  {
    if a < b {
      UnitStartAbove(raw, a, b);
      CanonBetween(nfkc, raw, a, UnitStart(raw, b));
    }
  }

  /** The canonical end of every unit is recorded, for a raw offset with the same canonical text before it. */
  lemma UnitEndRecorded(nfkc: Normalizer, raw: Text, a: nat, k: nat) returns (j: nat)
    requires a <= k <= |raw| && UnitBoundary(raw, a) && UnitBoundary(raw, k)
    ensures j < |Offsets(nfkc, raw, k)| && Offsets(nfkc, raw, k)[j] == |Canon(nfkc, raw, a)|
    ensures Ends(nfkc, raw, k)[j] <= a
    decreases k
  {
    if a == k {
      OffsetsAscend(nfkc, raw, k);
      PairsFit(nfkc, raw, k);
      j := |Offsets(nfkc, raw, k)| - 1;
    } else {
      UnitStartAbove(raw, a, k);
      j := UnitEndRecorded(nfkc, raw, a, UnitStart(raw, k));
    }
  }

  /** For a canonical range that starts and ends with whole pieces, the raw range exists and its units
      canonicalize, piece by piece, to exactly that range. */
  lemma {:induction false} AlignedRange(nfkc: Normalizer, raw: Text, tape: Tape, a: nat, b: nat)
    requires IsTape(nfkc, raw, tape) && a <= b <= |raw| && UnitBoundary(raw, a) && UnitBoundary(raw, b)
    requires |Canon(nfkc, raw, a)| < |Canon(nfkc, raw, b)|
    ensures var start, end := |Canon(nfkc, raw, a)|, |Canon(nfkc, raw, b)|;
            var range := RawRange(tape, start, end);
            && range.Some? && range.value.0 <= a && range.value.1 <= b && range.value.1 <= |raw|
            && UnitBoundary(raw, range.value.0) && UnitBoundary(raw, range.value.1) && end <= |tape.canonical|
            && Between(nfkc, raw, range.value.0, range.value.1) == tape.canonical[start..end]
  {
    var start, end := |Canon(nfkc, raw, a)|, |Canon(nfkc, raw, b)|;
    var ra := AlignedEnd(nfkc, raw, tape, a);
    var rb := AlignedEnd(nfkc, raw, tape, b);
    PairConnects(nfkc, raw, end, rb, ra);
    CanonBetween(nfkc, raw, ra, rb);
    CanonGrows(nfkc, raw, rb, |raw|);
    SliceBetween(tape.canonical, Canon(nfkc, raw, ra), Between(nfkc, raw, ra, rb), Canon(nfkc, raw, rb));
  }

  lemma SliceBetween(whole: Text, before: Text, middle: Text, upTo: Text)
    requires upTo == before + middle && upTo <= whole
    ensures whole[|before|..|upTo|] == middle
  {
    assert upTo == whole[..|upTo|];
  }

  lemma AlignedEnd(nfkc: Normalizer, raw: Text, tape: Tape, a: nat) returns (ra: nat)
    requires IsTape(nfkc, raw, tape) && a <= |raw| && UnitBoundary(raw, a)
    ensures ra <= a && UnitBoundary(raw, ra) && Canon(nfkc, raw, ra) == Canon(nfkc, raw, a)
    ensures |Canon(nfkc, raw, a)| in tape.canonicalToRaw && tape.canonicalToRaw[|Canon(nfkc, raw, a)|] == ra
    ensures PairFits(nfkc, raw, |Canon(nfkc, raw, a)|, ra)
  {
    var j := UnitEndRecorded(nfkc, raw, a, |raw|);
    PairsFit(nfkc, raw, |raw|);
    ra := Ends(nfkc, raw, |raw|)[j];
    CanonGrows(nfkc, raw, ra, a);
  }

  /** When normalization never yields nothing, the range is the units themselves, but for a trailing marker. */
  lemma {:induction false} AlignedRangeIsUnits(nfkc: Normalizer, raw: Text, tape: Tape, a: nat)
    requires IsTape(nfkc, raw, tape) && a <= |raw| && UnitBoundary(raw, a)
    requires forall v: Text :: nfkc(v) != []
    ensures |Canon(nfkc, raw, a)| in tape.canonicalToRaw
    ensures tape.canonicalToRaw[|Canon(nfkc, raw, a)|] == if a == |raw| && Warned(raw) then a - 1 else a
  {
    var ra := AlignedEnd(nfkc, raw, tape, a);
    if ra < a {
      SameCanon(nfkc, raw, ra, a);
    } else if a == |raw| && Warned(raw) {
      MarkerVanishes(nfkc, raw);
      PairFits0(nfkc, raw, a);
    }
  }

  lemma {:induction false} PairFits0(nfkc: Normalizer, raw: Text, a: nat)
    requires 0 < a <= |raw| && UnitBoundary(raw, a) && Canon(nfkc, raw, UnitStart(raw, a)) == Canon(nfkc, raw, a)
    ensures !PairFits(nfkc, raw, |Canon(nfkc, raw, a)|, a)
  {
  }

  lemma {:induction false} MarkerVanishes(nfkc: Normalizer, raw: Text)
    requires Warned(raw)
    ensures UnitBoundary(raw, |raw|) && UnitStart(raw, |raw|) == |raw| - 1
    ensures Canon(nfkc, raw, |raw| - 1) == Canon(nfkc, raw, |raw|)
  {
    assert UnitBoundary(raw, |raw| - 1);
    assert raw[|raw| - 1..|raw|] == [BEL];
  }

  lemma EmptyPiece(nfkc: Normalizer, raw: Text, e: nat)
    requires 0 < e <= |raw| && UnitBoundary(raw, e) && PieceOf(nfkc, raw, UnitStart(raw, e), e) == []
    requires forall v: Text :: nfkc(v) != []
    ensures e == |raw| && Warned(raw) && UnitStart(raw, e) == e - 1
  {
    var s := UnitStart(raw, e);
    assert raw[s..e] == [BEL];
    assert raw[s..e][e - s - 1] == raw[e - 1];
  }

  /** Only a trailing marker adds nothing. */
  lemma {:induction false} SameCanon(nfkc: Normalizer, raw: Text, ra: nat, a: nat)
    requires ra < a <= |raw| && UnitBoundary(raw, ra) && UnitBoundary(raw, a)
    requires Canon(nfkc, raw, ra) == Canon(nfkc, raw, a) && forall v: Text :: nfkc(v) != []
    ensures a == |raw| && Warned(raw) && ra == a - 1
  {
    var s := UnitStart(raw, a);
    UnitStartAbove(raw, ra, a);
    CanonGrows(nfkc, raw, ra, s);
    EmptyPiece(nfkc, raw, a);
    if ra < s {
      UnitStartAbove(raw, ra, s);
      CanonGrows(nfkc, raw, ra, UnitStart(raw, s));
      EmptyPiece(nfkc, raw, s);
    }
  }
}
