/** JavaScript strings as the plugin sees them: sequences of UTF-16 code units,
    possibly ill-formed, iterated one code point at a time. */
module Utf16 {
  import opened Results

  type CodeUnit = u: int | 0 <= u < 0x10000
  type Text = seq<CodeUnit>

  /** SHA-256, taken as injective on the texts in play. */
  datatype Digest = Sha256(preimage: Text)

  const CR: CodeUnit := 0x0D
  const LF: CodeUnit := 0x0A
  const VT: CodeUnit := 0x0B
  const FF: CodeUnit := 0x0C
  const BEL: CodeUnit := 0x07

  predicate IsHigh(u: CodeUnit) { 0xD800 <= u <= 0xDBFF }

  predicate IsLow(u: CodeUnit) { 0xDC00 <= u <= 0xDFFF }

  /** The class `[\s\v]` of an ECMAScript regular expression. */
  predicate IsSpace(u: CodeUnit) {
    || 0x09 <= u <= 0x0D || u == 0x20 || u == 0xA0 || u == 0x1680
    || 0x2000 <= u <= 0x200A || u == 0x2028 || u == 0x2029 || u == 0x202F
    || u == 0x205F || u == 0x3000 || u == 0xFEFF
  }

  /** `/^[\s\v]*$/u` */
  predicate AllSpace(t: Text) { forall i :: 0 <= i < |t| ==> IsSpace(t[i]) }

  /** An offset is a character boundary unless it separates the two halves of a surrogate pair. */
  predicate IsBoundary(t: Text, k: nat)
    requires k <= |t|
  {
    k == 0 || k == |t| || !(IsHigh(t[k - 1]) && IsLow(t[k]))
  }

  /** The width of the character that starts at `k`: what a JavaScript string iterator consumes. */
  function Width(t: Text, k: nat): (w: nat)
    requires k < |t|
    ensures k + w <= |t|
  {
    if k + 1 < |t| && IsHigh(t[k]) && IsLow(t[k + 1]) then 2 else 1
  }

  /** How many characters start before offset `k`. */
  function Ordinal(t: Text, k: nat): nat
    requires k <= |t|
  {
    if k == 0 then 0 else Ordinal(t, k - 1) + if IsBoundary(t, k - 1) then 1 else 0
  }

  /** How many characters a text has. */
  function CharCount(t: Text): nat { Ordinal(t, |t|) }

  /** The characters between two boundaries, in order. */
  function CharsIn(t: Text, a: nat, b: nat): seq<Text>
    requires a <= b <= |t| && IsBoundary(t, a) && IsBoundary(t, b)
    decreases b - a
  {
    if a == b then [] else [t[a..a + Width(t, a)]] + CharsIn(t, a + Width(t, a), b)
  }

  function Chars(t: Text): seq<Text> { CharsIn(t, 0, |t|) }

  function Concat(pieces: seq<Text>): Text {
    if pieces == [] then [] else pieces[0] + Concat(pieces[1..])
  }

  lemma {:induction false} ConcatAppend(pieces: seq<Text>, last: Text)
    ensures Concat(pieces + [last]) == Concat(pieces) + last
  {
    if pieces == [] {
      assert pieces + [last] == [last] && Concat([last][1..]) == [];
    } else {
      assert (pieces + [last])[1..] == pieces[1..] + [last];
      ConcatAppend(pieces[1..], last);
    }
  }

  /** The n-th character (from 0) starts here; `n == CharCount(t)` is the end of the text. */
  function CharStart(t: Text, n: nat): (k: nat)
    requires n <= CharCount(t)
    ensures k <= |t| && IsBoundary(t, k) && Ordinal(t, k) == n
  {
    CharStartBelow(t, n, |t|)
  }

  function CharStartBelow(t: Text, n: nat, k: nat): (r: nat)
    requires k <= |t| && n <= Ordinal(t, k)
    requires n == Ordinal(t, k) ==> IsBoundary(t, k)
    ensures r <= k && IsBoundary(t, r) && Ordinal(t, r) == n
  {
    if n == Ordinal(t, k) then k else CharStartBelow(t, n, k - 1)
  }

  lemma {:induction false} OrdinalMonotone(t: Text, a: nat, b: nat)
    requires a <= b <= |t|
    ensures Ordinal(t, a) <= Ordinal(t, b)
    ensures a < b && IsBoundary(t, a) ==> Ordinal(t, a) < Ordinal(t, b)
    decreases b
  {
    if a < b {
      OrdinalMonotone(t, a, b - 1);
    }
  }

  /** A boundary is determined by its ordinal. */
  lemma {:induction false} BoundaryUnique(t: Text, a: nat, b: nat)
    requires a <= |t| && b <= |t| && IsBoundary(t, a) && IsBoundary(t, b)
    requires Ordinal(t, a) == Ordinal(t, b)
    ensures a == b
  {
    if a < b {
      OrdinalMonotone(t, a, b);
    } else {
      OrdinalMonotone(t, b, a);
    }
  }

  lemma {:induction false} CharStartIs(t: Text, k: nat)
    requires k <= |t| && IsBoundary(t, k)
    ensures Ordinal(t, k) <= CharCount(t) && CharStart(t, Ordinal(t, k)) == k
  {
    OrdinalMonotone(t, k, |t|);
    BoundaryUnique(t, k, CharStart(t, Ordinal(t, k)));
  }

  /** Ordinals do not depend on what follows. */
  lemma {:induction false} OrdinalOfPrefix(t: Text, n: nat, k: nat)
    requires k <= n <= |t|
    ensures Ordinal(t[..n], k) == Ordinal(t, k)
    decreases k
  {
    if k > 0 {
      OrdinalOfPrefix(t, n, k - 1);
    }
  }

  /** One character further is one ordinal further. */
  lemma OrdinalStep(t: Text, k: nat)
    requires k < |t| && IsBoundary(t, k)
    ensures IsBoundary(t, k + Width(t, k)) && Ordinal(t, k + Width(t, k)) == Ordinal(t, k) + 1
  {
    if Width(t, k) == 2 {
      assert !IsBoundary(t, k + 1);
    }
  }

  /** They are as many as the ordinals say, and spell the slice. */
  lemma {:induction false} CharsInSlice(t: Text, a: nat, b: nat)
    requires a <= b <= |t| && IsBoundary(t, a) && IsBoundary(t, b)
    ensures Ordinal(t, a) + |CharsIn(t, a, b)| == Ordinal(t, b)
    ensures Concat(CharsIn(t, a, b)) == t[a..b]
    decreases b - a
  {
    if a < b {
      OrdinalStep(t, a);
      CharsInSlice(t, a + Width(t, a), b);
      assert t[a..b] == t[a..a + Width(t, a)] + t[a + Width(t, a)..b];
    }
  }

  lemma {:induction false} CharsInSplit(t: Text, a: nat, b: nat, c: nat)
    requires a <= b <= c <= |t| && IsBoundary(t, a) && IsBoundary(t, b) && IsBoundary(t, c)
    ensures CharsIn(t, a, c) == CharsIn(t, a, b) + CharsIn(t, b, c)
    decreases b - a
  {
    if a < b {
      CharsInSplit(t, a + Width(t, a), b, c);
    }
  }

  lemma Middle<T>(a: seq<T>, b: seq<T>, c: seq<T>)
    ensures (a + (b + c))[|a|..|a| + |b|] == b
  {
  }

  lemma SliceOfTake<T>(s: seq<T>, c: nat, a: nat, b: nat)
    requires a <= b <= c <= |s|
    ensures s[..c][a..b] == s[a..b]
  {
  }

  /** Characters number Ordinal(a)+1 through Ordinal(b), counted from 1, spell exactly t[a..b]. */
  lemma {:induction false} CharsBetween(t: Text, a: nat, b: nat)
    requires a <= b <= |t| && IsBoundary(t, a) && IsBoundary(t, b)
    ensures Ordinal(t, a) <= Ordinal(t, b) <= |Chars(t)| == CharCount(t)
    ensures Concat(Chars(t)[Ordinal(t, a)..Ordinal(t, b)]) == t[a..b]
  {
    hide CharsIn, Concat, Width;
    CharsInSlice(t, 0, a);
    CharsInSlice(t, a, b);
    CharsInSlice(t, b, |t|);
    CharsInSplit(t, 0, a, |t|);
    CharsInSplit(t, a, b, |t|);
    Middle(CharsIn(t, 0, a), CharsIn(t, a, b), CharsIn(t, b, |t|));
  }

  /** The loop by which the host turns a UTF-16 offset into a character ordinal; `None` is its exception. */
  method CharacterOrdinal(t: Text, offset: int) returns (r: Option<nat>)
    ensures r == OrdinalAt(t, offset)
  {
    var position, ordinal := 0, 0;
    while position < |t|
      invariant position <= |t| && IsBoundary(t, position) && ordinal == Ordinal(t, position)
      invariant 0 <= offset < position ==> !IsBoundary(t, offset)
      decreases |t| - position
    {
      if position == offset {
        return Some(ordinal);
      }
      OrdinalStep(t, position);
      position, ordinal := position + Width(t, position), ordinal + 1;
    }
    if position == offset {
      return Some(ordinal);
    }
    return None;
  }

  /** The ordinal of an offset that is a character boundary of the text. */
  function OrdinalAt(t: Text, offset: int): Option<nat> {
    if 0 <= offset <= |t| && IsBoundary(t, offset) then Some(Ordinal(t, offset)) else None
  }
}
