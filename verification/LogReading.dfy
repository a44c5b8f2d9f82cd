/** Reading a log file back: it is cut into lines wherever Python's str.splitlines cuts, and lines that are not events
    are dropped. */
module LogReading {
  import opened Joining
  import opened Results
  import opened LogLine

  // Lines

  /** Redaction replaces only the first two of these. */
  predicate Breaks(c: char) {
    || c == '\n' || c == '\r' || c == '\U{0B}' || c == '\U{0C}' || '\U{1C}' <= c <= '\U{1E}' || c == '\U{85}'
    || c == '\U{2028}' || c == '\U{2029}'
  }

  predicate NoBreak(s: string) {
    forall i :: 0 <= i < |s| ==> !Breaks(s[i])
  }

  function FirstBreak(s: string): (k: nat)
    ensures k <= |s| && NoBreak(s[..k]) && (k < |s| ==> Breaks(s[k]))
  {
    if s == "" || Breaks(s[0]) then 0
    else
      var k := FirstBreak(s[1..]);
      assert s[..k + 1] == [s[0]] + s[1..][..k];
      k + 1
  }

  /** A carriage return and the line feed after it are one break. */
  function AfterBreak(s: string, k: nat): (j: nat)
    requires k < |s|
    ensures k < j <= |s|
  {
    if s[k] == '\r' && k + 1 < |s| && s[k + 1] == '\n' then k + 2 else k + 1
  }

  function SplitLines(s: string): (lines: seq<string>)
    ensures s != "" ==> lines != [] && lines[0] == s[..FirstBreak(s)]
    decreases |s|
  {
    var k := FirstBreak(s);
    if s == "" then []
    else if k == |s| then [s]
    else [s[..k]] + SplitLines(s[AfterBreak(s, k)..])
  }

  function LaterLines(s: string): seq<string> {
    if s == "" then [] else SplitLines(s)[1..]
  }

  function EventsOf(lines: seq<string>): seq<Parsed> {
    if lines == [] then []
    else
      match Parse(lines[0])
      case None => EventsOf(lines[1..])
      case Some(value) => [value] + EventsOf(lines[1..])
  }

  method ReadLogEvents(text: string) returns (values: seq<Parsed>)
    ensures values == EventsOf(SplitLines(text))
  {
    values := [];
    var lines := SplitLines(text);
    for i := 0 to |lines|
      invariant values + EventsOf(lines[i..]) == EventsOf(lines)
    {
      assert lines[i..][0] == lines[i] && lines[i..][1..] == lines[i + 1..];
      var value := Parse(lines[i]);
      if value.Some? {
        values := values + [value.value];
      }
    }
  }

  /** What the writer leaves after these events, each on a line of its own. */
  function Log(events: seq<Event>): string {
    if events == [] then "" else Formatted(events[0]) + "\n" + Log(events[1..])
  }

  function ReadAll(events: seq<Event>): (r: seq<Parsed>)
    ensures |r| == |events| && forall i :: 0 <= i < |events| ==> r[i] == Read(events[i])
  {
    if events == [] then [] else [Read(events[0])] + ReadAll(events[1..])
  }

  // Cutting a concatenation into lines

  lemma {:induction false} FirstBreakIs(s: string, k: nat)
    requires k <= |s| && NoBreak(s[..k]) && (k < |s| ==> Breaks(s[k]))
    ensures FirstBreak(s) == k
  {
    BeforeBreak(s);
    assert forall i :: 0 <= i < k ==> s[..k][i] == s[i];
  }

  lemma {:induction false} BeforeBreak(s: string)
    ensures forall i :: 0 <= i < FirstBreak(s) ==> !Breaks(s[i])
  {
    assert forall i :: 0 <= i < FirstBreak(s) ==> s[..FirstBreak(s)][i] == s[i];
  }

  lemma {:induction false} SplitStep(s: string, k: nat)
    requires k < |s| && FirstBreak(s) == k
    ensures SplitLines(s) == [s[..k]] + SplitLines(s[AfterBreak(s, k)..])
  {
  }

  lemma {:induction false} SplitNone(s: string)
    requires s != "" && NoBreak(s)
    ensures SplitLines(s) == [s]
  {
    assert s[..|s|] == s;
    FirstBreakIs(s, |s|);
  }

  lemma {:induction false} LinesAppend(a: string, b: string)
    requires a != "" && !Breaks(a[|a| - 1])
    ensures SplitLines(a + "\n" + b) == SplitLines(a) + SplitLines(b)
    decreases |a|
  {
    hide SplitLines, NoBreak, FirstBreak;
    var s, k := a + "\n" + b, FirstBreak(a);
    assert s[..k] == a[..k];
    FirstBreakIs(s, k);
    SplitStep(s, k);
    if k == |a| {
      assert s[|a| + 1..] == b && a[..k] == a;
      SplitNone(a);
    } else {
      SplitStep(a, k);
      var rest := a[AfterBreak(a, k)..];
      assert s[AfterBreak(a, k)..] == rest + "\n" + b;
      LinesAppend(rest, b);
    }
  }

  /** Text without a break goes in front of the first line. */
  lemma {:induction false} LinesPrefix(prefix: string, s: string)
    requires NoBreak(prefix) && s != ""
    ensures SplitLines(prefix + s) == [prefix + s[..FirstBreak(s)]] + LaterLines(s)
  {
    hide SplitLines, FirstBreak;
    var t, k := prefix + s, FirstBreak(s);
    assert t[..|prefix| + k] == prefix + s[..k];
    FirstBreakIs(t, |prefix| + k);
    if k < |s| {
      assert t[AfterBreak(t, |prefix| + k)..] == s[AfterBreak(s, k)..];
      SplitStep(t, |prefix| + k);
      SplitStep(s, k);
    } else {
      assert s[..k] == s;
      SplitNone(t);
      SplitNone(s);
    }
  }

  lemma {:induction false} LinesHaveNone(s: string)
    ensures forall l :: l in SplitLines(s) ==> NoBreak(l)
    decreases |s|
  {
    var k := FirstBreak(s);
    if k < |s| {
      LinesHaveNone(s[AfterBreak(s, k)..]);
    }
  }

  lemma {:induction false} EventsAppend(a: seq<string>, b: seq<string>)
    ensures EventsOf(a + b) == EventsOf(a) + EventsOf(b)
    decreases |a|
  {
    if a == [] {
      assert a + b == b;
    } else {
      assert (a + b)[1..] == a[1..] + b;
      EventsAppend(a[1..], b);
    }
  }

  // Component and message of a parsed line have no break

  lemma StripIsPart(s: string) returns (i: nat, j: nat)
    ensures i <= j <= |s| && Strip(s) == s[i..j]
  {
    i := StripLeftIsPart(s);
    j := StripRightIsPart(s[i..]);
    j := i + j;
  }

  lemma StripLeftIsPart(s: string) returns (i: nat)
    ensures i <= |s| && StripLeft(s) == s[i..]
  {
    if s != [] && Blank(s[0]) {
      i := StripLeftIsPart(s[1..]);
      i := i + 1;
    } else {
      i := 0;
    }
  }

  lemma StripRightIsPart(s: string) returns (j: nat)
    ensures j <= |s| && StripRight(s) == s[..j]
  {
    if s != [] && Blank(s[|s| - 1]) {
      j := StripRightIsPart(s[..|s| - 1]);
      assert s[..|s| - 1][..j] == s[..j];
    } else {
      j := |s|;
      assert s[..j] == s;
    }
  }

  lemma {:induction false} CutHasNone(s: string, c: char)
    requires NoBreak(s)
    ensures NoBreak(Cut(s, c).0) && (Cut(s, c).1.Some? ==> NoBreak(Cut(s, c).1.value))
  {
    var (before, after) := Cut(s, c);
    if after.Some? {
      assert forall i :: 0 <= i < |before| ==> before[i] == s[i];
      assert forall i :: 0 <= i < |after.value| ==> after.value[i] == s[|before| + 1 + i];
    }
  }

  lemma BracketedPartsHaveNone(s: string)
    requires NoBreak(s) && Bracketed(s).Some?
    ensures NoBreak(Bracketed(s).value.0) && NoBreak(Bracketed(s).value.1)
  {
    CutHasNone(s[1..], ']');
  }

  lemma ParsedHasNone(line: string)
    requires NoBreak(line) && Parse(line).Some?
    ensures var p := Parse(line).value; NoBreak(p.component) && NoBreak(p.message) && ']' !in p.component
  {
    var i, j := StripIsPart(line);
    var s := Strip(line);
    assert NoBreak(s);
    BracketedPartsHaveNone(s[24..]);
    var (level, afterLevel) := Bracketed(s[24..]).value;
    HeadKept(s[..23], level, afterLevel);
    BracketedPartsHaveNone(afterLevel);
    CutHasNone(Bracketed(afterLevel).value.1, BAR);
    ComponentHasNone(s[..23], level, afterLevel);
  }

  lemma {:induction false} EventsHaveNone(lines: seq<string>)
    requires forall l :: l in lines ==> NoBreak(l)
    ensures forall p :: p in EventsOf(lines) ==> NoBreak(p.component) && NoBreak(p.message) && ']' !in p.component
  {
    if lines != [] {
      EventsHaveNone(lines[1..]);
      if Parse(lines[0]).Some? {
        ParsedHasNone(lines[0]);
      }
    }
  }

  // The first line of a formatted event is the line of an event cut short

  /** What the first line keeps of a value with a break in it; blanks before the break are stripped by the parser. */
  function Cutoff(s: string): string { StripRight(s[..FirstBreak(s)]) }

  function Cleared(pairs: seq<(string, string)>): (r: seq<(string, string)>)
    ensures |r| == |pairs| && forall i :: 0 <= i < |r| ==> r[i] == (pairs[i].0, "")
  {
    seq(|pairs|, i requires 0 <= i < |pairs| => (pairs[i].0, ""))
  }

  function CutPairs(pairs: seq<(string, string)>): (r: seq<(string, string)>)
    ensures |r| == |pairs|
  {
    if pairs == [] then []
    else if NoBreak(pairs[0].1) then [pairs[0]] + CutPairs(pairs[1..])
    else [(pairs[0].0, Cutoff(pairs[0].1))] + Cleared(pairs[1..])
  }

  predicate Broken(pairs: seq<(string, string)>) {
    exists i :: 0 <= i < |pairs| && !NoBreak(pairs[i].1)
  }

  function Text(pair: (string, string)): string {
    if pair.1 == "" then "" else [BAR] + pair.0 + [COLON] + pair.1
  }

  lemma Regroup(a: string, b: string, c: string)
    ensures a + (b + c) == a + b + c
  {
  }

  lemma TailOfMore(f: string, fields: seq<string>)
    ensures Tail([f] + fields) == [BAR] + f + Tail(fields)
  {
    if fields == [] {
      assert [f] + fields == [f];
    } else {
      assert ([f] + fields)[1..] == fields;
      Regroup([BAR], f, [BAR] + Join(fields, BAR));
      Regroup(f, [BAR], Join(fields, BAR));
    }
  }

  lemma {:induction false} TailStep(pair: (string, string), rest: seq<(string, string)>)
    ensures Tail(Fields([pair] + rest)) == Text(pair) + Tail(Fields(rest))
  {
    hide Tail;
    assert ([pair] + rest)[1..] == rest;
    if pair.1 == "" {
      assert Fields([pair] + rest) == [] + Fields(rest);
      assert [] + Fields(rest) == Fields(rest);
      assert Text(pair) + Tail(Fields(rest)) == Tail(Fields(rest));
    } else {
      var f := pair.0 + [COLON] + pair.1;
      TailOfMore(f, Fields(rest));
      Regroup([BAR], pair.0 + [COLON], pair.1);
      Regroup([BAR], pair.0, [COLON]);
    }
  }

  lemma ClearedShowsNothing(pairs: seq<(string, string)>)
    ensures Fields(Cleared(pairs)) == []
  {
    if pairs != [] {
      assert Cleared(pairs)[1..] == Cleared(pairs[1..]);
      ClearedShowsNothing(pairs[1..]);
    }
  }

  lemma {:induction false} StripRightBehind(y: string, z: string)
    requires y != "" && !Blank(y[|y| - 1])
    ensures StripRight(y + z) == y + StripRight(z)
    decreases |z|
  {
    if z == "" {
      assert y + z == y;
    } else {
      assert (y + z)[|y + z| - 1] == z[|z| - 1];
      if Blank(z[|z| - 1]) {
        assert (y + z)[..|y + z| - 1] == y + z[..|z| - 1];
        StripRightBehind(y, z[..|z| - 1]);
      }
    }
  }

  lemma CutoffFits(s: string)
    requires Clean(s) && !NoBreak(s)
    ensures Cutoff(s) != "" && Clean(Cutoff(s)) && |Cutoff(s)| < |s|
  {
    var k := FirstBreak(s);
    BeforeBreak(s);
    assert 0 < k < |s|;
    StripRightTrims(s[..k]);
    StripRightKeeps(s[..k]);
    var j := StripRightIsPart(s[..k]);
    assert forall i :: 0 <= i < j ==> Cutoff(s)[i] == s[i];
  }

  lemma {:induction false} StripRightKeeps(s: string)
    requires s != "" && !Blank(s[0])
    ensures StripRight(s) != "" && StripRight(s)[0] == s[0]
  {
    if Blank(s[|s| - 1]) {
      StripRightKeeps(s[..|s| - 1]);
    }
  }

  predicate GoodName(name: string) {
    NoBreak(name) && NoBreak([BAR]) && NoBreak([COLON]) && !Blank(COLON)
  }

  lemma NoBreakTogether(a: string, b: string)
    requires NoBreak(a) && NoBreak(b)
    ensures NoBreak(a + b)
  {
  }

  lemma TextHasNone(pair: (string, string))
    requires GoodName(pair.0) && NoBreak(pair.1)
    ensures NoBreak(Text(pair))
  {
    LabelHasNone(pair.0);
    NoBreakTogether([BAR] + pair.0 + [COLON], pair.1);
  }

  /** A line breaks inside the first value that has a break. */
  lemma BreaksInPair(x: string, pair: (string, string), rest: string)
    requires NoBreak(x) && GoodName(pair.0) && Clean(pair.1) && !NoBreak(pair.1)
    ensures var s := x + (Text(pair) + rest);
            FirstBreak(s) < |s| && StripRight(s[..FirstBreak(s)]) == x + Text((pair.0, Cutoff(pair.1)))
  {
    hide NoBreak, FirstBreak, StripRight, Blank;
    var y, v := x + ([BAR] + pair.0 + [COLON]), pair.1;
    var s, k := x + (Text(pair) + rest), FirstBreak(v);
    CutoffFits(v);
    FirstBreakInside(v);
    assert s == y + v + rest by {
      Regroup(x, [BAR] + pair.0 + [COLON], v);
      Regroup(x, Text(pair), rest);
    }
    LabelHasNone(pair.0);
    NoBreakTogether(x, [BAR] + pair.0 + [COLON]);
    NoBreakTogether(y, v[..k]);
    assert s[..|y| + k] == y + v[..k];
    assert s[|y| + k] == v[k];
    FirstBreakIs(s, |y| + k);
    StripRightBehind(y, v[..k]);
    Regroup(x, [BAR] + pair.0 + [COLON], Cutoff(v));
  }

  lemma {:induction false} FirstBreakInside(s: string)
    requires !NoBreak(s)
    ensures FirstBreak(s) < |s|
  {
    BeforeBreak(s);
  }

  lemma LabelHasNone(name: string)
    requires GoodName(name)
    ensures NoBreak([BAR] + name + [COLON])
  {
    NoBreakTogether([BAR], name);
    NoBreakTogether([BAR] + name, [COLON]);
  }

  ghost predicate GoodPairs(pairs: seq<(string, string)>) {
    forall i :: 0 <= i < |pairs| ==> GoodName(pairs[i].0) && Clean(pairs[i].1)
  }

  lemma {:induction false} FirstLineCut(x: string, pairs: seq<(string, string)>)
    requires NoBreak(x) && GoodPairs(pairs) && Broken(pairs)
    ensures var s := x + Tail(Fields(pairs));
            FirstBreak(s) < |s| && StripRight(s[..FirstBreak(s)]) == x + Tail(Fields(CutPairs(pairs)))
    decreases |pairs|
  {
    hide Tail, Fields, Text, Cutoff, StripRight, FirstBreak, Blank;
    var pair, rest := pairs[0], pairs[1..];
    assert pairs == [pair] + rest;
    if NoBreak(pair.1) {
      BrokenLater(pairs);
      TextHasNone(pair);
      NoBreakTogether(x, Text(pair));
      FirstLineCut(x + Text(pair), rest);
      MovesToFront(x, pair, rest);
      MovesToFront(x, pair, CutPairs(rest));
    } else {
      TailStep(pair, rest);
      BreaksInPair(x, pair, Tail(Fields(rest)));
      EndsHere((pair.0, Cutoff(pair.1)), rest);
    }
  }

  lemma BrokenLater(pairs: seq<(string, string)>)
    requires pairs != [] && Broken(pairs) && NoBreak(pairs[0].1)
    ensures Broken(pairs[1..])
  {
    var i :| 0 <= i < |pairs| && !NoBreak(pairs[i].1);
    assert pairs[1..][i - 1] == pairs[i];
  }

  lemma {:induction false} MovesToFront(x: string, pair: (string, string), rest: seq<(string, string)>)
    ensures x + Tail(Fields([pair] + rest)) == x + Text(pair) + Tail(Fields(rest))
  {
    TailStep(pair, rest);
    assert x + (Text(pair) + Tail(Fields(rest))) == x + Text(pair) + Tail(Fields(rest));
  }

  lemma EndsHere(pair: (string, string), rest: seq<(string, string)>)
    ensures Tail(Fields([pair] + Cleared(rest))) == Text(pair)
  {
    TailStep(pair, Cleared(rest));
    ClearedShowsNothing(rest);
  }

  lemma {:induction false} TailHasNone(pairs: seq<(string, string)>)
    requires GoodPairs(pairs) && !Broken(pairs)
    ensures NoBreak(Tail(Fields(pairs)))
  {
    if pairs != [] {
      assert NoBreak(pairs[0].1);
      TextHasNone(pairs[0]);
      assert pairs == [pairs[0]] + pairs[1..];
      TailStep(pairs[0], pairs[1..]);
      forall i | 0 <= i < |pairs[1..]| ensures NoBreak(pairs[1..][i].1) {
        assert pairs[1..][i] == pairs[i + 1];
      }
      TailHasNone(pairs[1..]);
      NoBreakTogether(Text(pairs[0]), Tail(Fields(pairs[1..])));
    }
  }

  /** The value at position i of the pairs cut short. */
  lemma {:induction false} CutPairAt(pairs: seq<(string, string)>, i: nat)
    requires i < |pairs|
    ensures CutPairs(pairs)[i] ==
            (pairs[i].0, if Broken(pairs[..i]) then "" else if NoBreak(pairs[i].1) then pairs[i].1
                else Cutoff(pairs[i].1))
    decreases i
  {
    if i == 0 {
      assert pairs[..0] == [];
    } else if NoBreak(pairs[0].1) {
      CutPairAt(pairs[1..], i - 1);
      var before, behind := pairs[..i], pairs[1..][..i - 1];
      assert forall h :: 0 <= h < i - 1 ==> behind[h] == before[h + 1];
      if Broken(before) {
        var h :| 0 <= h < |before| && !NoBreak(before[h].1);
        assert behind[h - 1] == before[h];
      }
    } else {
      assert pairs[..i][0] == pairs[0];
    }
  }

  // One event

  /** The event that the first line shows. */
  function CutShort(e: Event): Event {
    var c := CutPairs(ErrorPairs(e));
    e.(stage := c[0].1, reason := c[1].1, action := c[2].1, code := c[3].1, request := c[4].1, event := c[5].1,
       technical := c[6].1)
  }

  lemma CutShortPairs(e: Event)
    ensures ErrorPairs(CutShort(e)) == CutPairs(ErrorPairs(e))
  {
    hide CutPairs;
    var pairs := ErrorPairs(e);
    forall i | 0 <= i < 7 ensures CutPairs(pairs)[i].0 == pairs[i].0 {
      CutPairAt(pairs, i);
    }
  }

  predicate Head6(e: Event) {
    NoBreak(e.stage) && NoBreak(e.reason) && NoBreak(e.action) && NoBreak(e.code) && NoBreak(e.request)
        && NoBreak(e.event)
  }

  lemma PairsFit(e: Event)
    requires Shaped(e)
    ensures GoodPairs(ErrorPairs(e))
  {
    var labels := ["阶段", "原因", "处理建议", "错误码", "请求", "事件码", "技术详情"];
    ErrorPairsGood(e);
    forall i | 0 <= i < 7 ensures GoodName(ErrorPairs(e)[i].0) {
      assert ErrorPairs(e)[i].0 == labels[i];
    }
  }

  lemma {:induction false} CutPairsFit(pairs: seq<(string, string)>)
    requires GoodPairs(pairs)
    ensures GoodPairs(CutPairs(pairs))
  {
    forall i | 0 <= i < |pairs| ensures GoodName(CutPairs(pairs)[i].0) && Clean(CutPairs(pairs)[i].1) {
      CutPairAt(pairs, i);
      if !NoBreak(pairs[i].1) {
        CutoffFits(pairs[i].1);
      }
    }
  }

  lemma CutShortShaped(e: Event)
    requires Shaped(e)
    ensures Shaped(CutShort(e))
  {
    hide CutPairs;
    PairsFit(e);
    CutPairsFit(ErrorPairs(e));
    var c := CutPairs(ErrorPairs(e));
    assert Clean(c[0].1) && Clean(c[1].1) && Clean(c[2].1) && Clean(c[3].1) && Clean(c[4].1) && Clean(c[5].1)
           && Clean(c[6].1);
  }

  /** Each value after the cut, as a condition on the values before it. */
  lemma CutValues(e: Event)
    requires Shaped(e)
    ensures Head6(e) ==> CutShort(e) == e.(technical := CutShort(e).technical)
    ensures !(NoBreak(e.stage) && NoBreak(e.reason) && NoBreak(e.action)) ==> CutShort(e).code == ""
    ensures !NoBreak(e.code) ==> CutShort(e).code != e.code
    ensures !NoBreak(e.request) ==> CutShort(e).request != e.request
    ensures !NoBreak(e.event) ==> CutShort(e).event != e.event
  {
    hide CutPairs;
    var pairs := ErrorPairs(e);
    PairsFit(e);
    forall i | 0 <= i < 7
      ensures Broken(pairs[..i]) ==> CutPairs(pairs)[i].1 == ""
      ensures !Broken(pairs[..i]) && NoBreak(pairs[i].1) ==> CutPairs(pairs)[i].1 == pairs[i].1
      ensures !NoBreak(pairs[i].1) ==> CutPairs(pairs)[i].1 != pairs[i].1
    {
      CutPairAt(pairs, i);
      if !NoBreak(pairs[i].1) {
        CutoffFits(pairs[i].1);
      }
    }
    BrokenBefore(e);
  }

  lemma BrokenBefore(e: Event)
    ensures Head6(e) ==> forall i :: 0 <= i < 7 ==> !Broken(ErrorPairs(e)[..i])
    ensures !(NoBreak(e.stage) && NoBreak(e.reason) && NoBreak(e.action)) ==> Broken(ErrorPairs(e)[..3])
  {
    var pairs := ErrorPairs(e);
    assert pairs[..3][0].1 == e.stage && pairs[..3][1].1 == e.reason && pairs[..3][2].1 == e.action;
    if Head6(e) {
      forall i, h | 0 <= i < 7 && 0 <= h < i ensures NoBreak(pairs[..i][h].1) {
        assert pairs[..i][h] == pairs[h];
      }
    }
  }

  lemma CutShortShows(e: Event)
    requires Normalized(e)
    ensures ErrorFields(CutShort(e)) != []
  {
    hide CutPairs;
    var pairs := ErrorPairs(e);
    PairsFit(e);
    CutShortPairs(e);
    CutShortShaped(e);
    var i := if !NoBreak(e.stage) then 0 else if !NoBreak(e.reason) then 1 else if !NoBreak(e.action) then 2 else 3;
    assert !Broken(pairs[..i]) by {
      assert forall h :: 0 <= h < i ==> pairs[..i][h] == pairs[h] && NoBreak(pairs[h].1);
    }
    CutPairAt(pairs, i);
    if !NoBreak(pairs[i].1) {
      CutoffFits(pairs[i].1);
    }
    ErrorFieldsGood(CutShort(e));
    assert ErrorPairs(CutShort(e))[i].1 != "";
  }

  lemma FrontHasNone(e: Event)
    requires Shaped(e) && NoBreak(e.component) && NoBreak(Message(e))
    ensures NoBreak(Head(e.timestamp, e.level, e.component) + Message(e))
  {
    forall i | 0 <= i < 23 ensures !Breaks(e.timestamp[i]) {
    }
    assert NoBreak(e.level);
  }

  /** The parser sees the first line as the line of the event cut short. */
  lemma FirstLineIs(e: Event)
    requires Normalized(e) && NoBreak(e.component) && NoBreak(Message(e))
    ensures Formatted(e) != "" && Strip(SplitLines(Formatted(e))[0]) == Formatted(CutShort(e))
  {
    hide CutPairs, Fields, Tail;
    var x := Head(e.timestamp, e.level, e.component) + Message(e);
    var line := Formatted(e)[..FirstBreak(Formatted(e))];
    FrontHasNone(e);
    PairsFit(e);
    CutShortPairs(e);
    CutShortShaped(e);
    CutShortShows(e);
    LineIsTrim(CutShort(e));
    if Broken(ErrorPairs(e)) {
      FirstLineCut(x, ErrorPairs(e));
      assert StripRight(line) == Formatted(CutShort(e));
      FirstStays(line, Formatted(e));
    } else {
      UnbrokenUncut(ErrorPairs(e));
      TailHasNone(ErrorPairs(e));
      NoBreakTogether(x, Tail(ErrorFields(e)));
      SplitNone(Formatted(e));
    }
  }

  /** A line with a mark at its front loses nothing there. */
  lemma {:induction false} FirstStays(line: string, whole: string)
    requires whole != "" && !Blank(whole[0]) && line <= whole
    ensures Strip(line) == StripRight(line)
  {
  }

  lemma {:induction false} UnbrokenUncut(pairs: seq<(string, string)>)
    requires !Broken(pairs)
    ensures CutPairs(pairs) == pairs
  {
    forall i | 0 <= i < |pairs| ensures CutPairs(pairs)[i] == pairs[i] {
      CutPairAt(pairs, i);
      assert forall h :: 0 <= h < i ==> pairs[..i][h] == pairs[h];
    }
  }

  lemma FirstLineReads(e: Event)
    requires Normalized(e) && NoBreak(e.component) && NoBreak(Message(e)) && ']' !in e.component
    ensures Formatted(e) != "" && Parse(SplitLines(Formatted(e))[0]) == Some(Read(CutShort(e)))
    ensures Read(CutShort(e)) == Read(e) <==> Head6(e)
  {
    hide CutPairs;
    FirstLineIs(e);
    CutShortShaped(e);
    CutShortShows(e);
    LineIsTrim(CutShort(e));
    ShownIsRead(CutShort(e));
    CutValues(e);
  }

  lemma {:induction false} TailAppend(a: seq<(string, string)>, b: seq<(string, string)>)
    ensures Tail(Fields(a + b)) == Tail(Fields(a)) + Tail(Fields(b))
    decreases |a|
  {
    hide Text, Join;
    if a == [] {
      assert a + b == b && Fields(a) == [];
    } else {
      assert a + b == [a[0]] + (a[1..] + b) && a == [a[0]] + a[1..];
      TailStep(a[0], a[1..] + b);
      TailStep(a[0], a[1..]);
      TailAppend(a[1..], b);
      Regroup(Text(a[0]), Tail(Fields(a[1..])), Tail(Fields(b)));
    }
  }

  /** With the breaks in the technical detail only, the later lines are those of the technical detail. */
  lemma LaterLinesAre(e: Event)
    requires Normalized(e) && NoBreak(e.component) && NoBreak(Message(e)) && Head6(e)
    ensures LaterLines(Formatted(e)) == LaterLines(e.technical)
  {
    hide Fields, Tail, SplitLines;
    var x, pairs := Head(e.timestamp, e.level, e.component) + Message(e), ErrorPairs(e);
    var front, last := pairs[..6], pairs[6];
    assert pairs == front + [last];
    FrontHasNone(e);
    PairsFit(e);
    TailAppend(front, [last]);
    TailOfOne(last);
    assert GoodPairs(front) && !Broken(front) by {
      assert forall i :: 0 <= i < 6 ==> front[i] == pairs[i];
    }
    TailHasNone(front);
    NoBreakTogether(x, Tail(Fields(front)));
    if e.technical == "" {
      assert Formatted(e) == x + Tail(Fields(front));
      SplitNone(Formatted(e));
    } else {
      var y := x + Tail(Fields(front)) + ([BAR] + last.0 + [COLON]);
      LabelHasNone(last.0);
      NoBreakTogether(x + Tail(Fields(front)), [BAR] + last.0 + [COLON]);
      assert Formatted(e) == y + e.technical by {
        Regroup(x, Tail(Fields(front)), Text(last));
        Regroup(x + Tail(Fields(front)), [BAR] + last.0 + [COLON], e.technical);
      }
      LinesPrefix(y, e.technical);
    }
  }

  lemma TailOfOne(pair: (string, string))
    ensures Tail(Fields([pair])) == Text(pair)
  {
    assert [pair] + [] == [pair];
    TailStep(pair, []);
  }

  /** Every text the reader gives back is without a break, and what a break in the technical detail puts on lines of its
      own does not look like events. */
  predicate Whole(e: Event) {
    && ']' !in e.component && NoBreak(e.component) && NoBreak(Message(e)) && Head6(e)
    && forall l :: l in LaterLines(e.technical) ==> Parse(l).None?
  }

  lemma {:induction false} NoEvents(lines: seq<string>)
    ensures EventsOf(lines) == [] <==> forall l :: l in lines ==> Parse(l).None?
  {
    if lines != [] {
      NoEvents(lines[1..]);
    }
  }

  /** The lines of one event: at least one is read when component and message survive, and exactly the event when it is
      whole. */
  lemma EventAlone(e: Event)
    requires Normalized(e) && ']' !in e.component && NoBreak(e.component) && NoBreak(Message(e))
    ensures |EventsOf(SplitLines(Formatted(e)))| >= 1
    ensures EventsOf(SplitLines(Formatted(e))) == [Read(e)] <==> Whole(e)
  {
    hide SplitLines, NoBreak, Parse, CutPairs;
    FirstLineReads(e);
    var lines := SplitLines(Formatted(e));
    assert lines[1..] == LaterLines(Formatted(e));
    NoEvents(lines[1..]);
    if Head6(e) {
      LaterLinesAre(e);
    }
  }

  // The log

  lemma {:induction false} LogStep(events: seq<Event>)
    requires events != [] && Normalized(events[0])
    ensures EventsOf(SplitLines(Log(events))) ==
            EventsOf(SplitLines(Formatted(events[0]))) + EventsOf(SplitLines(Log(events[1..])))
  {
    var line, rest := Formatted(events[0]), Log(events[1..]);
    CodeIsField(events[0]);
    LineIsTrim(events[0]);
    assert line[0] == events[0].timestamp[0];
    LinesAppend(line, rest);
    EventsAppend(SplitLines(line), SplitLines(rest));
  }

  lemma {:induction false} WholeLogReads(events: seq<Event>)
    requires forall e :: e in events ==> Normalized(e) && Whole(e)
    ensures EventsOf(SplitLines(Log(events))) == ReadAll(events)
  {
    if events != [] {
      LogStep(events);
      EventAlone(events[0]);
      WholeLogReads(events[1..]);
    }
  }

  ghost predicate Survives(e: Event) {
    ']' !in e.component && NoBreak(e.component) && NoBreak(Message(e))
  }

  lemma {:induction false} ReadSurvive(events: seq<Event>)
    requires EventsOf(SplitLines(Log(events))) == ReadAll(events)
    ensures forall e :: e in events ==> Survives(e)
  {
    LinesHaveNone(Log(events));
    EventsHaveNone(SplitLines(Log(events)));
    forall e | e in events ensures Survives(e) {
      var i :| 0 <= i < |events| && events[i] == e;
      assert ReadAll(events)[i] == Read(e) && Read(e) in ReadAll(events);
    }
  }

  lemma {:induction false} EnoughRead(events: seq<Event>)
    requires forall e :: e in events ==> Normalized(e) && Survives(e)
    ensures |EventsOf(SplitLines(Log(events)))| >= |events|
    ensures EventsOf(SplitLines(Log(events))) == ReadAll(events) ==> forall e :: e in events ==> Whole(e)
  {
    if events != [] {
      LogStep(events);
      EventAlone(events[0]);
      EnoughRead(events[1..]);
      var first, rest := EventsOf(SplitLines(Formatted(events[0]))), EventsOf(SplitLines(Log(events[1..])));
      if first + rest == ReadAll(events) {
        assert |first| == 1;
        assert first[0] == (first + rest)[0] == Read(events[0]);
        assert rest == (first + rest)[1..] == ReadAll(events)[1..] == ReadAll(events[1..]);
      }
    }
  }

  /** Reading a log of error events gives them all back, in order, if and only if every event is whole. */
  lemma {:induction false} LogReadsBack(events: seq<Event>)
    requires forall e :: e in events ==> Normalized(e)
    ensures EventsOf(SplitLines(Log(events))) == ReadAll(events) <==> forall e :: e in events ==> Whole(e)
  {
    if forall e :: e in events ==> Whole(e) {
      WholeLogReads(events);
    } else if EventsOf(SplitLines(Log(events))) == ReadAll(events) {
      ReadSurvive(events);
      EnoughRead(events);
    }
  }

  /** Replacing separators removes exactly two of the breaks. */
  lemma SeparatedBreaks(s: string)
    ensures NoBreak(Separated(s)) <==> forall i :: 0 <= i < |s| && Breaks(s[i]) ==> s[i] == '\n' || s[i] == '\r'
  {
    forall i | 0 <= i < |s|
      ensures Breaks(Separated(s)[i]) <==> Breaks(s[i]) && s[i] != '\n' && s[i] != '\r'
    {
      assert !Breaks(' ') && !Breaks('/') && !Breaks(BAR);
    }
  }

  const SEPARATED := Event("2024-01-01 00:00:00.000", "错误", "a", "b", "", "", "c\U{2028}d", "", "e", "", "f", "")

  lemma TimestampFits()
    ensures Timestamp(SEPARATED.timestamp)
  {
  }

  lemma SeparatedFits()
    ensures Normalized(SEPARATED)
  {
    hide Timestamp;
    TimestampFits();
    assert Clean(SEPARATED.reason) by {
      assert |SEPARATED.reason| == 3 && SEPARATED.reason[0] == 'c' && SEPARATED.reason[2] == 'd';
    }
    assert Clean("e") && Clean("f");
  }

  lemma SeparatedIsNotWhole()
    ensures !Whole(SEPARATED)
  {
    assert Breaks(SEPARATED.reason[1]);
    assert !Head6(SEPARATED);
  }

  /** A normalized event with U+2028 in its reason loses its codes when the log is read. */
  lemma SeparatorLosesCodes()
    ensures exists e: Event :: Normalized(e) && EventsOf(SplitLines(Log([e]))) != ReadAll([e])
  {
    hide Normalized, Whole, Log, SplitLines, EventsOf, ReadAll;
    SeparatedFits();
    SeparatedIsNotWhole();
    var e := SEPARATED;
    assert e in [e];
    LogReadsBack([e]);
  }
}
