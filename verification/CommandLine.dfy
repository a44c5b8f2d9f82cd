/** Quoting arguments for a Windows process, against the Microsoft C runtime's rules for taking a command line apart. */
module CommandLine {
  import opened Utf16

  const QUOTE: CodeUnit := 0x22
  const BACKSLASH: CodeUnit := 0x5C
  const SPACE: CodeUnit := 0x20
  const TAB: CodeUnit := 0x09
  const NUL: CodeUnit := 0x00

  function Backslashes(n: nat): Text { seq(n, _ => BACKSLASH) }

  // Quoting

  predicate NeedsQuotes(value: Text) {
    exists i :: 0 <= i < |value| && (IsSpace(value[i]) || value[i] == QUOTE)
  }

  /** The text between the quotes, when `slashes` backslashes are still held back. */
  function Escaped(value: Text, slashes: nat): Text
    decreases |value|
  {
    if value == [] then Backslashes(2 * slashes)
    else if value[0] == BACKSLASH then Escaped(value[1..], slashes + 1)
    else if value[0] == QUOTE then Backslashes(2 * slashes + 1) + [QUOTE] + Escaped(value[1..], 0)
    else Backslashes(slashes) + [value[0]] + Escaped(value[1..], 0)
  }

  function Quoted(value: Text): Text {
    if value == [] then [QUOTE, QUOTE]
    else if !NeedsQuotes(value) then value
    else [QUOTE] + Escaped(value, 0) + [QUOTE]
  }

  /** An argument is left as it is if and only if it is not empty and holds neither white space nor a quote. */
  lemma QuotedWhenNeeded(value: Text)
    ensures Quoted(value) == value <==>
            value != [] && forall i :: 0 <= i < |value| ==> !IsSpace(value[i]) && value[i] != 0x22
    ensures Quoted(value) != value ==>
              |Quoted(value)| >= 2 && Quoted(value)[0] == 0x22 == Quoted(value)[|Quoted(value)| - 1]
  {
    if NeedsQuotes(value) {
      EscapedLonger(value, 0);
    }
  }

  lemma {:induction false} EscapedLonger(value: Text, slashes: nat)
    ensures |Escaped(value, slashes)| >= |value| + slashes
  {
    if value != [] {
      EscapedLonger(value[1..], if value[0] == BACKSLASH then slashes + 1 else 0);
    }
  }

  /** What the loop still has to write, before and after one step. */
  lemma EscapedStep(value: Text, position: nat, slashes: nat)
    requires position < |value|
    ensures var width, rest := Width(value, position), value[position..];
            Escaped(rest, slashes) ==
            if value[position] == BACKSLASH then Escaped(value[position + width..], slashes + 1)
            else if value[position] == QUOTE
            then Backslashes(slashes * 2 + 1) + [QUOTE] + Escaped(value[position + width..], 0)
            else Backslashes(slashes) + value[position..position + width] + Escaped(value[position + width..], 0)
  {
    var width, rest := Width(value, position), value[position..];
    assert rest[0] == value[position] && rest[1..] == value[position + 1..];
    if width == 2 {
      assert rest[1..][0] == value[position + 1] && rest[1..][1..] == value[position + 2..];
      assert Escaped(rest[1..], 0) == Backslashes(0) + [value[position + 1]] + Escaped(rest[1..][1..], 0);
      assert Backslashes(0) == [];
    }
  }

  lemma {:induction false} EscapedEnd(slashes: nat)
    ensures Escaped([], slashes) == Backslashes(slashes * 2)
  {
  }

  lemma Grouped(a: Text, b: Text, c: Text)
    ensures a + (b + c) == a + b + c
  {
  }

  /** The plugin's loop, one code point at a time. */
  method QuoteArgument(value: Text) returns (result: Text)
    ensures result == Quoted(value)
  {
    if |value| == 0 {
      return [QUOTE, QUOTE];
    }
    if !NeedsQuotes(value) {
      return value;
    }
    hide Escaped, Backslashes;
    result := [QUOTE];
    var slashes := 0;
    var position := 0;
    assert value[position..] == value;
    while position < |value|
      invariant 0 <= position <= |value|
      invariant result + Escaped(value[position..], slashes) == [QUOTE] + Escaped(value, 0)
    {
      var width := Width(value, position);
      EscapedStep(value, position, slashes);
      if value[position] == BACKSLASH {
        slashes := slashes + 1;
      } else if value[position] == QUOTE {
        Grouped(result, Backslashes(slashes * 2 + 1) + [QUOTE], Escaped(value[position + width..], 0));
        result := result + (Backslashes(slashes * 2 + 1) + [QUOTE]);
        slashes := 0;
      } else {
        Grouped(result, Backslashes(slashes) + value[position..position + width],
            Escaped(value[position + width..], 0));
        result := result + (Backslashes(slashes) + value[position..position + width]);
        slashes := 0;
      }
      position := position + width;
    }
    EscapedEnd(slashes);
    result := result + Backslashes(slashes * 2) + [QUOTE];
  }

  function CommandLineOf(arguments: seq<Text>): Text {
    if arguments == [] then []
    else if |arguments| == 1 then Quoted(arguments[0])
    else Quoted(arguments[0]) + [SPACE] + CommandLineOf(arguments[1..])
  }

  // Taking a command line apart

  function Slashes(line: Text): (n: nat)
    ensures n <= |line|
  {
    if line != [] && line[0] == BACKSLASH then 1 + Slashes(line[1..]) else 0
  }

  predicate Delimiter(u: CodeUnit) { u == SPACE || u == TAB }

  /** One argument and what follows it; `inQuotes` says whether a quoted part is open. */
  function Argument(line: Text, inQuotes: bool): (r: (Text, Text))
    ensures |r.1| <= |line|
    ensures line != [] && (inQuotes || !Delimiter(line[0])) ==> |r.1| < |line|
    decreases |line|, 1
  {
    AfterSlashes(Slashes(line), line[Slashes(line)..], inQuotes)
  }

  /** The same, with `n` backslashes read and something else coming. */
  function AfterSlashes(n: nat, after: Text, inQuotes: bool): (r: (Text, Text))
    ensures |r.1| <= |after|
    ensures after != [] && (inQuotes || !Delimiter(after[0])) ==> |r.1| < |after|
    decreases |after|, 0
  {
    if after == [] then (Backslashes(n), [])
    else if after[0] == QUOTE then
      if n % 2 == 1 then
        var (text, rest) := Argument(after[1..], inQuotes);
        (Backslashes(n / 2) + [QUOTE] + text, rest)
      else if inQuotes && |after| > 1 && after[1] == QUOTE then
        var (text, rest) := Argument(after[2..], inQuotes);
        (Backslashes(n / 2) + [QUOTE] + text, rest)
      else
        var (text, rest) := Argument(after[1..], !inQuotes);
        (Backslashes(n / 2) + text, rest)
    else if !inQuotes && Delimiter(after[0]) then (Backslashes(n), after)
    else
      var (text, rest) := Argument(after[1..], inQuotes);
      (Backslashes(n) + [after[0]] + text, rest)
  }

  function Arguments(line: Text): seq<Text>
    decreases |line|
  {
    if line == [] then []
    else if Delimiter(line[0]) then Arguments(line[1..])
    else
      var (text, rest) := Argument(line, false);
      [text] + Arguments(rest)
  }

  /** The command line the process sees: a C string, so it ends at the first NUL. */
  function Seen(line: Text): Text {
    if line == [] || line[0] == NUL then [] else [line[0]] + Seen(line[1..])
  }

  // The round trip

  lemma {:induction false} SlashesOf(n: nat, tail: Text)
    requires tail == [] || tail[0] != BACKSLASH
    ensures Slashes(Backslashes(n) + tail) == n
    ensures (Backslashes(n) + tail)[n..] == tail
  {
    if n > 0 {
      SlashesOf(n - 1, tail);
      assert (Backslashes(n) + tail)[1..] == Backslashes(n - 1) + tail;
    } else {
      assert Backslashes(0) + tail == tail;
    }
  }

  lemma {:induction false} ReadsSlashes(line: Text, n: nat, after: Text, inQuotes: bool)
    requires line == Backslashes(n) + after && (after == [] || after[0] != BACKSLASH)
    ensures Argument(line, inQuotes) == AfterSlashes(n, after, inQuotes)
  {
    SlashesOf(n, after);
  }

  /** What follows an argument on the command line: nothing, or a space. */
  predicate Follows(tail: Text) { tail == [] || tail[0] == SPACE }

  lemma {:induction false} ArgumentEnds(tail: Text)
    requires Follows(tail)
    ensures Argument(tail, false) == ([], tail)
  {
    assert Backslashes(0) == [];
    ReadsSlashes(tail, 0, tail, false);
  }

  /** The closing quote after an even run of backslashes. */
  lemma {:induction false} ClosingParses(slashes: nat, tail: Text, line: Text)
    requires Follows(tail) && line == Backslashes(2 * slashes) + [QUOTE] + tail
    ensures Argument(line, true) == (Backslashes(slashes), tail)
  {
    var after := [QUOTE] + tail;
    assert after[1..] == tail;
    ReadsSlashes(line, 2 * slashes, after, true);
    ArgumentEnds(tail);
    assert Backslashes(slashes) + [] == Backslashes(slashes);
  }

  /** An escaped quote, or another character after backslashes, inside or outside quotes. */
  lemma {:induction false} EscapedQuoteParses(slashes: nat, rest: Text, inQuotes: bool, line: Text)
    requires line == Backslashes(2 * slashes + 1) + [QUOTE] + rest
    ensures Argument(line, inQuotes)
         == (Backslashes(slashes) + [QUOTE] + Argument(rest, inQuotes).0, Argument(rest, inQuotes).1)
  {
    var after := [QUOTE] + rest;
    assert after[1..] == rest;
    ReadsSlashes(line, 2 * slashes + 1, after, inQuotes);
  }

  lemma {:induction false} CharacterParses(slashes: nat, c: CodeUnit, rest: Text, inQuotes: bool, line: Text)
    requires c != BACKSLASH && c != QUOTE && (inQuotes || !Delimiter(c))
    requires line == Backslashes(slashes) + [c] + rest
    ensures Argument(line, inQuotes) ==
              (Backslashes(slashes) + [c] + Argument(rest, inQuotes).0, Argument(rest, inQuotes).1)
  {
    var after := [c] + rest;
    assert after[1..] == rest;
    ReadsSlashes(line, slashes, after, inQuotes);
  }

  lemma Regrouped(slashes: nat, value: Text)
    requires value != []
    ensures Backslashes(slashes) + [value[0]] + value[1..] == Backslashes(slashes) + value
    ensures value[0] == BACKSLASH ==> Backslashes(slashes + 1) + value[1..] == Backslashes(slashes) + value
  {
  }

  lemma NoSlashes(value: Text)
    ensures Backslashes(0) + value == value
  {
  }

  lemma Joined(a: Text, b: Text, c: Text, d: Text)
    ensures (a + b + c) + d == a + b + (c + d)
  {
  }

  /** Inside quotes the escaped text gives back the value, held-back backslashes first. */
  lemma {:induction false} EscapedParses(value: Text, slashes: nat, tail: Text)
    requires Follows(tail)
    ensures Argument(Escaped(value, slashes) + [QUOTE] + tail, true) == (Backslashes(slashes) + value, tail)
    decreases |value|
  {
    hide Argument;
    var line := Escaped(value, slashes) + [QUOTE] + tail;
    if value == [] {
      ClosingParses(slashes, tail, line);
      assert Backslashes(slashes) + value == Backslashes(slashes);
    } else if value[0] == BACKSLASH {
      EscapedParses(value[1..], slashes + 1, tail);
      Regrouped(slashes, value);
    } else {
      var rest := Escaped(value[1..], 0) + [QUOTE] + tail;
      EscapedParses(value[1..], 0, tail);
      NoSlashes(value[1..]);
      Regrouped(slashes, value);
      var run := Backslashes(if value[0] == QUOTE then 2 * slashes + 1 else slashes);
      assert line == run + [value[0]] + rest by {
        Joined(run, [value[0]], Escaped(value[1..], 0), [QUOTE] + tail);
        assert line == (run + [value[0]] + Escaped(value[1..], 0)) + ([QUOTE] + tail);
        assert rest == Escaped(value[1..], 0) + ([QUOTE] + tail);
      }
      if value[0] == QUOTE {
        EscapedQuoteParses(slashes, rest, true, line);
      } else {
        CharacterParses(slashes, value[0], rest, true, line);
      }
    }
  }

  /** Without spaces and quotes every character stands for itself, backslashes included. */
  lemma {:induction false} PlainParses(slashes: nat, value: Text, tail: Text)
    requires Follows(tail) && !NeedsQuotes(value)
    ensures Argument(Backslashes(slashes) + value + tail, false) == (Backslashes(slashes) + value, tail)
    decreases |value|
  {
    var line := Backslashes(slashes) + value + tail;
    if value == [] {
      ReadsSlashes(line, slashes, tail, false);
      assert Backslashes(slashes) + value == Backslashes(slashes);
    } else {
      assert !NeedsQuotes(value[1..]) by {
        assert forall i :: 0 <= i < |value[1..]| ==> value[1..][i] == value[i + 1];
      }
      assert !IsSpace(value[0]) && value[0] != QUOTE;
      Regrouped(slashes, value);
      if value[0] == BACKSLASH {
        PlainParses(slashes + 1, value[1..], tail);
      } else {
        PlainParses(0, value[1..], tail);
        NoSlashes(value[1..]);
        Joined(Backslashes(slashes), [value[0]], value[1..], tail);
        CharacterParses(slashes, value[0], value[1..] + tail, false, line);
      }
    }
  }

  lemma {:induction false} OpeningParses(rest: Text)
    ensures Argument([QUOTE] + rest, false) == Argument(rest, true)
  {
    var after := [QUOTE] + rest;
    assert after[1..] == rest;
    NoSlashes(after);
    ReadsSlashes(after, 0, after, false);
    NoSlashes(Argument(rest, true).0);
  }

  lemma {:induction false} QuotedParses(value: Text, tail: Text)
    requires Follows(tail)
    ensures Argument(Quoted(value) + tail, false) == (value, tail)
    ensures Quoted(value) != [] && !Delimiter(Quoted(value)[0])
  {
    hide Argument, Escaped;
    if value == [] || NeedsQuotes(value) {
      EscapedEnd(0);
      EscapedParses(value, 0, tail);
      NoSlashes(value);
      OpeningParses(Escaped(value, 0) + [QUOTE] + tail);
      assert Quoted(value) + tail == [QUOTE] + (Escaped(value, 0) + [QUOTE] + tail);
    } else {
      PlainParses(0, value, tail);
      NoSlashes(value);
      assert !IsSpace(value[0]);
    }
  }

  /** Taking the joined command line apart gives the arguments back. */
  lemma {:induction false} ParsesBack(arguments: seq<Text>)
    ensures Arguments(CommandLineOf(arguments)) == arguments
  {
    hide Argument, Quoted;
    if arguments != [] {
      var tail := if |arguments| == 1 then [] else [SPACE] + CommandLineOf(arguments[1..]);
      QuotedParses(arguments[0], tail);
      assert CommandLineOf(arguments) == Quoted(arguments[0]) + tail;
      ParsesBack(arguments[1..]);
      assert |arguments| > 1 ==> tail[1..] == CommandLineOf(arguments[1..]);
      assert arguments == [arguments[0]] + arguments[1..];
    }
  }

  // The only way it fails: an embedded NUL

  lemma {:induction false} SeenWhole(line: Text)
    ensures NUL !in Seen(line)
    ensures NUL !in line ==> Seen(line) == line
  {
    if line != [] && line[0] != NUL {
      SeenWhole(line[1..]);
    }
  }

  lemma {:induction false} ArgumentKeepsOut(line: Text, inQuotes: bool)
    requires NUL !in line
    ensures NUL !in Argument(line, inQuotes).0 && NUL !in Argument(line, inQuotes).1
    decreases |line|, 1
  {
    AfterSlashesKeepsOut(Slashes(line), line[Slashes(line)..], inQuotes);
  }

  lemma {:induction false} AfterSlashesKeepsOut(n: nat, after: Text, inQuotes: bool)
    requires NUL !in after
    ensures NUL !in AfterSlashes(n, after, inQuotes).0 && NUL !in AfterSlashes(n, after, inQuotes).1
    decreases |after|, 0
  {
    if after != [] {
      if after[0] == QUOTE && n % 2 == 0 && inQuotes && |after| > 1 && after[1] == QUOTE {
        ArgumentKeepsOut(after[2..], inQuotes);
      } else if after[0] == QUOTE && n % 2 == 0 {
        ArgumentKeepsOut(after[1..], !inQuotes);
      } else {
        ArgumentKeepsOut(after[1..], inQuotes);
      }
    }
  }

  lemma {:induction false} ArgumentsKeepOut(line: Text)
    requires NUL !in line
    ensures forall text :: text in Arguments(line) ==> NUL !in text
    decreases |line|
  {
    if line != [] {
      if Delimiter(line[0]) {
        ArgumentsKeepOut(line[1..]);
      } else {
        ArgumentKeepsOut(line, false);
        ArgumentsKeepOut(Argument(line, false).1);
      }
    }
  }

  lemma {:induction false} EscapedAddsNoNul(value: Text, slashes: nat)
    requires NUL !in value
    ensures NUL !in Escaped(value, slashes)
    decreases |value|
  {
    if value != [] {
      EscapedAddsNoNul(value[1..], slashes + 1);
      EscapedAddsNoNul(value[1..], 0);
    }
  }

  lemma {:induction false} LineAddsNoNul(arguments: seq<Text>)
    requires forall text :: text in arguments ==> NUL !in text
    ensures NUL !in CommandLineOf(arguments)
  {
    if arguments != [] {
      EscapedAddsNoNul(arguments[0], 0);
      LineAddsNoNul(arguments[1..]);
    }
  }

  /** The process receives exactly the arguments it was given, if and only if none of them contains a NUL. */
  lemma {:induction false} ReceivedExactly(arguments: seq<Text>)
    ensures Arguments(Seen(CommandLineOf(arguments))) == arguments <==> forall text :: text in arguments ==>
              NUL !in text
  {
    var line := CommandLineOf(arguments);
    SeenWhole(line);
    ArgumentsKeepOut(Seen(line));
    if forall text :: text in arguments ==> NUL !in text {
      LineAddsNoNul(arguments);
      ParsesBack(arguments);
    }
  }
}
