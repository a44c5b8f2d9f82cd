/** The unified log's line format for error events, and the parser that reads it back. */
module LogLine {
  import opened Joining
  import opened Results

  const BAR: char := '｜'
  const COLON: char := '：'

  // Text

  /** The characters Python's str.strip removes. */
  predicate Blank(c: char) {
    || '\t' <= c <= '\r' || '\U{1C}' <= c <= ' ' || c == '\U{85}' || c == '\U{A0}' || c == '\U{1680}'
    || '\U{2000}' <= c <= '\U{200A}' || c == '\U{2028}' || c == '\U{2029}' || c == '\U{202F}' || c == '\U{205F}'
    || c == '\U{3000}'
  }

  function StripLeft(s: string): string {
    if s != [] && Blank(s[0]) then StripLeft(s[1..]) else s
  }

  function StripRight(s: string): string {
    if s != [] && Blank(s[|s| - 1]) then StripRight(s[..|s| - 1]) else s
  }

  function Strip(s: string): string { StripRight(StripLeft(s)) }

  /** Nothing to strip at either end. */
  predicate Trim(s: string) {
    s == [] || (!Blank(s[0]) && !Blank(s[|s| - 1]))
  }

  lemma StripTrim(s: string)
    requires Trim(s)
    ensures Strip(s) == s
  {
  }

  // Formatting

  /** A normalized event; every text but the timestamp and the labels has been through redaction. */
  datatype Event = Event(
    timestamp: string, level: string, component: string, message: string, command: string, stage: string,
    reason: string, action: string, code: string, request: string, event: string, technical: string)

  /** Redaction first replaces the characters that would break a line apart, then masks and shortens. */
  function Replaced(c: char): char {
    if c == '\r' || c == '\n' then ' ' else if c == BAR then '/' else c
  }

  function Separated(s: string): string { seq(|s|, i requires 0 <= i < |s| => Replaced(s[i])) }

  predicate OneField(s: string) {
    BAR !in s && '\n' !in s && '\r' !in s
  }

  /** What masking may do: it brings in no separator, leaves no blank ends and makes nothing empty. */
  ghost predicate Masks(mask: string -> string) {
    forall s :: OneField(s) && Trim(s) ==> OneField(mask(s)) && Trim(mask(s)) && (s != "" ==> mask(s) != "")
  }

  function Redacted(s: string, mask: string -> string): string { mask(Separated(Strip(s))) }

  lemma RedactedFits(s: string, mask: string -> string)
    requires Masks(mask)
    ensures OneField(Redacted(s, mask)) && Trim(Redacted(s, mask))
    ensures Strip(s) != "" ==> Redacted(s, mask) != ""
  {
    StripTrims(s);
    var separated := Separated(Strip(s));
    assert forall i :: 0 <= i < |separated| ==> separated[i] == Replaced(Strip(s)[i]);
    assert OneField(separated) && Trim(separated);
  }

  lemma StripTrims(s: string)
    ensures Trim(Strip(s))
  {
    StripLeftTrims(s);
    StripRightTrims(StripLeft(s));
  }

  lemma {:induction false} StripLeftTrims(s: string)
    ensures StripLeft(s) == [] || !Blank(StripLeft(s)[0])
  {
    if s != [] && Blank(s[0]) {
      StripLeftTrims(s[1..]);
    }
  }

  lemma {:induction false} StripRightTrims(s: string)
    requires s == [] || !Blank(s[0])
    ensures Trim(StripRight(s))
  {
    if s != [] && Blank(s[|s| - 1]) {
      StripRightTrims(s[..|s| - 1]);
    }
  }

  function Labelled(name: string, value: string): seq<string> {
    if value == "" then [] else [name + [COLON] + value]
  }

  /** What an error event shows, in this order. */
  function ErrorPairs(e: Event): seq<(string, string)> {
    [("阶段", e.stage), ("原因", e.reason), ("处理建议", e.action), ("错误码", e.code), ("请求", e.request), ("事件码", e.event),
     ("技术详情", e.technical)]
  }

  /** The fields; empty ones are left out.  Seven labels never reach the limit on their number. */
  function Fields(pairs: seq<(string, string)>): seq<string> {
    if pairs == [] then [] else Labelled(pairs[0].0, pairs[0].1) + Fields(pairs[1..])
  }

  function ErrorFields(e: Event): seq<string> { Fields(ErrorPairs(e)) }

  function Message(e: Event): string {
    if e.command != "" && !Occurs(e.command, e.message) then "“" + e.command + "”" + e.message else e.message
  }

  predicate Occurs(part: string, s: string) {
    exists i, j :: 0 <= i <= j <= |s| && s[i..j] == part
  }

  /** The first line of a formatted error event. */
  function Formatted(e: Event): string {
    Head(e.timestamp, e.level, e.component) + Message(e) + Tail(ErrorFields(e))
  }

  function Head(timestamp: string, level: string, component: string): string {
    timestamp + " [" + level + "] [" + component + "] "
  }

  function Tail(fields: seq<string>): string {
    if fields == [] then "" else [BAR] + Join(fields, BAR)
  }

  /** One labelled field; an empty one does not show. */
  function Stated(name: string, value: string): string {
    if value == "" then "" else "｜" + name + "：" + value
  }

  lemma TailMore(field: string, fields: seq<string>)
    ensures Tail([field] + fields) == [BAR] + field + Tail(fields)
  {
    assert ([field] + fields)[1..] == fields;
  }

  lemma {:induction false} FieldShows(name: string, value: string, pairs: seq<(string, string)>)
    ensures Tail(Fields([(name, value)] + pairs)) == Stated(name, value) + Tail(Fields(pairs))
  {
    assert ([(name, value)] + pairs)[1..] == pairs;
    if value == "" {
      assert [] + Fields(pairs) == Fields(pairs);
      assert "" + Tail(Fields(pairs)) == Tail(Fields(pairs));
    } else {
      TailMore(name + [COLON] + value, Fields(pairs));
      assert [BAR] + (name + [COLON] + value) == "｜" + name + "：" + value;
    }
  }

  lemma FieldsExactly(e: Event)
    ensures Tail(ErrorFields(e)) ==
            Stated("阶段", e.stage) + (Stated("原因", e.reason) + (Stated("处理建议", e.action) + (
            Stated("错误码", e.code) + (Stated("请求", e.request) + (Stated("事件码", e.event) +
            Stated("技术详情", e.technical))))))
  {
    hide Tail, Fields, Stated;
    var technical := [("技术详情", e.technical)];
    var event := [("事件码", e.event)] + technical;
    var request := [("请求", e.request)] + event;
    var code := [("错误码", e.code)] + request;
    var action := [("处理建议", e.action)] + code;
    var reason := [("原因", e.reason)] + action;
    assert ErrorPairs(e) == [("阶段", e.stage)] + reason;
    assert technical == technical + [];
    FieldShows("技术详情", e.technical, []);
    FieldShows("事件码", e.event, technical);
    FieldShows("请求", e.request, event);
    FieldShows("错误码", e.code, request);
    FieldShows("处理建议", e.action, code);
    FieldShows("原因", e.reason, action);
    FieldShows("阶段", e.stage, reason);
    NoFields();
  }

  /** The whole line: time, level, component, message with the command's name where it does not say it itself, and the
      fields that are there, in this order. */
  lemma LineExactly(e: Event)
    ensures Formatted(e) ==
            e.timestamp + " [" + e.level + "] [" + e.component + "] "
            + ((if e.command == "" || Occurs(e.command, e.message) then "" else "“" + e.command + "”") + e.message)
            + (Stated("阶段", e.stage) + (Stated("原因", e.reason) + (Stated("处理建议", e.action) + (
               Stated("错误码", e.code) + (Stated("请求", e.request) + (Stated("事件码", e.event) +
               Stated("技术详情", e.technical)))))))
  {
    hide Tail, ErrorFields, Stated, Occurs;
    FieldsExactly(e);
    assert "" + e.message == e.message;
  }

  lemma NoFields()
    ensures Tail(Fields([])) == ""
  {
  }

  // Parsing

  datatype Parsed = Parsed(
    timestamp: string, level: string, component: string, message: string,
    event: Option<string>, code: Option<string>, request: Option<string>, command: Option<string>,
    build: Option<string>)

  /** dddd-dd-dd dd:dd:dd.ddd */
  predicate Timestamp(s: string) {
    |s| == 23 && forall i :: 0 <= i < 23 ==>
      if i == 4 || i == 7 then s[i] == '-'
      else if i == 10 then s[i] == ' '
      else if i == 13 || i == 16 then s[i] == ':'
      else if i == 19 then s[i] == '.'
      else '0' <= s[i] <= '9'
  }

  /** `[text]` and a space at the front: the text, which has no "]", and the rest. */
  function Bracketed(s: string): Option<(string, string)> {
    if s == [] || s[0] != '[' then None
    else
      var (text, after) := Cut(s[1..], ']');
      if text == "" || after.None? || after.value == [] || after.value[0] != ' ' then None
      else Some((text, after.value[1..]))
  }

  function WithField(p: Parsed, field: string): Parsed {
    var (name, value) := Cut(field, COLON);
    if value.None? then p
    else
      var key, item := Strip(name), Strip(value.value);
      if key == "事件码" then p.(event := Some(item))
      else if key == "错误码" then p.(code := Some(item))
      else if key == "请求" then p.(request := Some(item))
      else if key == "命令" then p.(command := Some(item))
      else if key == "构建" then p.(build := Some(item))
      else p
  }

  function WithFields(p: Parsed, fields: seq<string>): Parsed
    decreases |fields|
  {
    if fields == [] then p else WithFields(WithField(p, fields[0]), fields[1..])
  }

  /** The message and the fields; neither may hold a line break. */
  function ParseBody(timestamp: string, level: string, component: string, body: string): Option<Parsed> {
    if '\n' in body then None
    else
      var (message, fields) := Cut(body, BAR);
      var p := Parsed(timestamp, level, component, message, None, None, None, None, None);
      Some(WithFields(p, if fields.Some? then Split(fields.value, BAR) else [""]))
  }

  function ParseAfterLevel(timestamp: string, level: string, afterLevel: string): Option<Parsed> {
    match Bracketed(afterLevel)
    case None => None
    case Some((component, body)) => ParseBody(timestamp, level, component, body)
  }

  /** The parser. */
  function Parse(line: string): Option<Parsed> {
    var s := Strip(line);
    if |s| < 24 || !Timestamp(s[..23]) || s[23] != ' ' then None
    else
      match Bracketed(s[24..])
      case None => None
      case Some((level, afterLevel)) => ParseAfterLevel(s[..23], level, afterLevel)
  }

  // The round trip

  const LEVEL_LABELS := {"调试", "信息", "警告", "错误", "致命"}

  predicate Clean(s: string) { OneField(s) && Trim(s) }

  /** Every text in an event's line is a field. */
  predicate Shaped(e: Event) {
    && Timestamp(e.timestamp) && e.level in LEVEL_LABELS
    && e.component != "" && OneField(e.component) && OneField(e.message) && OneField(e.command)
    && Clean(e.stage) && Clean(e.reason) && Clean(e.action) && Clean(e.code) && Clean(e.request) && Clean(e.event)
    && Clean(e.technical)
  }

  /** An error event as normalization leaves it. */
  predicate Normalized(e: Event) {
    Shaped(e) && e.code != "" && e.event != ""
  }

  function Shown(value: string): Option<string> {
    if value == "" then None else Some(value)
  }

  /** What the line of an error event says to its reader. */
  function Read(e: Event): Parsed {
    Parsed(e.timestamp, e.level, e.component, Message(e), Shown(e.event), Shown(e.code), Shown(e.request), None, None)
  }

  /** Redaction of every text an event carries. */
  function Normalize(raw: Event, mask: string -> string): Event {
    Event(raw.timestamp, raw.level, Redacted(raw.component, mask), Redacted(raw.message, mask),
        Redacted(raw.command, mask),
          Redacted(raw.stage, mask), Redacted(raw.reason, mask), Redacted(raw.action, mask), Redacted(raw.code, mask),
          Redacted(raw.request, mask), Redacted(raw.event, mask), Redacted(raw.technical, mask))
  }

  /** Whatever the texts contain, a normalized error event has no separator in any of them. */
  lemma NormalizeFits(raw: Event, mask: string -> string)
    requires Masks(mask) && Timestamp(raw.timestamp) && raw.level in LEVEL_LABELS
    requires Strip(raw.component) != "" && Strip(raw.code) != "" && Strip(raw.event) != ""
    ensures Normalized(Normalize(raw, mask))
  {
    RedactedFits(raw.component, mask);
    RedactedFits(raw.message, mask);
    RedactedFits(raw.command, mask);
    RedactedFits(raw.stage, mask);
    RedactedFits(raw.reason, mask);
    RedactedFits(raw.action, mask);
    RedactedFits(raw.code, mask);
    RedactedFits(raw.request, mask);
    RedactedFits(raw.event, mask);
    RedactedFits(raw.technical, mask);
  }

  lemma LevelFits(level: string)
    requires level in LEVEL_LABELS
    ensures level != "" && ']' !in level
  {
  }

  lemma FormattedSplits(e: Event, afterLevel: string)
    requires afterLevel == "[" + e.component + "] " + (Message(e) + Tail(ErrorFields(e)))
    ensures Formatted(e) == e.timestamp + " [" + e.level + "] " + afterLevel
  {
  }

  lemma BracketedReads(text: string, rest: string)
    requires text != "" && ']' !in text
    ensures Bracketed("[" + text + "] " + rest) == Some((text, rest))
  {
    var s := "[" + text + "] " + rest;
    CutAt(text, ']', " " + rest);
    assert s[1..] == text + [']'] + (" " + rest);
    assert (" " + rest)[1..] == rest;
  }

  lemma BracketedHasNone(s: string)
    ensures Bracketed(s).Some? ==> ']' !in Bracketed(s).value.0
  {
  }

  /** The effect of one field on what was parsed. */
  function Effect(p: Parsed, name: string, value: string): Parsed {
    if value == "" then p
    else if name == "事件码" then p.(event := Some(value))
    else if name == "错误码" then p.(code := Some(value))
    else if name == "请求" then p.(request := Some(value))
    else if name == "命令" then p.(command := Some(value))
    else if name == "构建" then p.(build := Some(value))
    else p
  }

  lemma {:induction false} LabelledReads(p: Parsed, name: string, value: string)
    requires COLON !in name && Trim(name) && Trim(value)
    ensures WithFields(p, Labelled(name, value)) == Effect(p, name, value)
  {
    if value != "" {
      CutAt(name, COLON, value);
      StripTrim(name);
      StripTrim(value);
      var fields := Labelled(name, value);
      assert fields[1..] == [];
    }
  }

  lemma {:induction false} WithMore(p: Parsed, a: seq<string>, b: seq<string>)
    ensures WithFields(p, a + b) == WithFields(WithFields(p, a), b)
    decreases |a|
  {
    if a == [] {
      assert a + b == b;
    } else {
      WithMore(WithField(p, a[0]), a[1..], b);
      assert (a + b)[1..] == a[1..] + b;
    }
  }

  function Effects(p: Parsed, pairs: seq<(string, string)>): Parsed
    decreases |pairs|
  {
    if pairs == [] then p else Effects(Effect(p, pairs[0].0, pairs[0].1), pairs[1..])
  }

  predicate GoodPair(pair: (string, string)) {
    COLON !in pair.0 && OneField(pair.0) && Trim(pair.0) && OneField(pair.1) && Trim(pair.1)
  }

  lemma {:induction false} FieldsRead(p: Parsed, pairs: seq<(string, string)>)
    requires forall i :: 0 <= i < |pairs| ==> GoodPair(pairs[i])
    ensures WithFields(p, Fields(pairs)) == Effects(p, pairs)
    decreases |pairs|
  {
    if pairs != [] {
      WithMore(p, Labelled(pairs[0].0, pairs[0].1), Fields(pairs[1..]));
      LabelledReads(p, pairs[0].0, pairs[0].1);
      FieldsRead(Effect(p, pairs[0].0, pairs[0].1), pairs[1..]);
    }
  }

  lemma ErrorPairsGood(e: Event)
    requires Shaped(e)
    ensures forall i :: 0 <= i < |ErrorPairs(e)| ==> GoodPair(ErrorPairs(e)[i])
  {
    var labels := ["阶段", "原因", "处理建议", "错误码", "请求", "事件码", "技术详情"];
    forall i | 0 <= i < 7 ensures GoodPair(ErrorPairs(e)[i]) {
      assert ErrorPairs(e)[i].0 == labels[i];
      assert COLON !in labels[i] && Clean(labels[i]);
    }
  }

  lemma {:induction false} EffectsStep(p: Parsed, pair: (string, string), pairs: seq<(string, string)>)
    ensures Effects(p, [pair] + pairs) == Effects(Effect(p, pair.0, pair.1), pairs)
  {
    assert ([pair] + pairs)[1..] == pairs;
  }

  lemma {:induction false} AdviceIgnored(p: Parsed, e: Event)
    ensures Effects(p, ErrorPairs(e)) == Effects(p, ErrorPairs(e)[3..])
  {
    var pairs := ErrorPairs(e);
    assert pairs == [pairs[0]] + pairs[1..] && pairs[1..] == [pairs[1]] + pairs[2..]
           && pairs[2..] == [pairs[2]] + pairs[3..];
    EffectsStep(p, pairs[0], pairs[1..]);
    EffectsStep(p, pairs[1], pairs[2..]);
    EffectsStep(p, pairs[2], pairs[3..]);
  }

  lemma {:induction false} CodesTaken(p: Parsed, e: Event)
    requires p.event.None? && p.code.None? && p.request.None?
    ensures Effects(p, ErrorPairs(e)[3..]) ==
            p.(event := Shown(e.event), code := Shown(e.code), request := Shown(e.request))
  {
    var pairs := ErrorPairs(e);
    var p4 := p.(code := Shown(e.code));
    var p5 := p4.(request := Shown(e.request));
    assert pairs[3..] == [pairs[3]] + pairs[4..] && pairs[4..] == [pairs[4]] + pairs[5..];
    assert pairs[5..] == [pairs[5]] + pairs[6..] && pairs[6..] == [pairs[6]] + [];
    EffectsStep(p, pairs[3], pairs[4..]);
    EffectsStep(p4, pairs[4], pairs[5..]);
    EffectsStep(p5, pairs[5], pairs[6..]);
    EffectsStep(p5.(event := Shown(e.event)), pairs[6], []);
  }

  lemma {:induction false} ErrorFieldsRead(p: Parsed, e: Event)
    requires Shaped(e) && p.event.None? && p.code.None? && p.request.None?
    ensures WithFields(p, ErrorFields(e)) ==
            p.(event := Shown(e.event), code := Shown(e.code), request := Shown(e.request))
  {
    ErrorPairsGood(e);
    FieldsRead(p, ErrorPairs(e));
    AdviceIgnored(p, e);
    CodesTaken(p, e);
  }

  predicate GoodField(f: string) {
    f != "" && OneField(f) && !Blank(f[|f| - 1])
  }

  lemma {:induction false} FieldsGood(pairs: seq<(string, string)>)
    requires forall i :: 0 <= i < |pairs| ==> GoodPair(pairs[i])
    ensures forall f :: f in Fields(pairs) ==> GoodField(f)
    ensures (exists i :: 0 <= i < |pairs| && pairs[i].1 != "") ==> Fields(pairs) != []
    decreases |pairs|
  {
    if pairs != [] {
      FieldsGood(pairs[1..]);
      assert pairs[1..] != [] ==> pairs[1..][|pairs| - 2] == pairs[|pairs| - 1];
      assert forall i :: 1 <= i < |pairs| ==> pairs[i] == pairs[1..][i - 1];
    }
  }

  lemma ErrorFieldsGood(e: Event)
    requires Shaped(e)
    ensures forall f :: f in ErrorFields(e) ==> GoodField(f)
    ensures (exists i :: 0 <= i < 7 && ErrorPairs(e)[i].1 != "") ==> ErrorFields(e) != []
  {
    ErrorPairsGood(e);
    FieldsGood(ErrorPairs(e));
  }

  lemma {:induction false} JoinEnds(fields: seq<string>)
    requires fields != [] && forall f :: f in fields ==> GoodField(f)
    ensures Join(fields, BAR) != "" && !Blank(Join(fields, BAR)[|Join(fields, BAR)| - 1])
    ensures '\n' !in Join(fields, BAR)
  {
    assert fields[0] in fields && GoodField(fields[0]);
    if |fields| > 1 {
      assert forall f :: f in fields[1..] ==> f in fields;
      JoinEnds(fields[1..]);
    }
  }

  lemma LineIsTrim(e: Event)
    requires Shaped(e) && ErrorFields(e) != []
    ensures Trim(Formatted(e)) && Strip(Formatted(e)) == Formatted(e)
  {
    ErrorFieldsGood(e);
    JoinEnds(ErrorFields(e));
    assert Formatted(e)[0] == e.timestamp[0];
    StripTrim(Formatted(e));
  }

  lemma HeadReads(timestamp: string, level: string, afterLevel: string, s: string)
    requires Timestamp(timestamp) && level != "" && ']' !in level
    requires s == timestamp + " [" + level + "] " + afterLevel && Strip(s) == s
    ensures Parse(s) == ParseAfterLevel(timestamp, level, afterLevel)
  {
    assert s[..23] == timestamp && s[23] == ' ';
    assert s[24..] == "[" + level + "] " + afterLevel;
    BracketedReads(level, afterLevel);
  }

  lemma BodyReads(e: Event)
    requires Shaped(e) && ErrorFields(e) != []
    ensures ParseBody(e.timestamp, e.level, e.component, Message(e) + Tail(ErrorFields(e))) == Some(Read(e))
  {
    var fields := Join(ErrorFields(e), BAR);
    ErrorFieldsGood(e);
    JoinEnds(ErrorFields(e));
    CutAt(Message(e), BAR, fields);
    assert Message(e) + Tail(ErrorFields(e)) == Message(e) + [BAR] + fields;
    SplitJoin(ErrorFields(e), BAR);
    ErrorFieldsRead(Parsed(e.timestamp, e.level, e.component, Message(e), None, None, None, None, None), e);
  }

  lemma {:induction false} FieldsKeepHead(p: Parsed, fields: seq<string>)
    ensures WithFields(p, fields).component == p.component && WithFields(p, fields).message == p.message
    decreases |fields|
  {
    if fields != [] {
      FieldsKeepHead(WithField(p, fields[0]), fields[1..]);
    }
  }

  /** Component and message of what is parsed, before any field is looked at. */
  lemma HeadKept(timestamp: string, level: string, afterLevel: string)
    ensures ParseAfterLevel(timestamp, level, afterLevel).Some? ==>
              && Bracketed(afterLevel).Some?
              && ParseAfterLevel(timestamp, level, afterLevel).value.component == Bracketed(afterLevel).value.0
              && ParseAfterLevel(timestamp, level, afterLevel).value.message ==
                   Cut(Bracketed(afterLevel).value.1, BAR).0
  {
    if ParseAfterLevel(timestamp, level, afterLevel).Some? {
      var (component, body) := Bracketed(afterLevel).value;
      var (message, fields) := Cut(body, BAR);
      FieldsKeepHead(Parsed(timestamp, level, component, message, None, None, None, None, None),
                     if fields.Some? then Split(fields.value, BAR) else [""]);
    }
  }

  /** No parsed component has a "]". */
  lemma ComponentHasNone(timestamp: string, level: string, afterLevel: string)
    ensures ParseAfterLevel(timestamp, level, afterLevel).Some? ==>
              ']' !in ParseAfterLevel(timestamp, level, afterLevel).value.component
  {
    HeadKept(timestamp, level, afterLevel);
    BracketedHasNone(afterLevel);
  }

  /** A line with at least one field says what it shows. */
  lemma ShownIsRead(e: Event)
    requires Shaped(e) && ErrorFields(e) != [] && ']' !in e.component
    ensures Parse(Formatted(e)) == Some(Read(e))
  {
    var body := Message(e) + Tail(ErrorFields(e));
    var afterLevel := "[" + e.component + "] " + body;
    FormattedSplits(e, afterLevel);
    LineIsTrim(e);
    LevelFits(e.level);
    HeadReads(e.timestamp, e.level, afterLevel, Formatted(e));
    BracketedReads(e.component, body);
    BodyReads(e);
  }

  lemma CodeIsField(e: Event)
    requires Normalized(e)
    ensures ErrorFields(e) != []
  {
    ErrorFieldsGood(e);
    assert ErrorPairs(e)[3].1 == e.code;
  }

  /** Reading a formatted error event back gives its timestamp, level, component, message, error code, request id and
      event code, whatever they contain, if and only if the component has no "]". */
  lemma ReadsBack(e: Event)
    requires Normalized(e)
    ensures Parse(Formatted(e)) == Some(Read(e)) <==> ']' !in e.component
  {
    CodeIsField(e);
    if ']' !in e.component {
      ShownIsRead(e);
    } else {
      var afterLevel := "[" + e.component + "] " + (Message(e) + Tail(ErrorFields(e)));
      FormattedSplits(e, afterLevel);
      LineIsTrim(e);
      LevelFits(e.level);
      HeadReads(e.timestamp, e.level, afterLevel, Formatted(e));
      ComponentHasNone(e.timestamp, e.level, afterLevel);
    }
  }
}
