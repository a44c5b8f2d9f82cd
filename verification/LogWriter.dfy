/** The unified log file: bounded in size, trimmed to whole lines, without repeated events in a row. */
module LogWriter {
  import opened Results

  type Byte = b: int | 0 <= b < 256
  type Bytes = seq<Byte>

  const LF: Byte := 10
  const CR: Byte := 13

  // Lines

  /** How long the first line is, its end of line included. */
  function LineLength(data: Bytes): (n: nat)
    requires data != []
    ensures 0 < n <= |data|
  {
    if data[0] == LF then 1
    else if data[0] == CR then (if |data| > 1 && data[1] == LF then 2 else 1)
    else if |data| == 1 then 1
    else 1 + LineLength(data[1..])
  }

  /** bytes.splitlines(keepends=True) */
  function Lines(data: Bytes): seq<Bytes>
    decreases |data|
  {
    if data == [] then [] else [data[..LineLength(data)]] + Lines(data[LineLength(data)..])
  }

  function Glued(lines: seq<Bytes>): Bytes {
    if lines == [] then [] else lines[0] + Glued(lines[1..])
  }

  lemma {:induction false} GluedMore(line: Bytes, lines: seq<Bytes>)
    ensures Glued([line] + lines) == line + Glued(lines)
  {
    assert ([line] + lines)[1..] == lines;
  }

  lemma {:induction false} LinesGlue(data: Bytes)
    ensures Glued(Lines(data)) == data
    ensures forall line :: line in Lines(data) ==> line != []
    decreases |data|
  {
    hide LineLength;
    if data != [] {
      var n := LineLength(data);
      LinesGlue(data[n..]);
      GluedMore(data[..n], Lines(data[n..]));
      assert data[..n] + data[n..] == data;
    }
  }

  function Size(lines: seq<Bytes>, a: nat, b: nat): nat
    requires a <= b <= |lines|
    decreases b - a
  {
    if a == b then 0 else |lines[a]| + Size(lines, a + 1, b)
  }

  lemma {:induction false} SizeOfGlued(lines: seq<Bytes>, a: nat, b: nat)
    requires a <= b <= |lines|
    ensures |Glued(lines[a..b])| == Size(lines, a, b)
    decreases b - a
  {
    if a < b {
      assert lines[a..b] == [lines[a]] + lines[a + 1..b];
      GluedMore(lines[a], lines[a + 1..b]);
      SizeOfGlued(lines, a + 1, b);
    }
  }

  // Trimming

  /** The run `lines[a..b]` is what a trim keeps: `b` ends with the newest line that fits beside the notice, and the run
      reaches back as far as the budget allows. */
  ghost predicate Kept(lines: seq<Bytes>, notice: nat, maxBytes: nat, budget: nat, a: nat, b: nat) {
    && a <= b <= |lines|
    && (forall k :: b <= k < |lines| ==> notice + |lines[k]| > maxBytes)
    && (a == b ==> b == 0)
    && (a < b ==> notice + |lines[b - 1]| <= maxBytes)
    && (a + 1 < b ==> Size(lines, a, b) <= budget)
    && (0 < a < b ==> Size(lines, a - 1, b) > budget)
  }

  lemma OneMore(lines: seq<Bytes>, k: nat, b: nat)
    requires 0 < k <= b <= |lines|
    ensures Glued(lines[k - 1..b]) == lines[k - 1] + Glued(lines[k..b])
    ensures Size(lines, k - 1, b) == |lines[k - 1]| + Size(lines, k, b)
  {
    assert lines[k - 1..b] == [lines[k - 1]] + lines[k..b];
    GluedMore(lines[k - 1], lines[k..b]);
  }

  /** The loop of a trim, from the newest line back. */
  method Trim(lines: seq<Bytes>, notice: nat, maxBytes: nat, budget: nat) returns (retained: Bytes)
    ensures exists a: nat, b: nat :: Kept(lines, notice, maxBytes, budget, a, b) && retained == Glued(lines[a..b])
  {
    var k := |lines|;
    retained := [];
    var size := 0;
    var any := false;
    ghost var b := |lines|;
    while k > 0
      invariant 0 <= k <= b <= |lines|
      invariant any <==> k < b
      invariant forall i :: b <= i < |lines| ==> notice + |lines[i]| > maxBytes
      invariant any ==> notice + |lines[b - 1]| <= maxBytes
      invariant retained == Glued(lines[k..b]) && size == Size(lines, k, b)
      invariant k + 1 < b ==> size <= budget
    {
      var chunk := lines[k - 1];
      OneMore(lines, k, b);
      if !any && notice + |chunk| > maxBytes {
        k := k - 1;
        b := k;
        continue;
      }
      if any && size + |chunk| > budget {
        break;
      }
      retained := chunk + retained;
      size := size + |chunk|;
      any := true;
      k := k - 1;
    }
    assert Kept(lines, notice, maxBytes, budget, k, b);
  }

  /** The writer's limits: the notice put on top of a trimmed log, the size bound, and what a trim keeps at most. */
  datatype Limits = Limits(notice: Bytes, maxBytes: nat, keepBytes: nat)

  /** keep_bytes is cut to max_bytes, and the notice counts against it. */
  function Budget(limits: Limits): nat {
    var target := if limits.keepBytes <= limits.maxBytes then limits.keepBytes else limits.maxBytes;
    if target <= |limits.notice| then 0 else target - |limits.notice|
  }

  function Payload(lines: seq<Bytes>): Bytes {
    if lines == [] then [] else lines[0] + [LF] + Payload(lines[1..])
  }

  /** What the file holds after lines were added to it. */
  ghost predicate Stored(limits: Limits, file: Bytes, payload: Bytes, next: Bytes) {
    if |file + payload| <= limits.maxBytes then next == file + payload
    else exists a: nat, b: nat :: KeptAs(limits, Lines(file + payload), next, a, b)
  }

  ghost predicate KeptAs(limits: Limits, lines: seq<Bytes>, next: Bytes, a: nat, b: nat) {
    && Kept(lines, |limits.notice|, limits.maxBytes, Budget(limits), a, b)
    && next == limits.notice + Glued(lines[a..b])
  }

  /** After every write the log is within its bound, exactly when the untrimmed text was or the notice itself is. */
  lemma WithinBound(limits: Limits, file: Bytes, payload: Bytes, next: Bytes)
    requires Stored(limits, file, payload, next)
    ensures |next| <= limits.maxBytes <==> |file + payload| <= limits.maxBytes || |limits.notice| <= limits.maxBytes
  {
    if |file + payload| > limits.maxBytes {
      var lines := Lines(file + payload);
      var a: nat, b: nat :| KeptAs(limits, lines, next, a, b);
      SizeOfGlued(lines, a, b);
      if a + 1 == b {
        assert Size(lines, a, b) == |lines[a]| + Size(lines, b, b);
      }
    }
  }

  /** What the disk makes of a write: all of it; nothing, the log being unreadable; or it stops after some bytes. */
  datatype Disk = Works | Refuses | Stops(after: nat)

  function Upto(text: Bytes, n: nat): Bytes {
    if n < |text| then text[..n] else text
  }

  /** What is left of a write that stops: an append leaves a part of the payload behind, a rewrite a part of the new
      text and nothing of the old one. */
  ghost predicate StoppedAfter(limits: Limits, file: Bytes, payload: Bytes, n: nat, next: Bytes) {
    if |file + payload| <= limits.maxBytes then next == file + Upto(payload, n)
    else exists whole :: Stored(limits, file, payload, whole) && next == Upto(whole, n)
  }

  ghost predicate Wrote(limits: Limits, file: Bytes, payload: Bytes, disk: Disk, next: Bytes) {
    match disk
    case Works => Stored(limits, file, payload, next)
    case Refuses => next == file
    case Stops(n) => StoppedAfter(limits, file, payload, n, next)
  }

  method WriteLines(limits: Limits, file: Bytes, lines: seq<Bytes>, disk: Disk) returns (next: Bytes, ok: bool)
    ensures ok == disk.Works? && Wrote(limits, file, Payload(lines), disk, next)
  {
    var payload := Payload(lines);
    var combined := file + payload;
    if disk == Refuses {
      return file, false;
    }
    if |combined| <= limits.maxBytes {
      return file + if disk.Works? then payload else Upto(payload, disk.after), disk.Works?;
    }
    var retained := Trim(Lines(combined), |limits.notice|, limits.maxBytes, Budget(limits));
    var whole := limits.notice + retained;
    ghost var a: nat, b: nat :|
      Kept(Lines(combined), |limits.notice|, limits.maxBytes, Budget(limits), a, b)
          && retained == Glued(Lines(combined)[a..b]);
    assert KeptAs(limits, Lines(combined), whole, a, b);
    assert Stored(limits, file, payload, whole);
    return if disk.Works? then whole else Upto(whole, disk.after), disk.Works?;
  }

  lemma WroteWithin(limits: Limits, file: Bytes, payload: Bytes, disk: Disk, next: Bytes)
    requires Wrote(limits, file, payload, disk, next)
    requires |file| <= limits.maxBytes && |limits.notice| <= limits.maxBytes
    ensures |next| <= limits.maxBytes
  {
    hide Stored;
    if disk.Works? {
      WithinBound(limits, file, payload, next);
    } else if disk.Stops? && |file + payload| > limits.maxBytes {
      var whole :| Stored(limits, file, payload, whole) && next == Upto(whole, disk.after);
      WithinBound(limits, file, payload, whole);
    }
  }

  // Repeated events

  datatype Fingerprint = Fingerprint(component: string, event: string, code: string, request: string)

  /** A raw event: refused by normalization, or normalized; then its line may still fail to be formatted. */
  datatype Raw = Malformed | Normal(level: nat, fingerprint: Fingerprint, line: Option<Bytes>)

  /** One call's pass over its events: the last fingerprint let through, those let through in order, the lines made, and
      whether an event threw. */
  datatype Pass = Pass(last: Option<Fingerprint>, through: seq<Fingerprint>, lines: seq<Bytes>, threw: bool)

  function Passed(p: Pass, raw: Raw, minimum: nat): Pass {
    if p.threw then p
    else if raw.Malformed? then p.(threw := true)
    else if raw.level < minimum || p.last == Some(raw.fingerprint) then p
    else if raw.line.None? then Pass(Some(raw.fingerprint), p.through + [raw.fingerprint], p.lines, true)
    else Pass(Some(raw.fingerprint), p.through + [raw.fingerprint], p.lines + [raw.line.value], false)
  }

  function PassedAll(p: Pass, events: seq<Raw>, minimum: nat): Pass {
    if events == [] then p else Passed(PassedAll(p, events[..|events| - 1], minimum), events[|events| - 1], minimum)
  }

  /** A call: its events, and what the disk makes of its write. */
  datatype Call = Call(events: seq<Raw>, disk: Disk)

  predicate Throws(p: Pass, disk: Disk) { p.threw || (p.lines != [] && !disk.Works?) }

  /** What a call writes whole: nothing when an event or the disk throws, although the events have set the last
      fingerprint by then. */
  function Emitted(p: Pass, disk: Disk): seq<Fingerprint> {
    if Throws(p, disk) then [] else p.through
  }

  class UnifiedLogWriter {
    const limits: Limits
    const minimum: nat
    var file: Bytes
    var last: Option<Fingerprint>

    constructor (limits: Limits, minimum: nat, file: Bytes)
      ensures this.limits == limits && this.minimum == minimum && this.file == file && last.None?
    {
      this.limits, this.minimum, this.file, last := limits, minimum, file, None;
    }

    method Append(events: seq<Raw>, disk: Disk) returns (ok: bool)
      modifies this
      ensures var pass := PassedAll(Pass(old(last), [], [], false), events, minimum);
              && ok == !Throws(pass, disk) && last == pass.last
              && (if pass.threw || pass.lines == [] then file == old(file)
                  else Wrote(limits, old(file), Payload(pass.lines), disk, file))
      ensures |old(file)| <= limits.maxBytes && |limits.notice| <= limits.maxBytes ==> |file| <= limits.maxBytes
    {
      var lines: seq<Bytes> := [];
      ghost var start := Pass(last, [], [], false);
      for k := 0 to |events|
        invariant file == old(file) && !PassedAll(start, events[..k], minimum).threw
        invariant last == PassedAll(start, events[..k], minimum).last
                  && lines == PassedAll(start, events[..k], minimum).lines
      {
        assert events[..k + 1][..k] == events[..k];
        var raw := events[k];
        if raw.Malformed? {
          ThrownStays(start, events, k + 1, minimum);
          return false;
        }
        if raw.level < minimum || last == Some(raw.fingerprint) {
          continue;
        }
        last := Some(raw.fingerprint);
        if raw.line.None? {
          ThrownStays(start, events, k + 1, minimum);
          return false;
        }
        lines := lines + [raw.line.value];
      }
      assert events[..|events|] == events;
      ok := true;
      if lines != [] {
        file, ok := WriteLines(limits, file, lines, disk);
        if |old(file)| <= limits.maxBytes && |limits.notice| <= limits.maxBytes {
          WroteWithin(limits, old(file), Payload(lines), disk, file);
        }
      }
    }
  }

  lemma {:induction false} ThrownStays(p: Pass, events: seq<Raw>, k: nat, minimum: nat)
    requires k <= |events| && PassedAll(p, events[..k], minimum).threw
    ensures PassedAll(p, events, minimum) == PassedAll(p, events[..k], minimum)
  {
    if k == |events| {
      assert events[..k] == events;
    } else {
      var front := events[..|events| - 1];
      assert front[..k] == events[..k];
      ThrownStays(p, front, k, minimum);
    }
  }

  // A session

  ghost predicate NoRepeats(fingerprints: seq<Fingerprint>) {
    forall i :: 0 < i < |fingerprints| ==> fingerprints[i - 1] != fingerprints[i]
  }

  /** A session, call by call: what it writes, what it lets through, and the fingerprint it remembers. */
  datatype Session = Session(written: seq<Fingerprint>, through: seq<Fingerprint>, last: Option<Fingerprint>)

  function PassOf(s: Session, call: Call, minimum: nat): Pass {
    PassedAll(Pass(s.last, [], [], false), call.events, minimum)
  }

  function Called(s: Session, call: Call, minimum: nat): Session {
    var pass := PassOf(s, call, minimum);
    Session(s.written + Emitted(pass, call.disk), s.through + pass.through, pass.last)
  }

  function Sessions(calls: seq<Call>, minimum: nat): Session {
    if calls == [] then Session([], [], None)
        else Called(Sessions(calls[..|calls| - 1], minimum), calls[|calls| - 1], minimum)
  }

  ghost predicate Good(call: Call) {
    call.disk.Works? && forall e :: e in call.events ==> e.Normal? && e.line.Some?
  }

  predicate Remembers(fingerprints: seq<Fingerprint>, last: Option<Fingerprint>) {
    fingerprints != [] ==> last == Some(fingerprints[|fingerprints| - 1])
  }

  lemma AnotherExtends(fingerprints: seq<Fingerprint>, next: Fingerprint)
    requires NoRepeats(fingerprints) && (fingerprints != [] ==> fingerprints[|fingerprints| - 1] != next)
    ensures NoRepeats(fingerprints + [next])
  {
  }

  lemma StepExtends(before: seq<Fingerprint>, p: Pass, raw: Raw, minimum: nat)
    requires NoRepeats(before + p.through) && Remembers(before + p.through, p.last)
    ensures NoRepeats(before + Passed(p, raw, minimum).through)
    ensures Remembers(before + Passed(p, raw, minimum).through, Passed(p, raw, minimum).last)
  {
    hide NoRepeats;
    if raw.Normal? && p.last != Some(raw.fingerprint) {
      assert before + (p.through + [raw.fingerprint]) == (before + p.through) + [raw.fingerprint];
      AnotherExtends(before + p.through, raw.fingerprint);
    }
  }

  /** One pass extends what was let through before it without a repeat. */
  lemma {:induction false} PassExtends(before: seq<Fingerprint>, last: Option<Fingerprint>, events: seq<Raw>,
                                       minimum: nat)
    requires NoRepeats(before) && Remembers(before, last)
    ensures NoRepeats(before + PassedAll(Pass(last, [], [], false), events, minimum).through)
    ensures Remembers(before + PassedAll(Pass(last, [], [], false), events, minimum).through,
                      PassedAll(Pass(last, [], [], false), events, minimum).last)
  {
    hide Passed, NoRepeats, Remembers;
    if events == [] {
      assert before + [] == before;
    } else {
      PassExtends(before, last, events[..|events| - 1], minimum);
      StepExtends(before, PassedAll(Pass(last, [], [], false), events[..|events| - 1], minimum), events[|events| - 1],
                  minimum);
    }
  }

  lemma {:induction false} SinglePass(p: Pass, raw: Raw, minimum: nat)
    ensures PassedAll(p, [raw], minimum) == Passed(p, raw, minimum)
  {
    assert [raw][..0] == [];
  }

  lemma {:induction false} GoodPasses(p: Pass, events: seq<Raw>, minimum: nat)
    requires !p.threw && forall e :: e in events ==> e.Normal? && e.line.Some?
    ensures !PassedAll(p, events, minimum).threw
  {
    if events != [] {
      GoodPasses(p, events[..|events| - 1], minimum);
    }
  }

  /** The fingerprint of the last event at or above the level. */
  function LastLoud(last: Option<Fingerprint>, events: seq<Raw>, minimum: nat): Option<Fingerprint>
    requires forall e :: e in events ==> e.Normal?
  {
    if events == [] then last
    else if events[|events| - 1].level >= minimum then Some(events[|events| - 1].fingerprint)
    else LastLoud(last, events[..|events| - 1], minimum)
  }

  /** The events at or above the level that are not the same as the one before them. */
  function News(last: Option<Fingerprint>, events: seq<Raw>, minimum: nat): (r: seq<Raw>)
    requires forall e :: e in events ==> e.Normal? && e.line.Some?
    ensures forall e :: e in r ==> e.Normal? && e.line.Some?
  {
    if events == [] then []
    else
      var front, e := events[..|events| - 1], events[|events| - 1];
      News(last, front, minimum)
      + if e.level >= minimum && LastLoud(last, front, minimum) != Some(e.fingerprint) then [e] else []
  }

  function FingerprintsOf(events: seq<Raw>): (r: seq<Fingerprint>)
    requires forall e :: e in events ==> e.Normal? && e.line.Some?
  {
    seq(|events|, i requires 0 <= i < |events| => events[i].fingerprint)
  }

  function LinesOf(events: seq<Raw>): (r: seq<Bytes>)
    requires forall e :: e in events ==> e.Normal? && e.line.Some?
  {
    seq(|events|, i requires 0 <= i < |events| => events[i].line.value)
  }

  /** Nothing is lost: a call without faults lets through, in order and each with its line, exactly the events at or
      above the level that differ from the last such event before them, earlier calls included. */
  lemma {:induction false} NothingLost(last: Option<Fingerprint>, events: seq<Raw>, minimum: nat)
    requires forall e :: e in events ==> e.Normal? && e.line.Some?
    ensures var pass, news := PassedAll(Pass(last, [], [], false), events, minimum), News(last, events, minimum);
            && !pass.threw && pass.last == LastLoud(last, events, minimum)
            && pass.through == FingerprintsOf(news) && pass.lines == LinesOf(news)
  {
    if events != [] {
      var front, e := events[..|events| - 1], events[|events| - 1];
      NothingLost(last, front, minimum);
      assert e in events;
      var news := News(last, front, minimum);
      assert FingerprintsOf(news + [e]) == FingerprintsOf(news) + [e.fingerprint];
      assert LinesOf(news + [e]) == LinesOf(news) + [e.line.value];
      assert news + [] == news;
    }
  }

  /** Over every session no two consecutive events let through share a fingerprint; when no call throws they are the
      events written. */
  lemma {:induction false} SessionWithoutRepeats(calls: seq<Call>, minimum: nat)
    ensures NoRepeats(Sessions(calls, minimum).through)
    ensures Remembers(Sessions(calls, minimum).through, Sessions(calls, minimum).last)
    ensures (forall call :: call in calls ==> Good(call)) ==>
              Sessions(calls, minimum).written == Sessions(calls, minimum).through
  {
    if calls != [] {
      var before := Sessions(calls[..|calls| - 1], minimum);
      SessionWithoutRepeats(calls[..|calls| - 1], minimum);
      PassExtends(before.through, before.last, calls[|calls| - 1].events, minimum);
      if forall call :: call in calls ==> Good(call) {
        assert forall call :: call in calls[..|calls| - 1] ==> call in calls;
        assert calls[|calls| - 1] in calls && Good(calls[|calls| - 1]);
        GoodPasses(Pass(before.last, [], [], false), calls[|calls| - 1].events, minimum);
      }
    }
  }

  /** The next call, whatever it is, writes no repeat, if and only if the remembered fingerprint is that of the last
      event written.  A call that threw in the middle breaks this: it remembers an event it never wrote. */
  lemma SafeToContinue(s: Session, minimum: nat)
    requires s.written != [] && NoRepeats(s.written)
    ensures (forall call :: NoRepeats(Called(s, call, minimum).written)) <==> Remembers(s.written, s.last)
  {
    if Remembers(s.written, s.last) {
      forall call ensures NoRepeats(Called(s, call, minimum).written) {
        PassExtends(s.written, s.last, call.events, minimum);
        assert s.written + [] == s.written;
      }
    } else {
      var again := s.written[|s.written| - 1];
      var event := Normal(minimum, again, Some([]));
      var call := Call([event], Works);
      SinglePass(Pass(s.last, [], [], false), event, minimum);
      assert PassOf(s, call, minimum).through == [again];
      assert Called(s, call, minimum).written == s.written + [again];
      assert (s.written + [again])[|s.written| - 1] == (s.written + [again])[|s.written|];
    }
  }

  /** Such a session: an event is written, a call lets another through and throws, and the first is written again. */
  lemma ThrownCallRepeats(first: Fingerprint, second: Fingerprint, line: Bytes)
    requires first != second
    ensures exists calls :: Sessions(calls, 0).written == [first, first]
  {
    hide PassedAll, Called, Sessions;
    var a, b := Normal(0, first, Some(line)), Normal(0, second, None);
    var writes, fails := Call([a], Works), Call([b], Works);
    NothingCalled();
    OneEvent([], a);
    OneEvent([writes], b);
    OneEvent([writes, fails], a);
    assert [] + [writes] == [writes] && [writes] + [fails] == [writes, fails];
    assert Sessions([writes], 0) == Session([first], [first], Some(first));
    assert Sessions([writes, fails], 0) == Session([first], [first, second], Some(second));
    assert Sessions([writes, fails] + [writes], 0).written == [first, first];
  }

  lemma NothingCalled()
    ensures Sessions([], 0) == Session([], [], None)
  {
  }

  lemma {:induction false} OneEvent(calls: seq<Call>, raw: Raw)
    ensures var s, pass := Sessions(calls, 0), Passed(Pass(Sessions(calls, 0).last, [], [], false), raw, 0);
            Sessions(calls + [Call([raw], Works)], 0) ==
            Session(s.written + Emitted(pass, Works), s.through + pass.through, pass.last)
  {
    CallsUnfold(calls, Call([raw], Works));
    SinglePass(Pass(Sessions(calls, 0).last, [], [], false), raw, 0);
  }

  lemma {:induction false} CallsUnfold(calls: seq<Call>, call: Call)
    ensures Sessions(calls + [call], 0) == Called(Sessions(calls, 0), call, 0)
  {
    assert (calls + [call])[..|calls|] == calls;
  }
}
