/** The hand-rolled iCalendar scanner `parseICalData` of deno/main.ts: the
    feed is split into lines, each line is trimmed, and a two-state machine
    (outside or inside a VEVENT block) collects the DTSTART and DTEND values of
    each block, emitting an event at END:VEVENT when both were captured. */
module ICalScan {
  import opened Common
  import opened JsText
  import opened Calendar
  import opened IsoFormat
  import opened DateToken

  /** An extracted event: both dates as ISO-8601 instant strings. */
  datatype ICalEvent = ICalEvent(startDate: string, endDate: string)

  /** The locals of the scanning loop: `inEvent`, the two optional fields of
      `currentEvent` (`None` while unset) and the events found so far. */
  datatype Scan = Scan(inEvent: bool, start: Option<string>, end: Option<string>, events: seq<ICalEvent>)

  const BeginEvent: string := "BEGIN:VEVENT"
  const EndEvent: string := "END:VEVENT"

  /** The state before the first line. */
  const Initial: Scan := Scan(false, None, None, [])

  /** `s.startsWith(p)`. */
  predicate StartsWith(s: string, p: string) {
    p <= s
  }

  /** JavaScript truthiness of an optional string field: set and non-empty. */
  predicate Truthy(f: Option<string>) {
    f.Some? && f.value != []
  }

  /** What END:VEVENT appends: the accumulated event when both fields are
      truthy, nothing otherwise. */
  function Completed(st: Scan): seq<ICalEvent> {
    if Truthy(st.start) && Truthy(st.end) then [ICalEvent(st.start.value, st.end.value)] else []
  }

  /** The date normalisation the property branches apply to the text after
      the first `:` (`None` when it throws). The scanner is stated for any
      normaliser; the one `parseICalData` uses is `DateNormalizer`. */
  type Normalizer = Option<string> -> Option<string>

  /** The normalisation of deno/main.ts, for a given `Date.parse`. */
  function DateNormalizer(parse: string -> Option<Instant>): Normalizer {
    token => NormalizeToken(token, parse)
  }

  /** The DTSTART and DTEND branches: the text after the first `:` is
      normalised, and a failed normalisation leaves the field as it was. */
  function Capture(st: Scan, t: string, norm: Normalizer): Scan {
    if StartsWith(t, "DTSTART") then
      var n := norm(FieldAfterFirst(t, ':'));
      if n.Some? then st.(start := n) else st
    else if StartsWith(t, "DTEND") then
      var n := norm(FieldAfterFirst(t, ':'));
      if n.Some? then st.(end := n) else st
    else st
  }

  /** One iteration of the loop on a trimmed line. END:VEVENT is honoured in
      either state and does not clear the accumulator; only BEGIN:VEVENT does. */
  function StepTrimmed(st: Scan, t: string, norm: Normalizer): (r: Scan)
    ensures r.events == st.events + (if t == EndEvent then Completed(st) else [])
    ensures r.inEvent <==> t == BeginEvent || (t != EndEvent && st.inEvent)
    ensures !st.inEvent && t != BeginEvent && t != EndEvent ==> r == st
  {
    if t == BeginEvent then Scan(true, None, None, st.events)
    else if t == EndEvent then Scan(false, st.start, st.end, st.events + Completed(st))
    else if !st.inEvent then st
    else if StartsWith(t, " ") || StartsWith(t, "\t") then st
    else Capture(st, t, norm)
  }

  /** One iteration of the loop on a raw line. */
  function Step(st: Scan, line: string, norm: Normalizer): Scan {
    StepTrimmed(st, Trim(line), norm)
  }

  /** The loop over the remaining lines, from state `st`. */
  function Run(st: Scan, lines: seq<string>, norm: Normalizer): (r: Scan)
    ensures st.events <= r.events
    decreases |lines|
  {
    if lines == [] then st else Run(Step(st, lines[0], norm), lines[1..], norm)
  }

  /** The events `parseICalData` returns for a feed. */
  function ParseICal(icalData: string, parse: string -> Option<Instant>): seq<ICalEvent> {
    Run(Initial, SplitLines(icalData), DateNormalizer(parse)).events
  }

  /** The number of lines that trim to END:VEVENT. */
  function EndLines(lines: seq<string>): nat
    decreases |lines|
  {
    if lines == [] then 0 else (if Trim(lines[0]) == EndEvent then 1 else 0) + EndLines(lines[1..])
  }

  /** `parseICalData`: the scan of the feed with the date normalisation. */
  method ParseICalData(icalData: string, parse: string -> Option<Instant>) returns (events: seq<ICalEvent>)
    ensures events == ParseICal(icalData, parse)
    ensures |events| <= EndLines(SplitLines(icalData))
  {
    events := ScanFeed(icalData, DateNormalizer(parse));
  }

  /** The scanning loop of `parseICalData` over the lines of the feed. */
  method ScanFeed(icalData: string, norm: Normalizer) returns (events: seq<ICalEvent>)
    ensures events == Run(Initial, SplitLines(icalData), norm).events
    ensures |events| <= EndLines(SplitLines(icalData))
  {
    events := [];
    var lines := SplitLines(icalData);
    var start: Option<string> := None;
    var end: Option<string> := None;
    var inEvent := false;
    var i := 0;
    while i < |lines|
      invariant 0 <= i <= |lines|
      invariant Run(Scan(inEvent, start, end, events), lines[i..], norm) == Run(Initial, lines, norm)
    {
      RunUnfold(Scan(inEvent, start, end, events), lines, i, norm);
      inEvent, start, end, events := ScanLine(inEvent, start, end, events, lines[i], norm);
      i := i + 1;
    }
    assert lines[i..] == [];
    EventsAtMostEndLines(Initial, lines, norm);
  }

  /** The body of the scanning loop, on one line. */
  method ScanLine(inEvent0: bool, start0: Option<string>, end0: Option<string>, events0: seq<ICalEvent>,
                  line: string, norm: Normalizer)
    returns (inEvent: bool, start: Option<string>, end: Option<string>, events: seq<ICalEvent>)
    ensures Scan(inEvent, start, end, events) == Step(Scan(inEvent0, start0, end0, events0), line, norm)
  {
    inEvent, start, end, events := inEvent0, start0, end0, events0;
    var trimmedLine := Trim(line);
    ghost var st0 := Scan(inEvent0, start0, end0, events0);
    assert Step(st0, line, norm) == StepTrimmed(st0, trimmedLine, norm);
    if trimmedLine == BeginEvent {
      inEvent := true;
      start, end := None, None;
    } else if trimmedLine == EndEvent {
      inEvent := false;
      if Truthy(start) && Truthy(end) {
        events := events + [ICalEvent(start.value, end.value)];
      }
    } else if inEvent {
      if StartsWith(trimmedLine, " ") || StartsWith(trimmedLine, "\t") {
        // a continuation line is skipped
      } else if StartsWith(trimmedLine, "DTSTART") {
        assert StepTrimmed(st0, trimmedLine, norm) == Capture(st0, trimmedLine, norm);
        var normalized := norm(FieldAfterFirst(trimmedLine, ':'));
        if normalized.Some? {
          start := normalized;
        }
      } else if StartsWith(trimmedLine, "DTEND") {
        assert StepTrimmed(st0, trimmedLine, norm) == Capture(st0, trimmedLine, norm);
        var normalized := norm(FieldAfterFirst(trimmedLine, ':'));
        if normalized.Some? {
          end := normalized;
        }
      }
    }
  }

  /** The scan of the lines from `i` on is one step on line `i`, then the
      scan of the lines from `i + 1` on. */
  lemma RunUnfold(st: Scan, lines: seq<string>, i: nat, norm: Normalizer)
    requires i < |lines|
    ensures Run(st, lines[i..], norm) == Run(Step(st, lines[i], norm), lines[i + 1..], norm)
  {
    assert lines[i..][0] == lines[i] && lines[i..][1..] == lines[i + 1..];
  }

  /** One line appends at most one event, and only an END:VEVENT line does. */
  lemma StepEvents(st: Scan, line: string, norm: Normalizer)
    ensures st.events <= Step(st, line, norm).events
    ensures |Step(st, line, norm).events| <= |st.events| + (if Trim(line) == EndEvent then 1 else 0)
  {
  }

  /** Events are only ever appended, so they keep the order of their END
      lines, and there are at most as many as END:VEVENT lines. */
  lemma {:induction false} EventsAtMostEndLines(st: Scan, lines: seq<string>, norm: Normalizer)
    ensures st.events <= Run(st, lines, norm).events
    ensures |Run(st, lines, norm).events| <= |st.events| + EndLines(lines)
    decreases |lines|
  {
    if lines != [] {
      StepEvents(st, lines[0], norm);
      EventsAtMostEndLines(Step(st, lines[0], norm), lines[1..], norm);
    }
  }

  /** Outside a block, lines other than BEGIN:VEVENT and END:VEVENT change nothing. */
  lemma {:induction false} OutsideLinesIgnored(st: Scan, lines: seq<string>, norm: Normalizer)
    requires !st.inEvent
    requires forall k :: 0 <= k < |lines| ==> Trim(lines[k]) != BeginEvent && Trim(lines[k]) != EndEvent
    ensures Run(st, lines, norm) == st
    decreases |lines|
  {
    if lines != [] {
      assert Step(st, lines[0], norm) == st;
      OutsideLinesIgnored(st, lines[1..], norm);
    }
  }

  /** BEGIN:VEVENT discards whatever a previous unterminated block captured:
      from then on the run depends only on the events found so far. */
  lemma BeginForgetsPartialBlock(st1: Scan, st2: Scan, line: string, rest: seq<string>, norm: Normalizer)
    requires Trim(line) == BeginEvent && st1.events == st2.events
    ensures Run(st1, [line] + rest, norm) == Run(st2, [line] + rest, norm)
  {
    assert ([line] + rest)[1..] == rest;
  }

  /** END:VEVENT leaves the accumulator in place, so a second END:VEVENT
      without a BEGIN:VEVENT in between emits the same event again. */
  lemma RepeatedEndEmitsTwice(st: Scan, end1: string, end2: string, norm: Normalizer)
    requires Trim(end1) == EndEvent && Trim(end2) == EndEvent
    requires Truthy(st.start) && Truthy(st.end)
    ensures Run(st, [end1, end2], norm).events ==
            st.events + [ICalEvent(st.start.value, st.end.value), ICalEvent(st.start.value, st.end.value)]
  {
    var once := Step(st, end1, norm);
    assert once.start == st.start && once.end == st.end;
    assert [end1, end2][1..] == [end2];
    assert Run(st, [end1, end2], norm) == Run(once, [end2], norm);
    assert [end2][1..] == [];
    assert Run(once, [end2], norm) == Step(once, end2, norm);
  }

  /** The loop body without the continuation test of lines 35-37. */
  function StepWithoutContinuationTest(st: Scan, line: string, norm: Normalizer): Scan {
    var t := Trim(line);
    if t == BeginEvent then Scan(true, None, None, st.events)
    else if t == EndEvent then Scan(false, st.start, st.end, st.events + Completed(st))
    else if !st.inEvent then st
    else Capture(st, t, norm)
  }

  function RunWithoutContinuationTest(st: Scan, lines: seq<string>, norm: Normalizer): Scan
    decreases |lines|
  {
    if lines == [] then st
    else RunWithoutContinuationTest(StepWithoutContinuationTest(st, lines[0], norm), lines[1..], norm)
  }

  /** A trimmed line never starts with a space or a tab, so the continuation
      test is never taken. */
  lemma ContinuationTestIsDead(st: Scan, line: string, norm: Normalizer)
    ensures Step(st, line, norm) == StepWithoutContinuationTest(st, line, norm)
  {
    TrimmedIsNotIndented(line);
  }

  lemma TrimmedIsNotIndented(line: string)
    ensures !StartsWith(Trim(line), " ") && !StartsWith(Trim(line), "\t")
  {
    TrimIsUnpadded(line);
    var t := Trim(line);
    if t != [] {
      assert !IsWhiteSpace(t[0]);
      assert IsWhiteSpace(' ') && IsWhiteSpace('\t');
    }
  }

  /** The scan with the continuation test returns what it returns without it. */
  lemma {:induction false} ContinuationTestNeverChangesTheResult(st: Scan, lines: seq<string>, norm: Normalizer)
    ensures Run(st, lines, norm) == RunWithoutContinuationTest(st, lines, norm)
    decreases |lines|
  {
    if lines != [] {
      ContinuationTestIsDead(st, lines[0], norm);
      ContinuationTestNeverChangesTheResult(Step(st, lines[0], norm), lines[1..], norm);
    }
  }

  /** A folded line (one that starts with a space or a tab) is not skipped and
      not joined to the previous one: it is trimmed and read as a line of its own. */
  lemma FoldedLineReadAsOrdinary(st: Scan, c: char, line: string, norm: Normalizer)
    requires c == ' ' || c == '\t'
    ensures Step(st, [c] + line, norm) == Step(st, line, norm)
  {
    TrimIgnoresLeadingBlank(c, line);
  }

  /** Inside a block, a line starting with `D` is neither a block delimiter
      nor a continuation: it goes to the property branches. */
  lemma PropertyLineIsCaptured(st: Scan, t: string, norm: Normalizer)
    requires st.inEvent && |t| > 0 && t[0] == 'D'
    ensures StepTrimmed(st, t, norm) == Capture(st, t, norm)
  {
    assert t != BeginEvent by { assert BeginEvent[0] == 'B'; }
    assert t != EndEvent by { assert EndEvent[0] == 'E'; }
    assert !StartsWith(t, " ") && !StartsWith(t, "\t");
  }

  /** The shape of a `DTSTART` line: where the scanner finds its value. */
  lemma StartLineShape(params: string, token: string, rest: string)
    requires ':' !in params && ':' !in token
    requires rest == [] || rest[0] == ':'
    ensures var t := "DTSTART" + params + ":" + token + rest;
            t[0] == 'D' && StartsWith(t, "DTSTART") && FieldAfterFirst(t, ':') == Some(token)
  {
    var t := "DTSTART" + params + ":" + token + rest;
    assert t[..7] == "DTSTART";
    assert ':' !in "DTSTART" + params;
    FieldAfterFirstOfJoin("DTSTART" + params, ':', token, rest);
  }

  /** The shape of a `DTEND` line. */
  lemma EndLineShape(params: string, token: string, rest: string)
    requires ':' !in params && ':' !in token
    requires rest == [] || rest[0] == ':'
    ensures var t := "DTEND" + params + ":" + token + rest;
            t[0] == 'D' && !StartsWith(t, "DTSTART") && StartsWith(t, "DTEND") && FieldAfterFirst(t, ':') == Some(token)
  {
    var t := "DTEND" + params + ":" + token + rest;
    assert t[2] == 'E';
    assert t[..5] == "DTEND";
    assert ':' !in "DTEND" + params;
    FieldAfterFirstOfJoin("DTEND" + params, ':', token, rest);
  }

  /** Inside a block, a `DTSTART` line (with any parameters) stores the
      normalised text between its first and second `:`, or keeps the previous
      value when normalisation fails; nothing else changes. */
  lemma StartLineCapturesToken(st: Scan, params: string, token: string, rest: string, norm: Normalizer)
    requires st.inEvent && ':' !in params && ':' !in token
    requires rest == [] || rest[0] == ':'
    ensures var n := norm(Some(token));
            StepTrimmed(st, "DTSTART" + params + ":" + token + rest, norm) == (if n.Some? then st.(start := n) else st)
  {
    StartLineShape(params, token, rest);
    PropertyLineIsCaptured(st, "DTSTART" + params + ":" + token + rest, norm);
  }

  /** The same for a `DTEND` line and the end field. */
  lemma EndLineCapturesToken(st: Scan, params: string, token: string, rest: string, norm: Normalizer)
    requires st.inEvent && ':' !in params && ':' !in token
    requires rest == [] || rest[0] == ':'
    ensures var n := norm(Some(token));
            StepTrimmed(st, "DTEND" + params + ":" + token + rest, norm) == (if n.Some? then st.(end := n) else st)
  {
    EndLineShape(params, token, rest);
    PropertyLineIsCaptured(st, "DTEND" + params + ":" + token + rest, norm);
  }

  /** Inside a block, a `DTSTART` or `DTEND` line without a `:` has the token
      `undefined`; when `Date.parse` rejects the text "undefined", reading the
      token throws and the line changes nothing. */
  lemma PropertyWithoutColonIsKept(st: Scan, t: string, parse: string -> Option<Instant>)
    requires st.inEvent && (StartsWith(t, "DTSTART") || StartsWith(t, "DTEND")) && ':' !in t
    requires parse("undefined") == None
    ensures StepTrimmed(st, t, DateNormalizer(parse)) == st
  {
    assert t[0] == 'D';
    PropertyLineIsCaptured(st, t, DateNormalizer(parse));
    assert FieldAfterFirst(t, ':') == None;
    assert NormalizeToken(None, parse) == None;
  }

  /** A token with a `T` but shorter than fifteen characters has no seconds
      field, so the positional read gives an Invalid Date. */
  lemma TokenWithoutSecondsIsRejected(s: string)
    requires 'T' in s && |s| <= 13
    ensures CompactInstant(s) == None
  {
    assert Slice(s, 13, 15) == [];
    JsNumber.ParseIntOfNonDigit('x', []);
  }

  /** An RFC 3339 date-time value is cut at its second `:`: of
      `YYYY-MM-DDTHH:MM:SSZ` only `YYYY-MM-DDTHH` is handed to the normaliser
      (which `DateHourTokenIsRejected` shows the positional read rejects). */
  lemma ColonInValueTruncatesToken(name: string, date: string, hour: string, rest: string)
    requires ':' !in name && ':' !in date && ':' !in hour
    ensures FieldAfterFirst(name + ":" + date + "T" + hour + ":" + rest, ':') == Some(date + "T" + hour)
  {
    var token := date + "T" + hour;
    TokenBeforeSecondColon(name, token, rest);
    assert name + ":" + token + ":" + rest == name + ":" + date + "T" + hour + ":" + rest;
  }

  /** `YYYY-MM-DDTHH` has a `T` but no seconds field: an Invalid Date. */
  lemma DateHourTokenIsRejected(date: string, hour: string)
    requires |date| == 10 && |hour| == 2
    ensures CompactInstant(date + "T" + hour) == None
  {
    var token := date + "T" + hour;
    assert token[10] == 'T';
    TokenWithoutSecondsIsRejected(token);
  }

  lemma TokenBeforeSecondColon(name: string, token: string, rest: string)
    requires ':' !in name && ':' !in token
    ensures FieldAfterFirst(name + ":" + token + ":" + rest, ':') == Some(token)
  {
    FieldAfterFirstOfJoin(name, ':', token, ":" + rest);
    assert name + [':'] + token + (":" + rest) == name + ":" + token + ":" + rest;
  }

  /** Running over two pieces is running over the first, then the second. */
  lemma {:induction false} RunAppend(st: Scan, a: seq<string>, b: seq<string>, norm: Normalizer)
    ensures Run(st, a + b, norm) == Run(Run(st, a, norm), b, norm)
    decreases |a|
  {
    if a != [] {
      assert (a + b)[0] == a[0] && (a + b)[1..] == a[1..] + b;
      RunAppend(Step(st, a[0], norm), a[1..], b, norm);
    } else {
      assert a + b == b;
    }
  }

  /** No line of a block body opens or closes a block. */
  predicate PlainBody(body: seq<string>) {
    forall k :: 0 <= k < |body| ==> Trim(body[k]) != BeginEvent && Trim(body[k]) != EndEvent
  }

  /** A VEVENT block: its BEGIN:VEVENT line, its body and its END:VEVENT line. */
  datatype Block = Block(open: string, body: seq<string>, close: string)

  predicate WellFormed(b: Block) {
    Trim(b.open) == BeginEvent && Trim(b.close) == EndEvent && PlainBody(b.body)
  }

  function BlockLines(b: Block): seq<string> {
    [b.open] + b.body + [b.close]
  }

  /** The accumulator at the end of a block body, read from a fresh BEGIN:VEVENT. */
  function BlockState(b: Block, norm: Normalizer): Scan {
    Run(Scan(true, None, None, []), b.body, norm)
  }

  /** The lines of a feed made of VEVENT blocks and nothing else. */
  function Blocks(blocks: seq<Block>): seq<string>
    decreases |blocks|
  {
    if blocks == [] then [] else BlockLines(blocks[0]) + Blocks(blocks[1..])
  }

  /** The events of those blocks, block by block. */
  function BlockEvents(blocks: seq<Block>, norm: Normalizer): seq<ICalEvent>
    decreases |blocks|
  {
    if blocks == [] then [] else Completed(BlockState(blocks[0], norm)) + BlockEvents(blocks[1..], norm)
  }

  /** The blocks that lack a truthy start or end. */
  function IncompleteBlocks(blocks: seq<Block>, norm: Normalizer): nat
    decreases |blocks|
  {
    if blocks == [] then 0
    else (if Completed(BlockState(blocks[0], norm)) == [] then 1 else 0) + IncompleteBlocks(blocks[1..], norm)
  }

  /** The property branches touch neither the events nor the block state. */
  lemma CaptureKeepsEvents(st: Scan, t: string, norm: Normalizer)
    ensures Capture(st, t, norm) == Capture(st.(events := []), t, norm).(events := st.events)
    ensures Capture(st, t, norm).inEvent == st.inEvent
  {
    var n := norm(FieldAfterFirst(t, ':'));
    if StartsWith(t, "DTSTART") {
      assert Capture(st, t, norm) == if n.Some? then st.(start := n) else st;
    } else if StartsWith(t, "DTEND") {
      assert Capture(st, t, norm) == if n.Some? then st.(end := n) else st;
    }
  }

  /** A body line inside a block: the same, for one iteration. */
  lemma BodyStep(st: Scan, line: string, norm: Normalizer)
    requires st.inEvent && Trim(line) != BeginEvent && Trim(line) != EndEvent
    ensures Step(st, line, norm) == Step(st.(events := []), line, norm).(events := st.events)
    ensures Step(st, line, norm).inEvent
  {
    var t := Trim(line);
    if !(StartsWith(t, " ") || StartsWith(t, "\t")) {
      CaptureKeepsEvents(st, t, norm);
    }
  }

  lemma PlainBodyTail(body: seq<string>)
    requires body != [] && PlainBody(body)
    ensures PlainBody(body[1..])
  {
    assert forall k :: 0 <= k < |body| - 1 ==> body[1..][k] == body[k + 1];
  }

  /** Inside a block body the events found so far are kept, and the scanner
      stays inside the block. */
  lemma {:induction false} BodyKeepsEvents(st: Scan, body: seq<string>, norm: Normalizer)
    requires st.inEvent && PlainBody(body)
    ensures Run(st, body, norm).events == st.events
    ensures Run(st, body, norm).inEvent
    decreases |body|
  {
    if body != [] {
      BodyStep(st, body[0], norm);
      PlainBodyTail(body);
      BodyKeepsEvents(Step(st, body[0], norm), body[1..], norm);
    }
  }

  /** ... and what the block captures does not depend on those events. */
  lemma {:induction false} BodyIgnoresEvents(st1: Scan, st2: Scan, body: seq<string>, norm: Normalizer)
    requires st1.inEvent && PlainBody(body) && st1.(events := []) == st2.(events := [])
    ensures Run(st1, body, norm).start == Run(st2, body, norm).start
    ensures Run(st1, body, norm).end == Run(st2, body, norm).end
    decreases |body|
  {
    if body != [] {
      BodyStep(st1, body[0], norm);
      BodyStep(st2, body[0], norm);
      PlainBodyTail(body);
      BodyIgnoresEvents(Step(st1, body[0], norm), Step(st2, body[0], norm), body[1..], norm);
    }
  }

  lemma RunOne(st: Scan, line: string, norm: Normalizer)
    ensures Run(st, [line], norm) == Step(st, line, norm)
  {
    assert [line][1..] == [];
  }

  /** A single block appends its own event, if complete, to the events found so far. */
  lemma OneBlock(st: Scan, b: Block, norm: Normalizer)
    requires WellFormed(b)
    ensures Run(st, BlockLines(b), norm).events == st.events + Completed(BlockState(b, norm))
  {
    var begun := Scan(true, None, None, st.events);
    RunOne(st, b.open, norm);
    RunAppend(st, [b.open], b.body, norm);
    var inner := Run(begun, b.body, norm);
    BodyKeepsEvents(begun, b.body, norm);
    BodyIgnoresEvents(begun, Scan(true, None, None, []), b.body, norm);
    assert Completed(inner) == Completed(BlockState(b, norm));
    RunAppend(st, [b.open] + b.body, [b.close], norm);
    RunOne(inner, b.close, norm);
  }

  lemma RunOfBlocks(st: Scan, blocks: seq<Block>, norm: Normalizer)
    requires blocks != []
    ensures Run(st, Blocks(blocks), norm) == Run(Run(st, BlockLines(blocks[0]), norm), Blocks(blocks[1..]), norm)
  {
    RunAppend(st, BlockLines(blocks[0]), Blocks(blocks[1..]), norm);
  }

  /** One block followed by more. */
  lemma BlocksCons(st: Scan, blocks: seq<Block>, norm: Normalizer)
    requires blocks != []
    requires Run(st, BlockLines(blocks[0]), norm).events == st.events + Completed(BlockState(blocks[0], norm))
    requires Run(Run(st, BlockLines(blocks[0]), norm), Blocks(blocks[1..]), norm).events ==
             Run(st, BlockLines(blocks[0]), norm).events + BlockEvents(blocks[1..], norm)
    ensures Run(st, Blocks(blocks), norm).events == st.events + BlockEvents(blocks, norm)
  {
    var mid := Run(st, BlockLines(blocks[0]), norm);
    var own := Completed(BlockState(blocks[0], norm));
    var later := BlockEvents(blocks[1..], norm);
    RunOfBlocks(st, blocks, norm);
    BlockEventsCons(blocks, norm);
    EventsChain(Run(st, Blocks(blocks), norm).events, mid.events, st.events, own, later, BlockEvents(blocks, norm));
  }

  lemma EventsChain(whole: seq<ICalEvent>, mid: seq<ICalEvent>, base: seq<ICalEvent>,
                    own: seq<ICalEvent>, later: seq<ICalEvent>, all: seq<ICalEvent>)
    requires mid == base + own && whole == mid + later && all == own + later
    ensures whole == base + all
  {
  }

  lemma BlockEventsCons(blocks: seq<Block>, norm: Normalizer)
    requires blocks != []
    ensures BlockEvents(blocks, norm) == Completed(BlockState(blocks[0], norm)) + BlockEvents(blocks[1..], norm)
  {
  }

  /** A feed of blocks yields, in order, the event of every complete block. */
  lemma {:induction false} BlocksYieldTheirEvents(st: Scan, blocks: seq<Block>, norm: Normalizer)
    requires forall k :: 0 <= k < |blocks| ==> WellFormed(blocks[k])
    ensures Run(st, Blocks(blocks), norm).events == st.events + BlockEvents(blocks, norm)
    decreases |blocks|
  {
    if blocks == [] {
      NoBlocks(st, blocks, norm);
    } else {
      WellFormedTail(blocks);
      BlocksYieldTheirEvents(Run(st, BlockLines(blocks[0]), norm), blocks[1..], norm);
      OneBlock(st, blocks[0], norm);
      BlocksCons(st, blocks, norm);
    }
  }

  lemma NoBlocks(st: Scan, blocks: seq<Block>, norm: Normalizer)
    requires blocks == []
    ensures Run(st, Blocks(blocks), norm).events == st.events + BlockEvents(blocks, norm)
  {
    assert Run(st, Blocks(blocks), norm) == st;
    assert st.events + BlockEvents(blocks, norm) == st.events;
  }

  lemma WellFormedTail(blocks: seq<Block>)
    requires blocks != [] && forall k :: 0 <= k < |blocks| ==> WellFormed(blocks[k])
    ensures forall k :: 0 <= k < |blocks[1..]| ==> WellFormed(blocks[1..][k])
  {
    assert forall k :: 0 <= k < |blocks| - 1 ==> blocks[1..][k] == blocks[k + 1];
  }

  /** Of N blocks of which M are incomplete, exactly N - M events come out. */
  lemma {:induction false} CompleteBlocksCount(blocks: seq<Block>, norm: Normalizer)
    ensures |BlockEvents(blocks, norm)| == |blocks| - IncompleteBlocks(blocks, norm)
    decreases |blocks|
  {
    if blocks != [] {
      CompleteBlocksCount(blocks[1..], norm);
    }
  }

  /** A block body in which no line starts with `DTEND` never sets the end
      date, so the block yields no event. */
  lemma {:induction false} NoEndLineKeepsEndUnset(st: Scan, body: seq<string>, norm: Normalizer)
    requires st.end == None
    requires forall k :: 0 <= k < |body| ==> !StartsWith(Trim(body[k]), "DTEND") && Trim(body[k]) != EndEvent
    ensures Run(st, body, norm).end == None
    decreases |body|
  {
    if body != [] {
      assert Step(st, body[0], norm).end == None;
      assert forall k :: 0 <= k < |body| - 1 ==> body[1..][k] == body[k + 1];
      NoEndLineKeepsEndUnset(Step(st, body[0], norm), body[1..], norm);
    }
  }

  /** A block without a DTEND line is dropped. */
  lemma BlockWithoutEndIsDropped(b: Block, norm: Normalizer)
    requires forall k :: 0 <= k < |b.body| ==> !StartsWith(Trim(b.body[k]), "DTEND") && Trim(b.body[k]) != EndEvent
    ensures Completed(BlockState(b, norm)) == []
  {
    NoEndLineKeepsEndUnset(Scan(true, None, None, []), b.body, norm);
  }

  /** A property line `NAME:YYYYMMDD`. */
  function DateLine(name: string, d: Date): string
    requires 0 <= d.year <= 9999
  {
    name + ":" + CompactDate(d)
  }

  lemma DateLineShape(name: string, d: Date)
    requires 0 <= d.year <= 9999 && |name| > 0 && name[0] == 'D'
    ensures Trim(DateLine(name, d)) == DateLine(name, d)
    ensures ':' !in CompactDate(d)
  {
    var c := CompactDate(d);
    JsNumber.DigitsExclude(d.year, 4, ':');
    JsNumber.DigitsExclude(d.month, 2, ':');
    JsNumber.DigitsExclude(d.day, 2, ':');
    DateDigitsParts(d.year, d.month, d.day);
    assert c[7] == JsNumber.Digits(d.day, 2)[1];
    var l := DateLine(name, d);
    assert l[|l| - 1] == c[7];
    TrimOfUnpadded(l);
  }

  lemma DateLineForm(name: string, d: Date)
    requires 0 <= d.year <= 9999
    ensures DateLine(name, d) == name + "" + ":" + CompactDate(d) + ""
  {
    assert name + "" == name;
    assert CompactDate(d) + "" == CompactDate(d);
  }

  /** Inside a block, `DTSTART:YYYYMMDD` sets the start to midnight UTC of
      that day when the normaliser reads the compact text so (as the date
      normalisation does when `Date.parse` rejects it). */
  lemma StartDateLine(st: Scan, d: Date, norm: Normalizer)
    requires st.inEvent && 100 <= d.year <= 9999 && norm(Some(CompactDate(d))) == Some(ToISOString(Midnight(d)))
    ensures Step(st, DateLine("DTSTART", d), norm) == st.(start := Some(ToISOString(Midnight(d))))
  {
    DateLineShape("DTSTART", d);
    StartLineCapturesToken(st, "", CompactDate(d), "", norm);
    DateLineForm("DTSTART", d);
  }

  /** The same for `DTEND:YYYYMMDD` and the end. */
  lemma EndDateLine(st: Scan, d: Date, norm: Normalizer)
    requires st.inEvent && 100 <= d.year <= 9999 && norm(Some(CompactDate(d))) == Some(ToISOString(Midnight(d)))
    ensures Step(st, DateLine("DTEND", d), norm) == st.(end := Some(ToISOString(Midnight(d))))
  {
    DateLineShape("DTEND", d);
    EndLineCapturesToken(st, "", CompactDate(d), "", norm);
    DateLineForm("DTEND", d);
  }

  /** The block `DTSTART:d1`, `DTEND:d2` captures both dates at midnight UTC
      when the normaliser reads the compact texts so. */
  lemma DateBlockState(open: string, d1: Date, d2: Date, close: string, norm: Normalizer)
    requires 100 <= d1.year <= 9999 && 100 <= d2.year <= 9999
    requires norm(Some(CompactDate(d1))) == Some(ToISOString(Midnight(d1))) && norm(Some(CompactDate(d2))) == Some(ToISOString(Midnight(d2)))
    ensures BlockState(Block(open, [DateLine("DTSTART", d1), DateLine("DTEND", d2)], close), norm)
            == Scan(true, Some(ToISOString(Midnight(d1))), Some(ToISOString(Midnight(d2))), [])
  {
    var l1, l2 := DateLine("DTSTART", d1), DateLine("DTEND", d2);
    var s0 := Scan(true, None, None, []);
    StartDateLine(s0, d1, norm);
    var s1 := Step(s0, l1, norm);
    EndDateLine(s1, d2, norm);
    RunAppend(s0, [l1], [l2], norm);
    assert [l1] + [l2] == [l1, l2];
    RunOne(s0, l1, norm);
    RunOne(s1, l2, norm);
  }

  /** One block between two lines that are outside any block yields the
      block's own event and nothing else. */
  lemma LoneBlock(before: string, b: Block, after: string, norm: Normalizer)
    requires Trim(before) != BeginEvent && Trim(before) != EndEvent
    requires Trim(after) != BeginEvent && Trim(after) != EndEvent
    requires WellFormed(b)
    ensures Run(Initial, [before] + BlockLines(b) + [after], norm).events == Completed(BlockState(b, norm))
  {
    var lines := BlockLines(b);
    LeadingOutsideLine(before, lines, norm);
    TrailingPlainLine([before] + lines, after, norm);
    OneBlock(Initial, b, norm);
    var own := Completed(BlockState(b, norm));
    assert Run(Initial, lines, norm).events == [] + own;
    assert [] + own == own;
  }

  /** A first line that neither opens nor closes a block is skipped. */
  lemma LeadingOutsideLine(before: string, lines: seq<string>, norm: Normalizer)
    requires Trim(before) != BeginEvent && Trim(before) != EndEvent
    ensures Run(Initial, [before] + lines, norm) == Run(Initial, lines, norm)
  {
    RunAppend(Initial, [before], lines, norm);
    RunOne(Initial, before, norm);
  }

  /** A last line that is not END:VEVENT adds no event. */
  lemma TrailingPlainLine(lines: seq<string>, after: string, norm: Normalizer)
    requires Trim(after) != EndEvent
    ensures Run(Initial, lines + [after], norm).events == Run(Initial, lines, norm).events
  {
    RunAppend(Initial, lines, [after], norm);
    var x := Run(Initial, lines, norm);
    RunOne(x, after, norm);
    StepEvents(x, after, norm);
  }

  lemma DateBlockWellFormed(open: string, d1: Date, d2: Date, close: string)
    requires Trim(open) == BeginEvent && Trim(close) == EndEvent
    requires 0 <= d1.year <= 9999 && 0 <= d2.year <= 9999
    ensures WellFormed(Block(open, [DateLine("DTSTART", d1), DateLine("DTEND", d2)], close))
  {
    DateLineIsPlain("DTSTART", d1);
    DateLineIsPlain("DTEND", d2);
    PlainPair(DateLine("DTSTART", d1), DateLine("DTEND", d2));
  }

  lemma PlainPair(l1: string, l2: string)
    requires Trim(l1) != BeginEvent && Trim(l1) != EndEvent
    requires Trim(l2) != BeginEvent && Trim(l2) != EndEvent
    ensures PlainBody([l1, l2])
  {
    var body := [l1, l2];
    forall k | 0 <= k < |body|
      ensures Trim(body[k]) != BeginEvent && Trim(body[k]) != EndEvent
    {
      assert body[k] == if k == 0 then l1 else l2;
    }
  }

  /** A date line opens no block and closes none. */
  lemma DateLineIsPlain(name: string, d: Date)
    requires 0 <= d.year <= 9999 && |name| > 0 && name[0] == 'D'
    ensures Trim(DateLine(name, d)) != BeginEvent && Trim(DateLine(name, d)) != EndEvent
  {
    DateLineShape(name, d);
    assert DateLine(name, d)[0] == 'D';
    assert BeginEvent[0] == 'B' && EndEvent[0] == 'E';
  }

  /** A block that captured two non-empty fields completes exactly one event. */
  lemma CompletedOfDates(a: string, b: string)
    requires a != [] && b != []
    ensures Completed(Scan(true, Some(a), Some(b), [])) == [ICalEvent(a, b)]
  {
  }

  /** A feed holding one VEVENT with a DATE start and end, between two lines
      outside any block, yields exactly that event. */
  lemma SingleEventFeed(before: string, open: string, d1: Date, d2: Date, close: string, after: string,
                        norm: Normalizer)
    requires Trim(before) != BeginEvent && Trim(before) != EndEvent
    requires Trim(after) != BeginEvent && Trim(after) != EndEvent
    requires Trim(open) == BeginEvent && Trim(close) == EndEvent
    requires 100 <= d1.year <= 9999 && 100 <= d2.year <= 9999
    requires norm(Some(CompactDate(d1))) == Some(ToISOString(Midnight(d1))) && norm(Some(CompactDate(d2))) == Some(ToISOString(Midnight(d2)))
    ensures Run(Initial, [before] + BlockLines(Block(open, [DateLine("DTSTART", d1), DateLine("DTEND", d2)], close)) + [after], norm).events
            == [ICalEvent(ToISOString(Midnight(d1)), ToISOString(Midnight(d2)))]
  {
    var b := Block(open, [DateLine("DTSTART", d1), DateLine("DTEND", d2)], close);
    DateBlockWellFormed(open, d1, d2, close);
    DateBlockState(open, d1, d2, close, norm);
    LoneBlock(before, b, after, norm);
    CompletedOfDates(ToISOString(Midnight(d1)), ToISOString(Midnight(d2)));
  }

  /** A date line holds no line break when its name holds none. */
  lemma DateLineUnbroken(name: string, d: Date)
    requires 0 <= d.year <= 9999 && '\n' !in name && '\r' !in name
    ensures '\n' !in DateLine(name, d) && '\r' !in DateLine(name, d)
  {
    JsNumber.DigitsExclude(d.year, 4, '\n');
    JsNumber.DigitsExclude(d.month, 2, '\n');
    JsNumber.DigitsExclude(d.day, 2, '\n');
    JsNumber.DigitsExclude(d.year, 4, '\r');
    JsNumber.DigitsExclude(d.month, 2, '\r');
    JsNumber.DigitsExclude(d.day, 2, '\r');
  }

  /** The six lines of a feed holding one DATE-valued VEVENT. */
  function FeedLines(before: string, open: string, d1: Date, d2: Date, close: string, after: string): (r: seq<string>)
    requires 0 <= d1.year <= 9999 && 0 <= d2.year <= 9999
    ensures |r| == 6 && r[0] == before && r[5] == after
  {
    [before, open, DateLine("DTSTART", d1), DateLine("DTEND", d2), close, after]
  }

  lemma FeedLinesSplit(before: string, open: string, d1: Date, d2: Date, close: string, after: string)
    requires 0 <= d1.year <= 9999 && 0 <= d2.year <= 9999
    requires forall c :: c in "\n\r" ==> c !in before && c !in open && c !in close && c !in after
    ensures SplitLines(JoinLines(FeedLines(before, open, d1, d2, close, after)))
            == [before] + BlockLines(Block(open, [DateLine("DTSTART", d1), DateLine("DTEND", d2)], close)) + [after]
  {
    var lines := FeedLines(before, open, d1, d2, close, after);
    assert '\n' in "\n\r" && '\r' in "\n\r";
    DateLineUnbroken("DTSTART", d1);
    DateLineUnbroken("DTEND", d2);
    SplitLinesOfJoin(lines);
    assert lines == [before] + BlockLines(Block(open, [DateLine("DTSTART", d1), DateLine("DTEND", d2)], close)) + [after];
  }

  /** A whole feed text — a line outside any block, `BEGIN:VEVENT`,
      `DTSTART:YYYYMMDD`, `DTEND:YYYYMMDD`, `END:VEVENT`, another line
      outside, joined by line feeds — parses to exactly one event holding the
      two dates at midnight UTC, when `Date.parse` rejects the compact texts. */
  lemma FeedText(before: string, open: string, d1: Date, d2: Date, close: string, after: string,
                 parse: string -> Option<Instant>)
    requires forall c :: c in "\n\r" ==> c !in before && c !in open && c !in close && c !in after
    requires Trim(before) != BeginEvent && Trim(before) != EndEvent
    requires Trim(after) != BeginEvent && Trim(after) != EndEvent
    requires Trim(open) == BeginEvent && Trim(close) == EndEvent
    requires 100 <= d1.year <= 9999 && 100 <= d2.year <= 9999
    requires parse(CompactDate(d1)) == None && parse(CompactDate(d2)) == None
    ensures ParseICal(JoinLines(FeedLines(before, open, d1, d2, close, after)), parse)
            == [ICalEvent(ToISOString(Midnight(d1)), ToISOString(Midnight(d2)))]
  {
    FeedLinesSplit(before, open, d1, d2, close, after);
    CompactDateNormalizes(d1, parse);
    CompactDateNormalizes(d2, parse);
    SingleEventFeed(before, open, d1, d2, close, after, DateNormalizer(parse));
  }
}
