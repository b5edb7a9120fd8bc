/** The event-stream reader of the debate regression (scripts/local_kai_debate_regression.py,
    sse_events): a state machine over lines, after section 9.2 of the WHATWG HTML Standard. */
module SseParser {
  import opened Text
  import opened Json

  /** json.loads: None stands for JSONDecodeError. */
  type Loads = string -> Option<Json>

  datatype Envelope = Envelope(event: string, payload: Json, terminal: bool)

  /** What has been read since the last dispatch. */
  datatype Pending = Pending(event: string, data: seq<string>)

  const IDLE := Pending("message", [])

  datatype Line = Blank | EventField(value: string) | DataField(value: string) | Ignored

  predicate StartsWith(s: string, prefix: string) {
    |prefix| <= |s| && s[..|prefix|] == prefix
  }

  /** line.split(":", 1)[1] */
  function AfterColon(line: string): string {
    match SplitOnce(line, ':')
    case None => ""
    case Some(parts) => parts.1
  }

  /** One line as read from the response, which may be missing. */
  function Classify(raw: Option<string>): Line {
    match raw
    case None => Ignored
    case Some(text) => ClassifyStripped(Strip(text))
  }

  function ClassifyStripped(line: string): Line {
    if line == "" then Blank
    else if StartsWith(line, ":") then Ignored
    else if StartsWith(line, "event:") then EventField(Strip(AfterColon(line)))
    else if StartsWith(line, "data:") then DataField(LStrip(AfterColon(line)))
    else Ignored
  }

  function AfterField(p: Pending, line: Line): Pending {
    match line
    case EventField(value) => p.(event := if value == "" then "message" else value)
    case DataField(value) => p.(data := p.data + [value])
    case _ => p
  }

  /** The envelope for an event name and the text of its data. */
  function Resolve(event: string, raw: string, loads: Loads, show: Json -> string): Envelope {
    var payload := match loads(raw) case None => Obj(map["raw" := Str(raw)]) case Some(value) => value;
    if payload.Obj? then
      var named := Strip(TextOf(Field(payload.fields, "event"), show));
      var inner := Field(payload.fields, "payload");
      Envelope(if named == "" then event else named,
               if inner.Null? then payload else inner,
               Truthy(Field(payload.fields, "terminal")))
    else Envelope(event, payload, false)
  }

  /** flush(): nothing without data. */
  function Flushed(p: Pending, loads: Loads, show: Json -> string): Option<Envelope> {
    if p.data == [] then None else Some(Resolve(p.event, Join(p.data, "\n"), loads, show))
  }

  function Parse(lines: seq<Option<string>>, p: Pending, loads: Loads, show: Json -> string): seq<Envelope> {
    if lines == [] then
      match Flushed(p, loads, show) case None => [] case Some(envelope) => [envelope]
    else if Classify(lines[0]).Blank? then
      match Flushed(p, loads, show)
      case None => Parse(lines[1..], IDLE, loads, show)
      case Some(envelope) =>
        if envelope.terminal then [envelope] else [envelope] + Parse(lines[1..], IDLE, loads, show)
    else Parse(lines[1..], AfterField(p, Classify(lines[0])), loads, show)
  }

  /** sse_events */
  method SseEvents(lines: seq<Option<string>>, loads: Loads, show: Json -> string) returns (events: seq<Envelope>)
    ensures events == Parse(lines, IDLE, loads, show)
  {
    events := [];
    var eventName, dataLines := "message", [];
    var i := 0;
    while i < |lines|
      invariant 0 <= i <= |lines|
      invariant events + Parse(lines[i..], Pending(eventName, dataLines), loads, show) == Parse(lines, IDLE, loads, show)
    {
      var line := Classify(lines[i]);
      assert lines[i..][1..] == lines[i + 1..];
      i := i + 1;
      match line {
        case Blank =>
          var envelope := Flushed(Pending(eventName, dataLines), loads, show);
          eventName, dataLines := "message", [];
          if envelope.Some? {
            events := events + [envelope.value];
            if envelope.value.terminal { return; }
          }
        case EventField(value) => eventName := if value == "" then "message" else value;
        case DataField(value) => dataLines := dataLines + [value];
        case Ignored =>
      }
    }
    var envelope := Flushed(Pending(eventName, dataLines), loads, show);
    if envelope.Some? { events := events + [envelope.value]; }
  }

  // ------------------------------------------------------------------
  // Round trip
  // ------------------------------------------------------------------

  /** An event as a server sends it. */
  datatype Event = Event(name: string, data: seq<string>)

  predicate Sendable(e: Event) {
    e.name != "" && Trimmed(e.name) && e.data != [] && forall i :: 0 <= i < |e.data| ==> Trimmed(e.data[i])
  }

  function FieldLine(field: string, value: string): string {
    field + ": " + value
  }

  function DataLines(data: seq<string>): seq<Option<string>> {
    if data == [] then [] else [Some(FieldLine("data", data[0]))] + DataLines(data[1..])
  }

  /** `event: name`, a `data: ...` line for each line of data, and a blank line. */
  function Print(e: Event): seq<Option<string>> {
    [Some(FieldLine("event", e.name))] + DataLines(e.data) + [Some("")]
  }

  function PrintAll(events: seq<Event>): seq<Option<string>> {
    if events == [] then [] else Print(events[0]) + PrintAll(events[1..])
  }

  /** The events as received, up to and with the first terminal one. */
  function UpToTerminal(events: seq<Event>, loads: Loads, show: Json -> string): seq<Envelope> {
    if events == [] then []
    else
      var first := Resolve(events[0].name, Join(events[0].data, "\n"), loads, show);
      if first.terminal then [first] else [first] + UpToTerminal(events[1..], loads, show)
  }

  lemma LStripSpace(s: string)
    requires Trimmed(s)
    ensures LStrip(" " + s) == s
  {
    assert (" " + s)[1..] == s;
  }

  /** Reading back `field: value`. */
  lemma ReadField(field: string, value: string) returns (line: string)
    requires field != "" && ':' !in field && !IsSpace(field[0]) && Trimmed(value)
    ensures line == Strip(FieldLine(field, value))
    ensures line != "" && line[0] == field[0] && StartsWith(line, field + ":")
    ensures Strip(AfterColon(line)) == value && LStrip(AfterColon(line)) == value
  {
    var text := field + ": " + value;
    StripTrimmed(value);
    if value == "" {
      line := field + ":";
      assert text[..|text| - 1] == line && LStrip(text) == text;
      assert RStrip(text) == RStrip(line) == line;
      SplitOnceAt(field, ':', "");
      assert field + [':'] + "" == line;
    } else {
      line := text;
      assert text[|text| - 1] == value[|value| - 1];
      assert Trimmed(text);
      StripTrimmed(text);
      assert text == field + [':'] + (" " + value);
      SplitOnceAt(field, ':', " " + value);
      LStripSpace(value);
    }
  }

  lemma ReadEventLine(name: string)
    requires name != "" && Trimmed(name)
    ensures Classify(Some(FieldLine("event", name))) == EventField(name)
  {
    var line := ReadField("event", name);
    ClassifyEvent(line);
    StripTrimmed(name);
  }

  lemma ClassifyEvent(line: string)
    requires line != "" && line[0] == 'e' && StartsWith(line, "event:")
    ensures ClassifyStripped(line) == EventField(Strip(AfterColon(line)))
  {
  }

  lemma ReadDataLine(data: string)
    requires Trimmed(data)
    ensures Classify(Some(FieldLine("data", data))) == DataField(data)
  {
    var line := ReadField("data", data);
    ClassifyData(line);
  }

  lemma ClassifyData(line: string)
    requires line != "" && line[0] == 'd' && StartsWith(line, "data:")
    ensures ClassifyStripped(line) == DataField(LStrip(AfterColon(line)))
  {
    assert "event:"[0] == 'e';
  }

  lemma ParseField(line: Option<string>, rest: seq<Option<string>>, p: Pending, loads: Loads, show: Json -> string)
    requires !Classify(line).Blank?
    ensures Parse([line] + rest, p, loads, show) == Parse(rest, AfterField(p, Classify(line)), loads, show)
  {
    assert ([line] + rest)[1..] == rest;
  }

  lemma ReadOneDataLine(data: string, rest: seq<Option<string>>, p: Pending, loads: Loads, show: Json -> string)
    requires Trimmed(data)
    ensures Parse([Some(FieldLine("data", data))] + rest, p, loads, show)
         == Parse(rest, p.(data := p.data + [data]), loads, show)
  {
    ReadDataLine(data);
    ParseField(Some(FieldLine("data", data)), rest, p, loads, show);
  }

  lemma AppendFirst(a: seq<string>, b: seq<string>)
    requires b != []
    ensures (a + [b[0]]) + b[1..] == a + b
  {
  }

  lemma DataLinesFirst(data: seq<string>, rest: seq<Option<string>>)
    requires data != []
    ensures DataLines(data) + rest == [Some(FieldLine("data", data[0]))] + (DataLines(data[1..]) + rest)
  {
  }

  lemma {:induction false} ReadDataLines(data: seq<string>, rest: seq<Option<string>>, p: Pending, loads: Loads,
                                         show: Json -> string)
    requires forall i :: 0 <= i < |data| ==> Trimmed(data[i])
    ensures Parse(DataLines(data) + rest, p, loads, show) == Parse(rest, p.(data := p.data + data), loads, show)
    decreases |data|
  {
    if data == [] {
      assert DataLines(data) + rest == rest;
      assert p.data + data == p.data;
    } else {
      var next := p.(data := p.data + [data[0]]);
      DataLinesFirst(data, rest);
      ReadOneDataLine(data[0], DataLines(data[1..]) + rest, p, loads, show);
      ReadDataLines(data[1..], rest, next, loads, show);
      AppendFirst(p.data, data);
    }
  }

  lemma ReadBlank(rest: seq<Option<string>>, p: Pending, loads: Loads, show: Json -> string)
    requires p.data != []
    ensures Parse([Some("")] + rest, p, loads, show)
         == var first := Resolve(p.event, Join(p.data, "\n"), loads, show);
            if first.terminal then [first] else [first] + Parse(rest, IDLE, loads, show)
  {
    assert ([Some("")] + rest)[1..] == rest;
    assert Strip("") == "";
  }

  /** Reading back one printed event. */
  lemma ReadEvent(e: Event, rest: seq<Option<string>>, loads: Loads, show: Json -> string)
    requires Sendable(e)
    ensures Parse(Print(e) + rest, IDLE, loads, show)
         == var first := Resolve(e.name, Join(e.data, "\n"), loads, show);
            if first.terminal then [first] else [first] + Parse(rest, IDLE, loads, show)
  {
    var tail := [Some("")] + rest;
    var line := Some(FieldLine("event", e.name));
    assert Print(e) + rest == [line] + (DataLines(e.data) + tail);
    ReadEventLine(e.name);
    ParseField(line, DataLines(e.data) + tail, IDLE, loads, show);
    ReadDataLines(e.data, tail, Pending(e.name, []), loads, show);
    assert [] + e.data == e.data;
    ReadBlank(rest, Pending(e.name, e.data), loads, show);
  }

  /** Printing events and parsing the lines gives the events back, up to the first terminal one. */
  lemma {:induction false} RoundTrip(events: seq<Event>, loads: Loads, show: Json -> string)
    requires forall i :: 0 <= i < |events| ==> Sendable(events[i])
    ensures Parse(PrintAll(events), IDLE, loads, show) == UpToTerminal(events, loads, show)
  {
    if events != [] {
      ReadEvent(events[0], PrintAll(events[1..]), loads, show);
      RoundTrip(events[1..], loads, show);
    }
  }

  // ------------------------------------------------------------------
  // Envelopes
  // ------------------------------------------------------------------

  /** What becomes of the data of an event. Text that is no JSON is the payload's `raw`; JSON that
      is no dict is the payload; a dict may name another event and another payload, and alone can
      end the stream. */
  lemma EnvelopeMeaning(event: string, raw: string, loads: Loads, show: Json -> string)
    ensures var e := Resolve(event, raw, loads, show);
            match loads(raw)
            case None => e == Envelope(event, Obj(map["raw" := Str(raw)]), false)
            case Some(value) =>
              if !value.Obj? then e == Envelope(event, value, false)
              else
                var fields := value.fields;
                && (e.terminal <==> "terminal" in fields && Truthy(fields["terminal"]))
                && e.payload == (if "payload" in fields && fields["payload"] != Null then fields["payload"] else value)
                && e.event == (if "event" in fields && Strip(TextOf(fields["event"], show)) != ""
                               then Strip(TextOf(fields["event"], show)) else event)
  {
    assert Strip("") == "";
  }

  /** An envelope as a server sends it: its three fields as one JSON object. */
  function Body(e: Envelope): Json {
    Obj(map["event" := Str(e.event), "payload" := e.payload, "terminal" := Bool(e.terminal)])
  }

  function Sent(e: Envelope, dumps: Json -> string): Event {
    Event(e.event, [dumps(Body(e))])
  }

  function SentAll(envelopes: seq<Envelope>, dumps: Json -> string): seq<Event> {
    if envelopes == [] then [] else [Sent(envelopes[0], dumps)] + SentAll(envelopes[1..], dumps)
  }

  /** The envelope is written on one line that reads back, has a clean name, and has a payload. */
  predicate Writable(e: Envelope, dumps: Json -> string, loads: Loads) {
    && e.event != "" && Trimmed(e.event) && e.payload != Null
    && Trimmed(dumps(Body(e))) && loads(dumps(Body(e))) == Some(Body(e))
  }

  lemma ReadEnvelope(e: Envelope, rest: seq<Option<string>>, dumps: Json -> string, loads: Loads, show: Json -> string)
    requires Writable(e, dumps, loads)
    ensures Parse(Print(Sent(e, dumps)) + rest, IDLE, loads, show)
         == if e.terminal then [e] else [e] + Parse(rest, IDLE, loads, show)
  {
    ReadEvent(Sent(e, dumps), rest, loads, show);
    StripTrimmed(e.event);
    EnvelopeMeaning(e.event, dumps(Body(e)), loads, show);
  }

  /** The first n envelopes are all there are, or end with the first terminal one. */
  ghost predicate EndsAtTerminal(envelopes: seq<Envelope>, n: nat) {
    && n <= |envelopes|
    && (forall i :: 0 <= i < n - 1 ==> !envelopes[i].terminal)
    && (n < |envelopes| ==> n > 0 && envelopes[n - 1].terminal)
  }

  lemma OneMore(e: Envelope, rest: seq<Envelope>, m: nat)
    requires !e.terminal && EndsAtTerminal(rest, m)
    ensures EndsAtTerminal([e] + rest, m + 1) && ([e] + rest)[..m + 1] == [e] + rest[..m]
  {
  }

  /** What a client gets of a stream: the envelopes that were sent, up to and with the first
      terminal one. */
  lemma {:induction false} EnvelopesRoundTrip(envelopes: seq<Envelope>, dumps: Json -> string, loads: Loads, show: Json -> string)
      returns (n: nat)
    requires forall i :: 0 <= i < |envelopes| ==> Writable(envelopes[i], dumps, loads)
    ensures EndsAtTerminal(envelopes, n)
    ensures Parse(PrintAll(SentAll(envelopes, dumps)), IDLE, loads, show) == envelopes[..n]
    decreases |envelopes|
  {
    n := 0;
    if envelopes != [] {
      var e, rest := envelopes[0], envelopes[1..];
      assert envelopes == [e] + rest;
      ReadEnvelope(e, PrintAll(SentAll(rest, dumps)), dumps, loads, show);
      n := 1;
      if !e.terminal {
        var m := EnvelopesRoundTrip(rest, dumps, loads, show);
        OneMore(e, rest, m);
        n := m + 1;
      }
    }
  }

  // ------------------------------------------------------------------
  // Lines that change nothing
  // ------------------------------------------------------------------

  /** The state after some lines, None once a terminal event has been dispatched. */
  function Reached(lines: seq<Option<string>>, p: Pending, loads: Loads, show: Json -> string): Option<Pending> {
    if lines == [] then Some(p)
    else if Classify(lines[0]).Blank? then
      var out := Flushed(p, loads, show);
      if out.Some? && out.value.terminal then None else Reached(lines[1..], IDLE, loads, show)
    else Reached(lines[1..], AfterField(p, Classify(lines[0])), loads, show)
  }

  /** The events dispatched by the blank lines among some lines. */
  function Dispatched(lines: seq<Option<string>>, p: Pending, loads: Loads, show: Json -> string): seq<Envelope> {
    if lines == [] then []
    else if Classify(lines[0]).Blank? then
      match Flushed(p, loads, show)
      case None => Dispatched(lines[1..], IDLE, loads, show)
      case Some(envelope) =>
        if envelope.terminal then [envelope] else [envelope] + Dispatched(lines[1..], IDLE, loads, show)
    else Dispatched(lines[1..], AfterField(p, Classify(lines[0])), loads, show)
  }

  /** A stream may be cut anywhere: the rest is read from the state the first part leaves. */
  lemma {:induction false} ParseSplits(lines: seq<Option<string>>, rest: seq<Option<string>>, p: Pending, loads: Loads,
                                       show: Json -> string)
    ensures Parse(lines + rest, p, loads, show)
         == Dispatched(lines, p, loads, show)
            + (match Reached(lines, p, loads, show) case None => [] case Some(q) => Parse(rest, q, loads, show))
  {
    if lines == [] {
      assert lines + rest == rest;
    } else {
      assert (lines + rest)[1..] == lines[1..] + rest;
      ParseSplits(lines[1..], rest, IDLE, loads, show);
      ParseSplits(lines[1..], rest, AfterField(p, Classify(lines[0])), loads, show);
    }
  }

  /** A comment, a line with a field the parser does not know, or a missing line can be inserted
      anywhere. */
  lemma IgnoredAnywhere(before: seq<Option<string>>, line: Option<string>, after: seq<Option<string>>, p: Pending,
                        loads: Loads, show: Json -> string)
    requires Classify(line).Ignored?
    ensures Parse(before + [line] + after, p, loads, show) == Parse(before + after, p, loads, show)
  {
    assert before + [line] + after == before + ([line] + after);
    ParseSplits(before, [line] + after, p, loads, show);
    ParseSplits(before, after, p, loads, show);
    match Reached(before, p, loads, show) {
      case None =>
      case Some(q) => ParseField(line, after, q, loads, show);
    }
  }

  /** Which lines are ignored: after trimming, comments and lines that are neither an event nor a
      data field. */
  lemma IgnoredLines(text: string)
    ensures Classify(Some(text)).Ignored?
       <==> Strip(text) != "" && !StartsWith(Strip(text), "event:") && !StartsWith(Strip(text), "data:")
  {
    var line := Strip(text);
    if line != "" && line[0] == ':' { assert "event:"[0] != ':' && "data:"[0] != ':'; }
  }

  lemma AfterFieldName(line: string, field: string)
    requires ':' !in field && StartsWith(line, field + ":")
    ensures AfterColon(line) == line[|field| + 1..]
  {
    assert line == field + [':'] + line[|field| + 1..];
    SplitOnceAt(field, ':', line[|field| + 1..]);
  }

  /** What every line of an event or data field does: after trimming, an event line sets the name,
      back to "message" if it is empty, and a data line adds its text without leading white space. */
  lemma FieldLines(text: string, rest: seq<Option<string>>, p: Pending, loads: Loads, show: Json -> string)
    ensures StartsWith(Strip(text), "event:") ==>
              var name := Strip(Strip(text)[6..]);
              Parse([Some(text)] + rest, p, loads, show)
              == Parse(rest, Pending(if name == "" then "message" else name, p.data), loads, show)
    ensures StartsWith(Strip(text), "data:") ==>
              Parse([Some(text)] + rest, p, loads, show)
              == Parse(rest, Pending(p.event, p.data + [LStrip(Strip(text)[5..])]), loads, show)
  {
    var line := Strip(text);
    if StartsWith(line, "event:") {
      assert "event" + ":" == "event:";
      AfterFieldName(line, "event");
      ClassifyEvent(line);
      ParseField(Some(text), rest, p, loads, show);
    }
    if StartsWith(line, "data:") {
      assert "data" + ":" == "data:";
      AfterFieldName(line, "data");
      ClassifyData(line);
      ParseField(Some(text), rest, p, loads, show);
    }
  }

  lemma ParseBlank(after: seq<Option<string>>, p: Pending, loads: Loads, show: Json -> string)
    ensures Parse([Some("")] + after, p, loads, show)
         == match Flushed(p, loads, show)
            case None => Parse(after, IDLE, loads, show)
            case Some(out) => if out.terminal then [out] else [out] + Parse(after, IDLE, loads, show)
  {
    assert ([Some("")] + after)[1..] == after;
    assert Strip("") == "";
  }

  /** An extra blank line between events changes nothing: at the start, or after a blank line. */
  lemma BlankBetweenEvents(before: seq<Option<string>>, after: seq<Option<string>>, loads: Loads, show: Json -> string)
    requires before == [] || Classify(before[|before| - 1]).Blank?
    ensures Parse(before + [Some("")] + after, IDLE, loads, show) == Parse(before + after, IDLE, loads, show)
  {
    assert before + [Some("")] + after == before + ([Some("")] + after);
    ParseSplits(before, [Some("")] + after, IDLE, loads, show);
    ParseSplits(before, after, IDLE, loads, show);
    IdleAfterBlank(before, IDLE, loads, show);
    ParseBlank(after, IDLE, loads, show);
  }

  lemma {:induction false} IdleAfterBlank(lines: seq<Option<string>>, p: Pending, loads: Loads, show: Json -> string)
    requires lines == [] ==> p == IDLE
    requires lines != [] ==> Classify(lines[|lines| - 1]).Blank?
    ensures Reached(lines, p, loads, show).Some? ==> Reached(lines, p, loads, show).value == IDLE
  {
    if lines != [] {
      if |lines| > 1 {
        IdleAfterBlank(lines[1..], IDLE, loads, show);
        IdleAfterBlank(lines[1..], AfterField(p, Classify(lines[0])), loads, show);
      } else {
        assert lines[1..] == [];
      }
    }
  }

  lemma ResolveUnparsed(event: string, raw: string, loads: Loads, show: Json -> string)
    requires loads(raw).None?
    ensures Resolve(event, raw, loads, show) == Envelope(event, Obj(map["raw" := Str(raw)]), false)
  {
    var fields: map<string, Json> := map["raw" := Str(raw)];
    assert "event" !in fields && "payload" !in fields && "terminal" !in fields by {
      assert "raw"[0] == 'r' && "event"[0] == 'e' && "payload"[0] == 'p' && "terminal"[0] == 't';
    }
    assert Strip("") == "";
  }

  lemma ParseOneDataLine(data: string, p: Pending, loads: Loads, show: Json -> string)
    requires Trimmed(data)
    ensures Parse([Some(FieldLine("data", data))], p, loads, show)
         == [Resolve(p.event, Join(p.data + [data], "\n"), loads, show)]
  {
    var line := Some(FieldLine("data", data));
    ReadDataLine(data);
    assert [line] + [] == [line];
    ParseField(line, [], p, loads, show);
  }

  /** A blank line that makes no difference, whatever follows it and however payloads parse. */
  ghost predicate BlankIsNeutral(p: Pending, show: Json -> string) {
    forall after, loads :: Parse([Some("")] + after, p, loads, show) == Parse(after, p, loads, show)
  }

  /** In the middle of an event a blank line matters: it is neutral exactly in the state in which
      neither data nor an event name is pending. */
  lemma BlankIsNeutralOnlyWhenIdle(p: Pending, show: Json -> string)
    ensures BlankIsNeutral(p, show) <==> p == IDLE
  {
    if p == IDLE {
      forall after, loads ensures Parse([Some("")] + after, p, loads, show) == Parse(after, p, loads, show) {
        ParseBlank(after, p, loads, show);
      }
    } else {
      BlankSeen(p, "x", raw => None, show);
    }
  }

  lemma BlankSeen(p: Pending, data: string, loads: Loads, show: Json -> string)
    requires p != IDLE && Trimmed(data) && forall raw :: loads(raw).None?
    ensures var after := [Some(FieldLine("data", data))];
            Parse([Some("")] + after, p, loads, show) != Parse(after, p, loads, show)
  {
    var after := [Some(FieldLine("data", data))];
    ParseBlank(after, p, loads, show);
    ParseOneDataLine(data, p, loads, show);
    ParseOneDataLine(data, IDLE, loads, show);
    if p.data == [] {
      ResolveUnparsed(p.event, Join([] + [data], "\n"), loads, show);
      ResolveUnparsed("message", Join([] + [data], "\n"), loads, show);
    } else {
      ResolveUnparsed(p.event, Join(p.data, "\n"), loads, show);
    }
  }
}
