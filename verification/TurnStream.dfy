/** The turn event stream: the backend's frame printer and the frontend's incremental parser.
    The format is a subset of section 9.2.6 of the WHATWG HTML Living Standard. */
module TurnStream {
  import opened Prelude
  import opened Text

  const EVENT_FIELD := "event:"
  const DATA_FIELD := "data:"

  datatype EventName = Delta | TurnResult | TurnError

  datatype TurnEvent<D> = TurnEvent(name: EventName, data: D)

  /** JSON encoding and decoding, supplied from outside. */
  datatype Codec<!D> = Codec(encode: D -> string, decode: string -> Option<D>)

  /** What the stream needs of JSON: one line of text, an object, read back as written. */
  ghost predicate Lossless<D(!new)>(codec: Codec<D>) {
    forall d ::
      var text := codec.encode(d);
      text != "" && text[0] == '{' && '\n' !in text && codec.decode(text) == Some(d)
  }

  function NameText(name: EventName): string {
    match name
    case Delta => "delta"
    case TurnResult => "result"
    case TurnError => "error"
  }

  function NameOf(text: string): Option<EventName> {
    if text == "delta" then Some(Delta)
    else if text == "result" then Some(TurnResult)
    else if text == "error" then Some(TurnError)
    else None
  }

  // ---------- printer ----------

  function Body<D>(codec: Codec<D>, e: TurnEvent<D>): string {
    "event: " + NameText(e.name) + "\n" + "data: " + codec.encode(e.data)
  }

  function Printed<D>(codec: Codec<D>, events: seq<TurnEvent<D>>): string {
    if events == [] then ""
    else Body(codec, events[0]) + BLANK_LINE + Printed(codec, events[1..])
  }

  // ---------- parser ----------

  /** Whitespace as `String.prototype.trim` understands it. */
  predicate IsJsSpace(c: char) {
    || '\t' <= c <= '\r' || c == ' ' || c == '\U{a0}' || c == '\U{1680}'
    || '\U{2000}' <= c <= '\U{200a}'
    || c == '\U{2028}' || c == '\U{2029}' || c == '\U{202f}' || c == '\U{205f}'
    || c == '\U{3000}' || c == '\U{feff}'
  }

  datatype Fields = Fields(eventName: string, dataLines: seq<string>)

  function ScanLine(f: Fields, line: string): Fields {
    if StartsWith(line, EVENT_FIELD) then
      f.(eventName := Trim(IsJsSpace, line[|EVENT_FIELD|..]))
    else if StartsWith(line, DATA_FIELD) then
      f.(dataLines := f.dataLines + [TrimStart(IsJsSpace, line[|DATA_FIELD|..])])
    else f
  }

  function ScanLines(f: Fields, lines: seq<string>): Fields
    decreases |lines|
  {
    if lines == [] then f else ScanLines(ScanLine(f, lines[0]), lines[1..])
  }

  function Decode<D>(codec: Codec<D>, f: Fields): Option<TurnEvent<D>> {
    if f.eventName == "" || f.dataLines == [] then None
    else
      match (codec.decode(Join(f.dataLines, "\n")), NameOf(f.eventName))
      case (Some(data), Some(name)) => Some(TurnEvent(name, data))
      case _ => None
  }

  function BlockEvents<D>(codec: Codec<D>, block: string): seq<TurnEvent<D>> {
    Yielded(ParseBlock(codec, block))
  }

  function ParseBlock<D>(codec: Codec<D>, block: string): Option<TurnEvent<D>> {
    Decode(codec, ScanLines(Fields("", []), SplitOn(block, "\n")))
  }

  function Yielded<D>(parsed: Option<TurnEvent<D>>): seq<TurnEvent<D>> {
    if parsed.Some? then [parsed.value] else []
  }

  function BlockParser<D>(codec: Codec<D>): string -> seq<TurnEvent<D>> {
    block => BlockEvents(codec, block)
  }

  /** What a reader that sees the whole text at once would yield, given a parser for one block: the
      events of every block closed by a blank line. */
  function EventsBy<E>(parse: string -> seq<E>, text: string): seq<E> {
    FlatMap(parse, Init(SplitOn(text, BLANK_LINE)))
  }

  function Events<D>(codec: Codec<D>, text: string): seq<TurnEvent<D>> {
    EventsBy(BlockParser(codec), text)
  }

  /** What stays unread: the text after the last blank line. */
  function Pending(text: string): string {
    Last(SplitOn(text, BLANK_LINE))
  }

  method ParseSseBlock<D>(codec: Codec<D>, block: string) returns (parsed: Option<TurnEvent<D>>)
    ensures parsed == ParseBlock(codec, block)
  {
    var eventName := "";
    var dataLines: seq<string> := [];
    var lines := SplitOn(block, "\n");
    for i := 0 to |lines|
      invariant ScanLines(Fields(eventName, dataLines), lines[i..]) == ScanLines(Fields("", []), lines)
    {
      var line := lines[i];
      assert lines[i..][1..] == lines[i + 1..];
      if StartsWith(line, EVENT_FIELD) {
        eventName := Trim(IsJsSpace, line[|EVENT_FIELD|..]);
      } else if StartsWith(line, DATA_FIELD) {
        dataLines := dataLines + [TrimStart(IsJsSpace, line[|DATA_FIELD|..])];
      }
    }
    if eventName == "" || dataLines == [] {
      return None;
    }
    match codec.decode(Join(dataLines, "\n")) {
      case None => return None;
      case Some(data) =>
        match NameOf(eventName) {
          case None => return None;
          case Some(name) => return Some(TurnEvent(name, data));
        }
    }
  }

  /** The inner loop of one read: take every closed block out of the buffer. */
  method DrainBuffer<D>(codec: Codec<D>, carried: string) returns (events: seq<TurnEvent<D>>, buffer: string)
    ensures events == Events(codec, carried)
    ensures buffer == Pending(carried) && !Contains(buffer, BLANK_LINE)
  {
    events, buffer := [], carried;
    ghost var blocks: seq<string> := [];
    var separatorIndex := Find(buffer, BLANK_LINE);
    while separatorIndex >= 0
      invariant separatorIndex == Find(buffer, BLANK_LINE)
      invariant SplitOn(carried, BLANK_LINE) == blocks + SplitOn(buffer, BLANK_LINE)
      invariant events == FlatMap(BlockParser(codec), blocks)
      decreases |buffer|
    {
      var block := buffer[..separatorIndex];
      DrainBlock(blocks, buffer, separatorIndex);
      buffer := buffer[separatorIndex + 2..];
      var parsed := ParseSseBlock(codec, block);
      if parsed.Some? {
        events := events + [parsed.value];
      }
      FlatMapSnoc(BlockParser(codec), blocks, block);
      blocks := blocks + [block];
      separatorIndex := Find(buffer, BLANK_LINE);
    }
    assert SplitOn(carried, BLANK_LINE) == blocks + [buffer];
    NothingClosed(codec, buffer);
  }

  /** The read loop with its carry-over buffer. However the text is cut into chunks, the events are
      those of the whole text, and of a printed stream they are the printed events. */
  method StreamTurn<D(!new)>(codec: Codec<D>, chunks: seq<string>)
    returns (events: seq<TurnEvent<D>>, buffer: string)
    ensures events == Events(codec, Concat(chunks))
    ensures buffer == Pending(Concat(chunks)) && !Contains(buffer, BLANK_LINE)
    ensures forall sent: seq<TurnEvent<D>> | Lossless(codec) && Printed(codec, sent) == Concat(chunks) ::
              events == sent && buffer == ""
  {
    events, buffer := [], "";
    NothingClosed(codec, buffer);
    for i := 0 to |chunks|
      invariant events == Events(codec, Concat(chunks[..i])) && buffer == Pending(Concat(chunks[..i]))
    {
      EventsExtend(BlockParser(codec), Concat(chunks[..i]), chunks[i]);
      ConcatSnoc(chunks, i);
      buffer := buffer + chunks[i];
      var parsed;
      parsed, buffer := DrainBuffer(codec, buffer);
      events := events + parsed;
    }
    assert chunks[..|chunks|] == chunks;
    StreamComplete(codec, Concat(chunks));
  }

  // ---------- the incremental reader agrees with the whole text ----------

  lemma ConcatSnoc(chunks: seq<string>, i: nat)
    requires i < |chunks|
    ensures Concat(chunks[..i + 1]) == Concat(chunks[..i]) + chunks[i]
  {
    assert chunks[..i + 1] == chunks[..i] + [chunks[i]];
    ConcatAppend(chunks[..i], [chunks[i]]);
    assert Concat([chunks[i]]) == chunks[i];
  }

  lemma NothingClosed<D>(codec: Codec<D>, buffer: string)
    requires Find(buffer, BLANK_LINE) == -1
    ensures Events(codec, buffer) == [] && Pending(buffer) == buffer
  {
  }

  lemma DrainBlock(blocks: seq<string>, buffer: string, i: int)
    requires i == Find(buffer, BLANK_LINE) && i != -1
    ensures blocks + SplitOn(buffer, BLANK_LINE) == blocks + [buffer[..i]] + SplitOn(buffer[i + 2..], BLANK_LINE)
  {
  }

  /** Events yielded early are final: what is read so far, then the carry-over with the new text. */
  lemma EventsExtend<E>(parse: string -> seq<E>, seen: string, more: string)
    ensures EventsBy(parse, seen + more) == EventsBy(parse, seen) + EventsBy(parse, Pending(seen) + more)
    ensures Pending(seen + more) == Pending(Pending(seen) + more)
  {
    SplitAppend(seen, more, BLANK_LINE);
    var closed, rest := Init(SplitOn(seen, BLANK_LINE)), SplitOn(Pending(seen) + more, BLANK_LINE);
    assert Init(closed + rest) == closed + Init(rest) && Last(closed + rest) == Last(rest);
    FlatMapAppend(parse, closed, Init(rest));
  }

  // ---------- the parser undoes the printer ----------

  lemma StreamComplete<D(!new)>(codec: Codec<D>, text: string)
    ensures !Contains(Pending(text), BLANK_LINE)
    ensures forall sent: seq<TurnEvent<D>> | Lossless(codec) && Printed(codec, sent) == text ::
              Events(codec, text) == sent && Pending(text) == ""
  {
    SplitParts(text, BLANK_LINE, Pending(text));
    forall sent: seq<TurnEvent<D>> | Lossless(codec) && Printed(codec, sent) == text
      ensures Events(codec, text) == sent && Pending(text) == ""
    {
      RoundTrip(codec, sent);
    }
  }

  lemma {:induction false} RoundTrip<D(!new)>(codec: Codec<D>, events: seq<TurnEvent<D>>)
    requires Lossless(codec)
    ensures Events(codec, Printed(codec, events)) == events && Pending(Printed(codec, events)) == ""
  {
    if events == [] {
      NothingClosed(codec, "");
    } else {
      var body, rest := Body(codec, events[0]), Printed(codec, events[1..]);
      RoundTrip(codec, events[1..]);
      BodyIsOneBlock(codec, events[0]);
      BodyParses(codec, events[0]);
      FrameFirst(codec, body, rest);
      assert events == [events[0]] + events[1..];
    }
  }

  lemma FrameFirst<D>(codec: Codec<D>, body: string, rest: string)
    requires Cuttable(body, BLANK_LINE)
    ensures Events(codec, body + BLANK_LINE + rest) == BlockEvents(codec, body) + Events(codec, rest)
    ensures Pending(body + BLANK_LINE + rest) == Pending(rest)
  {
    var parts := SplitOn(rest, BLANK_LINE);
    SplitFirst(body, BLANK_LINE, rest);
    InitLast(body, parts, []);
    FlatMapCons(BlockParser(codec), body, Init(parts));
  }

  lemma BodyIsOneBlock<D(!new)>(codec: Codec<D>, e: TurnEvent<D>)
    requires Lossless(codec)
    ensures Cuttable(Body(codec, e), BLANK_LINE)
  {
    var first, second := "event: " + NameText(e.name), "data: " + codec.encode(e.data);
    var body := first + "\n" + second;
    assert body == Body(codec, e);
    assert forall k | 0 <= k < |body| && k != |first| :: body[k] != '\n';
    if i :| OccursAt(body, BLANK_LINE, i) {
      BlankLineAt(body, i);
      assert false;
    }
    CuttableByBlankLine(body);
  }

  lemma BodyParses<D(!new)>(codec: Codec<D>, e: TurnEvent<D>)
    requires Lossless(codec)
    ensures BlockEvents(codec, Body(codec, e)) == [e]
  {
    var json := codec.encode(e.data);
    var lines := ["event: " + NameText(e.name), "data: " + json];
    LinesOfBody(codec, e);
    ScanEventLine(e.name);
    ScanDataLine(Fields(NameText(e.name), []), json);
    ScanTwoLines(Fields("", []), lines[0], lines[1]);
    TrimName(e.name);
    assert Join([json], "\n") == json;
  }

  lemma LinesOfBody<D(!new)>(codec: Codec<D>, e: TurnEvent<D>)
    requires Lossless(codec)
    ensures SplitOn(Body(codec, e), "\n") == ["event: " + NameText(e.name), "data: " + codec.encode(e.data)]
  {
    var lines := ["event: " + NameText(e.name), "data: " + codec.encode(e.data)];
    CuttableByChar(lines[0], '\n');
    NoCharNoOccurrence(lines[1], '\n');
    assert Join(lines[1..], "\n") == lines[1];
    assert Body(codec, e) == Join(lines, "\n");
    SplitJoin(lines, "\n");
  }

  predicate IsEventLine(line: string) {
    StartsWith(line, EVENT_FIELD)
  }

  predicate IsDataLine(line: string) {
    !IsEventLine(line) && StartsWith(line, DATA_FIELD)
  }

  function EventValue(line: string): string
    requires IsEventLine(line)
  {
    Trim(IsJsSpace, line[|EVENT_FIELD|..])
  }

  function DataValue(line: string): string {
    if IsDataLine(line) then TrimStart(IsJsSpace, line[|DATA_FIELD|..]) else line
  }

  /** Whatever the lines of a block: all data lines are kept in order, the last event line decides the name,
      and every other line is ignored. */
  lemma {:induction false} ScanCollects(f: Fields, lines: seq<string>)
    ensures ScanLines(f, lines).dataLines == f.dataLines + Map(DataValue, Filter(IsDataLine, lines))
    ensures (forall i | 0 <= i < |lines| :: !IsEventLine(lines[i])) ==> ScanLines(f, lines).eventName == f.eventName
    ensures forall k | 0 <= k < |lines| && IsEventLine(lines[k])
        && (forall i | k < i < |lines| :: !IsEventLine(lines[i])) ::
              ScanLines(f, lines).eventName == EventValue(lines[k])
    decreases |lines|
  {
    hide Trim, TrimStart;
    if lines == [] {
    } else {
      var next, rest := ScanLine(f, lines[0]), lines[1..];
      ScanCollects(next, rest);
      assert forall i | 0 <= i < |rest| :: rest[i] == lines[i + 1];
      if IsDataLine(lines[0]) {
        ConsMap(lines[0], Filter(IsDataLine, rest));
        AppendAssoc(f.dataLines, [DataValue(lines[0])], Map(DataValue, Filter(IsDataLine, rest)));
      }
      forall k | 0 <= k < |lines| && IsEventLine(lines[k]) && (forall i | k < i < |lines| :: !IsEventLine(lines[i]))
        ensures ScanLines(f, lines).eventName == EventValue(lines[k])
      {
        assert forall i | 0 <= i < |rest| && k < i + 1 :: !IsEventLine(rest[i]);
        if k > 0 {
          assert rest[k - 1] == lines[k];
        }
      }
    }
  }

  /** Line `k` is the last event line, and names the event. */
  ghost predicate NamesEvent(lines: seq<string>, k: int, name: EventName) {
    && 0 <= k < |lines| && IsEventLine(lines[k]) && (forall i | k < i < |lines| :: !IsEventLine(lines[i]))
    && EventValue(lines[k]) == (match name case Delta => "delta" case TurnResult => "result" case TurnError => "error")
  }

  /** A block yields an event exactly when its last event line names one of the three events, it has a data line, and
      the values of its data lines, joined by newlines, decode; any other block is dropped. */
  lemma BlockParsedIff<D>(codec: Codec<D>, block: string, e: TurnEvent<D>)
    ensures
      var lines := SplitOn(block, "\n");
      ParseBlock(codec, block) == Some(e) <==>
        && (exists k :: NamesEvent(lines, k, e.name))
        && (exists i :: 0 <= i < |lines| && IsDataLine(lines[i]))
        && codec.decode(Join(Map(DataValue, Filter(IsDataLine, lines)), "\n")) == Some(e.data)
  {
    hide Trim, TrimStart, SplitOn, ScanLines, Join, IsEventLine, IsDataLine, EventValue;
    var lines, fields := SplitOn(block, "\n"), ScanLines(Fields("", []), SplitOn(block, "\n"));
    ScanCollects(Fields("", []), lines);
    assert fields.dataLines == Map(DataValue, Filter(IsDataLine, lines));
    DataGiven(lines);
    NameTextIff(fields.eventName, e.name);
    if k :| LastEventLine(lines, k) {
      assert fields.eventName == EventValue(lines[k]);
      forall l | NamesEvent(lines, l, e.name)
        ensures l == k
      {
        LastIsOne(lines, k, l);
      }
      if EventValue(lines[k]) == NameText(e.name) {
        assert NamesEvent(lines, k, e.name);
      }
    } else {
      NoEventLine(lines);
    }
  }

  ghost predicate LastEventLine(lines: seq<string>, k: int) {
    0 <= k < |lines| && IsEventLine(lines[k]) && forall i | k < i < |lines| :: !IsEventLine(lines[i])
  }

  lemma LastIsOne(lines: seq<string>, k: int, l: int)
    requires LastEventLine(lines, k) && LastEventLine(lines, l)
    ensures k == l
  {
  }

  lemma {:induction false} NoEventLine(lines: seq<string>)
    requires forall k :: !LastEventLine(lines, k)
    ensures forall i | 0 <= i < |lines| :: !IsEventLine(lines[i])
  {
    if lines == [] {
    } else {
      var n := |lines| - 1;
      assert !LastEventLine(lines, n);
      forall k
        ensures !LastEventLine(lines[..n], k)
      {
        assert !LastEventLine(lines, k);
      }
      NoEventLine(lines[..n]);
      assert forall i | 0 <= i < n :: lines[i] == lines[..n][i];
    }
  }

  lemma DataGiven(lines: seq<string>)
    ensures Filter(IsDataLine, lines) != [] <==> exists i :: 0 <= i < |lines| && IsDataLine(lines[i])
  {
    hide IsDataLine;
    var picks := FilterSelects(IsDataLine, lines);
    if picks != [] {
      assert picks[0] in picks;
    }
  }

  lemma NameTextIff(text: string, name: EventName)
    ensures NameOf(text) == Some(name) <==> text == NameText(name)
    ensures NameText(name) != ""
  {
  }

  lemma ConsMap(line: string, rest: seq<string>)
    ensures Map(DataValue, [line] + rest) == [DataValue(line)] + Map(DataValue, rest)
  {
  }

  lemma ScanTwoLines(f: Fields, first: string, second: string)
    ensures ScanLines(f, [first, second]) == ScanLine(ScanLine(f, first), second)
  {
    var g := ScanLine(f, first);
    assert [first, second][1..] == [second] && [second][1..] == [];
    assert ScanLines(g, [second]) == ScanLines(ScanLine(g, second), []);
  }

  lemma ScanEventLine(name: EventName)
    ensures ScanLine(Fields("", []), "event: " + NameText(name)) == Fields(NameText(name), [])
  {
    var line := "event: " + NameText(name);
    assert line[..6] == EVENT_FIELD && line[6..] == " " + NameText(name);
    TrimName(name);
  }

  lemma ScanDataLine(f: Fields, json: string)
    requires json != "" && json[0] == '{'
    ensures ScanLine(f, "data: " + json) == f.(dataLines := f.dataLines + [json])
  {
  }

  lemma TrimName(name: EventName)
    ensures Trim(IsJsSpace, " " + NameText(name)) == NameText(name)
    ensures NameOf(NameText(name)) == Some(name) && NameText(name) != ""
  {
    var s := " " + NameText(name);
    RunLengthIs(IsJsSpace, s, 1);
    assert s[1..] == NameText(name);
  }
}
