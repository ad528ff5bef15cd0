/**
  The pure part of `ApiService.streamMessage`: how the decoded text of the
  response body is cut into lines, which lines reach `JSON.parse`, and which
  waits, callbacks and log entries each line causes. The read loop itself,
  with its reader and its error path, is the method in module ApiService.
 */
module StreamDecoder {
  import opened JsText
  import opened Wrappers
  import opened Sequences

  /**
    What `JSON.parse(data)` yields, as far as the loop looks at it:
    `Malformed` when the parse throws, or when the value is `null` (reading
    `.done` of `null` throws inside the same `try`); otherwise the truthiness
    of `.done` and the `.content` string, `None` when it is absent.
   */
  datatype Payload = Malformed | Parsed(done: bool, content: Option<JsString>)

  /** What handling a line can make happen, in order. */
  datatype Event =
    | Wait(ms: int)               // `await new Promise(resolve => setTimeout(resolve, delay))`
    | Deliver(fragment: JsString) // `onChunk(parsed.content)`
    | ParseErrorLogged            // `console.error('Failed to parse SSE data:', e)`

  /**
    The caller's side: the JSON parser applied to a payload, and whether
    `onChunk` throws for a given fragment.
   */
  datatype Handlers = Handlers(parse: JsString -> Payload, callbackThrows: JsString -> bool)

  /** `'data: '` */
  const DataPrefix: JsString := [0x64, 0x61, 0x74, 0x61, 0x3A, 0x20]

  /** A JavaScript string is truthy when it is not empty; an absent value is falsy. */
  predicate Truthy(content: Option<JsString>) {
    content.Some? && content.value != []
  }

  /** `if (delay)`: the wait before each main-loop callback, none when the delay is 0. */
  function Pause(delay: int): (p: Option<int>)
    ensures p.Some? <==> delay != 0
    ensures p.Some? ==> p.value == delay
  {
    if delay != 0 then Some(delay) else None
  }

  // ---------------------------------------------------------------------
  // framing (api.ts:105-108)
  // ---------------------------------------------------------------------

  /** The lines the loop processes after one read, and the new buffer. */
  datatype Framed = Framed(lines: seq<JsString>, rest: JsString)

  /** `pieces.map(line => line.trim())` */
  function TrimAll(pieces: seq<JsString>): seq<JsString> {
    seq(|pieces|, i requires 0 <= i < |pieces| => Trim(pieces[i]))
  }

  /**
    `lines = text.split('\n').map(line => line.trim()); buffer = lines.pop() || ''`:
    the trimmed pieces before the last line feed, and the trimmed unfinished
    line as the new buffer.
   */
  function Frame(text: JsString): (f: Framed)
    ensures IsTrimmed(f.rest) && forall l <- f.lines :: IsTrimmed(l)
  {
    var pieces := SplitLines(text);
    Framed(TrimAll(pieces[..|pieces| - 1]), Trim(pieces[|pieces| - 1]))
  }

  lemma TrimAllAppend(a: seq<JsString>, b: seq<JsString>)
    ensures TrimAll(a + b) == TrimAll(a) + TrimAll(b)
  {
  }

  lemma TrimAllClean(pieces: seq<JsString>)
    requires forall p <- pieces :: LineFeed !in p
    ensures forall l <- TrimAll(pieces) :: LineFeed !in l && IsTrimmed(l)
  {
    var r := TrimAll(pieces);
    forall l <- r ensures LineFeed !in l && IsTrimmed(l) {
      var i :| 0 <= i < |r| && r[i] == l;
      assert pieces[i] in pieces;
      NoLineFeedInTrim(pieces[i]);
    }
  }

  /**
    One line per line feed; every line, and the new buffer, is trimmed and
    free of line feeds.
   */
  lemma FrameShape(text: JsString)
    ensures var f := Frame(text);
      && |f.lines| == LineFeedCount(text)
      && f.rest == Trim(Unterminated(text))
      && LineFeed !in f.rest && IsTrimmed(f.rest)
      && forall l <- f.lines :: LineFeed !in l && IsTrimmed(l)
  {
    var p := SplitLines(text);
    SplitLinesCount(text);
    SplitLinesPieces(text);
    assert forall q <- p[..|p| - 1] :: q in p;
    TrimAllClean(p[..|p| - 1]);
    UnterminatedNoLineFeed(text);
    NoLineFeedInTrim(Unterminated(text));
  }

  /**
    Framing a concatenation: the lines finished in `x`, then the framing of
    the unfinished line of `x` continued by `y`.
   */
  lemma FrameAppend(x: JsString, y: JsString)
    ensures var g := Frame(Unterminated(x) + y);
      Frame(x + y) == Framed(Frame(x).lines + g.lines, g.rest)
  {
    SplitLinesAppend(x, y);
    var px := SplitLines(x);
    var pt := SplitLines(Unterminated(x) + y);
    var z := SplitLines(x + y);
    DropLastAppend(px[..|px| - 1], pt);
    TrimAllAppend(px[..|px| - 1], pt[..|pt| - 1]);
    assert Frame(x + y).lines == TrimAll(px[..|px| - 1]) + TrimAll(pt[..|pt| - 1]) by {
      assert z[..|z| - 1] == px[..|px| - 1] + pt[..|pt| - 1];
    }
    assert Frame(x + y).rest == Trim(pt[|pt| - 1]) by {
      assert z[|z| - 1] == pt[|pt| - 1];
    }
  }

  /** The decoded text of several reads, in order. */
  function Concat(chunks: seq<JsString>): JsString {
    if chunks == [] then [] else Concat(chunks[..|chunks| - 1]) + chunks[|chunks| - 1]
  }

  /**
    `while (true) { ... buffer += chunk; lines = ...; buffer = lines.pop() || ''; ... }`:
    every line the main loop processes over a sequence of reads, in order,
    and the buffer left when reading stops.
   */
  function ReadLines(chunks: seq<JsString>): (f: Framed)
    ensures IsTrimmed(f.rest) && forall l <- f.lines :: IsTrimmed(l)
  {
    if chunks == [] then Framed([], [])
    else
      var f := ReadLines(chunks[..|chunks| - 1]);
      var g := Frame(f.rest + chunks[|chunks| - 1]);
      Framed(f.lines + g.lines, g.rest)
  }

  /** One more read: the lines it finishes follow the earlier ones, and its unfinished line is the buffer. */
  lemma ReadLinesSnoc(chunks: seq<JsString>, c: JsString)
    ensures var f := ReadLines(chunks);
      var g := Frame(f.rest + c);
      ReadLines(chunks + [c]) == Framed(f.lines + g.lines, g.rest)
  {
    assert (chunks + [c])[..|chunks|] == chunks;
  }

  /** The events of the lines finished up to one more read: those before it, then those it finishes. */
  lemma ReadLinesEventsSnoc(h: Handlers, pause: Option<int>, chunks: seq<JsString>, c: JsString)
    ensures var f := ReadLines(chunks);
      var g := Frame(f.rest + c);
      && ReadLines(chunks + [c]).rest == g.rest
      && LinesEvents(h, pause, ReadLines(chunks + [c]).lines)
         == LinesEvents(h, pause, f.lines) + LinesEvents(h, pause, g.lines)
  {
    ReadLinesSnoc(chunks, c);
    var f := ReadLines(chunks);
    FlatMapAppend(EventsOf(h, pause), f.lines, Frame(f.rest + c).lines);
  }

  /**
    The buffer is always trimmed and free of line feeds, and there is one line
    per line feed of the stream, however the stream is cut into reads.
   */
  lemma {:induction false} ReadLinesShape(chunks: seq<JsString>)
    ensures var f := ReadLines(chunks);
      && |f.lines| == LineFeedCount(Concat(chunks))
      && LineFeed !in f.rest && IsTrimmed(f.rest)
  {
    if chunks != [] {
      var cs := chunks[..|chunks| - 1];
      var c := chunks[|chunks| - 1];
      var f := ReadLines(cs);
      ReadLinesShape(cs);
      FrameShape(f.rest + c);
      LineFeedCountAppend(f.rest, c);
      LineFeedCountZero(f.rest);
      LineFeedCountAppend(Concat(cs), c);
    }
  }

  // ---------------------------------------------------------------------
  // chunk boundaries
  // ---------------------------------------------------------------------

  /**
    The unfinished line carried from one read to the next keeps its content
    under `trim` when it is all white space or ends with a unit that is not
    white space.
   */
  predicate SafeTail(t: JsString) {
    AllWhiteSpace(t) || !IsWhiteSpace(t[|t| - 1])
  }

  /** No read ends inside an unfinished line next to white space. */
  predicate SafeChunking(chunks: seq<JsString>) {
    forall k | 0 <= k < |chunks| :: SafeTail(Unterminated(Concat(chunks[..k])))
  }

  /** Two texts whose pieces differ only in a first piece that trims the same frame the same. */
  lemma FrameSameFirstLine(a: JsString, b: JsString, u: JsString, v: JsString, r: seq<JsString>)
    requires SplitLines(a) == [u] + r && SplitLines(b) == [v] + r
    requires Trim(u) == Trim(v)
    ensures Frame(a) == Frame(b)
  {
    var pa := [u] + r;
    var pb := [v] + r;
    assert forall i | 0 <= i < |pa| :: Trim(pa[i]) == Trim(pb[i]);
    assert TrimAll(pa[..|pa| - 1]) == TrimAll(pb[..|pb| - 1]);
  }

  /** A read after a carried line frames as if the line had not been trimmed. */
  lemma FrameCarried(t: JsString, c: JsString)
    requires LineFeed !in t && SafeTail(t)
    ensures Frame(Trim(t) + c) == Frame(t + c)
  {
    var pc := SplitLines(c);
    NoLineFeedInTrim(t);
    SplitLinesOfPiece(Trim(t), c);
    SplitLinesOfPiece(t, c);
    TrimCarried(t, pc[0]);
    FrameSameFirstLine(Trim(t) + c, t + c, Trim(t) + pc[0], t + pc[0], pc[1..]);
  }

  /**
    When no read ends next to white space inside an unfinished line, the main
    loop processes the lines, and keeps the buffer, of the whole body read at
    once.
   */
  lemma {:induction false} ChunkingInvisible(chunks: seq<JsString>)
    requires SafeChunking(chunks)
    ensures ReadLines(chunks) == Frame(Concat(chunks))
  {
    if chunks == [] {
      SplitLinesNoLineFeed([]);
      assert TrimAll([]) == [];
      assert Trim([]) == [];
    } else {
      var cs := chunks[..|chunks| - 1];
      var c := chunks[|chunks| - 1];
      assert SafeChunking(cs) by {
        forall k | 0 <= k < |cs| ensures SafeTail(Unterminated(Concat(cs[..k]))) {
          assert cs[..k] == chunks[..k];
        }
      }
      ChunkingInvisible(cs);
      var u := Unterminated(Concat(cs));
      assert chunks[..|cs|] == cs;
      UnterminatedNoLineFeed(Concat(cs));
      FrameCarried(u, c);
      FrameAppend(Concat(cs), c);
    }
  }

  /** The whole-body framing as a single read. */
  lemma SingleRead(text: JsString)
    ensures ReadLines([text]) == Frame(text)
  {
    assert [text][..0] == [];
    assert Frame([] + text) == Frame(text) by { assert [] + text == text; }
    assert Frame(text).lines == [] + Frame(text).lines;
  }

  /** The concatenation of one read is that read. */
  lemma ConcatSingle(text: JsString)
    ensures Concat([text]) == text
  {
    assert [text][..0] == [];
    assert [] + text == text;
  }

  // ---------------------------------------------------------------------
  // one line (api.ts:111-128 in the main loop, 135-145 in the final pass)
  // ---------------------------------------------------------------------

  /** Whether a line is skipped, or the payload it hands to `JSON.parse`. */
  datatype LineKind = Ignored | Data(payload: JsString)

  /**
    `if (line.trim() === '' || !line.startsWith('data: ')) continue; ... line.slice(5)`:
    a line reaches the parser exactly when it starts with `data: `, which
    already makes it non-blank, and the payload keeps the prefix's space.
   */
  function Classify(line: JsString): (k: LineKind)
    ensures k.Data? <==> StartsWith(line, DataPrefix)
    ensures k.Data? ==> k.payload == [0x20] + line[|DataPrefix|..]
  {
    TrimShape(line);
    assert StartsWith(line, DataPrefix) ==> !IsWhiteSpace(line[0]) by {
      if StartsWith(line, DataPrefix) {
        assert line[0] == line[..|DataPrefix|][0];
      }
    }
    if Trim(line) == [] || !StartsWith(line, DataPrefix) then Ignored
    else
      assert line[5] == line[..|DataPrefix|][5];
      Data(line[5..])
  }

  /**
    The events one line causes. `pause` is the wait before a callback: the
    delay in the main loop when it is not 0, nothing in the final pass.
   */
  function LineEvents(h: Handlers, pause: Option<int>, line: JsString): (ev: seq<Event>)
    ensures !StartsWith(line, DataPrefix) ==> ev == []
    ensures |ev| <= 3
    ensures forall e <- ev :: e.Wait? ==> pause == Some(e.ms)
  {
    match Classify(line)
    case Ignored => []
    case Data(payload) =>
      match h.parse(payload)
      case Malformed => [ParseErrorLogged]
      case Parsed(done, content) =>
        if done || !Truthy(content) then []
        else
          (if pause.Some? then [Wait(pause.value)] else [])
          + [Deliver(content.value)]
          + (if h.callbackThrows(content.value) then [ParseErrorLogged] else [])
  }

  /** `for (const line of lines) { ... }` */
  function LinesEvents(h: Handlers, pause: Option<int>, lines: seq<JsString>): seq<Event> {
    FlatMap(EventsOf(h, pause), lines)
  }

  function EventsOf(h: Handlers, pause: Option<int>): JsString -> seq<Event> {
    line => LineEvents(h, pause, line)
  }

  /** Every wait in the main loop's trace is the configured pause; there is none without one. */
  lemma {:induction false} WaitsArePause(h: Handlers, pause: Option<int>, lines: seq<JsString>)
    ensures forall e <- LinesEvents(h, pause, lines) :: e.Wait? ==> pause == Some(e.ms)
    decreases |lines|
  {
    if lines != [] {
      WaitsArePause(h, pause, lines[..|lines| - 1]);
    }
  }

  /**
    `if (buffer) { for (const line of buffer.split('\n')) { ... } }`: the final
    pass over what is left in the buffer, without waits.
   */
  function FlushEvents(h: Handlers, buffer: JsString): (ev: seq<Event>)
    ensures forall e <- ev :: !e.Wait?
  {
    if buffer == [] then []
    else
      WaitsArePause(h, None, SplitLines(buffer));
      LinesEvents(h, None, SplitLines(buffer))
  }

  /**
    Everything a stream that ends normally makes happen: the main loop over
    all reads, then the final pass over the buffer.
   */
  function DecodeStream(h: Handlers, pause: Option<int>, chunks: seq<JsString>): (ev: seq<Event>)
    ensures forall e <- ev :: e.Wait? ==> pause == Some(e.ms)
  {
    var f := ReadLines(chunks);
    WaitsArePause(h, pause, f.lines);
    LinesEvents(h, pause, f.lines) + FlushEvents(h, f.rest)
  }

  // ---------------------------------------------------------------------
  // what the caller sees
  // ---------------------------------------------------------------------

  /**
    The fragment a line hands to `onChunk`, if any: the content of a data line
    whose payload parses, is not done, and has truthy content.
   */
  function LineContent(parse: JsString -> Payload, line: JsString): (c: Option<JsString>)
    ensures c.Some? ==> StartsWith(line, DataPrefix) && c.value != []
  {
    if !StartsWith(line, DataPrefix) then None
    else
      var payload := parse([0x20] + line[|DataPrefix|..]);
      if payload.Parsed? && !payload.done && Truthy(payload.content) then payload.content else None
  }

  /** The fragments of several lines, in order. */
  function Contents(parse: JsString -> Payload, lines: seq<JsString>): seq<JsString> {
    FlatMap(ContentOf(parse), lines)
  }

  function ContentOf(parse: JsString -> Payload): JsString -> seq<JsString> {
    line => var c := LineContent(parse, line); if c.Some? then [c.value] else []
  }

  /** The callbacks of `fragments`, each after one wait of `pause` when there is one. */
  function Schedule(pause: Option<int>, fragments: seq<JsString>): seq<Event> {
    FlatMap(SlotOf(pause), fragments)
  }

  function SlotOf(pause: Option<int>): JsString -> seq<Event> {
    fragment => (if pause.Some? then [Wait(pause.value)] else []) + [Deliver(fragment)]
  }

  /** The trace without its log entries. */
  function WithoutLogs(events: seq<Event>): seq<Event> {
    FlatMap(KeepUnlogged, events)
  }

  function KeepUnlogged(e: Event): seq<Event> {
    if e.ParseErrorLogged? then [] else [e]
  }

  /** The fragments a trace hands to `onChunk`, in order. */
  function Deliveries(events: seq<Event>): seq<JsString> {
    FlatMap(DeliveredBy, events)
  }

  function DeliveredBy(e: Event): seq<JsString> {
    if e.Deliver? then [e.fragment] else []
  }

  /**
    A line whose fragment reaches `onChunk` causes that fragment's slot, then
    a log entry when the callback throws; any other line causes at most a
    log entry.
   */
  lemma LineEventsShape(h: Handlers, pause: Option<int>, line: JsString)
    ensures var c := LineContent(h.parse, line);
      && (c.Some? ==>
            LineEvents(h, pause, line)
            == SlotOf(pause)(c.value) + (if h.callbackThrows(c.value) then [ParseErrorLogged] else []))
      && (c.None? ==> LineEvents(h, pause, line) in {[], [ParseErrorLogged]})
  {
  }

  /** A slot keeps its wait and its callback when the log entries are set aside. */
  lemma SlotUnlogged(pause: Option<int>, fragment: JsString, log: seq<Event>)
    requires log == [] || log == [ParseErrorLogged]
    ensures WithoutLogs(SlotOf(pause)(fragment) + log) == SlotOf(pause)(fragment)
  {
    var w := if pause.Some? then [Wait(pause.value)] else [];
    assert SlotOf(pause)(fragment) == w + [Deliver(fragment)];
    FlatMapAppend(KeepUnlogged, w + [Deliver(fragment)], log);
    FlatMapAppend(KeepUnlogged, w, [Deliver(fragment)]);
    FlatMapSingle(KeepUnlogged, Deliver(fragment));
    assert WithoutLogs(w) == w by {
      if pause.Some? { FlatMapSingle(KeepUnlogged, Wait(pause.value)); }
    }
    assert WithoutLogs(log) == [] by {
      if log != [] { FlatMapSingle(KeepUnlogged, ParseErrorLogged); }
    }
  }

  /** One line, with the log entries set aside, is the schedule of its fragment. */
  lemma LineSchedule(h: Handlers, pause: Option<int>, line: JsString)
    ensures WithoutLogs(LineEvents(h, pause, line)) == Schedule(pause, ContentOf(h.parse)(line))
  {
    var c := LineContent(h.parse, line);
    LineEventsShape(h, pause, line);
    if c.Some? {
      SlotUnlogged(pause, c.value, if h.callbackThrows(c.value) then [ParseErrorLogged] else []);
      FlatMapSingle(SlotOf(pause), c.value);
    } else {
      FlatMapSingle(KeepUnlogged, ParseErrorLogged);
    }
  }

  /**
    Callbacks happen in wire order, one for each data line whose payload
    parses, is not done and has truthy content, each after exactly one wait
    when there is a pause; everything else a line causes is a log entry. So a
    malformed payload, a done frame or a throwing callback never stops the
    lines after it, and whether callbacks throw changes only the log.
   */
  lemma {:induction false} EventsSchedule(h: Handlers, pause: Option<int>, lines: seq<JsString>)
    ensures WithoutLogs(LinesEvents(h, pause, lines)) == Schedule(pause, Contents(h.parse, lines))
    decreases |lines|
  {
    if lines != [] {
      var init := lines[..|lines| - 1];
      var line := lines[|lines| - 1];
      EventsSchedule(h, pause, init);
      FlatMapAppend(KeepUnlogged, LinesEvents(h, pause, init), LineEvents(h, pause, line));
      LineSchedule(h, pause, line);
      FlatMapAppend(SlotOf(pause), Contents(h.parse, init), ContentOf(h.parse)(line));
    }
  }

  /** Whether `onChunk` throws changes nothing but the log. */
  lemma CallbackThrowsOnlyLogged(h: Handlers, h': Handlers, pause: Option<int>, lines: seq<JsString>)
    requires h.parse == h'.parse
    ensures WithoutLogs(LinesEvents(h, pause, lines)) == WithoutLogs(LinesEvents(h', pause, lines))
  {
    EventsSchedule(h, pause, lines);
    EventsSchedule(h', pause, lines);
  }

  /** Lines that do not start with `data: ` never reach the parser and cause nothing. */
  lemma NonDataLineSilent(h: Handlers, pause: Option<int>, line: JsString)
    requires !StartsWith(line, DataPrefix)
    ensures LineEvents(h, pause, line) == []
    ensures LineContent(h.parse, line) == None
  {
  }

  /** The events of `a`, then of `line`, then of `b`. */
  lemma LinesEventsAround(h: Handlers, pause: Option<int>, a: seq<JsString>, line: JsString, b: seq<JsString>)
    ensures LinesEvents(h, pause, a + [line] + b)
      == LinesEvents(h, pause, a) + LineEvents(h, pause, line) + LinesEvents(h, pause, b)
  {
    FlatMapAppend(EventsOf(h, pause), a + [line], b);
    FlatMapAppend(EventsOf(h, pause), a, [line]);
    FlatMapSingle(EventsOf(h, pause), line);
  }

  /** A malformed payload is logged once, and the lines around it are handled as without it. */
  lemma MalformedLineIsolated(h: Handlers, pause: Option<int>, a: seq<JsString>, line: JsString, b: seq<JsString>)
    requires StartsWith(line, DataPrefix)
    requires h.parse([0x20] + line[|DataPrefix|..]) == Malformed
    ensures LinesEvents(h, pause, a + [line] + b)
      == LinesEvents(h, pause, a) + [ParseErrorLogged] + LinesEvents(h, pause, b)
  {
    LinesEventsAround(h, pause, a, line, b);
  }

  /** A done frame causes nothing, and reading goes on with the lines after it. */
  lemma DoneLineSkipped(h: Handlers, pause: Option<int>, a: seq<JsString>, line: JsString, b: seq<JsString>)
    requires StartsWith(line, DataPrefix)
    requires var p := h.parse([0x20] + line[|DataPrefix|..]); p.Parsed? && p.done
    ensures LinesEvents(h, pause, a + [line] + b) == LinesEvents(h, pause, a) + LinesEvents(h, pause, b)
  {
    LinesEventsAround(h, pause, a, line, b);
    assert LinesEvents(h, pause, a) + [] == LinesEvents(h, pause, a);
  }

  /** A line hands `onChunk` exactly its fragment, if it has one, and nothing else. */
  lemma LineDeliveries(h: Handlers, pause: Option<int>, line: JsString)
    ensures Deliveries(LineEvents(h, pause, line)) == ContentOf(h.parse)(line)
  {
    var c := LineContent(h.parse, line);
    LineEventsShape(h, pause, line);
    FlatMapSingle(DeliveredBy, ParseErrorLogged);
    if c.Some? {
      var slot := SlotOf(pause)(c.value);
      var log: seq<Event> := if h.callbackThrows(c.value) then [ParseErrorLogged] else [];
      FlatMapAppend(DeliveredBy, slot, log);
      FlatMapSingle(DeliveredBy, Deliver(c.value));
      if pause.Some? {
        FlatMapAppend(DeliveredBy, [Wait(pause.value)], [Deliver(c.value)]);
        FlatMapSingle(DeliveredBy, Wait(pause.value));
      }
    }
  }

  /**
    The final pass over a buffer without line feeds handles it as one line:
    no wait, and at most one callback.
   */
  lemma FlushSingleLine(h: Handlers, buffer: JsString)
    requires LineFeed !in buffer
    ensures FlushEvents(h, buffer) == LineEvents(h, None, buffer)
    ensures forall e <- FlushEvents(h, buffer) :: !e.Wait?
    ensures |Deliveries(FlushEvents(h, buffer))| <= 1
  {
    SplitLinesNoLineFeed(buffer);
    FlatMapSingle(EventsOf(h, None), buffer);
    if buffer == [] {
      assert !StartsWith(buffer, DataPrefix);
    }
    LineDeliveries(h, None, buffer);
  }

  /**
    However the stream is cut into reads, the final pass over the buffer
    handles it as a single line: it waits for nothing and makes at most one
    callback.
   */
  lemma FinalPassAtMostOne(h: Handlers, chunks: seq<JsString>)
    ensures var rest := ReadLines(chunks).rest;
      && FlushEvents(h, rest) == LineEvents(h, None, rest)
      && (forall e <- FlushEvents(h, rest) :: !e.Wait?)
      && |Deliveries(FlushEvents(h, rest))| <= 1
  {
    ReadLinesShape(chunks);
    FlushSingleLine(h, ReadLines(chunks).rest);
  }

  /** Chunk boundaries that respect `SafeChunking` change nothing the caller sees. */
  lemma DecodeChunkingInvisible(h: Handlers, pause: Option<int>, chunks: seq<JsString>)
    requires SafeChunking(chunks)
    ensures DecodeStream(h, pause, chunks) == DecodeStream(h, pause, [Concat(chunks)])
  {
    ChunkingInvisible(chunks);
    SingleRead(Concat(chunks));
  }

  /** A finished trimmed line frames as that line, with nothing left over. */
  lemma FrameFinishedLine(line: JsString)
    requires LineFeed !in line && IsTrimmed(line)
    ensures Frame(line + [LineFeed]) == Framed([line], [])
  {
    assert line + [LineFeed] == line + [LineFeed] + [];
    SplitLinesCons(line, []);
    SplitLinesNoLineFeed([]);
    TrimmedIsFixed(line);
    assert TrimAll([line]) == [line];
    assert Trim([]) == [] by { TrimmedIsFixed([]); }
  }

  /** Text without a line feed frames as no line, and the trimmed text left over. */
  lemma FrameUnfinished(t: JsString)
    requires LineFeed !in t
    ensures Frame(t) == Framed([], Trim(t))
  {
    SplitLinesNoLineFeed(t);
    assert TrimAll([]) == [];
  }

  /** `{"content":"`, which opens the JSON object of the examples below. */
  const ContentOpen: JsString := [0x7B, 0x22, 0x63, 0x6F, 0x6E, 0x74, 0x65, 0x6E, 0x74, 0x22, 0x3A, 0x22]

  /** `"}`, which closes it. */
  const ContentClose: JsString := [0x22, 0x7D]

  /** The data line `data: {"content":"<text>"}`. */
  function ContentLine(text: JsString): JsString {
    DataPrefix + ContentOpen + text + ContentClose
  }

  /** The payload ` {"content":"<text>"}` that `line.slice(5)` gives for that line. */
  function ContentPayload(text: JsString): JsString {
    [0x20] + ContentOpen + text + ContentClose
  }

  /** A content line is a finished, trimmed data line whose payload is `ContentPayload(text)`. */
  lemma ContentLineShape(text: JsString)
    requires LineFeed !in text
    ensures var line := ContentLine(text);
      && StartsWith(line, DataPrefix)
      && LineFeed !in line
      && IsTrimmed(line)
      && [0x20] + line[|DataPrefix|..] == ContentPayload(text)
  {
    var line := ContentLine(text);
    assert line == DataPrefix + (ContentOpen + text + ContentClose);
    assert line[|DataPrefix|..] == ContentOpen + text + ContentClose;
    assert line[..|DataPrefix|] == DataPrefix;
    assert line[|line| - 1] == 0x7D;
  }

  /** A content line in one read, with its line feed: that line, and nothing left over. */
  lemma OneReadFrame(text: JsString)
    requires LineFeed !in text
    ensures ReadLines([ContentLine(text) + [LineFeed]]) == Framed([ContentLine(text)], [])
  {
    ContentLineShape(text);
    SingleRead(ContentLine(text) + [LineFeed]);
    FrameFinishedLine(ContentLine(text));
  }

  /** The first read `data: {"content":"a `: no line yet, and the buffer `data: {"content":"a`. */
  lemma FirstReadFrame()
    ensures ReadLines([DataPrefix + ContentOpen + [0x61, 0x20]]) == Framed([], DataPrefix + ContentOpen + [0x61])
  {
    var kept: JsString := DataPrefix + ContentOpen + [0x61];
    var first: JsString := kept + [0x20];
    assert first == DataPrefix + ContentOpen + [0x61, 0x20];
    assert Trim(first) == kept by {
      assert first[0..|kept|] == kept;
      assert SpaceBetween(first, |kept|, |first|);
      TrimIs(first, 0, kept);
    }
    assert LineFeed !in first;
    SingleRead(first);
    FrameUnfinished(first);
  }

  /**
    The line `data: {"content":"a b"}` in two reads, `data: {"content":"a `
    then `b"}\n`: the main loop sees `data: {"content":"ab"}`.
   */
  lemma TwoReadsFrame()
    ensures ReadLines([DataPrefix + ContentOpen + [0x61, 0x20], [0x62] + ContentClose + [LineFeed]])
      == Framed([ContentLine([0x61, 0x62])], [])
  {
    var chunks: seq<JsString> := [DataPrefix + ContentOpen + [0x61, 0x20], [0x62] + ContentClose + [LineFeed]];
    var joined := ContentLine([0x61, 0x62]);
    assert chunks[..1] == [DataPrefix + ContentOpen + [0x61, 0x20]];
    FirstReadFrame();
    assert DataPrefix + ContentOpen + [0x61] + ([0x62] + ContentClose + [LineFeed]) == joined + [LineFeed];
    ContentLineShape([0x61, 0x62]);
    FrameFinishedLine(joined);
  }

  /** A stream whose main loop sees one line and keeps no buffer causes that line's events. */
  lemma DecodeOneLine(h: Handlers, pause: Option<int>, chunks: seq<JsString>, line: JsString)
    requires ReadLines(chunks) == Framed([line], [])
    ensures DecodeStream(h, pause, chunks) == LineEvents(h, pause, line)
  {
    FlatMapSingle(EventsOf(h, pause), line);
  }

  /** A data line whose payload parses to truthy, not-done content delivers exactly that content. */
  lemma DeliverLine(h: Handlers, line: JsString, content: JsString)
    requires StartsWith(line, DataPrefix)
    requires h.parse([0x20] + line[|DataPrefix|..]) == Parsed(false, Some(content))
    requires content != [] && !h.callbackThrows(content)
    ensures LineEvents(h, None, line) == [Deliver(content)]
  {
  }

  /**
    A read that ends with white space inside an unfinished line loses that
    white space: `data: {"content":"a ` followed by `b"}\n` reaches the parser
    as ` {"content":"ab"}`, and delivers `ab`.
   */
  lemma ChunkBoundaryJoinsWords(h: Handlers)
    requires h.parse(ContentPayload([0x61, 0x62])) == Parsed(false, Some([0x61, 0x62]))
    requires !h.callbackThrows([0x61, 0x62])
    ensures DecodeStream(h, None, [DataPrefix + ContentOpen + [0x61, 0x20], [0x62] + ContentClose + [LineFeed]])
      == [Deliver([0x61, 0x62])]
  {
    var joined := ContentLine([0x61, 0x62]);
    TwoReadsFrame();
    DecodeOneLine(h, None, [DataPrefix + ContentOpen + [0x61, 0x20], [0x62] + ContentClose + [LineFeed]], joined);
    ContentLineShape([0x61, 0x62]);
    DeliverLine(h, joined, [0x61, 0x62]);
  }

  /** The same line `data: {"content":"a b"}\n` in one read delivers `a b`. */
  lemma SingleReadKeepsSpace(h: Handlers)
    requires h.parse(ContentPayload([0x61, 0x20, 0x62])) == Parsed(false, Some([0x61, 0x20, 0x62]))
    requires !h.callbackThrows([0x61, 0x20, 0x62])
    ensures DecodeStream(h, None, [ContentLine([0x61, 0x20, 0x62]) + [LineFeed]]) == [Deliver([0x61, 0x20, 0x62])]
  {
    var spaced := ContentLine([0x61, 0x20, 0x62]);
    OneReadFrame([0x61, 0x20, 0x62]);
    DecodeOneLine(h, None, [spaced + [LineFeed]], spaced);
    ContentLineShape([0x61, 0x20, 0x62]);
    DeliverLine(h, spaced, [0x61, 0x20, 0x62]);
  }

  /**
    Where the reads are cut matters: the two reads of `ChunkBoundaryJoinsWords`
    and the one read of their concatenation hand `onChunk` different text.
   */
  lemma ChunkBoundaryMatters(h: Handlers)
    requires h.parse(ContentPayload([0x61, 0x62])) == Parsed(false, Some([0x61, 0x62]))
    requires !h.callbackThrows([0x61, 0x62])
    requires h.parse(ContentPayload([0x61, 0x20, 0x62])) == Parsed(false, Some([0x61, 0x20, 0x62]))
    requires !h.callbackThrows([0x61, 0x20, 0x62])
    ensures var chunks := [DataPrefix + ContentOpen + [0x61, 0x20], [0x62] + ContentClose + [LineFeed]];
      DecodeStream(h, None, chunks) != DecodeStream(h, None, [Concat(chunks)])
  {
    var chunks := [DataPrefix + ContentOpen + [0x61, 0x20], [0x62] + ContentClose + [LineFeed]];
    assert chunks[..1][..0] == [];
    assert Concat(chunks[..1]) == chunks[0];
    assert Concat(chunks) == chunks[0] + chunks[1];
    assert chunks[0] + chunks[1] == ContentLine([0x61, 0x20, 0x62]) + [LineFeed];
    ChunkBoundaryJoinsWords(h);
    SingleReadKeepsSpace(h);
    assert [Deliver([0x61, 0x62])] != [Deliver([0x61, 0x20, 0x62])] by {
      assert |[0x61, 0x62]| != |[0x61, 0x20, 0x62]|;
    }
  }
}
