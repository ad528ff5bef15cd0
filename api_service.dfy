/**
  `ApiService` of the chat widget: the error mapping shared by its requests,
  the error path of `sendMessage`, and `streamMessage`, which reads a
  server-sent-event body chunk by chunk and hands each content fragment to
  the caller's `onChunk`. What the loop does with the text it reads is
  defined in module StreamDecoder; this module holds the reader, the loop
  and its error path.
 */
module ApiService {
  import opened Wrappers
  import opened JsText
  import opened Sequences
  import opened StreamDecoder

  // ---------------------------------------------------------------------
  // errors (api.ts:38-58)
  // ---------------------------------------------------------------------

  /** `error.response`: the status of the answer and its body, `None` when absent. */
  datatype ErrorResponse = ErrorResponse(status: int, data: Option<JsString>)

  /**
    The parts of a failed request that `handleError` reads: the server's
    answer if there was one, whether a request went out, and the message.
   */
  datatype RequestError = RequestError(response: Option<ErrorResponse>, requestSent: bool, message: JsString)

  /** `{ status, message }`, the value the returned promise rejects with. */
  datatype Rejection = Rejection(status: int, message: JsString)

  /** An `Error` thrown by the code itself or by `fetch`: no response and no request. */
  function PlainError(message: JsString): RequestError {
    RequestError(None, false, message)
  }

  const ServerError: JsString := Ascii("Server error")
  const NetworkError: JsString := Ascii("Network error")

  /**
    `handleError`: the server's status and body when it answered, falling
    back to `Server error` for an empty body; status 0 with `Network error`
    when a request went out but nothing came back; status 0 and the error's
    own message when the request could not be made.
   */
  function HandleError(e: RequestError): (r: Rejection)
    ensures e.response.Some? ==> r.status == e.response.value.status
    ensures e.response.None? ==> r.status == 0
    ensures e.response.Some? ==> r.message != [] && (r.message == ServerError || Some(r.message) == e.response.value.data)
    ensures e.response.None? && e.requestSent ==> r.message == NetworkError
    ensures e.response.None? && !e.requestSent ==> r.message == e.message
  {
    match e.response
    case Some(answer) =>
      Rejection(answer.status, if Truthy(answer.data) then answer.data.value else ServerError)
    case None =>
      if e.requestSent then Rejection(0, NetworkError) else Rejection(0, e.message)
  }

  /** A rejection carries an empty message only when the error being mapped had one and no response. */
  lemma RejectionMessageNonEmpty(e: RequestError)
    ensures HandleError(e).message == [] <==> e.response.None? && !e.requestSent && e.message == []
  {
  }

  /** The server's own non-empty body is what the caller reads; an empty one becomes `Server error`. */
  lemma ServerBodyPreferred(e: RequestError)
    requires e.response.Some?
    ensures Truthy(e.response.value.data) ==> HandleError(e).message == e.response.value.data.value
    ensures !Truthy(e.response.value.data) ==> HandleError(e).message == ServerError
  {
  }

  /** Status 0 tells that the server never answered, unless it answered with status 0 itself. */
  lemma StatusZeroMeansNoAnswer(e: RequestError)
    requires e.response.Some? ==> e.response.value.status != 0
    ensures HandleError(e).status == 0 <==> e.response.None?
  {
  }

  /**
    `sendMessage`: the response data when the post succeeds, and the
    rejection `handleError` makes of the failure otherwise. The post itself
    is a parameter.
   */
  function SendMessage<D>(post: Result<D, RequestError>): (r: Result<D, Rejection>)
    ensures r.Ok? <==> post.Ok?
    ensures r.Ok? ==> r.value == post.value
    ensures r.Err? ==> r.error == HandleError(post.error)
  {
    match post
    case Ok(data) => Ok(data)
    case Err(e) => Err(HandleError(e))
  }

  /** A failed post whose server answered rejects with that status and never with status 0 for free. */
  lemma SendMessageKeepsStatus<D>(post: Result<D, RequestError>)
    requires post.Err? && post.error.response.Some?
    ensures SendMessage(post).Err?
    ensures SendMessage(post).error.status == post.error.response.value.status
    ensures SendMessage(post).error.message != []
  {
  }

  // ---------------------------------------------------------------------
  // `${response.status}`
  // ---------------------------------------------------------------------

  predicate IsDigit(c: CodeUnit) {
    0x30 <= c <= 0x39
  }

  /** The decimal digits of a status, as a template literal prints a non-negative integer. */
  function Decimal(n: nat): (s: JsString)
    ensures |s| >= 1
    ensures forall i | 0 <= i < |s| :: IsDigit(s[i])
  {
    if n < 10 then [(0x30 + n) as CodeUnit]
    else Decimal(n / 10) + [(0x30 + n % 10) as CodeUnit]
  }

  /** The number a string of decimal digits denotes. */
  function DecimalValue(s: JsString): nat
    requires forall i | 0 <= i < |s| :: IsDigit(s[i])
  {
    if s == [] then 0
    else
      assert IsDigit(s[|s| - 1]);
      DecimalValue(s[..|s| - 1]) * 10 + (s[|s| - 1] as int - 0x30)
  }

  /** Printing a status and reading it back gives the status. */
  lemma {:induction false} DecimalRoundTrip(n: nat)
    ensures DecimalValue(Decimal(n)) == n
  {
    if n >= 10 {
      DecimalRoundTrip(n / 10);
      var s := Decimal(n);
      assert s[..|s| - 1] == Decimal(n / 10);
    }
  }

  const HttpErrorPrefix: JsString := Ascii("HTTP error! status: ")
  const BodyNullMessage: JsString := Ascii("Response body is null")

  /** `` `HTTP error! status: ${response.status}` `` */
  function HttpErrorMessage(status: nat): (m: JsString)
    ensures |m| > |HttpErrorPrefix| && m[..|HttpErrorPrefix|] == HttpErrorPrefix
  {
    HttpErrorPrefix + Decimal(status)
  }

  /** Different statuses give different messages: the status can be read back from the message. */
  lemma HttpErrorStatusRecoverable(status: nat)
    ensures var tail := HttpErrorMessage(status)[|HttpErrorPrefix|..];
      (forall i | 0 <= i < |tail| :: IsDigit(tail[i])) && DecimalValue(tail) == status
  {
    assert HttpErrorMessage(status)[|HttpErrorPrefix|..] == Decimal(status);
    DecimalRoundTrip(status);
  }

  lemma HttpErrorMessageInjective(a: nat, b: nat)
    requires HttpErrorMessage(a) == HttpErrorMessage(b)
    ensures a == b
  {
    HttpErrorStatusRecoverable(a);
    HttpErrorStatusRecoverable(b);
  }

  // ---------------------------------------------------------------------
  // the response body (api.ts:93, 102, 149)
  // ---------------------------------------------------------------------

  /** How the body ends once its chunks are read: normally, or with the read rejecting. */
  datatype BodyEnd = Finished | Broken(message: JsString)

  /** `await reader.read()`: a chunk of text, `done`, or a rejection. */
  datatype ReadResult = Chunk(text: JsString) | Done | ReadFailed(message: JsString)

  /**
    `response.body.getReader()`, with each chunk already decoded by the
    `TextDecoder`: the chunks the server sends, how the body ends, how far
    reading has got, and how often the lock was released.
   */
  class BodyReader {
    const chunks: seq<JsString>
    const end: BodyEnd
    var position: nat
    var releases: nat

    predicate Valid()
      reads this
    {
      position <= |chunks|
    }

    /** The reader holds the lock on the body until `releaseLock`. */
    predicate Locked()
      reads this
    {
      releases == 0
    }

    constructor (chunks: seq<JsString>, end: BodyEnd)
      ensures this.chunks == chunks && this.end == end
      ensures position == 0 && releases == 0
      ensures Valid() && Locked()
    {
      this.chunks := chunks;
      this.end := end;
      position := 0;
      releases := 0;
    }

    /** `reader.read()`: the next chunk, and once they are used up, how the body ends. */
    method Read() returns (r: ReadResult)
      requires Valid() && Locked()
      modifies this
      ensures Valid() && Locked()
      ensures old(position) < |chunks| ==> r == Chunk(chunks[old(position)]) && position == old(position) + 1
      ensures old(position) == |chunks| ==> position == old(position)
      ensures old(position) == |chunks| && end == Finished ==> r == Done
      ensures old(position) == |chunks| && end.Broken? ==> r == ReadFailed(end.message)
    {
      if position < |chunks| {
        r := Chunk(chunks[position]);
        position := position + 1;
      } else if end == Finished {
        r := Done;
      } else {
        r := ReadFailed(end.message);
      }
    }

    /** `reader.releaseLock()` */
    method ReleaseLock()
      modifies this
      ensures releases == old(releases) + 1 && position == old(position)
    {
      releases := releases + 1;
    }
  }

  /**
    What `await fetch(...)` gives: a rejection (the network failed), or a
    response with its status and, when it has one, its body's reader.
   */
  datatype FetchOutcome =
    | FetchRejected(message: JsString)
    | Response(status: nat, body: Option<BodyReader>)

  /** `response.ok`: the status is in the range 200-299. */
  predicate IsOkStatus(status: nat) {
    200 <= status <= 299
  }

  /** `{ delay = 100 }`: the delay the caller passed, or 100 when it passed none. */
  function EffectiveDelay(delay: Option<int>): (d: int)
    ensures delay.None? ==> d == 100
    ensures delay.Some? ==> d == delay.value
  {
    if delay.Some? then delay.value else 100
  }

  // ---------------------------------------------------------------------
  // streamMessage (api.ts:71-154)
  // ---------------------------------------------------------------------

  /**
    `for (const line of lines) { ... }`: handles the lines in order, appending
    what each one causes.
   */
  method HandleLines(h: Handlers, pause: Option<int>, lines: seq<JsString>) returns (events: seq<Event>)
    ensures events == LinesEvents(h, pause, lines)
  {
    events := [];
    for i := 0 to |lines|
      invariant events == LinesEvents(h, pause, lines[..i])
    {
      assert lines[..i + 1][..i] == lines[..i];
      events := events + LineEvents(h, pause, lines[i]);
    }
    assert lines[..|lines|] == lines;
  }

  /**
    `buffer += ...; const lines = ...; buffer = lines.pop() || ''; for (const line of lines) { ... }`:
    one read of `text` after the reads `read`, whose unfinished line is
    `buffer`. The new buffer is the unfinished line of all the reads, and
    `events` carries the events of the lines already handled on to those of
    every line the reads have finished.
   */
  method HandleRead(h: Handlers, pause: Option<int>, ghost read: seq<JsString>, buffer: JsString, text: JsString)
      returns (rest: JsString, events: seq<Event>)
    requires buffer == ReadLines(read).rest
    ensures rest == ReadLines(read + [text]).rest
    ensures LinesEvents(h, pause, ReadLines(read).lines) + events
      == LinesEvents(h, pause, ReadLines(read + [text]).lines)
  {
    var framed := Frame(buffer + text);
    rest := framed.rest;
    events := HandleLines(h, pause, framed.lines);
    ReadLinesEventsSnoc(h, pause, read, text);
  }

  /**
    `while (true) { const { done, value } = await reader.read(); if (done) break; ... }`:
    reads every remaining chunk, handling the lines each read finishes.
    `trace` holds the events of those lines, `buffer` the unfinished line
    left at the end, and `failure` the message of a read that rejected.
   */
  method ReadAll(reader: BodyReader, h: Handlers, pause: Option<int>)
      returns (trace: seq<Event>, buffer: JsString, failure: Option<JsString>)
    requires reader.Valid() && reader.Locked()
    modifies reader
    ensures reader.Valid() && reader.Locked() && reader.position == |reader.chunks|
    ensures var f := ReadLines(reader.chunks[old(reader.position)..]);
      buffer == f.rest && trace == LinesEvents(h, pause, f.lines)
    ensures failure == (if reader.end.Broken? then Some(reader.end.message) else None)
  {
    ghost var start := reader.position;
    trace, buffer := [], [];
    while true
      invariant reader.Valid() && reader.Locked() && start <= reader.position
      invariant ReadLines(reader.chunks[start..reader.position]).rest == buffer
      invariant trace == LinesEvents(h, pause, ReadLines(reader.chunks[start..reader.position]).lines)
      decreases |reader.chunks| - reader.position
    {
      ghost var read := reader.chunks[start..reader.position];
      ghost var p := reader.position;
      var r := reader.Read();
      if r.Done? {
        failure := None;
        break;
      }
      if r.ReadFailed? {
        failure := Some(r.message);
        break;
      }
      SliceSnoc(reader.chunks, start, p);
      assert reader.chunks[start..reader.position] == read + [r.text];
      var events;
      buffer, events := HandleRead(h, pause, read, buffer, r.text);
      trace := trace + events;
    }
    SliceToEnd(reader.chunks, start);
  }

  /** The reader of a response that has a body, or `null`. */
  function BodyOf(response: FetchOutcome): set<BodyReader> {
    if response.Response? && response.body.Some? then {response.body.value} else {}
  }

  /**
    `streamMessage(content, onChunk, { delay })`, once the request is made.
    `response` is what `fetch` gave; `trace` is every wait, callback and
    log entry in order; `outcome` is how the returned promise settles.

    - A rejected fetch, a status outside 200-299 and a missing body all
      reject with status 0 and the error's message, and read nothing.
    - Otherwise every chunk is read; a body that ends normally causes the
      events of `DecodeStream` over the chunks and resolves; a read that
      rejects causes the events of the lines finished before it, skips the
      final pass and rejects with status 0 and the read's message.
    - Either way the reader's lock is released exactly once.
   */
  method StreamMessage(response: FetchOutcome, h: Handlers, delay: Option<int>)
      returns (trace: seq<Event>, outcome: Result<(), Rejection>)
    requires response.Response? && response.body.Some? ==>
      response.body.value.Valid() && response.body.value.Locked()
    modifies BodyOf(response)
    ensures response.FetchRejected? ==>
      trace == [] && outcome == Err(HandleError(PlainError(response.message)))
    ensures response.Response? && !IsOkStatus(response.status) ==>
      && trace == []
      && outcome == Err(Rejection(0, HttpErrorMessage(response.status)))
      && (response.body.Some? ==>
            && response.body.value.position == old(response.body.value.position)
            && response.body.value.releases == old(response.body.value.releases))
    ensures response.Response? && IsOkStatus(response.status) && response.body.None? ==>
      trace == [] && outcome == Err(Rejection(0, BodyNullMessage))
    ensures response.Response? && IsOkStatus(response.status) && response.body.Some? ==>
      var reader := response.body.value;
      var read := reader.chunks[old(reader.position)..];
      && reader.position == |reader.chunks|
      && reader.releases == 1
      && (reader.end == Finished ==>
            trace == DecodeStream(h, Pause(EffectiveDelay(delay)), read) && outcome == Ok(()))
      && (reader.end.Broken? ==>
            trace == LinesEvents(h, Pause(EffectiveDelay(delay)), ReadLines(read).lines)
            && outcome == Err(Rejection(0, reader.end.message)))
  {
    trace := [];
    if response.FetchRejected? {
      outcome := Err(HandleError(PlainError(response.message)));
      return;
    }
    if !IsOkStatus(response.status) {
      outcome := Err(HandleError(PlainError(HttpErrorMessage(response.status))));
      return;
    }
    if response.body.None? {
      outcome := Err(HandleError(PlainError(BodyNullMessage)));
      return;
    }
    var reader := response.body.value;
    var pause := Pause(EffectiveDelay(delay));
    var buffer, failure;
    trace, buffer, failure := ReadAll(reader, h, pause);
    if failure.None? && buffer != [] {
      var events := HandleLines(h, None, SplitLines(buffer));
      trace := trace + events;
    }
    reader.ReleaseLock();
    if failure.Some? {
      outcome := Err(HandleError(PlainError(failure.value)));
    } else {
      outcome := Ok(());
    }
  }
}
