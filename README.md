# Chat widget streaming client and right-to-left detector, in Dafny

This project models two parts of the embeddable chat widget's front end.

**`ApiService`** (`awaqiai-widget/src/services/api.ts`):

- `streamMessage` posts a message. It reads the server-sent-event response body chunk by chunk. Each chunk's decoded text is appended to a buffer, and the buffer is cut into lines on `'\n'`. Every line is trimmed, and the unfinished last line is carried to the next read.
- A line is used only when it starts with `data: `. Its payload is `line.slice(5)`, parsed as JSON. A frame with a truthy `done` is skipped. A frame with truthy `content` is handed to `onChunk`, after a wait of `delay` milliseconds when `delay` is truthy (default 100).
- A parse failure, or an exception from `onChunk`, is logged and skipped.
- When the body ends, what is left in the buffer gets one final pass, with no wait.
- The reader's lock is released on every path.
- Every failure (a rejected fetch, a status outside 200-299, a missing body, a failed read) is rethrown through `handleError`.
- `handleError` maps a failed request to `{ status, message }`. `sendMessage` uses the same mapping on its error path.

**`isRTLText`** (`awaqiai-widget/src/lib/utils.ts`) decides whether a message is laid out right to left. Either of two tests makes it right to left:

- one of the first ten non-white-space code units is Hebrew or Arabic;
- more than 30% of the first hundred code units are in the right-to-left ranges.

The model is spread over these modules:

- `Wrappers`: `Option` and `Result`.
- `Sequences`: `FlatMap` and a few facts about slices.
- `JsText` (`js_text.dfy`): JavaScript strings as sequences of UTF-16 code units. It defines the white space that `trim` and `\s` use, following sections 12.2 and 12.3 of ECMA-262. It also defines `String.prototype.trim` and `split('\n')`, each with its characterising lemmas.
- `StreamDecoder` (`stream_decoder.dfy`): the pure part of `streamMessage`:
  - how reads become lines (`Frame`, `ReadLines`);
  - which lines reach the parser (`Classify`);
  - what each line makes happen, as a trace of `Wait`, `Deliver` and `ParseErrorLogged` events (`LineEvents`, `DecodeStream`).
- `ApiService` (`api_service.dfy`):
  - `HandleError` and `SendMessage`;
  - the body reader, as a class with a read position and a release counter;
  - the imperative `StreamMessage`, whose loops are proved against the `StreamDecoder` functions.
- `Utils` (`utils.dfy`): the method `IsRTLText`, whose counting loop is proved against the specification `RtlVerdict`, and lemmas about what the verdict means.

`JSON.parse` and `onChunk` are parameters (`Handlers`). So is what `fetch` returns (`FetchOutcome`) and what `axios` posts (`SendMessage`'s argument). A body is the sequence of its already-decoded chunks, plus how it ends.

Some behaviours of the code are easy to misread:

- **Status of a non-2xx response.** The stream's error carries status 0, and the status appears only inside the message. The status is not carried as a number.
- **A rejected fetch.** It reports the error's own message, not `Network error`.
- **Reading during a wait.** Reading pauses while a wait is awaited. It does not go on underneath.
- **Which delays wait.** Any non-zero delay waits, negative ones included. It is not only positive delays.
- **The parsed payload.** It keeps the space that follows `data:`.

## Model

| member | source | states |
|---|---|---|
| JsText.TrimShape | awaqiai-widget/src/services/api.ts:107 | `trim` keeps a slice of the input with only white space before and after it, and returns the empty string exactly when the input is all white space |
| JsText.TrimIs | awaqiai-widget/src/services/api.ts:107 | any slice that is trimmed and has only white space around it is the result of `trim`, so the characterisation is unique |
| JsText.TrimmedIsFixed | awaqiai-widget/src/services/api.ts:107 | trimming a string that is already trimmed changes nothing |
| JsText.TrimCarried | awaqiai-widget/src/services/api.ts:106-108 | trimming the carried line before the next read is appended changes nothing when the line is all white space or ends with a unit that is not white space |
| JsText.TrimCarriedLosesInnerSpace | awaqiai-widget/src/services/api.ts:106-108 | a carried line that ends with white space after content loses that white space when it is continued by more content |
| JsText.SplitLinesShape | awaqiai-widget/src/services/api.ts:107 | `split('\n')` gives one piece more than there are line feeds, no piece holds a line feed, and joining the pieces with line feeds gives back the input |
| JsText.SplitLinesAppend | awaqiai-widget/src/services/api.ts:106-107 | splitting a concatenation gives the finished pieces of the first part, then the split of its unfinished piece continued by the second part |
| JsText.SplitLinesNoLineFeed | awaqiai-widget/src/services/api.ts:134 | a string without line feeds splits into itself alone |
| JsText.Trim | awaqiai-widget/src/services/api.ts:107 | the result is no longer than the input and neither starts nor ends with white space |
| JsText.SplitLines | awaqiai-widget/src/services/api.ts:107 | `split('\n')` always gives at least one piece, also for the empty string |
| StreamDecoder.Frame | awaqiai-widget/src/services/api.ts:106-108 | after a read, the processed lines and the new buffer are all trimmed |
| StreamDecoder.ReadLines | awaqiai-widget/src/services/api.ts:101-108 | over any sequence of reads, the processed lines and the buffer stay trimmed |
| StreamDecoder.FrameShape | awaqiai-widget/src/services/api.ts:106-108 | after a read there is one processed line per line feed, the new buffer is the trimmed last segment, and the lines and the buffer are all trimmed and free of line feeds |
| StreamDecoder.FrameAppend | awaqiai-widget/src/services/api.ts:106-108 | framing a concatenation gives the lines finished in the first part, then the framing of its unfinished line continued by the second part |
| StreamDecoder.ReadLinesShape | awaqiai-widget/src/services/api.ts:101-108 | over any sequence of reads the buffer stays trimmed and free of line feeds, and there is exactly one processed line per line feed of the whole body |
| StreamDecoder.ReadLinesSnoc | awaqiai-widget/src/services/api.ts:101-108 | one more read appends the lines it finishes to those already processed, and its unfinished line becomes the buffer |
| StreamDecoder.ReadLinesEventsSnoc | awaqiai-widget/src/services/api.ts:101-129 | one more read extends the events of the lines already processed by the events of the lines it finishes |
| StreamDecoder.FrameCarried | awaqiai-widget/src/services/api.ts:106-108 | a read after a carried line whose end is safe frames as if the line had not been trimmed |
| StreamDecoder.ChunkingInvisible | awaqiai-widget/src/services/api.ts:101-108 | when no read ends next to white space inside an unfinished line, the main loop processes the same lines and keeps the same buffer as for the whole body read at once |
| StreamDecoder.DecodeChunkingInvisible | awaqiai-widget/src/services/api.ts:101-147 | under the same condition, the waits, callbacks and log entries of the whole stream are those of the whole body read at once |
| StreamDecoder.ChunkBoundaryJoinsWords | awaqiai-widget/src/services/api.ts:106-108 | the reads `data: {"content":"a ` then `b"}\n` hand the parser ` {"content":"ab"}`; when it reads that as content `ab`, the stream delivers `ab` alone: the space at the read boundary is lost |
| StreamDecoder.SingleReadKeepsSpace | awaqiai-widget/src/services/api.ts:106-108 | the same line `data: {"content":"a b"}\n` in one read delivers `a b` alone, when the parser reads its payload as content `a b` |
| StreamDecoder.ChunkBoundaryMatters | awaqiai-widget/src/services/api.ts:106-108 | with such a parser, those two reads and the one read of their concatenation give different callbacks |
| StreamDecoder.Classify | awaqiai-widget/src/services/api.ts:112-114 | a line reaches the parser exactly when it starts with `data: `, and the parsed string is the line without its first five units, which keeps the prefix's space |
| StreamDecoder.LineContent | awaqiai-widget/src/services/api.ts:112-120 | a line has a fragment for `onChunk` only when it starts with `data: `, and that fragment is not empty |
| StreamDecoder.LineEvents | awaqiai-widget/src/services/api.ts:111-128 | a line that does not start with `data: ` causes nothing; any line causes at most three events; every wait lasts the configured delay, and there is none without one |
| StreamDecoder.FlushEvents | awaqiai-widget/src/services/api.ts:132-147 | the final pass over the buffer never waits |
| StreamDecoder.DecodeStream | awaqiai-widget/src/services/api.ts:101-147 | every wait of a whole stream lasts the configured delay, and there is none when the delay is 0 |
| StreamDecoder.NonDataLineSilent | awaqiai-widget/src/services/api.ts:112 | a line that does not start with `data: ` causes no wait, no callback and no log entry |
| StreamDecoder.Pause | awaqiai-widget/src/services/api.ts:121-123 | a wait happens before a callback exactly when the delay is not 0, and it lasts the delay |
| StreamDecoder.LineEventsShape | awaqiai-widget/src/services/api.ts:115-128 | a line with deliverable content causes its optional wait and its callback, then a log entry when the callback throws; any other line causes at most one log entry |
| StreamDecoder.LineSchedule | awaqiai-widget/src/services/api.ts:117-125 | without the log entries, a line causes nothing when its frame is malformed, done or has no truthy content, and otherwise one callback with that content after at most one wait |
| StreamDecoder.EventsSchedule | awaqiai-widget/src/services/api.ts:111-129 | without the log entries, the lines cause one callback per deliverable fragment in wire order, each after exactly one wait when the delay is not 0 |
| StreamDecoder.CallbackThrowsOnlyLogged | awaqiai-widget/src/services/api.ts:115-128 | whether `onChunk` throws changes nothing but the log entries |
| StreamDecoder.MalformedLineIsolated | awaqiai-widget/src/services/api.ts:126-128 | a malformed frame adds one log entry, and the lines around it are handled as if it were absent |
| StreamDecoder.DoneLineSkipped | awaqiai-widget/src/services/api.ts:117 | a `done` frame causes nothing and does not stop the lines after it |
| StreamDecoder.LineDeliveries | awaqiai-widget/src/services/api.ts:111-125 | a line hands `onChunk` exactly its own fragment, if it has one, and nothing else, whatever the delay and whether the callback throws |
| StreamDecoder.WaitsArePause | awaqiai-widget/src/services/api.ts:119-123 | every wait of the main loop lasts the configured delay, and there is none when the delay is 0 |
| StreamDecoder.FlushSingleLine | awaqiai-widget/src/services/api.ts:133-147 | the final pass over a buffer without line feeds causes exactly the events of that one line, with no wait and at most one callback |
| StreamDecoder.FinalPassAtMostOne | awaqiai-widget/src/services/api.ts:132-147 | whatever the reads, the final pass causes exactly the events of the buffer as one line, with no wait and at most one callback |
| ApiService.HandleError | awaqiai-widget/src/services/api.ts:38-58 | with a response: its status, and its non-empty body or `Server error`; with a request but no response: status 0 and `Network error`; otherwise: status 0 and the error's own message |
| ApiService.RejectionMessageNonEmpty | awaqiai-widget/src/services/api.ts:38-58 | the message is empty exactly when the error has no response and no request and its own message is empty |
| ApiService.ServerBodyPreferred | awaqiai-widget/src/services/api.ts:41-44 | a non-empty server body is the message, and an empty or absent one becomes `Server error` |
| ApiService.StatusZeroMeansNoAnswer | awaqiai-widget/src/services/api.ts:38-58 | when the server never answers with status 0, status 0 means exactly that there was no response |
| ApiService.SendMessage | awaqiai-widget/src/services/api.ts:60-69 | a successful post resolves with its data, and a failed one rejects with what `handleError` makes of the failure |
| ApiService.SendMessageKeepsStatus | awaqiai-widget/src/services/api.ts:66-68 | a failed post that got a response rejects with the response's status and a non-empty message |
| ApiService.Decimal | awaqiai-widget/src/services/api.ts:89 | the status prints as a non-empty string of decimal digits |
| ApiService.DecimalRoundTrip | awaqiai-widget/src/services/api.ts:89 | the printed status reads back as the status |
| ApiService.HttpErrorMessage | awaqiai-widget/src/services/api.ts:89 | the message starts with `HTTP error! status: ` and is followed by the status |
| ApiService.HttpErrorStatusRecoverable | awaqiai-widget/src/services/api.ts:89 | the status can be read back from the message |
| ApiService.HttpErrorMessageInjective | awaqiai-widget/src/services/api.ts:89 | different statuses give different messages |
| ApiService.EffectiveDelay | awaqiai-widget/src/services/api.ts:72 | the delay is the caller's own, or 100 when the caller passes none |
| ApiService.BodyReader.Read | awaqiai-widget/src/services/api.ts:102 | a read returns the next chunk and advances. Once the chunks are used up it reports `done`, or rejects with the body's error, and does not advance |
| ApiService.BodyReader.ReleaseLock | awaqiai-widget/src/services/api.ts:149 | releasing counts one release and leaves the read position alone |
| ApiService.HandleLines | awaqiai-widget/src/services/api.ts:111-129 | the line loop produces the events of the lines, in order |
| ApiService.HandleRead | awaqiai-widget/src/services/api.ts:106-129 | after one more read the buffer is the unfinished line of all reads, and the trace has grown to the events of every finished line |
| ApiService.ReadAll | awaqiai-widget/src/services/api.ts:101-130 | the read loop consumes every chunk. It ends with the buffer and the events that `ReadLines` gives for the chunks, and with the read error if the body broke |
| ApiService.StreamMessage | awaqiai-widget/src/services/api.ts:71-154 | A rejected fetch, a non-ok status and a missing body each reject with status 0 and their own message, and nothing is read; after a non-ok status the body's reader keeps its read position and is not released. A body that ends normally produces the events of `DecodeStream` and resolves. A failed read produces the events of the finished lines, skips the final pass and rejects with status 0. The lock is released exactly once |
| Utils.IsRTLText | awaqiai-widget/src/lib/utils.ts:8-37 | the method's answer, with its counting loop, is the verdict `RtlVerdict` |
| Utils.RtlVerdict | awaqiai-widget/src/lib/utils.ts:8-37 | a right-to-left verdict needs a non-empty text and some evidence: a leading Hebrew or Arabic unit, or at least one right-to-left unit in the sample |
| Utils.RemoveWhiteSpace | awaqiai-widget/src/lib/utils.ts:15 | the result is no longer than the text and holds no white space |
| Utils.RtlCount | awaqiai-widget/src/lib/utils.ts:25-31 | the count never exceeds the length of the sample |
| Utils.RemoveWhiteSpaceAppend | awaqiai-widget/src/lib/utils.ts:15 | removing white space from a concatenation removes it from each part |
| Utils.RemoveWhiteSpaceOrigin | awaqiai-widget/src/lib/utils.ts:15 | every unit left after removing white space comes from the text, at a position preceded by as many visible units as its index |
| Utils.VisibleUnitPosition | awaqiai-widget/src/lib/utils.ts:15 | a visible unit of the text keeps its place among the visible units |
| Utils.LeadingRtlIff | awaqiai-widget/src/lib/utils.ts:15-20 | the leading test passes exactly when the text has a Hebrew or Arabic unit with fewer than ten visible units before it |
| Utils.EmptyIsLeftToRight | awaqiai-widget/src/lib/utils.ts:9 | the empty text is not right to left |
| Utils.LeadingUnitDecides | awaqiai-widget/src/lib/utils.ts:11-20 | a Hebrew or Arabic unit among the first ten visible units makes the text right to left, whatever follows |
| Utils.ThresholdDecides | awaqiai-widget/src/lib/utils.ts:22-36 | without such a unit, the text is right to left exactly when ten times the number of right-to-left units in the sample exceeds three times its length |
| Utils.SampleBounds | awaqiai-widget/src/lib/utils.ts:24-33 | when the ratio is computed, the sample has between 1 and 100 units and the count is at most its length, so there is no division by zero |
| Utils.RtlCountAll | awaqiai-widget/src/lib/utils.ts:25-31 | a sample made only of right-to-left units counts every unit |
| Utils.RtlCountNone | awaqiai-widget/src/lib/utils.ts:25-31 | a sample without right-to-left units counts none |
| Utils.AllRtlSampleIsRtl | awaqiai-widget/src/lib/utils.ts:24-36 | a non-empty text whose first hundred units are all right-to-left units is right to left |
| Utils.NoRtlUnitIsLeftToRight | awaqiai-widget/src/lib/utils.ts:15-36 | a text without right-to-left, Hebrew or Arabic units is left to right |
| Utils.WhiteSpaceIsLeftToRight | awaqiai-widget/src/lib/utils.ts:15-36 | a text made only of white space is left to right |
| Utils.AsciiIsLeftToRight | awaqiai-widget/src/lib/utils.ts:15-36 | a text made only of ASCII is left to right |
| Utils.VerdictFixedByBeginning | awaqiai-widget/src/lib/utils.ts:15-24 | once a text has a hundred units, ten of them visible, appending anything leaves the verdict unchanged |

## Left out

- The request itself is not modelled: its URL, headers, credentials and JSON body (api.ts:78-86). Nor is the axios client with its interceptor (api.ts:13-36). What `fetch` gives is the parameter `FetchOutcome`, and what the post gives is the argument of `SendMessage`.
- `TextDecoder` is not modelled. A body is the sequence of its chunks, already decoded. The decoder is never flushed at the end, so a trailing incomplete UTF-8 sequence is dropped; this is not modelled either.
- `setTimeout` and wall-clock time are left out. A wait is the trace event `Wait(delay)`. The wait is awaited inside the line loop, so there is no concurrency to model.
- `JSON.parse` and `onChunk` are parameters. A payload is reduced to the truthiness of `done` and to `content` as a string or absent. A truthy `content` that is not a string, such as a number or an object, is not modelled. `null`, whose `.done` throws inside the same `try`, is modelled as a malformed payload.
- `console.error` is the event `ParseErrorLogged`. The logged error object is not modelled.
- The delay is an integer. Fractional delays and `NaN`, which is falsy and so never waits, are not modelled.
- `throw this.handleError(error)` throws a promise that is already rejected, so `streamMessage` rejects with that promise. The model gives the `{ status, message }` it rejects with.
- `error.response.data` is modelled as a string or absent. A body that is a parsed object, which the code would pass on as the message, is not modelled.
- `getMessageHistory`, `cn` and the UI that calls these functions are not part of this model.
- `isRTLText` compares `rtlCount / sample.length > 0.3` in floating point. The model states the comparison as `10 * count > 3 * length`. This is exact for samples of at most 100 units: any other quotient differs from 0.3 by at least 0.001, and 3/10 itself rounds to the literal.
- StreamDecoder.ChunkingInvisible: states that chunking changes nothing only under the sufficient condition `SafeChunking`, not as an if-and-only-if. `ChunkBoundaryMatters` shows a boundary that does change the callbacks. But some unsafe boundaries change nothing, for instance when the next read starts with a line feed.
- StreamDecoder.DecodeChunkingInvisible: the same one-directional condition as `ChunkingInvisible`.
- ApiService.BodyReader.Read: reading after the lock is released is excluded by its precondition. The code never does it.
