# Body capture in logbook's servlet wrappers

logbook logs HTTP exchanges. Its servlet integration wraps the incoming request
(`RemoteRequest`) and the outgoing response (`LocalResponse`). Each wrapper decides
whether the body is buffered for logging. It uses a five-state machine:

- `Unbuffered` is the initial state.
- `Offering` means capture is wanted, but nobody has touched the body yet.
- `Passing` means the first access came while capture was not wanted: there was no withBody, or the latest one had been withdrawn by withoutBody. Every access from then on gets the host's own stream, and the body is never captured.
- `Buffering(buffer)` means the body is captured and reported.
- `Ignoring(buffer)` means the body is captured but not reported.

`withBody()` and `withoutBody()` set the intent. The first access to the body runs
`expose()`.

- On the request, `getInputStream`, `getReader` and `getBody` all count as access.
- On the response, only `getOutputStream` and `getWriter` do.

Leaving `Offering` through `expose()` does one of two things:

- The request buffers its body once. For `application/x-www-form-urlencoded` requests (whatever the HTTP method), a form mode decides the source. It reads the raw stream (`On`), rebuilds the body from the parameter map (`Parameter`), or uses no bytes (`Off`).
- The response creates a tee. The tee sends every written byte to the servlet's output and then to an in-memory branch.

The project has four files:

- `capture_state.dfy` (module `CaptureState`) holds the state machine shared by both wrappers. The payload type `B` is `seq<byte>` for the request and `Tee` for the response. The module has the three pure transitions and call traces (`Run`, `Fills`, `Wanted`). It also proves properties over whole sequences of calls.
- `remote_request.dfy` (module `RemoteRequests`) holds the request wrapper as the class `RemoteRequest`. Its `state` field is updated in place, and counters record how the host's input stream is used. The module also holds the form-body reconstruction and its split/join round trip.
- `local_response.dfy` (module `LocalResponses`) holds the response wrapper as the class `LocalResponse`, plus `Tee`, `TeeWriter` and `TeeOutputStream`. The stream keeps an ordered log of what it did to the original and to the branch.
- `bytes.dfy` holds the byte type and `Option`.

Unlike the request (`RemoteRequest.java:123-126`), the response's `getBody` only reads the
current state (`LocalResponse.java:86-89`). So `withBody()` with no later output access leaves
the response in `Offering` and logs nothing.

## Model

| member | source | states |
|---|---|---|
| `Bytes.LowByte` | logbook-servlet/src/main/java/org/zalando/logbook/servlet/LocalResponse.java:241-245 | the byte written for an `int` agrees with it modulo 256 (its low eight bits) |
| `CaptureState.WithBody` | logbook-servlet/src/main/java/org/zalando/logbook/servlet/RemoteRequest.java:175-272 | withBody never moves a state into or out of the exposed set {Passing, Buffering, Ignoring}; it leaves Passing alone and turns a held buffer into Buffering of the same buffer; the result always records capture intent (Offering, Buffering) unless the body already passed |
| `CaptureState.WithoutBody` | logbook-servlet/src/main/java/org/zalando/logbook/servlet/RemoteRequest.java:179-245 | withoutBody never moves a state into or out of the exposed set; it leaves Passing alone and turns a held buffer into Ignoring of the same buffer; the result never reports a body |
| `CaptureState.Expose` | logbook-servlet/src/main/java/org/zalando/logbook/servlet/RemoteRequest.java:183-240 | Unbuffered becomes Passing; after expose the state is exposed; exposed states are fixed points (so exposing twice equals exposing once); from an unexposed state the result buffers exactly when it came from Offering, and then holds the freshly filled buffer |
| `CaptureState.PassingIsFinal` | logbook-servlet/src/main/java/org/zalando/logbook/servlet/RemoteRequest.java:229-231 | from Passing, any sequence of calls stays in Passing and never consumes the body source |
| `CaptureState.BufferSurvivesToggles` | logbook-servlet/src/main/java/org/zalando/logbook/servlet/RemoteRequest.java:242-272 | from Buffering(b) or Ignoring(b), any calls end in Buffering(b) or Ignoring(b) with the same b (Buffering exactly when the latest intent is withBody) and never consume the source again |
| `CaptureState.ExposedIsClosed` | logbook-servlet/src/main/java/org/zalando/logbook/servlet/RemoteRequest.java:201-284 | {Passing, Buffering, Ignoring} is closed under every call sequence, so Offering is never re-entered and nothing is consumed |
| `CaptureState.SourceConsumedAtMostOnce` | logbook-servlet/src/main/java/org/zalando/logbook/servlet/RemoteRequest.java:222-240 | along any call sequence the Offering-to-Buffering step (the only one that reads the source) happens at most once; starting unexposed, it happens exactly when the exchange ends up holding a buffer |
| `CaptureState.IntentsBeforeExposure` | logbook-servlet/src/main/java/org/zalando/logbook/servlet/RemoteRequest.java:201-226 | before any access, intents move only between Unbuffered and Offering, and the latest intent decides which |
| `CaptureState.FirstExposureDecides` | logbook-servlet/src/main/java/org/zalando/logbook/servlet/RemoteRequest.java:201-226 | any intents followed by the first access give Buffering(fill) if the latest intent was withBody and Passing otherwise; earlier toggles have no effect |
| `CaptureState.NoIntentNoBuffer` | logbook-servlet/src/main/java/org/zalando/logbook/servlet/RemoteRequest.java:201-213 | with no withBody call, an exchange starting Unbuffered never holds a buffer |
| `RemoteRequests.Query` | logbook-servlet/src/main/java/org/zalando/logbook/servlet/RemoteRequest.java:71-74 | a present query string is returned as is; the result is empty exactly when the query string is absent or empty |
| `RemoteRequests.IsFormRequest` | logbook-servlet/src/main/java/org/zalando/logbook/servlet/RemoteRequest.java:143-153 | a form-encoded request is exactly a parsed content type with primary type `application` and subtype `x-www-form-urlencoded`; an absent or unparsable type is not form-encoded; the HTTP method plays no part |
| `RemoteRequests.ItemsOf` | logbook-servlet/src/main/java/org/zalando/logbook/servlet/RemoteRequest.java:157-158 | one parameter yields one `enc(name)=enc(value)` item per value, in value order |
| `RemoteRequests.Items` | logbook-servlet/src/main/java/org/zalando/logbook/servlet/RemoteRequest.java:156-158 | the items number exactly the values of all parameters; each holds `=`; none holds `&` when the encoding never produces `&` |
| `RemoteRequests.Join` | logbook-servlet/src/main/java/org/zalando/logbook/servlet/RemoteRequest.java:159 | joining no items gives no bytes; otherwise the result is at least as long as the first item |
| `RemoteRequests.SplitJoin` | logbook-servlet/src/main/java/org/zalando/logbook/servlet/RemoteRequest.java:159 | splitting a join of separator-free items at the separator gives back exactly the items, so the separator appears only between items |
| `RemoteRequests.ReconstructBody` | logbook-servlet/src/main/java/org/zalando/logbook/servlet/RemoteRequest.java:155-161 | the rebuilt body is empty exactly when no parameter has a value |
| `RemoteRequests.ReconstructedItems` | logbook-servlet/src/main/java/org/zalando/logbook/servlet/RemoteRequest.java:155-161 | when some parameter has a value and the encoding never produces `&`, splitting the rebuilt body at `&` yields every `enc(name)=enc(value)` item in order |
| `RemoteRequests.BufferedBytes` | logbook-servlet/src/main/java/org/zalando/logbook/servlet/RemoteRequest.java:128-153 | the buffered bytes are the raw input unless the request is form-encoded; a form-encoded request in mode Parameter gives the rebuilt body, and in mode Off gives no bytes |
| `RemoteRequests.InputStreamOf` | logbook-servlet/src/main/java/org/zalando/logbook/servlet/RemoteRequest.java:187-277 | a stream over the buffer is handed out exactly in the states that hold one; otherwise the host's own stream is |
| `RemoteRequests.ReaderOf` | logbook-servlet/src/main/java/org/zalando/logbook/servlet/RemoteRequest.java:191-281 | a reader over the buffer is handed out exactly in the states that hold one; otherwise the host's own reader is |
| `RemoteRequests.BodyOf` | logbook-servlet/src/main/java/org/zalando/logbook/servlet/RemoteRequest.java:195-260 | the logged body is the buffer in Buffering; a non-empty body implies Buffering (Ignoring and all other states report nothing) |
| `RemoteRequests.BodyDecidedByLatestIntent` | logbook-servlet/src/main/java/org/zalando/logbook/servlet/RemoteRequest.java:123-126 | getBody after any intents, with no earlier access, returns the buffered bytes exactly when the latest intent was withBody, and empty bytes otherwise |
| `RemoteRequests.RemoteRequest.Valid` | logbook-servlet/src/main/java/org/zalando/logbook/servlet/RemoteRequest.java:128-141 | invariant: buffer() ran at most once; the host's input stream has at most one consumer (buffer() or the handler, never both); a held buffer is exactly what buffer() yields |
| `RemoteRequests.RemoteRequest.constructor` | logbook-servlet/src/main/java/org/zalando/logbook/servlet/RemoteRequest.java:34-39 | a new wrapper starts Unbuffered with nothing read or handed out; the form mode is a constructor argument |
| `RemoteRequests.RemoteRequest.WithBody` | logbook-servlet/src/main/java/org/zalando/logbook/servlet/RemoteRequest.java:96-100 | the state becomes WithBody of the old state; nothing is read |
| `RemoteRequests.RemoteRequest.WithoutBody` | logbook-servlet/src/main/java/org/zalando/logbook/servlet/RemoteRequest.java:102-106 | the state becomes WithoutBody of the old state; nothing is read |
| `RemoteRequests.RemoteRequest.Buffer` | logbook-servlet/src/main/java/org/zalando/logbook/servlet/RemoteRequest.java:128-141 | returns the bytes BufferedBytes prescribes, and drains the raw stream exactly when the request is not form-encoded or the mode is On |
| `RemoteRequests.RemoteRequest.Expose` | logbook-servlet/src/main/java/org/zalando/logbook/servlet/RemoteRequest.java:167-169 | the state becomes Expose of the old state with this request's buffered bytes; buffer() runs only when leaving Offering |
| `RemoteRequests.RemoteRequest.GetInputStream` | logbook-servlet/src/main/java/org/zalando/logbook/servlet/RemoteRequest.java:113-116 | exposes, then returns a fresh stream over the buffer when one is held and the host's stream otherwise (counted as a raw hand-out) |
| `RemoteRequests.RemoteRequest.GetReader` | logbook-servlet/src/main/java/org/zalando/logbook/servlet/RemoteRequest.java:118-121 | exposes, then returns a reader over the buffer when one is held and the host's reader otherwise |
| `RemoteRequests.RemoteRequest.GetBody` | logbook-servlet/src/main/java/org/zalando/logbook/servlet/RemoteRequest.java:123-126 | exposes, then returns the logged body of the new state |
| `RemoteRequests.CaptureWithoutHandlerRead` | logbook-servlet/src/main/java/org/zalando/logbook/servlet/RemoteRequest.java:96-126 | withBody then getBody buffers the body even though the handler never read it; two later getInputStream calls replay the same bytes; the raw stream is drained once or not at all, by form mode |
| `RemoteRequests.PassThroughFirst` | logbook-servlet/src/main/java/org/zalando/logbook/servlet/RemoteRequest.java:201-231 | reading the stream before any intent hands out the host's stream; a later withBody cannot capture, so getBody is empty and nothing is drained |
| `LocalResponses.MirroredBranchEqualsOriginal` | logbook-servlet/src/main/java/org/zalando/logbook/servlet/LocalResponse.java:241-263 | when every operation on the original is immediately repeated on the branch, the branch holds exactly the bytes the original received, in order |
| `LocalResponses.TeeOutputStream.WriteByte` | logbook-servlet/src/main/java/org/zalando/logbook/servlet/LocalResponse.java:241-245 | writes the low byte to the original, then to the branch; the original gains that byte and the branch still equals the original |
| `LocalResponses.TeeOutputStream.WriteBytes` | logbook-servlet/src/main/java/org/zalando/logbook/servlet/LocalResponse.java:247-251 | a valid slice is written to the original, then to the branch; an out-of-range slice writes nothing to either; in both cases the branch equals the original |
| `LocalResponses.TeeOutputStream.Flush` | logbook-servlet/src/main/java/org/zalando/logbook/servlet/LocalResponse.java:253-257 | flushes the original, then the branch; no bytes are written to either |
| `LocalResponses.TeeOutputStream.Close` | logbook-servlet/src/main/java/org/zalando/logbook/servlet/LocalResponse.java:259-263 | closes the original, then the branch; no bytes are written to either |
| `LocalResponses.Tee.constructor` | logbook-servlet/src/main/java/org/zalando/logbook/servlet/LocalResponse.java:215-219 | a new tee has a fresh, empty stream and a fresh writer bound to that stream in the response charset |
| `LocalResponses.Tee.GetBytes` | logbook-servlet/src/main/java/org/zalando/logbook/servlet/LocalResponse.java:229-231 | the branch copy equals the bytes that reached the original through the tee |
| `LocalResponses.LocalResponse.Valid` | logbook-servlet/src/main/java/org/zalando/logbook/servlet/LocalResponse.java:146-164 | invariant: at most one tee per exchange, existing exactly while a buffer is held; a raw hand-out implies Passing; the held tee's stream is mirrored |
| `LocalResponses.LocalResponse.constructor` | logbook-servlet/src/main/java/org/zalando/logbook/servlet/LocalResponse.java:31-36 | a new wrapper starts Unbuffered with no tee and no raw hand-out |
| `LocalResponses.LocalResponse.WithBody` | logbook-servlet/src/main/java/org/zalando/logbook/servlet/LocalResponse.java:64-68 | the state becomes WithBody of the old state, the same transition the request uses |
| `LocalResponses.LocalResponse.WithoutBody` | logbook-servlet/src/main/java/org/zalando/logbook/servlet/LocalResponse.java:70-74 | the state becomes WithoutBody of the old state, the same transition the request uses |
| `LocalResponses.LocalResponse.Expose` | logbook-servlet/src/main/java/org/zalando/logbook/servlet/LocalResponse.java:125-164 | Offering becomes Buffering over a freshly created empty tee (the only place a tee is created); Unbuffered becomes Passing; exposed states are unchanged |
| `LocalResponses.LocalResponse.GetOutputStream` | logbook-servlet/src/main/java/org/zalando/logbook/servlet/LocalResponse.java:76-79 | exposes, then returns the held tee's stream (the same object on every call) when a tee is held, and the servlet's own stream otherwise |
| `LocalResponses.LocalResponse.GetWriter` | logbook-servlet/src/main/java/org/zalando/logbook/servlet/LocalResponse.java:81-84 | exposes, then returns the held tee's writer (the same object on every call) when a tee is held, and the servlet's own writer otherwise |
| `LocalResponses.LocalResponse.GetBody` | logbook-servlet/src/main/java/org/zalando/logbook/servlet/LocalResponse.java:86-89 | reads without exposing: in Buffering, the bytes that reached the servlet's output through the tee; in every other state, nothing |
| `LocalResponses.CaptureWrittenBody` | logbook-servlet/src/main/java/org/zalando/logbook/servlet/LocalResponse.java:157-184 | withBody, then writing a payload through getOutputStream: the client receives the payload and the logged body is that payload |
| `LocalResponses.IntentWithoutOutput` | logbook-servlet/src/main/java/org/zalando/logbook/servlet/LocalResponse.java:86-89 | withBody with no later output access logs nothing and creates no tee |
| `LocalResponses.IgnoredBytesKept` | logbook-servlet/src/main/java/org/zalando/logbook/servlet/LocalResponse.java:187-205 | while Ignoring, getBody is empty but writes still reach the branch; getOutputStream returns the same stream; after withBody the body holds the bytes from both phases, from one tee |
| `LocalResponses.PassThroughFirst` | logbook-servlet/src/main/java/org/zalando/logbook/servlet/LocalResponse.java:125-155 | accessing the output before any intent hands out the servlet's stream, before and after a later withBody; nothing is logged and no tee exists |

## Left out

- Concurrency: the source keeps the state in an `AtomicReference` and updates it with `updateAndGet`, which may apply the transition more than once under contention. The model updates a plain field in sequence. Leaving `Offering` has side effects: the request runs buffer() and the response creates a tee over the servlet's stream. So the proved "source read at most once" and "at most one tee" hold only for calls made one after another, not for concurrent access to one exchange.
- Header maps and the metadata delegates (`getRemote`, `getHost`, `getPort`, `getPath`, `getProtocolVersion`, `getOrigin`) are host plumbing and are not modelled. The same holds for `getCharset`, which uses `Charset.forName`. The response's constructor takes a charset argument. It stands for the charset the host reports when the tee is created, which the source reads with `getCharset()` in the `Buffering` constructor that `Offering.expose()` calls (`LocalResponse.java:147-149`, `LocalResponse.java:162-164`).
- Percent-encoding and UTF-8 conversion of parameters (`URLEncoder.encode`, `String.getBytes`) are an abstract parameter `encode`. It maps a string to the bytes of its encoding. Joining is applied to bytes, which is exact because the encoder's output is ASCII.
- Content-type parsing (`MimeTypes.parse`) is not modelled. The wrapper receives the parsed type, or `None` when the header is absent or does not parse. The parser (`javax.activation.MimeType`) lower-cases the primary type and the subtype, so the parsed parts the model compares are already lower case and the source's check is case-insensitive on the raw header.
- The host's raw input stream is the byte sequence it delivers. `ByteStreams.toByteArray` and `ServletInputStreamAdapter` are not modelled, and neither are the host's rules on mixing `getInputStream` and `getReader`.
- The form mode is read from system properties in the source (`FormRequestMode.fromProperties`). Here it is a constructor argument.
- The host fills the parameter map, and its iteration order is a given sequence. The model does not say whether the map also holds query-string parameters.
- I/O failures are not modelled: an `IOException` from buffer(), or from a write, flush or close on the servlet's stream. In the source such a failure leaves the state unchanged and propagates to the caller.
- `LocalResponses.TeeOutputStream.WriteBytes` assumes that the servlet's stream rejects an out-of-range slice before writing anything, as `java.io.OutputStream.write` specifies. The host's stream is not part of this model.
- Character output through the tee's `PrintWriter` is not modelled: encoding and internal buffering are library code. The writer is modelled only by its identity, its target stream and its charset.
- Arrays are values here. The source returns the buffer array itself from the request's `getBody`, so the caller could alias it. The model returns a value.
- The async hooks `isReady` and `setWriteListener` only delegate to the original stream and are not modelled.
- The log formatter (`DefaultHttpLogFormatter`) is outside body capture and is not modelled.
