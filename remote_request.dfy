/**
 * The incoming-request wrapper: it routes every access to the request body through the
 * capture state machine and, on the first access with capture wanted, buffers the body
 * once, either from the raw input stream or, for form-encoded requests, according to a form mode.
 */
module RemoteRequests {
  import opened Bytes
  import opened Wrappers
  import opened CaptureState

  /** How form-encoded requests are buffered: read the raw stream, rebuild from parameters, or not at all. */
  datatype FormRequestMode = On | Parameter | Off

  /** A parsed content type, both parts lower-cased by the parser; parsing is not part of this model. */
  datatype MimeType = MimeType(primaryType: string, subType: string)

  /** One entry of the host's parameter map, in the map's iteration order. */
  datatype Parameter = Parameter(name: string, values: seq<string>)

  const Ampersand: byte := 38
  const EqualsSign: byte := 61

  /** The query string, with an absent one reported as the empty string. */
  function Query(queryString: Option<string>): (r: string)
    ensures queryString.Some? ==> r == queryString.value
    ensures r == [] <==> queryString.None? || queryString.value == []
  {
    match queryString
    case None => ""
    case Some(q) => q
  }

  /**
   * A form-encoded request, whatever its HTTP method: the content type parsed and is
   * `application/x-www-form-urlencoded`; an absent or unparsable content type (`None`) is
   * never one.
   */
  predicate IsFormRequest(contentType: Option<MimeType>)
    ensures IsFormRequest(contentType)
        <==> contentType == Some(MimeType("application", "x-www-form-urlencoded"))
  {
    && contentType.Some?
    && contentType.value.primaryType == "application"
    && contentType.value.subType == "x-www-form-urlencoded"
  }

  /** Whether buffering this request drains the host's raw input stream. */
  predicate ReadsRawStream(mode: FormRequestMode, contentType: Option<MimeType>) {
    !IsFormRequest(contentType) || mode.On?
  }

  /** Number of `name=value` items a parameter map yields: one per value. */
  function ValueCount(parameters: seq<Parameter>): nat {
    if parameters == [] then 0 else |parameters[0].values| + ValueCount(parameters[1..])
  }

  /**
   * One `name=value` item; `encode` stands for percent-encoding in UTF-8 followed by
   * conversion to UTF-8 bytes.
   */
  function Item(name: string, value: string, encode: string -> seq<byte>): seq<byte> {
    encode(name) + [EqualsSign] + encode(value)
  }

  /** The items of one parameter, one per value, in value order. */
  function ItemsOf(p: Parameter, encode: string -> seq<byte>): (r: seq<seq<byte>>)
    ensures |r| == |p.values|
    ensures forall i :: 0 <= i < |r| ==> r[i] == Item(p.name, p.values[i], encode)
  {
    seq(|p.values|, i requires 0 <= i < |p.values| => Item(p.name, p.values[i], encode))
  }

  /** The items of all parameters, parameter after parameter. */
  function Items(parameters: seq<Parameter>, encode: string -> seq<byte>): (r: seq<seq<byte>>)
    ensures |r| == ValueCount(parameters)
    ensures forall i :: 0 <= i < |r| ==> EqualsSign in r[i]
    ensures (forall s :: Ampersand !in encode(s)) ==> forall i :: 0 <= i < |r| ==> Ampersand !in r[i]
  {
    if parameters == [] then []
    else ItemsOf(parameters[0], encode) + Items(parameters[1..], encode)
  }

  /** The items separated by `sep`, with no separator before the first or after the last. */
  function Join(items: seq<seq<byte>>, sep: byte): (r: seq<byte>)
    ensures items == [] ==> r == []
    ensures items != [] ==> |r| >= |items[0]|
  {
    if items == [] then []
    else if |items| == 1 then items[0]
    else items[0] + [sep] + Join(items[1..], sep)
  }

  /** The inverse of Join: the runs of bytes between separators. */
  function Split(bytes: seq<byte>, sep: byte): (r: seq<seq<byte>>)
    ensures |r| > 0
    decreases |bytes|
  {
    if bytes == [] then [[]]
    else
      var rest := Split(bytes[1..], sep);
      if bytes[0] == sep then [[]] + rest
      else [[bytes[0]] + rest[0]] + rest[1..]
  }

  /** The body rebuilt from the parameter map: every item, joined by `&`. */
  function ReconstructBody(parameters: seq<Parameter>, encode: string -> seq<byte>): (r: seq<byte>)
    ensures r == [] <==> ValueCount(parameters) == 0
  {
    var items := Items(parameters, encode);
    assert items != [] ==> EqualsSign in items[0];
    Join(items, Ampersand)
  }

  lemma {:induction false} SplitPrefix(a: seq<byte>, rest: seq<byte>, sep: byte)
    requires sep !in a
    ensures Split(a + rest, sep) == [a + Split(rest, sep)[0]] + Split(rest, sep)[1..]
    decreases |a|
  {
    if a == [] {
      var parts := Split(rest, sep);
      assert a + rest == rest;
      assert a + parts[0] == parts[0];
      assert [parts[0]] + parts[1..] == parts;
    } else {
      assert (a + rest)[1..] == a[1..] + rest;
      SplitPrefix(a[1..], rest, sep);
      assert [a[0]] + (a[1..] + Split(rest, sep)[0]) == a + Split(rest, sep)[0];
    }
  }

  /** Splitting a join at the separator gives back the items, when no item holds the separator. */
  lemma {:induction false} SplitJoin(items: seq<seq<byte>>, sep: byte)
    requires items != []
    requires forall i :: 0 <= i < |items| ==> sep !in items[i]
    ensures Split(Join(items, sep), sep) == items
    decreases |items|
  {
    if |items| == 1 {
      SplitPrefix(items[0], [], sep);
      assert items[0] + [] == items[0];
    } else {
      var tail := Join(items[1..], sep);
      SplitJoin(items[1..], sep);
      assert items[0] + [sep] + tail == items[0] + ([sep] + tail);
      SplitPrefix(items[0], [sep] + tail, sep);
      assert ([sep] + tail)[1..] == tail;
      assert Split([sep] + tail, sep) == [[]] + items[1..];
      assert items[0] + [] == items[0];
      assert items == [items[0]] + items[1..];
    }
  }

  /**
   * The rebuilt body holds exactly the `name=value` items, in order: splitting it at `&`
   * gives them back whenever the encoding never produces `&`.
   */
  lemma ReconstructedItems(parameters: seq<Parameter>, encode: string -> seq<byte>)
    requires ValueCount(parameters) > 0
    requires forall s :: Ampersand !in encode(s)
    ensures Split(ReconstructBody(parameters, encode), Ampersand) == Items(parameters, encode)
  {
    SplitJoin(Items(parameters, encode), Ampersand);
  }

  /** The bytes buffer() produces for a request, by content type and form mode. */
  function BufferedBytes(mode: FormRequestMode, contentType: Option<MimeType>,
                         parameters: seq<Parameter>, encode: string -> seq<byte>,
                         input: seq<byte>): (r: seq<byte>)
    ensures ReadsRawStream(mode, contentType) ==> r == input
    ensures IsFormRequest(contentType) && mode.Parameter? ==> r == ReconstructBody(parameters, encode)
    ensures IsFormRequest(contentType) && mode.Off? ==> r == []
  {
    if IsFormRequest(contentType) && mode.Parameter? then ReconstructBody(parameters, encode)
    else if IsFormRequest(contentType) && mode.Off? then []
    else input
  }

  /** What `getInputStream()` hands out: the host's own stream, or a fresh stream over the buffer. */
  datatype InputStream = RawInputStream | ReplayInputStream(bytes: seq<byte>)

  /** What `getReader()` hands out: the host's own reader, or one decoding the buffer. */
  datatype Reader = RawReader | DecodingReader(bytes: seq<byte>)

  function InputStreamOf(s: State<seq<byte>>): (r: InputStream)
    ensures r.RawInputStream? <==> !Holds(s)
    ensures Holds(s) ==> r.bytes == s.buffer
  {
    if Holds(s) then ReplayInputStream(s.buffer) else RawInputStream
  }

  function ReaderOf(s: State<seq<byte>>): (r: Reader)
    ensures r.RawReader? <==> !Holds(s)
    ensures Holds(s) ==> r.bytes == s.buffer
  {
    if Holds(s) then DecodingReader(s.buffer) else RawReader
  }

  /** The body reported for logging: the buffer while Buffering, empty otherwise. */
  function BodyOf(s: State<seq<byte>>): (r: seq<byte>)
    ensures s.Buffering? ==> r == s.buffer
    ensures r != [] ==> s.Buffering?
  {
    if s.Buffering? then s.buffer else []
  }

  /**
   * `getBody()` after any intents and no earlier access reports the buffered body exactly
   * when the latest intent was withBody, and the empty body otherwise.
   */
  lemma BodyDecidedByLatestIntent(calls: seq<Call>, fill: seq<byte>)
    requires ExposeCall !in calls
    ensures BodyOf(Run(Unbuffered, calls + [ExposeCall], fill))
         == if Wanted(false, calls) then fill else []
  {
    FirstExposureDecides(calls, fill);
  }

  class RemoteRequest {
    const mode: FormRequestMode
    const contentType: Option<MimeType>
    const parameters: seq<Parameter>
    const encode: string -> seq<byte>
    /** The bytes the host's raw input stream delivers. */
    const input: seq<byte>

    var state: State<seq<byte>>
    /** How often buffer() ran. */
    var bufferCalls: nat
    /** How often buffer() drained the raw input stream. */
    var sourceReads: nat
    /** How often the host's own stream or reader was handed to a caller. */
    var rawHandouts: nat

    /** The bytes buffer() yields for this request. */
    function Buffered(): seq<byte> {
      BufferedBytes(mode, contentType, parameters, encode, input)
    }

    ghost predicate Valid()
      reads this
      ensures Valid() ==> bufferCalls <= 1
      ensures Valid() ==> sourceReads + (if rawHandouts > 0 then 1 else 0) <= 1
    {
      && bufferCalls == (if Holds(state) then 1 else 0)
      && sourceReads == (if Holds(state) && ReadsRawStream(mode, contentType) then 1 else 0)
      && (Holds(state) ==> state.buffer == Buffered())
      && (rawHandouts > 0 ==> state.Passing?)
    }

    constructor (mode: FormRequestMode, contentType: Option<MimeType>,
                 parameters: seq<Parameter>, encode: string -> seq<byte>, input: seq<byte>)
      ensures Valid()
      ensures this.mode == mode && this.contentType == contentType
      ensures this.parameters == parameters && this.encode == encode && this.input == input
      ensures state == Unbuffered
      ensures bufferCalls == 0 && sourceReads == 0 && rawHandouts == 0
    {
      this.mode := mode;
      this.contentType := contentType;
      this.parameters := parameters;
      this.encode := encode;
      this.input := input;
      state := Unbuffered;
      bufferCalls, sourceReads, rawHandouts := 0, 0, 0;
    }

    method WithBody()
      requires Valid()
      modifies this`state
      ensures Valid()
      ensures state == CaptureState.WithBody(old(state))
    {
      state := CaptureState.WithBody(state);
    }

    method WithoutBody()
      requires Valid()
      modifies this`state
      ensures Valid()
      ensures state == CaptureState.WithoutBody(old(state))
    {
      state := CaptureState.WithoutBody(state);
    }

    /** buffer(): the form mode decides whether the raw stream is drained. */
    method Buffer() returns (bytes: seq<byte>)
      modifies this`bufferCalls, this`sourceReads
      ensures bytes == Buffered()
      ensures bufferCalls == old(bufferCalls) + 1
      ensures sourceReads == old(sourceReads) + (if ReadsRawStream(mode, contentType) then 1 else 0)
    {
      bufferCalls := bufferCalls + 1;
      if IsFormRequest(contentType) {
        match mode {
          case Parameter =>
            return ReconstructBody(parameters, encode);
          case Off =>
            return [];
          case On =>
        }
      }
      sourceReads := sourceReads + 1;
      bytes := input;
    }

    /** The expose transition; buffer() runs only when leaving Offering. */
    method Expose()
      requires Valid()
      modifies this`state, this`bufferCalls, this`sourceReads
      ensures Valid()
      ensures state == CaptureState.Expose(old(state), Buffered())
      ensures bufferCalls == old(bufferCalls) + (if old(state).Offering? then 1 else 0)
    {
      var bytes := [];
      if state.Offering? {
        bytes := Buffer();
      }
      state := CaptureState.Expose(state, bytes);
    }

    method GetInputStream() returns (stream: InputStream)
      requires Valid()
      modifies this
      ensures Valid()
      ensures state == CaptureState.Expose(old(state), Buffered())
      ensures stream == InputStreamOf(state)
      ensures rawHandouts == old(rawHandouts) + (if stream.RawInputStream? then 1 else 0)
    {
      Expose();
      stream := InputStreamOf(state);
      if stream.RawInputStream? {
        rawHandouts := rawHandouts + 1;
      }
    }

    method GetReader() returns (reader: Reader)
      requires Valid()
      modifies this
      ensures Valid()
      ensures state == CaptureState.Expose(old(state), Buffered())
      ensures reader == ReaderOf(state)
      ensures rawHandouts == old(rawHandouts) + (if reader.RawReader? then 1 else 0)
    {
      Expose();
      reader := ReaderOf(state);
      if reader.RawReader? {
        rawHandouts := rawHandouts + 1;
      }
    }

    /** `getBody()` is a body access too: it runs the expose transition first. */
    method GetBody() returns (body: seq<byte>)
      requires Valid()
      modifies this`state, this`bufferCalls, this`sourceReads
      ensures Valid()
      ensures state == CaptureState.Expose(old(state), Buffered())
      ensures body == BodyOf(state)
    {
      Expose();
      body := BodyOf(state);
    }
  }

  /**
   * withBody() and then only getBody(), as when the handler never reads the body: the
   * body is buffered at that point, the raw stream is drained at most once, and later
   * stream accesses replay the same bytes.
   */
  method CaptureWithoutHandlerRead(mode: FormRequestMode, contentType: Option<MimeType>,
                                   parameters: seq<Parameter>, encode: string -> seq<byte>,
                                   input: seq<byte>)
    returns (body: seq<byte>, first: InputStream, second: InputStream, drains: nat)
    ensures body == BufferedBytes(mode, contentType, parameters, encode, input)
    ensures first == second == ReplayInputStream(body)
    ensures drains == if ReadsRawStream(mode, contentType) then 1 else 0
  {
    var request := new RemoteRequest(mode, contentType, parameters, encode, input);
    request.WithBody();
    body := request.GetBody();
    first := request.GetInputStream();
    second := request.GetInputStream();
    drains := request.sourceReads;
  }

  /**
   * The handler reads the body before any intent: the raw stream goes to the handler and
   * a later withBody() cannot capture anything.
   */
  method PassThroughFirst(mode: FormRequestMode, contentType: Option<MimeType>,
                          parameters: seq<Parameter>, encode: string -> seq<byte>,
                          input: seq<byte>)
    returns (stream: InputStream, body: seq<byte>, drains: nat)
    ensures stream == RawInputStream
    ensures body == []
    ensures drains == 0
  {
    var request := new RemoteRequest(mode, contentType, parameters, encode, input);
    stream := request.GetInputStream();
    request.WithBody();
    body := request.GetBody();
    drains := request.sourceReads;
  }
}
