/**
 * The outgoing-response wrapper: the first access to the output with capture wanted
 * replaces the servlet's output stream by a tee, which sends every byte to the real output
 * and to an in-memory branch; the branch is what gets logged.
 */
module LocalResponses {
  import opened Bytes
  import opened CaptureState

  /** The two streams behind a tee. */
  datatype Sink = Original | Branch

  /** One operation the tee performs on one of its streams. */
  datatype Effect = Wrote(sink: Sink, bytes: seq<byte>) | Flushed(sink: Sink) | Closed(sink: Sink)

  /** The bytes written to `sink`, in order. */
  function Delivered(effects: seq<Effect>, sink: Sink): seq<byte>
    decreases |effects|
  {
    if effects == [] then []
    else
      var last := effects[|effects| - 1];
      Delivered(effects[..|effects| - 1], sink)
        + (if last.Wrote? && last.sink == sink then last.bytes else [])
  }

  /**
   * The effects come in pairs: an operation on the original, immediately followed by the
   * same operation on the branch.
   */
  ghost predicate Mirrored(effects: seq<Effect>)
    decreases |effects|
  {
    || effects == []
    || (&& |effects| >= 2
        && var n := |effects|;
        && effects[n - 2].sink == Original
        && effects[n - 1] == effects[n - 2].(sink := Branch)
        && Mirrored(effects[..n - 2]))
  }

  /** A mirrored history gives the branch exactly the bytes the original received. */
  lemma {:induction false} MirroredBranchEqualsOriginal(effects: seq<Effect>)
    requires Mirrored(effects)
    ensures Delivered(effects, Branch) == Delivered(effects, Original)
    decreases |effects|
  {
    if effects != [] {
      var n := |effects|;
      var front := effects[..n - 1];
      assert front[..n - 2] == effects[..n - 2];
      MirroredBranchEqualsOriginal(effects[..n - 2]);
    }
  }

  /** The servlet output stream a tee hands out; `effects` records what it did, in order. */
  class TeeOutputStream {
    var effects: seq<Effect>

    ghost predicate Valid()
      reads this
    {
      Mirrored(effects)
    }

    /** The bytes the servlet's own output stream received through this tee. */
    function OriginalBytes(): seq<byte>
      reads this
    {
      Delivered(effects, Original)
    }

    /** The bytes the in-memory branch holds. */
    function BranchBytes(): seq<byte>
      reads this
    {
      Delivered(effects, Branch)
    }

    constructor ()
      ensures Valid() && effects == []
    {
      effects := [];
    }

    /** `write(int)`: the low byte goes to the original, then to the branch. */
    method WriteByte(b: int)
      requires Valid()
      modifies this
      ensures Valid()
      ensures effects == old(effects) + [Wrote(Original, [LowByte(b)]), Wrote(Branch, [LowByte(b)])]
      ensures OriginalBytes() == old(OriginalBytes()) + [LowByte(b)]
      ensures BranchBytes() == OriginalBytes()
    {
      Append(Wrote(Original, [LowByte(b)]));
    }

    /**
     * `write(b, off, len)`: the slice goes to the original, then to the branch. A slice
     * outside `b` makes the original throw before anything is written, and the branch is
     * then not reached.
     */
    method WriteBytes(b: seq<byte>, off: int, len: int) returns (ok: bool)
      requires Valid()
      modifies this
      ensures Valid()
      ensures ok <==> 0 <= off && 0 <= len && off + len <= |b|
      ensures ok ==> effects == old(effects) + [Wrote(Original, b[off..off + len]), Wrote(Branch, b[off..off + len])]
      ensures ok ==> OriginalBytes() == old(OriginalBytes()) + b[off..off + len]
      ensures !ok ==> effects == old(effects)
      ensures BranchBytes() == OriginalBytes()
    {
      ok := 0 <= off && 0 <= len && off + len <= |b|;
      if ok {
        Append(Wrote(Original, b[off..off + len]));
      } else {
        MirroredBranchEqualsOriginal(effects);
      }
    }

    /** `flush()`: propagates to the original, then to the branch; writes nothing. */
    method Flush()
      requires Valid()
      modifies this
      ensures Valid()
      ensures effects == old(effects) + [Flushed(Original), Flushed(Branch)]
      ensures OriginalBytes() == old(OriginalBytes()) && BranchBytes() == old(BranchBytes())
    {
      Append(Flushed(Original));
    }

    /** `close()`: propagates to the original, then to the branch; writes nothing. */
    method Close()
      requires Valid()
      modifies this
      ensures Valid()
      ensures effects == old(effects) + [Closed(Original), Closed(Branch)]
      ensures OriginalBytes() == old(OriginalBytes()) && BranchBytes() == old(BranchBytes())
    {
      Append(Closed(Original));
    }

    /** Performs `e` on the original, then the same on the branch. */
    method Append(e: Effect)
      requires Valid()
      requires e.sink == Original
      modifies this
      ensures Valid()
      ensures effects == old(effects) + [e, e.(sink := Branch)]
      ensures OriginalBytes() == old(OriginalBytes()) + (if e.Wrote? then e.bytes else [])
      ensures BranchBytes() == old(BranchBytes()) + (if e.Wrote? then e.bytes else [])
      ensures BranchBytes() == OriginalBytes()
    {
      var before := effects;
      effects := effects + [e];
      var middle := effects;
      effects := effects + [e.(sink := Branch)];
      assert effects[..|effects| - 1] == middle;
      assert middle[..|middle| - 1] == before;
      assert effects[..|effects| - 2] == before;
      MirroredBranchEqualsOriginal(effects);
    }
  }

  /** The print writer a tee hands out, encoding characters onto the tee's stream. */
  class TeeWriter {
    const target: TeeOutputStream
    const charset: string

    constructor (target: TeeOutputStream, charset: string)
      ensures this.target == target && this.charset == charset
    {
      this.target := target;
      this.charset := charset;
    }
  }

  /** The tee: one output stream and one writer over it, both fixed for its lifetime. */
  class Tee {
    const output: TeeOutputStream
    const writer: TeeWriter

    constructor (charset: string)
      ensures fresh(output) && fresh(writer)
      ensures output.Valid() && output.effects == []
      ensures writer.target == output && writer.charset == charset
    {
      var out := new TeeOutputStream();
      output := out;
      writer := new TeeWriter(out, charset);
    }

    /** `getBytes()`: the branch copy, which is exactly what reached the original. */
    function GetBytes(): (r: seq<byte>)
      reads output
      requires output.Valid()
      ensures r == output.OriginalBytes()
    {
      MirroredBranchEqualsOriginal(output.effects);
      output.BranchBytes()
    }
  }

  /** What `getOutputStream()` hands out: the servlet's own stream, or the tee's. */
  datatype OutputStream = RawOutputStream | TeeOutput(stream: TeeOutputStream)

  /** What `getWriter()` hands out: the servlet's own writer, or the tee's. */
  datatype Writer = RawWriter | TeeWriterOutput(writer: TeeWriter)

  class LocalResponse {
    /** The response's character set, as the host reports it. */
    const charset: string

    var state: State<Tee>
    /** How many tees this response created. */
    var teesCreated: nat
    /** How often the servlet's own stream or writer was handed to a caller. */
    var rawHandouts: nat

    /** The objects whose fields the body depends on. */
    function Footprint(): set<object>
      reads this
    {
      {this} + if Holds(state) then {state.buffer.output} else {}
    }

    ghost predicate Valid()
      reads Footprint()
      ensures Valid() ==> teesCreated <= 1
    {
      && teesCreated == (if Holds(state) then 1 else 0)
      && (rawHandouts > 0 ==> state.Passing?)
      && (Holds(state) ==> state.buffer.output.Valid() && state.buffer.writer.target == state.buffer.output)
    }

    constructor (charset: string)
      ensures Valid()
      ensures this.charset == charset && state == Unbuffered
      ensures teesCreated == 0 && rawHandouts == 0
    {
      this.charset := charset;
      state := Unbuffered;
      teesCreated, rawHandouts := 0, 0;
    }

    method WithBody()
      requires Valid()
      modifies this`state
      ensures Valid()
      ensures state == CaptureState.WithBody(old(state))
    {
      state := CaptureState.WithBody(state);
    }

    method WithoutBody()
      requires Valid()
      modifies this`state
      ensures Valid()
      ensures state == CaptureState.WithoutBody(old(state))
    {
      state := CaptureState.WithoutBody(state);
    }

    /** The expose transition; a tee is created only when leaving Offering. */
    method Expose()
      requires Valid()
      modifies this`state, this`teesCreated
      ensures Valid()
      ensures old(state).Offering? ==> state.Buffering? && fresh(state.buffer) && fresh(state.buffer.output)
      ensures old(state).Offering? ==> state.buffer.output.effects == [] && state.buffer.writer.charset == charset
      ensures old(state).Offering? ==> state == Buffering(state.buffer)
      ensures old(state).Unbuffered? ==> state == Passing
      ensures Exposed(old(state)) ==> state == old(state)
      ensures teesCreated == old(teesCreated) + (if old(state).Offering? then 1 else 0)
    {
      if state.Offering? {
        var tee := new Tee(charset);
        teesCreated := teesCreated + 1;
        state := Buffering(tee);
      } else if state.Unbuffered? {
        state := Passing;
      }
    }

    method GetOutputStream() returns (out: OutputStream)
      requires Valid()
      modifies this
      ensures Valid()
      ensures old(state).Offering? ==> state.Buffering? && fresh(state.buffer) && fresh(state.buffer.output)
      ensures old(state).Offering? ==> state.buffer.output.effects == []
      ensures old(state).Unbuffered? ==> state == Passing
      ensures Exposed(old(state)) ==> state == old(state)
      ensures out == if Holds(state) then TeeOutput(state.buffer.output) else RawOutputStream
      ensures rawHandouts == old(rawHandouts) + (if out.RawOutputStream? then 1 else 0)
    {
      Expose();
      if Holds(state) {
        out := TeeOutput(state.buffer.output);
      } else {
        out := RawOutputStream;
        rawHandouts := rawHandouts + 1;
      }
    }

    method GetWriter() returns (w: Writer)
      requires Valid()
      modifies this
      ensures Valid()
      ensures old(state).Offering? ==> state.Buffering? && fresh(state.buffer) && fresh(state.buffer.output)
      ensures old(state).Offering? ==> state.buffer.output.effects == []
      ensures old(state).Unbuffered? ==> state == Passing
      ensures Exposed(old(state)) ==> state == old(state)
      ensures w == if Holds(state) then TeeWriterOutput(state.buffer.writer) else RawWriter
      ensures rawHandouts == old(rawHandouts) + (if w.RawWriter? then 1 else 0)
    {
      Expose();
      if Holds(state) {
        w := TeeWriterOutput(state.buffer.writer);
      } else {
        w := RawWriter;
        rawHandouts := rawHandouts + 1;
      }
    }

    /**
     * `getBody()` only reads the current state, without exposing: the bytes that reached
     * the servlet's output through the tee while Buffering, nothing otherwise.
     */
    function GetBody(): (r: seq<byte>)
      reads Footprint()
      requires Valid()
      ensures state.Buffering? ==> r == state.buffer.output.OriginalBytes()
      ensures !state.Buffering? ==> r == []
    {
      if state.Buffering? then state.buffer.GetBytes() else []
    }
  }

  /**
   * withBody(), then the handler writes through getOutputStream(): the client receives the
   * payload and the logged body is that same payload.
   */
  method CaptureWrittenBody(charset: string, payload: seq<byte>)
    returns (body: seq<byte>, delivered: seq<byte>)
    ensures body == payload && delivered == payload
  {
    var response := new LocalResponse(charset);
    response.WithBody();
    var out := response.GetOutputStream();
    var stream := out.stream;
    var ok := stream.WriteBytes(payload, 0, |payload|);
    assert payload[0..|payload|] == payload;
    stream.Flush();
    body := response.GetBody();
    delivered := stream.OriginalBytes();
  }

  /** A handler writing a whole byte array through a tee's stream. */
  method WriteAll(stream: TeeOutputStream, payload: seq<byte>)
    requires stream.Valid()
    modifies stream
    ensures stream.Valid()
    ensures stream.OriginalBytes() == old(stream.OriginalBytes()) + payload
  {
    var ok := stream.WriteBytes(payload, 0, |payload|);
    assert payload[0..|payload|] == payload;
  }

  /** withBody() without any later output access: the state stays Offering and nothing is logged. */
  method IntentWithoutOutput(charset: string) returns (body: seq<byte>, tees: nat)
    ensures body == [] && tees == 0
  {
    var response := new LocalResponse(charset);
    response.WithBody();
    body := response.GetBody();
    tees := response.teesCreated;
  }

  /**
   * Bytes written while Ignoring still reach the branch: after toggling back, the body holds
   * everything written through the one tee, whose stream every access returns.
   */
  method IgnoredBytesKept(charset: string, before: seq<byte>, during: seq<byte>)
    returns (ignoredBody: seq<byte>, body: seq<byte>, sameStream: bool, tees: nat)
    ensures ignoredBody == []
    ensures body == before + during
    ensures sameStream && tees == 1
  {
    var response := new LocalResponse(charset);
    response.WithBody();
    var first := response.GetOutputStream();
    var tee := response.state.buffer;
    WriteAll(tee.output, before);
    response.WithoutBody();
    var second := response.GetOutputStream();
    sameStream := first == second;
    WriteAll(tee.output, during);
    ignoredBody := response.GetBody();
    response.WithBody();
    body := response.GetBody();
    tees := response.teesCreated;
  }

  /** The output is accessed before any intent: the raw stream is used and nothing is ever logged. */
  method PassThroughFirst(charset: string)
    returns (out: OutputStream, later: OutputStream, body: seq<byte>, tees: nat)
    ensures out == RawOutputStream && later == RawOutputStream
    ensures body == [] && tees == 0
  {
    var response := new LocalResponse(charset);
    out := response.GetOutputStream();
    response.WithBody();
    later := response.GetOutputStream();
    body := response.GetBody();
    tees := response.teesCreated;
  }
}
