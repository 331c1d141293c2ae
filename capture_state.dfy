/**
 * The body-capture state machine that both servlet wrappers keep, one per exchange.
 * The request keeps its buffered bytes in the two buffering states, the response its
 * tee; `B` is that payload. Every transition is total: a state that does not react to a
 * trigger returns itself.
 */
module CaptureState {

  datatype State<B> =
    | Unbuffered            // initial: no intent, body not touched
    | Offering              // capture wanted, body not touched yet
    | Passing               // first access came while capture was not wanted: host's own stream, never captured
    | Buffering(buffer: B)  // body captured and reported
    | Ignoring(buffer: B)   // body captured, not reported

  /** The body has been touched: the state is one of the three that first access produces. */
  predicate Exposed<B>(s: State<B>) {
    s.Passing? || s.Buffering? || s.Ignoring?
  }

  /** The state owns a buffer. */
  predicate Holds<B>(s: State<B>) {
    s.Buffering? || s.Ignoring?
  }

  /** `withBody()`: record the intent to capture. */
  function WithBody<B>(s: State<B>): (r: State<B>)
    ensures r.Offering? || r.Passing? || r.Buffering?
    ensures Exposed(r) <==> Exposed(s)
    ensures Holds(s) ==> r == Buffering(s.buffer)
    ensures s.Passing? ==> r == s
  {
    match s
    case Unbuffered => Offering
    case Ignoring(buffer) => Buffering(buffer)
    case _ => s
  }

  /** `withoutBody()`: withdraw the intent to capture. */
  function WithoutBody<B>(s: State<B>): (r: State<B>)
    ensures r.Unbuffered? || r.Passing? || r.Ignoring?
    ensures Exposed(r) <==> Exposed(s)
    ensures Holds(s) ==> r == Ignoring(s.buffer)
    ensures s.Passing? ==> r == s
  {
    match s
    case Offering => Unbuffered
    case Buffering(buffer) => Ignoring(buffer)
    case _ => s
  }

  /**
   * `expose()`: the first access to the body. `fill` is what the wrapper buffers
   * (the request's bytes, the response's new tee); it is used only from Offering.
   */
  function Expose<B>(s: State<B>, fill: B): (r: State<B>)
    ensures Exposed(r)
    ensures Exposed(s) ==> r == s
    ensures !Exposed(s) ==> (r.Buffering? <==> s.Offering?)
    ensures !Exposed(s) && r.Buffering? ==> r.buffer == fill
    ensures s.Unbuffered? ==> r == Passing
  {
    match s
    case Unbuffered => Passing
    case Offering => Buffering(fill)
    case _ => s
  }

  /** The triggers a wrapper's callers can pull. */
  datatype Call = WithBodyCall | WithoutBodyCall | ExposeCall

  function Step<B>(s: State<B>, c: Call, fill: B): State<B> {
    match c
    case WithBodyCall => WithBody(s)
    case WithoutBodyCall => WithoutBody(s)
    case ExposeCall => Expose(s, fill)
  }

  /** The state after the calls, in order. */
  function Run<B>(s: State<B>, calls: seq<Call>, fill: B): State<B>
    decreases |calls|
  {
    if calls == [] then s else Run(Step(s, calls[0], fill), calls[1..], fill)
  }

  /** How many of the calls expose an Offering state, i.e. consume the body source. */
  function Fills<B>(s: State<B>, calls: seq<Call>, fill: B): nat
    decreases |calls|
  {
    if calls == [] then 0
    else (if s.Offering? && calls[0] == ExposeCall then 1 else 0)
         + Fills(Step(s, calls[0], fill), calls[1..], fill)
  }

  /** Whether capture is wanted after the calls: the latest withBody/withoutBody decides. */
  function Wanted(wanted: bool, calls: seq<Call>): bool
    decreases |calls|
  {
    if calls == [] then wanted
    else
      var next := match calls[0]
        case WithBodyCall => true
        case WithoutBodyCall => false
        case ExposeCall => wanted;
      Wanted(next, calls[1..])
  }

  lemma {:induction false} RunAppend<B>(s: State<B>, a: seq<Call>, b: seq<Call>, fill: B)
    ensures Run(s, a + b, fill) == Run(Run(s, a, fill), b, fill)
    decreases |a|
  {
    if a == [] {
      assert a + b == b;
    } else {
      assert (a + b)[0] == a[0];
      assert (a + b)[1..] == a[1..] + b;
      RunAppend(Step(s, a[0], fill), a[1..], b, fill);
    }
  }

  /** Once Passing, always Passing: a body handed out raw is never captured afterwards. */
  lemma {:induction false} PassingIsFinal<B>(calls: seq<Call>, fill: B)
    ensures Run(Passing, calls, fill) == Passing
    ensures Fills(Passing, calls, fill) == 0
    decreases |calls|
  {
    if calls != [] {
      PassingIsFinal(calls[1..], fill);
    }
  }

  /**
   * In a state that owns a buffer, every call keeps that same buffer, never consumes the
   * source again, and the buffer is reported exactly when the latest intent is withBody.
   */
  lemma {:induction false} BufferSurvivesToggles<B>(s: State<B>, calls: seq<Call>, fill: B)
    requires Holds(s)
    ensures Run(s, calls, fill)
         == if Wanted(s.Buffering?, calls) then Buffering(s.buffer) else Ignoring(s.buffer)
    ensures Fills(s, calls, fill) == 0
    decreases |calls|
  {
    if calls != [] {
      BufferSurvivesToggles(Step(s, calls[0], fill), calls[1..], fill);
    }
  }

  /** Exposed states stay exposed and never consume the source. */
  lemma {:induction false} ExposedIsClosed<B>(s: State<B>, calls: seq<Call>, fill: B)
    requires Exposed(s)
    ensures Exposed(Run(s, calls, fill))
    ensures Fills(s, calls, fill) == 0
  {
    if s.Passing? {
      PassingIsFinal(calls, fill);
    } else {
      BufferSurvivesToggles(s, calls, fill);
    }
  }

  /**
   * The body source is consumed at most once per exchange, and, starting before the
   * first access, exactly when the exchange ends up owning a buffer. This is about calls
   * made one after another; see the README on concurrent access.
   */
  lemma {:induction false} SourceConsumedAtMostOnce<B>(s: State<B>, calls: seq<Call>, fill: B)
    ensures Fills(s, calls, fill) <= 1
    ensures !Exposed(s) ==> (Fills(s, calls, fill) == 1 <==> Holds(Run(s, calls, fill)))
    decreases |calls|
  {
    if calls == [] {
    } else if Exposed(s) {
      ExposedIsClosed(s, calls, fill);
    } else if s.Offering? && calls[0] == ExposeCall {
      BufferSurvivesToggles(Buffering(fill), calls[1..], fill);
    } else if Step(s, calls[0], fill).Passing? {
      PassingIsFinal(calls[1..], fill);
    } else {
      SourceConsumedAtMostOnce(Step(s, calls[0], fill), calls[1..], fill);
    }
  }

  /** Before the first access, intents only move between Unbuffered and Offering. */
  lemma {:induction false} IntentsBeforeExposure<B>(s: State<B>, calls: seq<Call>, fill: B)
    requires s.Unbuffered? || s.Offering?
    requires ExposeCall !in calls
    ensures Run(s, calls, fill) == if Wanted(s.Offering?, calls) then Offering else Unbuffered
    decreases |calls|
  {
    if calls != [] {
      assert calls[0] in calls;
      assert forall c :: c in calls[1..] ==> c in calls;
      IntentsBeforeExposure(Step(s, calls[0], fill), calls[1..], fill);
    }
  }

  /**
   * Any sequence of intents followed by the first access buffers exactly when the latest
   * intent was withBody; intermediate toggles have no effect.
   */
  lemma FirstExposureDecides<B>(calls: seq<Call>, fill: B)
    requires ExposeCall !in calls
    ensures Run(Unbuffered, calls + [ExposeCall], fill)
         == if Wanted(false, calls) then Buffering(fill) else Passing
  {
    RunAppend(Unbuffered, calls, [ExposeCall], fill);
    IntentsBeforeExposure(Unbuffered, calls, fill);
  }

  /** Without any withBody, the exchange never owns a buffer. */
  lemma {:induction false} NoIntentNoBuffer<B>(s: State<B>, calls: seq<Call>, fill: B)
    requires s.Unbuffered? || s.Passing?
    requires WithBodyCall !in calls
    ensures Run(s, calls, fill).Unbuffered? || Run(s, calls, fill).Passing?
    decreases |calls|
  {
    if calls != [] {
      assert calls[0] in calls;
      assert forall c :: c in calls[1..] ==> c in calls;
      NoIntentNoBuffer(Step(s, calls[0], fill), calls[1..], fill);
    }
  }
}
