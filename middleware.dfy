/**
 * The transport-level middleware pipeline
 * (libs/messaging/src/nats/middleware.rs). A transport handler is a tree of
 * middleware layers over a publishing or dispatching core; invoking it on a
 * driver message yields the events it causes, in order, and its result.
 */
module Middleware {
  import opened Wrappers
  import opened Errors
  import opened Envelope
  import opened Headers
  import opened Factory
  import opened Adaptors

  /** A middleware, named: the built-in tracing one, or an application one known by its name. */
  datatype Middleware = Tracing | Custom(name: string)

  /**
   * A transport handler. `Publisher` is the publish closure with the subject,
   * headers and payload it captured; `Dispatcher` is a domain handler wrapped
   * for the transport; `Layer` is a middleware applied under an operation label.
   */
  datatype TransportHandler =
    | Publisher(subject: string, headers: Option<HeaderMap>, payload: Bytes)
    | Dispatcher(handler: Handler)
    | Layer(mw: Middleware, op: string, inner: TransportHandler)

  /** The span the tracing middleware opens around the inner call. */
  datatype Scope = Scope(name: string, system: string, operation: string, destination: string, parent: TraceContext)

  /** What invoking a handler can be observed to do. */
  datatype Event =
    | SpanOpened(scope: Scope)
    | SpanClosed(scope: Scope)
    | Entered(name: string, op: string)
    | Left(name: string, op: string)
    | Sent(subject: string, headers: Option<HeaderMap>, payload: Bytes)
    | Delivered(msg: Message)

  /** The events of one invocation and its result. */
  datatype Run = Run(events: seq<Event>, result: Result<(), MessagingError>)

  /** The driver's publish: with headers when present; a failure is described by a string. */
  type Sender = (string, Option<HeaderMap>, Bytes) -> Result<(), string>

  /** The span `tracing_middleware` opens for a message under an operation label. */
  function TraceScope(op: string, msg: NatsMessage): (s: Scope)
    ensures s.system == "nats" && s.operation == op && s.destination == msg.subject
    ensures s.name == op + " " + msg.subject
    ensures msg.headers.Some? ==> s.parent == ExtractedFrom(msg.headers.value)
    ensures msg.headers.None? ==> s.parent == EmptyContext
  {
    Scope(op + " " + msg.subject, "nats", op, msg.subject, ExtractTraceContext(msg))
  }

  /** The event a middleware emits before calling its inner handler. */
  function Pre(mw: Middleware, op: string, msg: NatsMessage): Event
  {
    match mw
    case Tracing => SpanOpened(TraceScope(op, msg))
    case Custom(name) => Entered(name, op)
  }

  /** The event a middleware emits after its inner handler returns. */
  function Post(mw: Middleware, op: string, msg: NatsMessage): Event
  {
    match mw
    case Tracing => SpanClosed(TraceScope(op, msg))
    case Custom(name) => Left(name, op)
  }

  /** Invoke a transport handler on a driver message. */
  function Invoke(h: TransportHandler, msg: NatsMessage, send: Sender): Run
  {
    match h
    case Publisher(subject, headers, payload) =>
      var sent := send(subject, headers, payload);
      Run([Sent(subject, headers, payload)], if sent.Ok? then Ok(()) else Err(Publish(sent.error)))
    case Dispatcher(handler) =>
      var read := ReadMessage(msg);
      if read.Err? then Run([], Err(read.error))
      else
        var out := handler(read.value);
        Run([Delivered(read.value)], if out.Ok? then Ok(()) else Err(Handler(Text(out.error))))
    case Layer(mw, op, inner) =>
      var run := Invoke(inner, msg, send);
      Run([Pre(mw, op, msg)] + run.events + [Post(mw, op, msg)], run.result)
  }

  function Reverse<T>(s: seq<T>): (r: seq<T>)
    ensures |r| == |s|
    ensures forall i :: 0 <= i < |s| ==> r[i] == s[|s| - 1 - i]
  {
    if s == [] then [] else Reverse(s[1..]) + [s[0]]
  }

  /** A left fold wrapping the accumulated handler in each middleware in turn. */
  function FoldLayers(op: string, acc: TransportHandler, mws: seq<Middleware>): TransportHandler
    decreases |mws|
  {
    if mws == [] then acc else FoldLayers(op, Layer(mws[0], op, acc), mws[1..])
  }

  /** `apply_middleware`: fold over the reversed list, which nests the first middleware outermost. */
  function ApplyMiddleware(op: string, h: TransportHandler, mws: seq<Middleware>): (r: TransportHandler)
    ensures r == Nested(op, h, mws)
  {
    ReverseFoldIsNested(op, h, mws);
    FoldLayers(op, h, Reverse(mws))
  }

  /** Right-nested application: the first middleware outermost. */
  function Nested(op: string, h: TransportHandler, mws: seq<Middleware>): TransportHandler
    decreases |mws|
  {
    if mws == [] then h else Layer(mws[0], op, Nested(op, h, mws[1..]))
  }

  /** The labels of the layers at the top of a handler, outermost first. */
  function Labels(h: TransportHandler): seq<string>
  {
    if h.Layer? then [h.op] + Labels(h.inner) else []
  }

  /** The middleware events before the core runs, outermost first. */
  function Pres(mws: seq<Middleware>, op: string, msg: NatsMessage): (r: seq<Event>)
    ensures |r| == |mws|
    ensures forall i :: 0 <= i < |mws| ==> r[i] == Pre(mws[i], op, msg)
  {
    if mws == [] then [] else [Pre(mws[0], op, msg)] + Pres(mws[1..], op, msg)
  }

  /** The middleware events after the core returns, innermost first. */
  function Posts(mws: seq<Middleware>, op: string, msg: NatsMessage): (r: seq<Event>)
    ensures |r| == |mws|
    ensures forall i :: 0 <= i < |mws| ==> r[i] == Post(mws[|mws| - 1 - i], op, msg)
  {
    if mws == [] then [] else Posts(mws[1..], op, msg) + [Post(mws[0], op, msg)]
  }

  lemma {:induction false} NestedSnoc(op: string, h: TransportHandler, mws: seq<Middleware>, last: Middleware)
    ensures Nested(op, Layer(last, op, h), mws) == Nested(op, h, mws + [last])
    decreases |mws|
  {
    if mws != [] {
      NestedSnoc(op, h, mws[1..], last);
      assert (mws + [last])[1..] == mws[1..] + [last];
    }
  }

  /** Folding over the reversed list equals right-nested application. */
  lemma {:induction false} ReverseFoldIsNested(op: string, h: TransportHandler, mws: seq<Middleware>)
    ensures FoldLayers(op, h, Reverse(mws)) == Nested(op, h, mws)
    decreases |mws|
  {
    if mws != [] {
      var init, last := mws[..|mws| - 1], mws[|mws| - 1];
      assert mws == init + [last];
      assert Reverse(mws) == [last] + Reverse(init);
      calc {
        FoldLayers(op, h, Reverse(mws));
        FoldLayers(op, Layer(last, op, h), Reverse(init));
        { ReverseFoldIsNested(op, Layer(last, op, h), init); }
        Nested(op, Layer(last, op, h), init);
        { NestedSnoc(op, h, init, last); }
        Nested(op, h, mws);
      }
    }
  }

  /** No middleware leaves the handler itself; `[A, B]` gives `A(op, B(op, h))`. */
  lemma ApplySmall(op: string, h: TransportHandler, a: Middleware, b: Middleware)
    ensures ApplyMiddleware(op, h, []) == h
    ensures ApplyMiddleware(op, h, [a]) == Layer(a, op, h)
    ensures ApplyMiddleware(op, h, [a, b]) == Layer(a, op, Layer(b, op, h))
  {
    assert Nested(op, h, [a]) == Layer(a, op, Nested(op, h, []));
    assert [a, b][1..] == [b];
    assert Nested(op, h, [a, b]) == Layer(a, op, Nested(op, h, [b]));
    assert Nested(op, h, [b]) == Layer(b, op, Nested(op, h, []));
  }

  /** Every middleware in the list is applied, in order, under the same operation label. */
  lemma {:induction false} ApplyLabels(op: string, h: TransportHandler, mws: seq<Middleware>)
    requires !h.Layer?
    ensures Labels(ApplyMiddleware(op, h, mws)) == seq(|mws|, i => op)
    decreases |mws|
  {
    NestedLabels(op, h, mws);
  }

  lemma {:induction false} NestedLabels(op: string, h: TransportHandler, mws: seq<Middleware>)
    requires !h.Layer?
    ensures Labels(Nested(op, h, mws)) == seq(|mws|, i => op)
    decreases |mws|
  {
    if mws != [] {
      NestedLabels(op, h, mws[1..]);
    }
  }

  /**
   * Invoking the composed handler runs every middleware's before-event
   * outermost first, then the core, then the after-events innermost first;
   * the result is the core's.
   */
  lemma {:induction false} InvokeApplied(op: string, h: TransportHandler, mws: seq<Middleware>, msg: NatsMessage, send: Sender)
    ensures Invoke(ApplyMiddleware(op, h, mws), msg, send) ==
      Run(Pres(mws, op, msg) + Invoke(h, msg, send).events + Posts(mws, op, msg), Invoke(h, msg, send).result)
  {
    InvokeNested(op, h, mws, msg, send);
  }

  lemma {:induction false} InvokeNested(op: string, h: TransportHandler, mws: seq<Middleware>, msg: NatsMessage, send: Sender)
    ensures Invoke(Nested(op, h, mws), msg, send) ==
      Run(Pres(mws, op, msg) + Invoke(h, msg, send).events + Posts(mws, op, msg), Invoke(h, msg, send).result)
    decreases |mws|
  {
    if mws != [] {
      InvokeNested(op, h, mws[1..], msg, send);
      var core := Invoke(h, msg, send).events;
      var pre, post := Pre(mws[0], op, msg), Post(mws[0], op, msg);
      assert Pres(mws, op, msg) == [pre] + Pres(mws[1..], op, msg);
      assert Posts(mws, op, msg) == Posts(mws[1..], op, msg) + [post];
      Regroup(pre, Pres(mws[1..], op, msg), core, Posts(mws[1..], op, msg), post);
    }
  }

  lemma Regroup<T>(a: T, p: seq<T>, c: seq<T>, q: seq<T>, b: T)
    ensures [a] + (p + c + q) + [b] == ([a] + p) + c + (q + [b])
  {
  }

  /** For `[A, B]` around `H`: A-before, B-before, H, B-after, A-after. */
  lemma InvokeTwo(op: string, h: TransportHandler, a: Middleware, b: Middleware, msg: NatsMessage, send: Sender)
    ensures Invoke(ApplyMiddleware(op, h, [a, b]), msg, send).events ==
      [Pre(a, op, msg), Pre(b, op, msg)] + Invoke(h, msg, send).events + [Post(b, op, msg), Post(a, op, msg)]
    ensures Invoke(ApplyMiddleware(op, h, [a, b]), msg, send).result == Invoke(h, msg, send).result
  {
    InvokeApplied(op, h, [a, b], msg, send);
  }

  /**
   * The tracing middleware hands the same message to the inner handler and
   * returns its result unchanged; its span carries system "nats", the label
   * and the subject, with the parent taken from the headers when present.
   */
  lemma TracingPassThrough(op: string, inner: TransportHandler, msg: NatsMessage, send: Sender)
    ensures var run := Invoke(Layer(Tracing, op, inner), msg, send);
      && run.result == Invoke(inner, msg, send).result
      && run.events == [SpanOpened(TraceScope(op, msg))] + Invoke(inner, msg, send).events + [SpanClosed(TraceScope(op, msg))]
      && TraceScope(op, msg).system == "nats"
      && TraceScope(op, msg).operation == op
      && TraceScope(op, msg).destination == msg.subject
      && TraceScope(op, msg).parent == (if msg.headers.Some? then ExtractedFrom(msg.headers.value) else EmptyContext)
  {
  }
}
