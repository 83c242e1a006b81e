/**
 * The NATS client (libs/messaging/src/nats/client.rs): connection options,
 * the subject-to-task registry behind subscribe, unsubscribe and close,
 * publish through the middleware chain, request/reply, and the sequential
 * meaning of a subscription's drain loop.
 */
module Client {
  import opened Wrappers
  import opened Errors
  import opened Envelope
  import opened Headers
  import opened Factory
  import opened Adaptors
  import opened Middleware

  /** The reconnect bound handed to the driver, or its default of retrying forever. */
  datatype ReconnectLimit = Limit(n: nat) | Unlimited

  /** The connect options the client sets on the driver. */
  datatype ConnectOptions = ConnectOptions(name: string, pingInterval: nat, maxReconnects: ReconnectLimit)

  /** The connect options, set one after another as `connect` does. */
  method ConnectOptionsFor(name: string, cfg: NatsConfig) returns (opts: ConnectOptions)
    ensures opts.name == name && opts.pingInterval == cfg.pingInterval
    ensures !cfg.allowReconnect ==> opts.maxReconnects == Limit(0)
    ensures cfg.allowReconnect && cfg.maxReconnects >= 0 ==> opts.maxReconnects == Limit(cfg.maxReconnects)
    ensures cfg.allowReconnect && cfg.maxReconnects < 0 ==> opts.maxReconnects == Unlimited
  {
    opts := ConnectOptions(name, cfg.pingInterval, Unlimited);
    if !cfg.allowReconnect {
      opts := opts.(maxReconnects := Limit(0));
    } else if cfg.maxReconnects >= 0 {
      opts := opts.(maxReconnects := Limit(cfg.maxReconnects));
    }
  }

  const MaxReconnectDelay: nat := 8000

  /** The delay in milliseconds before reconnect attempt `attempts`: 100 ms per attempt, capped. */
  function ReconnectDelay(attempts: nat): (ms: nat)
    ensures ms <= MaxReconnectDelay && ms <= attempts * 100
    ensures ms == attempts * 100 || ms == MaxReconnectDelay
  {
    if attempts * 100 < MaxReconnectDelay then attempts * 100 else MaxReconnectDelay
  }

  /** Waiting longer never follows more attempts: the delay grows with the attempt count. */
  lemma ReconnectDelayMonotone(a: nat, b: nat)
    requires a <= b
    ensures ReconnectDelay(a) <= ReconnectDelay(b)
  {
  }

  /** A subscription's drain task, named by an opaque abort handle. */
  type Handle = nat

  /** A spawned drain task: the subject, the messages its stream will yield, the handler it runs. */
  datatype DrainTask = DrainTask(topic: string, stream: seq<NatsMessage>, handler: TransportHandler)

  /** A message the drain loop logs for a failed handler run. */
  datatype LogEntry = HandlerFailed(topic: string, error: MessagingError)

  /** What the driver answered a request with. */
  datatype Reply = Replied(payload: Bytes) | TimedOut | Failed(reason: string)

  /** What a request puts on the wire. */
  datatype OutboundRequest = OutboundRequest(subject: string, payload: Bytes, headers: Option<HeaderMap>)

  /** `wrap_handler`: read the driver message into an envelope and run the domain handler on it. */
  function WrapHandler(handler: Handler): (h: TransportHandler)
    ensures forall msg: NatsMessage, send: Sender {:trigger Invoke(h, msg, send)} ::
      var m := Message(msg.subject, msg.payload, if msg.headers.Some? then msg.headers.value else map[]);
      && Invoke(h, msg, send).events == [Delivered(m)]
      && (handler(m).Ok? ==> Invoke(h, msg, send).result == Ok(()))
      && (handler(m).Err? ==> Invoke(h, msg, send).result == Err(Handler(Text(handler(m).error))))
  {
    Dispatcher(handler)
  }

  /** The entries the drain loop logs for a sequence of handler runs on a topic, in order. */
  function ErrorLog(topic: string, runs: seq<Run>): (log: seq<LogEntry>)
    ensures |log| <= |runs|
    ensures forall e :: e in log ==> e.topic == topic
  {
    if runs == [] then []
    else
      var last := runs[|runs| - 1];
      ErrorLog(topic, runs[..|runs| - 1]) + (if last.result.Err? then [HandlerFailed(topic, last.result.error)] else [])
  }

  /** Every failed run is logged with the topic. */
  lemma {:induction false} ErrorLogComplete(topic: string, runs: seq<Run>)
    ensures forall i :: 0 <= i < |runs| && runs[i].result.Err? ==> HandlerFailed(topic, runs[i].result.error) in ErrorLog(topic, runs)
    decreases |runs|
  {
    if runs != [] {
      var init := runs[..|runs| - 1];
      ErrorLogComplete(topic, init);
      forall i | 0 <= i < |init| && runs[i].result.Err?
        ensures HandlerFailed(topic, runs[i].result.error) in ErrorLog(topic, runs)
      {
        assert runs[i] == init[i];
      }
    }
  }

  /** Every log entry comes from a failed run, so nothing is logged when every run succeeds. */
  lemma {:induction false} ErrorLogSound(topic: string, runs: seq<Run>)
    ensures forall e :: e in ErrorLog(topic, runs) ==> exists i :: 0 <= i < |runs| && runs[i].result == Err(e.error)
    ensures (forall i :: 0 <= i < |runs| ==> runs[i].result.Ok?) ==> ErrorLog(topic, runs) == []
    decreases |runs|
  {
    if runs != [] {
      var init := runs[..|runs| - 1];
      ErrorLogSound(topic, init);
      forall e | e in ErrorLog(topic, runs)
        ensures exists i :: 0 <= i < |runs| && runs[i].result == Err(e.error)
      {
        if e in ErrorLog(topic, init) {
          var i :| 0 <= i < |init| && init[i].result == Err(e.error);
          assert runs[i] == init[i];
        } else {
          assert runs[|runs| - 1].result == Err(e.error);
        }
      }
      if forall i :: 0 <= i < |runs| ==> runs[i].result.Ok? {
        assert forall i :: 0 <= i < |init| ==> init[i] == runs[i];
      }
    }
  }

  /**
   * A drain task run to the end of its stream, one message at a time: every
   * message is handed to the handler in the order the stream yields it, and a
   * failed run is logged and the loop goes on.
   */
  method Drain(task: DrainTask, send: Sender) returns (runs: seq<Run>, log: seq<LogEntry>)
    ensures |runs| == |task.stream|
    ensures forall i :: 0 <= i < |runs| ==> runs[i] == Invoke(task.handler, task.stream[i], send)
    ensures log == ErrorLog(task.topic, runs)
  {
    runs, log := [], [];
    var i := 0;
    while i < |task.stream|
      invariant 0 <= i <= |task.stream|
      invariant |runs| == i
      invariant forall j :: 0 <= j < i ==> runs[j] == Invoke(task.handler, task.stream[j], send)
      invariant log == ErrorLog(task.topic, runs)
    {
      var run := Invoke(task.handler, task.stream[i], send);
      runs := runs + [run];
      assert runs[..|runs| - 1] == runs[..i];
      if run.result.Err? {
        log := log + [HandlerFailed(task.topic, run.result.error)];
      }
      i := i + 1;
    }
  }

  class NatsClient {
    const factory: MessageFactory
    const middlewares: seq<Middleware>
    /** Subject to the abort handle of its drain task. */
    var subscriptions: map<string, Handle>
    /** Every drain task ever spawned, by handle. */
    var tasks: map<Handle, DrainTask>
    /** The handles whose tasks have been aborted. */
    var aborted: set<Handle>
    var nextHandle: nat

    /** Registered and aborted handles name spawned tasks, and handles are never reused. */
    ghost predicate Valid()
      reads this
    {
      && subscriptions.Values <= tasks.Keys
      && aborted <= tasks.Keys
      && (forall h :: h in tasks ==> h < nextHandle)
    }

    /** The client `connect` returns: no subscriptions, nothing spawned. */
    constructor (factory: MessageFactory, middlewares: seq<Middleware>)
      ensures this.factory == factory && this.middlewares == middlewares
      ensures subscriptions == map[] && tasks == map[] && aborted == {} && nextHandle == 0
      ensures Valid()
    {
      this.factory := factory;
      this.middlewares := middlewares;
      subscriptions := map[];
      tasks := map[];
      aborted := {};
      nextHandle := 0;
    }

    /** `spawn_drain`: start a task for the stream and hand back its fresh handle. */
    method SpawnDrain(topic: string, stream: seq<NatsMessage>, handler: TransportHandler) returns (h: Handle)
      requires Valid()
      modifies this
      ensures Valid()
      ensures h !in old(tasks)
      ensures tasks == old(tasks)[h := DrainTask(topic, stream, handler)]
      ensures subscriptions == old(subscriptions) && aborted == old(aborted)
    {
      h := nextHandle;
      tasks := tasks[h := DrainTask(topic, stream, handler)];
      nextHandle := nextHandle + 1;
    }

    /** `cancel_subscription`: remove the subject's entry, if any, and abort exactly its handle. */
    method CancelSubscription(subject: string)
      requires Valid()
      modifies this
      ensures Valid()
      ensures subject in old(subscriptions) ==>
        subscriptions == old(subscriptions) - {subject} && aborted == old(aborted) + {old(subscriptions)[subject]}
      ensures subject !in old(subscriptions) ==> subscriptions == old(subscriptions) && aborted == old(aborted)
      ensures tasks == old(tasks) && nextHandle == old(nextHandle)
    {
      if subject in subscriptions {
        var h := subscriptions[subject];
        subscriptions := subscriptions - {subject};
        aborted := aborted + {h};
      }
    }

    /**
     * Shared by `subscribe` and `queue_subscribe`: on the driver's stream for
     * the prefixed subject, spawn a drain task running the wrapped handler
     * under the middlewares and the given operation label, and register its handle,
     * replacing without aborting any handle already registered there.
     */
    method Register(operation: string, topic: string, handler: Handler, stream: Result<seq<NatsMessage>, string>)
      returns (r: Result<(), MessagingError>)
      requires Valid()
      modifies this
      ensures Valid()
      ensures stream.Err? ==> r == Err(MessagingError.Subscribe(stream.error)) && unchanged(this)
      ensures stream.Ok? ==>
        && r == Ok(())
        && aborted == old(aborted)
        && Subject(factory, topic) in subscriptions
        && var h := subscriptions[Subject(factory, topic)];
           && h !in old(tasks)
           && subscriptions == old(subscriptions)[Subject(factory, topic) := h]
           && tasks == old(tasks)[h := DrainTask(Subject(factory, topic), stream.value,
                                                 ApplyMiddleware(operation, WrapHandler(handler), middlewares))]
    {
      var subject := Subject(factory, topic);
      if stream.Err? {
        return Err(MessagingError.Subscribe(stream.error));
      }
      var transport := ApplyMiddleware(operation, WrapHandler(handler), middlewares);
      var h := SpawnDrain(subject, stream.value, transport);
      subscriptions := subscriptions[subject := h];
      return Ok(());
    }

    /** `subscribe`, under the label "subscriber". */
    method Subscribe(topic: string, handler: Handler, stream: Result<seq<NatsMessage>, string>)
      returns (r: Result<(), MessagingError>)
      requires Valid()
      modifies this
      ensures Valid()
      ensures stream.Err? ==> r == Err(MessagingError.Subscribe(stream.error)) && unchanged(this)
      ensures stream.Ok? ==>
        && r == Ok(())
        && aborted == old(aborted)
        && Subject(factory, topic) in subscriptions
        && var h := subscriptions[Subject(factory, topic)];
           && h !in old(tasks)
           && subscriptions == old(subscriptions)[Subject(factory, topic) := h]
           && tasks == old(tasks)[h := DrainTask(Subject(factory, topic), stream.value,
                                                 ApplyMiddleware("subscriber", WrapHandler(handler), middlewares))]
    {
      r := Register("subscriber", topic, handler, stream);
    }

    /** `queue_subscribe`, under the label "queue_subscribe"; the group only shapes the driver's stream. */
    method QueueSubscribe(topic: string, handler: Handler, stream: Result<seq<NatsMessage>, string>)
      returns (r: Result<(), MessagingError>)
      requires Valid()
      modifies this
      ensures Valid()
      ensures stream.Err? ==> r == Err(MessagingError.Subscribe(stream.error)) && unchanged(this)
      ensures stream.Ok? ==>
        && r == Ok(())
        && aborted == old(aborted)
        && Subject(factory, topic) in subscriptions
        && var h := subscriptions[Subject(factory, topic)];
           && h !in old(tasks)
           && subscriptions == old(subscriptions)[Subject(factory, topic) := h]
           && tasks == old(tasks)[h := DrainTask(Subject(factory, topic), stream.value,
                                                 ApplyMiddleware("queue_subscribe", WrapHandler(handler), middlewares))]
    {
      r := Register("queue_subscribe", topic, handler, stream);
    }

    /** `unsubscribe`: cancel the prefixed subject; always succeeds. */
    method Unsubscribe(topic: string) returns (r: Result<(), MessagingError>)
      requires Valid()
      modifies this
      ensures Valid()
      ensures r == Ok(())
      ensures Subject(factory, topic) in old(subscriptions) ==>
        subscriptions == old(subscriptions) - {Subject(factory, topic)}
        && aborted == old(aborted) + {old(subscriptions)[Subject(factory, topic)]}
      ensures Subject(factory, topic) !in old(subscriptions) ==> subscriptions == old(subscriptions) && aborted == old(aborted)
      ensures tasks == old(tasks)
    {
      CancelSubscription(Subject(factory, topic));
      return Ok(());
    }

    /** `close`: abort every registered handle, clear the registry, then drain the connection. */
    method Close(drained: Result<(), string>) returns (r: Result<(), MessagingError>)
      requires Valid()
      modifies this
      ensures Valid()
      ensures subscriptions == map[]
      ensures aborted == old(aborted) + old(subscriptions).Values
      ensures tasks == old(tasks)
      ensures drained.Ok? ==> r == Ok(())
      ensures drained.Err? ==> r == Err(Closed)
    {
      var pending := subscriptions.Values;
      while pending != {}
        invariant pending <= subscriptions.Values
        invariant aborted == old(aborted) + (subscriptions.Values - pending)
        invariant subscriptions == old(subscriptions) && tasks == old(tasks) && nextHandle == old(nextHandle)
        decreases pending
      {
        var h :| h in pending;
        aborted := aborted + {h};
        pending := pending - {h};
      }
      subscriptions := map[];
      r := if drained.Ok? then Ok(()) else Err(Closed);
    }

    /**
     * `publish`: build the message with no actor, then run the publish core
     * under the middlewares with the label "publish". The core ignores the
     * message it is handed and sends the subject, headers and payload it
     * captured, so the result is the driver's.
     */
    method Publish(topic: string, data: Bytes, attrs: Attrs, amb: Ambient, send: Sender)
      returns (r: Result<(), MessagingError>, run: Run)
      ensures r == run.result
      ensures OutboundHeaders(factory, None, attrs, amb).Err? ==>
        r == Err(OutboundHeaders(factory, None, attrs, amb).error) && run.events == []
      ensures OutboundHeaders(factory, None, attrs, amb).Ok? ==>
        var subject := Subject(factory, topic);
        var headers := Some(OutboundHeaders(factory, None, attrs, amb).value);
        var msg := NatsMessage(subject, None, data, headers);
        && run.events == Pres(middlewares, "publish", msg) + [Sent(subject, headers, data)] + Posts(middlewares, "publish", msg)
        && (send(subject, headers, data).Ok? ==> r == Ok(()))
        && (send(subject, headers, data).Err? ==> r == Err(MessagingError.Publish(send(subject, headers, data).error)))
    {
      var built := BuildMsg(factory, topic, None, data, attrs, amb);
      if built.Err? {
        return Err(built.error), Run([], Err(built.error));
      }
      var msg := built.value;
      var core := Publisher(msg.subject, msg.headers, msg.payload);
      var chained := ApplyMiddleware("publish", core, middlewares);
      InvokeApplied("publish", core, middlewares, msg, send);
      run := Invoke(chained, msg, send);
      r := run.result;
    }

    /**
     * `request`: encode, build the message, send only its payload to the
     * prefixed subject, and decode the reply. Each failure has its own class.
     */
    method Request<R>(topic: string, encoded: Result<Bytes, string>, attrs: Attrs, amb: Ambient,
                      exchange: OutboundRequest -> Reply, decode: Bytes -> Result<R, string>)
      returns (r: Result<R, MessagingError>, sent: Option<OutboundRequest>)
      ensures encoded.Err? ==> r == Err(Serialization(encoded.error)) && sent == None
      ensures encoded.Ok? && OutboundHeaders(factory, None, attrs, amb).Err? ==>
        r == Err(OutboundHeaders(factory, None, attrs, amb).error) && sent == None
      ensures encoded.Ok? && OutboundHeaders(factory, None, attrs, amb).Ok? ==>
        var req := OutboundRequest(Subject(factory, topic), encoded.value, None);
        && sent == Some(req)
        && (exchange(req).TimedOut? ==> r == Err(MessagingError.Request("request timed out")))
        && (exchange(req).Failed? ==> r == Err(MessagingError.Request(exchange(req).reason)))
        && (exchange(req).Replied? && decode(exchange(req).payload).Ok? ==> r == Ok(decode(exchange(req).payload).value))
        && (exchange(req).Replied? && decode(exchange(req).payload).Err? ==>
              r == Err(Deserialization(decode(exchange(req).payload).error)))
    {
      if encoded.Err? {
        return Err(Serialization(encoded.error)), None;
      }
      var built := BuildMsg(factory, topic, None, encoded.value, attrs, amb);
      if built.Err? {
        return Err(built.error), None;
      }
      var req := OutboundRequest(built.value.subject, built.value.payload, None);
      sent := Some(req);
      var reply := exchange(req);
      match reply
      case TimedOut =>
        r := Err(MessagingError.Request("request timed out"));
      case Failed(reason) =>
        r := Err(MessagingError.Request(reason));
      case Replied(payload) =>
        var decoded := decode(payload);
        r := if decoded.Ok? then Ok(decoded.value) else Err(Deserialization(decoded.error));
    }
  }

  /**
   * `connect`: a disabled configuration is refused before dialling; otherwise
   * dial with the mapped options, a failure being reported as `Subscribe`.
   */
  method Connect(name: string, cfg: NatsConfig, middlewares: seq<Middleware>,
                 dial: (ConnectOptions, Option<string>) -> Result<(), string>)
    returns (r: Result<NatsClient, MessagingError>, tried: Option<ConnectOptions>)
    ensures !cfg.enabled ==> r == Err(Closed) && tried == None
    ensures cfg.enabled ==> tried.Some? && tried.value.name == name && tried.value.pingInterval == cfg.pingInterval
    ensures cfg.enabled && !cfg.allowReconnect ==> tried.value.maxReconnects == Limit(0)
    ensures cfg.enabled && cfg.allowReconnect && cfg.maxReconnects >= 0 ==> tried.value.maxReconnects == Limit(cfg.maxReconnects)
    ensures cfg.enabled && cfg.allowReconnect && cfg.maxReconnects < 0 ==> tried.value.maxReconnects == Unlimited
    ensures cfg.enabled && dial(tried.value, cfg.url).Err? ==> r == Err(MessagingError.Subscribe(dial(tried.value, cfg.url).error))
    ensures cfg.enabled && dial(tried.value, cfg.url).Ok? ==>
      && r.Ok? && fresh(r.value) && r.value.Valid()
      && r.value.factory == MessageFactory(name, cfg) && r.value.middlewares == middlewares
      && r.value.subscriptions == map[] && r.value.tasks == map[]
  {
    if !cfg.enabled {
      return Err(Closed), None;
    }
    var opts := ConnectOptionsFor(name, cfg);
    tried := Some(opts);
    var dialled := dial(opts, cfg.url);
    if dialled.Err? {
      return Err(MessagingError.Subscribe(dialled.error)), tried;
    }
    var client := new NatsClient(MessageFactory(name, cfg), middlewares);
    r := Ok(client);
  }
}
