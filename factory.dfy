/**
 * The message factory (libs/messaging/src/nats/factory.rs): subject
 * prefixing, outbound header construction and inbound parsing.
 */
module Factory {
  import opened Wrappers
  import opened Errors
  import opened Envelope
  import opened Headers

  /**
   * The connection configuration the client reads. The struct in the
   * configuration crate shows only `enabled` and `url`; the client also reads
   * the prefix, the ping interval (seconds) and the reconnect policy.
   */
  datatype NatsConfig = NatsConfig(
    enabled: bool,
    url: Option<string>,
    basePath: string,
    pingInterval: nat,
    allowReconnect: bool,
    maxReconnects: int)

  /** The service name written into `from`, and the shared configuration. */
  datatype MessageFactory = MessageFactory(name: string, cfg: NatsConfig)

  /** The fields of a driver message this layer sets or reads. */
  datatype NatsMessage = NatsMessage(
    subject: string,
    reply: Option<string>,
    payload: Bytes,
    headers: Option<HeaderMap>)

  /**
   * What header construction reads from ambient state: the clock, already
   * formatted as RFC 3339 with nanoseconds in UTC; the fields the global
   * propagator injects for the current span, in the order it sets them; and
   * the driver's header-name parser.
   */
  datatype Ambient = Ambient(clock: string, traceFields: seq<(string, string)>, names: NameParser)

  const UserIdHeader := "user_id"
  const FromHeader := "from"
  const StartTimeHeader := "start_time"
  const SystemActor := "system"

  /** The fully qualified subject for a pattern: prefixed unless `base_path` is empty. */
  function Subject(f: MessageFactory, pattern: string): (s: string)
    ensures f.cfg.basePath == "" ==> s == pattern
    ensures f.cfg.basePath != "" ==> s == f.cfg.basePath + "." + pattern
  {
    if f.cfg.basePath == "" then pattern else f.cfg.basePath + "." + pattern
  }

  /** `insert_header`: insert under a valid name, or fail with a `Publish` error naming the key. */
  function InsertHeader(h: HeaderMap, key: string, value: string, names: NameParser): (r: Result<HeaderMap, MessagingError>)
    ensures r.Ok? <==> names(key).Valid?
    ensures r.Ok? ==> r.value == h[key := value]
    ensures r.Err? ==> r.error == Publish("invalid header name " + key + ": " + names(key).reason)
  {
    match names(key)
    case Valid => Ok(h[key := value])
    case Invalid(reason) => Err(Publish("invalid header name " + key + ": " + reason))
  }

  /** The three standard headers, inserted in order; the first failing insert ends the build. */
  function StandardHeaders(f: MessageFactory, actor: Option<string>, amb: Ambient): (r: Result<HeaderMap, MessagingError>)
    ensures r.Ok? <==> amb.names(UserIdHeader).Valid? && amb.names(FromHeader).Valid? && amb.names(StartTimeHeader).Valid?
    ensures r.Ok? ==> r.value == map[UserIdHeader := actor.GetOr(SystemActor), FromHeader := f.name, StartTimeHeader := amb.clock]
  {
    var h1 :- InsertHeader(map[], UserIdHeader, actor.GetOr(SystemActor), amb.names);
    var h2 :- InsertHeader(h1, FromHeader, f.name, amb.names);
    InsertHeader(h2, StartTimeHeader, amb.clock, amb.names)
  }

  /** The caller attributes whose names the driver accepts; the others are skipped. */
  function ValidAttrs(attrs: Attrs, names: NameParser): (r: HeaderMap)
    ensures forall k :: k in r <==> k in attrs && names(k).Valid?
    ensures forall k :: k in r ==> r[k] == attrs[k]
  {
    map k | k in attrs && names(k).Valid? :: attrs[k]
  }

  /**
   * The header map `build_headers` produces: standard headers, then the
   * injected trace fields, then the caller attributes, each later write
   * replacing an earlier one under the same name.
   */
  function OutboundHeaders(f: MessageFactory, actor: Option<string>, attrs: Attrs, amb: Ambient): Result<HeaderMap, MessagingError>
  {
    var std :- StandardHeaders(f, actor, amb);
    Ok(InjectAll(std, amb.traceFields, amb.names) + ValidAttrs(attrs, amb.names))
  }

  /** `build_headers`, step by step on a local header map. */
  method BuildHeaders(f: MessageFactory, actor: Option<string>, attrs: Attrs, amb: Ambient) returns (r: Result<HeaderMap, MessagingError>)
    ensures r == OutboundHeaders(f, actor, attrs, amb)
  {
    var headers: HeaderMap := map[];
    var step := InsertHeader(headers, UserIdHeader, actor.GetOr(SystemActor), amb.names);
    if step.Err? {
      return Err(step.error);
    }
    headers := step.value;
    step := InsertHeader(headers, FromHeader, f.name, amb.names);
    if step.Err? {
      return Err(step.error);
    }
    headers := step.value;
    step := InsertHeader(headers, StartTimeHeader, amb.clock, amb.names);
    if step.Err? {
      return Err(step.error);
    }
    headers := step.value;
    assert StandardHeaders(f, actor, amb) == Ok(headers);
    // The propagator writes its fields through an injector over the same map.
    var sink := new Injector(headers);
    InjectTrace(sink, amb.traceFields, amb.names);
    headers := InsertAttrs(sink.headers, attrs, amb.names);
    return Ok(headers);
  }

  /** The propagator's writes, one `set` per field in order. */
  method InjectTrace(sink: Injector, fields: seq<(string, string)>, names: NameParser)
    modifies sink
    ensures sink.headers == InjectAll(old(sink.headers), fields, names)
  {
    ghost var start := sink.headers;
    for i := 0 to |fields|
      invariant sink.headers == InjectAll(start, fields[..i], names)
    {
      sink.Set(fields[i].0, fields[i].1, names);
      assert fields[..i + 1][..i] == fields[..i];
    }
    assert fields[..|fields|] == fields;
  }

  /** The loop over the caller attributes, in the map's iteration order; a failed insert is ignored. */
  method InsertAttrs(headers: HeaderMap, attrs: Attrs, names: NameParser) returns (r: HeaderMap)
    ensures r == headers + ValidAttrs(attrs, names)
  {
    r := headers;
    var pending := attrs.Keys;
    while pending != {}
      invariant pending <= attrs.Keys
      invariant r == headers + ValidAttrs(attrs - pending, names)
      decreases pending
    {
      var k :| k in pending;
      var res := InsertHeader(r, k, attrs[k], names);
      AttrStep(headers, attrs, pending, k, names);
      if res.Ok? {
        r := res.value;
      }
      pending := pending - {k};
    }
    assert attrs - pending == attrs;
  }

  /** One more attribute moves from pending to done. */
  lemma AttrStep(headers: HeaderMap, attrs: Attrs, pending: set<string>, k: string, names: NameParser)
    requires k in pending && pending <= attrs.Keys
    ensures names(k).Valid? ==>
      headers + ValidAttrs(attrs - (pending - {k}), names) == (headers + ValidAttrs(attrs - pending, names))[k := attrs[k]]
    ensures names(k).Invalid? ==>
      headers + ValidAttrs(attrs - (pending - {k}), names) == headers + ValidAttrs(attrs - pending, names)
  {
    var done, next := attrs - pending, attrs - (pending - {k});
    assert next == done[k := attrs[k]];
    var v, w := ValidAttrs(done, names), ValidAttrs(next, names);
    if names(k).Valid? {
      assert w == v[k := attrs[k]];
    } else {
      assert w == v;
    }
  }

  /** `build_msg`: the prefixed subject, the payload as given, no reply subject, the built headers. */
  method BuildMsg(f: MessageFactory, pattern: string, actor: Option<string>, data: Bytes, attrs: Attrs, amb: Ambient)
    returns (r: Result<NatsMessage, MessagingError>)
    ensures OutboundHeaders(f, actor, attrs, amb).Err? ==> r == Err(OutboundHeaders(f, actor, attrs, amb).error)
    ensures OutboundHeaders(f, actor, attrs, amb).Ok? ==>
      r == Ok(NatsMessage(Subject(f, pattern), None, data, Some(OutboundHeaders(f, actor, attrs, amb).value)))
  {
    var subject := Subject(f, pattern);
    var headers :- BuildHeaders(f, actor, attrs, amb);
    return Ok(NatsMessage(subject, None, data, Some(headers)));
  }

  /** `read_message`: the subject verbatim as topic, the payload as data, every header as an attribute. */
  function ReadMessage(msg: NatsMessage): (r: Result<Message, MessagingError>)
    ensures r.Ok?
    ensures r.value.topic == msg.subject && r.value.data == msg.payload
    ensures msg.headers.None? ==> r.value.attrs == map[]
    ensures msg.headers.Some? ==> r.value.attrs == msg.headers.value
  {
    var attrs := match msg.headers
      case None => map[]
      case Some(h) => map k | k in h && Get(h, k).Some? :: Get(h, k).value;
    Ok(Message(msg.subject, msg.payload, attrs))
  }

  /** A parent trace context: the one the propagator extracts from a header map, or a fresh empty one. */
  datatype TraceContext = ExtractedFrom(headers: HeaderMap) | EmptyContext

  /** `extract_trace_context`: read the parent from the headers, when there are any. */
  function ExtractTraceContext(msg: NatsMessage): (c: TraceContext)
    ensures msg.headers.Some? ==> c == ExtractedFrom(msg.headers.value)
    ensures msg.headers.None? ==> c == EmptyContext
  {
    match msg.headers
    case Some(h) => ExtractedFrom(h)
    case None => EmptyContext
  }

  /** Header construction fails exactly when a standard name is refused, with the first refusal. */
  lemma OutboundHeadersFailure(f: MessageFactory, actor: Option<string>, attrs: Attrs, amb: Ambient)
    ensures OutboundHeaders(f, actor, attrs, amb).Err? <==> StandardHeaders(f, actor, amb).Err?
    ensures amb.names(UserIdHeader).Invalid? ==>
      OutboundHeaders(f, actor, attrs, amb) == Err(Publish("invalid header name " + UserIdHeader + ": " + amb.names(UserIdHeader).reason))
    ensures amb.names(UserIdHeader).Valid? && amb.names(FromHeader).Invalid? ==>
      OutboundHeaders(f, actor, attrs, amb) == Err(Publish("invalid header name " + FromHeader + ": " + amb.names(FromHeader).reason))
    ensures amb.names(UserIdHeader).Valid? && amb.names(FromHeader).Valid? && amb.names(StartTimeHeader).Invalid? ==>
      OutboundHeaders(f, actor, attrs, amb) == Err(Publish("invalid header name " + StartTimeHeader + ": " + amb.names(StartTimeHeader).reason))
  {
  }

  /**
   * On success the three standard names are always present; each carries its
   * standard value unless a trace field or a valid caller attribute of the
   * same name was written after it.
   */
  lemma StandardHeaderValues(f: MessageFactory, actor: Option<string>, attrs: Attrs, amb: Ambient, key: string)
    requires OutboundHeaders(f, actor, attrs, amb).Ok?
    requires key in {UserIdHeader, FromHeader, StartTimeHeader}
    requires forall i :: 0 <= i < |amb.traceFields| ==> amb.traceFields[i].0 != key
    requires !(key in attrs && amb.names(key).Valid?)
    ensures var h := OutboundHeaders(f, actor, attrs, amb).value;
      && UserIdHeader in h && FromHeader in h && StartTimeHeader in h
      && (key == UserIdHeader ==> h[key] == actor.GetOr(SystemActor))
      && (key == FromHeader ==> h[key] == f.name)
      && (key == StartTimeHeader ==> h[key] == amb.clock)
  {
  }

  /** A valid caller attribute always wins; an invalid one neither fails the build nor appears. */
  lemma CallerAttrsLast(f: MessageFactory, actor: Option<string>, attrs: Attrs, amb: Ambient, key: string)
    requires StandardHeaders(f, actor, amb).Ok?
    ensures OutboundHeaders(f, actor, attrs, amb).Ok?
    ensures key in attrs && amb.names(key).Valid? ==> OutboundHeaders(f, actor, attrs, amb).value[key] == attrs[key]
    ensures amb.names(key).Invalid? ==>
      var without := InjectAll(StandardHeaders(f, actor, amb).value, amb.traceFields, amb.names);
      (key in OutboundHeaders(f, actor, attrs, amb).value <==> key in without) &&
      (key in without ==> OutboundHeaders(f, actor, attrs, amb).value[key] == without[key])
  {
  }

  /**
   * Parsing what was built, as a subscriber receives it, gives back the
   * payload exactly, the prefixed subject, the standard headers and every
   * caller attribute the driver accepted.
   */
  lemma BuildThenRead(f: MessageFactory, pattern: string, actor: Option<string>, data: Bytes, attrs: Attrs, amb: Ambient)
    requires OutboundHeaders(f, actor, attrs, amb).Ok?
    ensures var m := ReadMessage(NatsMessage(Subject(f, pattern), None, data, Some(OutboundHeaders(f, actor, attrs, amb).value))).value;
      && m.data == data
      && m.topic == Subject(f, pattern)
      && UserIdHeader in m.attrs && FromHeader in m.attrs && StartTimeHeader in m.attrs
      && (forall k :: k in attrs && amb.names(k).Valid? ==> k in m.attrs && m.attrs[k] == attrs[k])
  {
  }
}
