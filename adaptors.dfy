/**
 * Closure adaptors and the default `publish_json` of the capability
 * interfaces (libs/messaging/src/traits.rs).
 */
module Adaptors {
  import opened Wrappers
  import opened Errors
  import opened Envelope

  /** A domain handler: consumes a message, may produce a reply payload or fail. */
  type HandlerResult = Result<Option<Bytes>, MessagingError>
  type Handler = Message -> HandlerResult

  /** `handler(f)`: a handler from a function that never replies. */
  function AsHandler(f: Message -> Result<(), MessagingError>): (h: Handler)
    ensures forall m :: f(m).Ok? ==> h(m) == Ok(None)
    ensures forall m :: f(m).Err? ==> h(m) == Err(f(m).error)
  {
    m => match f(m) case Ok(_) => Ok(None) case Err(e) => Err(e)
  }

  /** `reply_handler(f)`: `f` itself, boxed as a handler. */
  function AsReplyHandler(f: Handler): (h: Handler)
    ensures forall m :: h(m) == f(m)
  {
    m => f(m)
  }

  /** What a `Publisher::publish` implementation does with (topic, payload, attrs). */
  type PublishFn = (string, Bytes, Attrs) -> Result<(), MessagingError>

  datatype PublishCall = PublishCall(topic: string, data: Bytes, attrs: Attrs)

  /** The outcome of a call, with every `publish` call it made, in order. */
  datatype Published = Published(result: Result<(), MessagingError>, calls: seq<PublishCall>)

  /**
   * `publish_json`: encode, then delegate to `publish` with no attributes.
   * `encoded` is the JSON encoder's outcome for the payload.
   */
  function PublishJson(publish: PublishFn, topic: string, encoded: Result<Bytes, string>): (o: Published)
    ensures encoded.Err? ==> o.result == Err(Serialization(encoded.error)) && o.calls == []
    ensures encoded.Ok? ==> o.calls == [PublishCall(topic, encoded.value, map[])]
    ensures encoded.Ok? ==> o.result == publish(topic, encoded.value, map[])
  {
    match encoded
    case Err(e) => Published(Err(Serialization(e)), [])
    case Ok(data) => Published(publish(topic, data, map[]), [PublishCall(topic, data, map[])])
  }
}
