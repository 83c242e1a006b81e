/** The transport-agnostic message envelope (libs/messaging/src/message.rs). */
module Envelope {
  import opened Wrappers
  import opened Errors

  newtype byte = x: int | 0 <= x < 256
  type Bytes = seq<byte>
  type Attrs = map<string, string>

  /** A topic, an opaque payload and string metadata; keys are unique. */
  datatype Message = Message(topic: string, data: Bytes, attrs: Attrs)

  /** `Message::new`: the given topic and payload, no attributes. */
  function New(topic: string, data: Bytes): (m: Message)
    ensures m.topic == topic && m.data == data
    ensures forall k :: Attr(m, k) == None
  {
    Message(topic, data, map[])
  }

  /**
   * `with_attr`: the envelope with `key` bound to `value`. The Rust method
   * takes the message by value, so its in-place insert cannot be observed
   * through any other name and a new value models it exactly.
   */
  function WithAttr(m: Message, key: string, value: string): (r: Message)
    ensures r.topic == m.topic && r.data == m.data
    ensures Attr(r, key) == Some(value)
    ensures forall k :: k != key ==> Attr(r, k) == Attr(m, k)
  {
    m.(attrs := m.attrs[key := value])
  }

  /** `attr`: the value bound to `key`, if any. */
  function Attr(m: Message, key: string): (r: Option<string>)
    ensures r.Some? <==> key in m.attrs
    ensures r.Some? ==> r.value == m.attrs[key]
  {
    if key in m.attrs then Some(m.attrs[key]) else None
  }

  /**
   * `json`: decode the payload. The JSON decoder is a parameter; its error
   * text becomes a `Deserialization` error.
   */
  function DecodeJson<T>(m: Message, decode: Bytes -> Result<T, string>): (r: Result<T, MessagingError>)
    ensures r.Ok? <==> decode(m.data).Ok?
    ensures r.Ok? ==> r.value == decode(m.data).value
    ensures r.Err? ==> r.error == Deserialization(decode(m.data).error)
  {
    match decode(m.data)
    case Ok(v) => Ok(v)
    case Err(e) => Err(Deserialization(e))
  }

  /**
   * `from_json`: an envelope around an encoded payload. `encoded` is the
   * outcome of the JSON encoder; its failure becomes a `Serialization` error.
   */
  function FromJson(topic: string, encoded: Result<Bytes, string>): (r: Result<Message, MessagingError>)
    ensures r.Ok? <==> encoded.Ok?
    ensures r.Err? ==> r.error == Serialization(encoded.error)
    ensures r.Ok? ==> r.value.topic == topic && r.value.data == encoded.value && r.value.attrs == map[]
  {
    match encoded
    case Ok(data) => Ok(New(topic, data))
    case Err(e) => Err(Serialization(e))
  }
}
