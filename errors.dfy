/** The error kinds of the messaging library (libs/messaging/src/error.rs). */
module Errors {

  datatype MessagingError =
    | Publish(detail: string)
    | Subscribe(detail: string)
    | Unsubscribe(detail: string)
    | Request(detail: string)
    | Serialization(detail: string)
    | Deserialization(detail: string)
    | Handler(detail: string)
    | Closed

  /** The text `to_string()` gives for each kind, as its `#[error]` attribute writes it. */
  function Text(e: MessagingError): string
  {
    match e
    case Publish(d) => "Publish failed: " + d
    case Subscribe(d) => "Subscribe failed: " + d
    case Unsubscribe(d) => "Unsubscribe failed: " + d
    case Request(d) => "Request failed: " + d
    case Serialization(d) => "Serialization failed: " + d
    case Deserialization(d) => "Deserialization failed: " + d
    case Handler(d) => "Handler error: " + d
    case Closed => "Connection closed"
  }

  /** The fixed start of each kind's text, before its detail. */
  function Prefix(e: MessagingError): string
  {
    match e
    case Publish(_) => "Publish failed: "
    case Subscribe(_) => "Subscribe failed: "
    case Unsubscribe(_) => "Unsubscribe failed: "
    case Request(_) => "Request failed: "
    case Serialization(_) => "Serialization failed: "
    case Deserialization(_) => "Deserialization failed: "
    case Handler(_) => "Handler error: "
    case Closed => "Connection closed"
  }

  /** The detail each kind carries, empty for `Closed`. */
  function Detail(e: MessagingError): string
  {
    if e.Closed? then "" else e.detail
  }

  /** The displayed text identifies the error: no two errors read the same. */
  lemma TextIdentifiesError(a: MessagingError, b: MessagingError)
    requires Text(a) == Text(b)
    ensures a == b
  {
    var t := Text(a);
    TextSplits(a);
    TextSplits(b);
    assert t[..2] == Prefix(a)[..2] && t[..2] == Prefix(b)[..2];
    PrefixesDiffer(a, b);
    assert Detail(a) == t[|Prefix(a)|..] == Detail(b);
  }

  /** Every text is its kind's prefix followed by its detail. */
  lemma TextSplits(e: MessagingError)
    ensures Text(e) == Prefix(e) + Detail(e)
    ensures |Prefix(e)| >= 2
  {
  }

  /** The first two characters of a prefix already tell the kinds apart. */
  lemma PrefixesDiffer(a: MessagingError, b: MessagingError)
    requires |Prefix(a)| >= 2 && |Prefix(b)| >= 2
    requires Prefix(a)[..2] == Prefix(b)[..2]
    ensures Prefix(a) == Prefix(b) && a.Closed? == b.Closed?
  {
    assert Prefix(a)[0] == Prefix(b)[0] && Prefix(a)[1] == Prefix(b)[1];
  }
}
