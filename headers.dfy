/**
 * The bridges between a NATS header map and the trace-context propagator
 * (libs/messaging/src/nats/headers.rs). A header map carries one value per
 * name here: the code only ever `insert`s, which replaces earlier values.
 */
module Headers {
  import opened Wrappers

  type HeaderMap = map<string, string>

  /** What the driver's header-name parser (`HeaderName::from_str`) says of a string. */
  datatype NameCheck = Valid | Invalid(reason: string)
  type NameParser = string -> NameCheck

  /** The map `NatsHeaderInjector::set(key, value)` leaves behind. */
  function Injected(h: HeaderMap, key: string, value: string, names: NameParser): (r: HeaderMap)
    ensures names(key).Valid? ==> r.Keys == h.Keys + {key} && r[key] == value
    ensures names(key).Invalid? ==> r == h
    ensures forall k :: k in h && k != key ==> k in r && r[k] == h[k]
  {
    if names(key).Valid? then h[key := value] else h
  }

  /** The map after the propagator has called `set` once per field, in order. */
  function InjectAll(h: HeaderMap, fields: seq<(string, string)>, names: NameParser): (r: HeaderMap)
    ensures h.Keys <= r.Keys
    ensures forall k :: k in r ==> k in h || exists i :: 0 <= i < |fields| && fields[i].0 == k && names(k).Valid?
    ensures forall k :: k in h && (forall i :: 0 <= i < |fields| ==> fields[i].0 != k) ==> r[k] == h[k]
    decreases |fields|
  {
    if fields == [] then h
    else
      var last := fields[|fields| - 1];
      Injected(InjectAll(h, fields[..|fields| - 1], names), last.0, last.1, names)
  }

  /** `NatsHeaderInjector`: a propagator sink that writes into a header map in place. */
  class Injector {
    var headers: HeaderMap

    constructor (headers: HeaderMap)
      ensures this.headers == headers
    {
      this.headers := headers;
    }

    /** Insert the field when its name is a valid header name; otherwise drop it silently. */
    method Set(key: string, value: string, names: NameParser)
      modifies this
      ensures headers == Injected(old(headers), key, value, names)
    {
      if names(key).Valid? {
        headers := headers[key := value];
      }
    }
  }

  /** `NatsHeaderExtractor::get`: the stored value of a present name, `None` otherwise. */
  function Get(h: HeaderMap, key: string): (r: Option<string>)
    ensures r.Some? <==> key in h
    ensures r.Some? ==> r.value == h[key]
  {
    if key in h then Some(h[key]) else None
  }

  /** `NatsHeaderExtractor::keys`: every header name once, in the map's iteration order. */
  method Keys(h: HeaderMap) returns (ks: seq<string>)
    ensures forall k :: k in ks <==> k in h
    ensures forall i, j :: 0 <= i < j < |ks| ==> ks[i] != ks[j]
  {
    ks := [];
    var pending := h.Keys;
    while pending != {}
      invariant pending <= h.Keys
      invariant forall k :: k in ks <==> k in h && k !in pending
      invariant forall i, j :: 0 <= i < j < |ks| ==> ks[i] != ks[j]
      decreases pending
    {
      var k :| k in pending;
      ks := ks + [k];
      pending := pending - {k};
    }
  }
}
