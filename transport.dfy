/** The GET/POST helpers, from the point where the HTTP exchange is over.
    What the network delivered is a parameter; this module states how the
    `{code, data}` envelope and the decoding of `data` turn it into a result. */
module Transport {
  import opened Entities

  /** The envelope every response is wrapped in. */
  datatype Envelope<D> = Envelope(code: int, data: D)

  /** The outcome of one HTTP round trip: an envelope that decoded, or a
      failure to build the request, to send it or to decode the envelope. */
  datatype Delivery<D> = Delivered(envelope: Envelope<D>) | Undelivered

  /** One request/response step of an operation. The envelope's `data` is
      `None` when it does not decode into the shape the caller expects. */
  type Exchange<T> = Delivery<Option<T>>

  /** The envelope check of `get` and `post`: a non-zero code is an API
      error carrying that code, code zero hands `data` back unchanged. */
  function Unwrap<D>(d: Delivery<D>): (r: Result<D>)
    ensures r.Ok? <==> d.Delivered? && d.envelope.code == 0
    ensures r.Ok? ==> r.value == d.envelope.data
    ensures d.Undelivered? ==> r == Err(TransportFailure)
    ensures d.Delivered? && d.envelope.code != 0 ==> r == Err(ApiCode(d.envelope.code))
    ensures r.Err? && r.error.ApiCode? ==> r.error.code != 0
  {
    match d
    case Undelivered => Err(TransportFailure)
    case Delivered(env) => if env.code != 0 then Err(ApiCode(env.code)) else Ok(env.data)
  }

  /** Decoding the payload into the expected entity shape. */
  function DecodeData<T>(res: Result<Option<T>>): (r: Result<T>)
    ensures r.Ok? <==> res.Ok? && res.value.Some?
    ensures r.Ok? ==> r.value == res.value.value
    ensures res.Err? ==> r == Err(res.error)
    ensures res.Ok? && res.value.None? ==> r == Err(Decode)
  {
    match res
    case Err(e) => Err(e)
    case Ok(None) => Err(Decode)
    case Ok(Some(v)) => Ok(v)
  }

  /** A whole step: envelope check, then decoding of its data. */
  function Receive<T>(x: Exchange<T>): (r: Result<T>)
    ensures r.Ok? <==> x.Delivered? && x.envelope.code == 0 && x.envelope.data.Some?
    ensures r.Ok? ==> r.value == x.envelope.data.value
    ensures r.Err? ==> r.error == TransportFailure || r.error == Decode || (r.error.ApiCode? && r.error.code != 0)
  {
    DecodeData(Unwrap(x))
  }
}
