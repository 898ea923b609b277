/**
  The HTTP vocabulary shared by the handlers, the session lookup and the probes:
  bytes of header values, the status codes the handlers answer with, and the
  outcome of one timed GET request, which stands in for the HTTP client.
 */
module Http {
  import opened Wrappers

  newtype byte = x: int | 0 <= x < 256

  /** The raw bytes of one header value. */
  type HeaderValue = seq<byte>

  const OK: int := 200
  const FOUND: int := 302
  const UNAUTHORIZED: int := 401
  const NOT_FOUND: int := 404
  const INTERNAL_SERVER_ERROR: int := 500

  /** A success-class status, 200 through 299: the codes whose hundreds digit is 2. */
  predicate IsSuccess(code: int)
    ensures IsSuccess(code) <==> code / 100 == 2
    ensures IsSuccess(code) ==> code != FOUND && code != NOT_FOUND && code != INTERNAL_SERVER_ERROR
  {
    200 <= code <= 299
  }

  /** A failure of the request itself: connection refused, the 10-second timeout, and the like. */
  datatype ProbeError = RequestFailed

  /** What one GET of a target produced: a response with its status code, or a transport error. */
  datatype ProbeOutcome = Responded(code: int) | TransportError

  /** The probe oracle: the outcome and the wall-clock latency the caller measured around it. */
  datatype Probe = Probe(outcome: ProbeOutcome, latency: real)

  /** A byte the header library accepts in a textual header value: visible ASCII or a tab. */
  predicate IsVisibleAscii(b: byte) {
    b == 9 || 32 <= b < 127
  }

  /** `HeaderValue::to_str`: the value as text when every byte is visible ASCII, otherwise an error. */
  function HeaderToStr(v: HeaderValue): (s: Option<string>)
    ensures s.Some? <==> forall i :: 0 <= i < |v| ==> IsVisibleAscii(v[i])
    ensures s.Some? ==> |s.value| == |v| && forall i :: 0 <= i < |v| ==> s.value[i] as int == v[i] as int
  {
    if forall i :: 0 <= i < |v| ==> IsVisibleAscii(v[i]) then
      Some(seq(|v|, i requires 0 <= i < |v| => (v[i] as int) as char))
    else
      None
  }

  /** The bytes a client sends for an ASCII text. */
  function AsciiBytes(s: string): (v: HeaderValue)
    requires forall i :: 0 <= i < |s| ==> s[i] as int < 128
    ensures |v| == |s| && forall i :: 0 <= i < |s| ==> v[i] as int == s[i] as int
  {
    seq(|s|, i requires 0 <= i < |s| => (s[i] as int) as byte)
  }

  /** Text made of visible ASCII survives the trip through header bytes unchanged. */
  lemma HeaderRoundTrip(s: string)
    requires forall i :: 0 <= i < |s| ==> 32 <= s[i] as int < 127
    ensures HeaderToStr(AsciiBytes(s)) == Some(s)
  {
    var v := AsciiBytes(s);
    assert forall i :: 0 <= i < |v| ==> IsVisibleAscii(v[i]);
    var t := HeaderToStr(v).value;
    assert |t| == |s|;
    forall i | 0 <= i < |s| ensures t[i] == s[i] {
      assert t[i] as int == s[i] as int;
    }
    assert t == s;
  }
}
