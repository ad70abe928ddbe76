/** What the two sides of an RPC session share: error codes, protocol ranges and the
    reaction of a client to the answer it waits for. */
module RpcProtocol {
  import opened Wrappers
  import opened Integers
  import opened FrameValue
  import opened FrameCodec
  import opened RpcId

  datatype ErrorCode =
    | UsageInvalidArgument | SessionLost | ProtocolIncompatible | ProtocolMalformed | RemoteExecutionFailed
    | ManifestInvalid

  function CodeText(code: ErrorCode): string {
    match code
    case UsageInvalidArgument => "usage.invalid_argument"
    case SessionLost => "transport.session_lost"
    case ProtocolIncompatible => "protocol.incompatible"
    case ProtocolMalformed => "protocol.malformed"
    case RemoteExecutionFailed => "remote.execution_failed"
    case ManifestInvalid => "machine.manifest_invalid"
  }

  const PROTOCOL_MIN: U32 := 1
  const PROTOCOL_MAX: U32 := 1
  const MANIFEST_SCHEMA_VERSION: U64 := 1
  const REMOTE_EXECUTION_FAILED_MESSAGE := "the worker could not complete the RPC method"

  /** One attempt to read a frame: a decoded frame, the end of the stream, a line that is
      no frame, or an I/O error. */
  datatype Incoming = Arrived(frame: Frame) | Ended | Garbled | Broken

  // ---------------------------------------------------------------- protocol ranges

  predicate InRange(p: int, low: U32, high: U32) { low <= p <= high }

  /** highest_protocol_intersection */
  function Intersection(ourLow: U32, ourHigh: U32, theirLow: U32, theirHigh: U32): Option<U32> {
    var low := if ourLow < theirLow then theirLow else ourLow;
    var high := if ourHigh < theirHigh then ourHigh else theirHigh;
    if low <= high then Some(high) else None
  }

  /** The intersection is the highest version both sides speak, when there is one. */
  lemma IntersectionIsHighest(ourLow: U32, ourHigh: U32, theirLow: U32, theirHigh: U32)
    ensures match Intersection(ourLow, ourHigh, theirLow, theirHigh)
      case Some(p) =>
        && InRange(p, ourLow, ourHigh) && InRange(p, theirLow, theirHigh)
        && forall q :: InRange(q, ourLow, ourHigh) && InRange(q, theirLow, theirHigh) ==> q <= p
      case None => forall q :: !(InRange(q, ourLow, ourHigh) && InRange(q, theirLow, theirHigh))
  {
  }

  /** negotiate_server_hello */
  function Negotiate(hello: Frame): Result<U32, ErrorCode>
    requires hello.ServerHello?
  {
    if hello.schemaVersion != MANIFEST_SCHEMA_VERSION then Err(ProtocolIncompatible)
    else
      match Intersection(PROTOCOL_MIN, PROTOCOL_MAX, hello.protocolMin, hello.protocolMax)
      case Some(p) => Ok(p)
      case None => Err(ProtocolIncompatible)
  }

  /** `p` is the highest protocol that both this side and the peer of `hello` speak, and
      their manifests have one schema. */
  ghost predicate Common(hello: Frame, p: int)
    requires hello.ServerHello?
  {
    && hello.schemaVersion == MANIFEST_SCHEMA_VERSION
    && InRange(p, PROTOCOL_MIN, PROTOCOL_MAX) && InRange(p, hello.protocolMin, hello.protocolMax)
    && forall q :: InRange(q, PROTOCOL_MIN, PROTOCOL_MAX) && InRange(q, hello.protocolMin, hello.protocolMax) ==> q <= p
  }

  lemma NegotiateMeans(hello: Frame)
    requires hello.ServerHello?
    ensures forall p: U32 :: Negotiate(hello) == Ok(p) <==> Common(hello, p)
    ensures Negotiate(hello).Err? <==> Negotiate(hello) == Err(ProtocolIncompatible)
  {
    IntersectionIsHighest(PROTOCOL_MIN, PROTOCOL_MAX, hello.protocolMin, hello.protocolMax);
  }

  // ---------------------------------------------------------------- answers

  const REMOTE_FAILURE := Diagnostic(CodeText(RemoteExecutionFailed), REMOTE_EXECUTION_FAILED_MESSAGE, None)

  /** The one answer that fails a request and not the session. */
  function FailureResponse(id: string): Frame {
    Response(id, false, None, [REMOTE_FAILURE])
  }

  /** is_remote_execution_failure */
  predicate IsRemoteFailure(errors: seq<Diagnostic>) {
    |errors| == 1 && errors[0].code == CodeText(RemoteExecutionFailed)
    && errors[0].message == REMOTE_EXECUTION_FAILED_MESSAGE && errors[0].details == None
  }

  /** The code a session ends with when the peer sends an error frame. */
  function RejectionCode(errors: seq<Diagnostic>): ErrorCode {
    if errors != [] && errors[0].code == CodeText(ProtocolIncompatible) then ProtocolIncompatible else ProtocolMalformed
  }

  /** What RpcClient::request makes of the frame it reads while `id` is outstanding. */
  function Answer(id: string, incoming: Incoming): Result<Value, ErrorCode> {
    match incoming
    case Arrived(Response(rid, ok, data, errors)) =>
      if ok && data.Some? && rid == id && errors == [] then Ok(data.value)
      else if !ok && rid == id && IsRemoteFailure(errors) then Err(RemoteExecutionFailed)
      else Err(ProtocolMalformed)
    case Arrived(ErrorFrame(eid, errors)) => if eid == id then Err(RejectionCode(errors)) else Err(ProtocolMalformed)
    case Arrived(_) => Err(ProtocolMalformed)
    case Ended => Err(SessionLost)
    case Garbled => Err(ProtocolMalformed)
    case Broken => Err(SessionLost)
  }

  /** The failure response is accepted by the decoder and fails only its own request. */
  lemma FailureResponseIsNotFatal(id: string, other: string)
    requires IsControllerId(id) && Utf8Len(id) <= MAX_ID_BYTES
    ensures DecodeText(Emit(FailureResponse(id))) == Ok(FailureResponse(id))
    ensures Answer(other, Arrived(FailureResponse(id))) ==
      if other == id then Err(RemoteExecutionFailed) else Err(ProtocolMalformed)
  {
    hide DecodeText, Emit, ValidDiagnostic, Utf8Len, IsControllerId;
    RemoteFailureIsValid();
    DecodeInvertsEmit(FailureResponse(id));
  }

  lemma RemoteFailureIsValid()
    ensures ValidDiagnostic(REMOTE_FAILURE)
  {
    hide Utf8Len;
    var code, message := CodeText(RemoteExecutionFailed), REMOTE_EXECUTION_FAILED_MESSAGE;
    Utf8AtMost(message);
    assert |code| == 23 && |message| == 44;
    CodeTextIsAscii();
    AsciiLength(code);
  }

  lemma CodeTextIsAscii()
    ensures forall i :: 0 <= i < |CodeText(RemoteExecutionFailed)| ==> CodeText(RemoteExecutionFailed)[i] < '\U{80}'
  {
  }

  lemma {:induction false} Utf8AtMost(s: string)
    ensures Utf8Len(s) <= 4 * |s|
  {
    if s != "" {
      Utf8AtMost(s[1..]);
    }
  }
}
