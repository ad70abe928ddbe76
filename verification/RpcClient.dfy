/** The client of an RPC session, facing a peer that may send anything. */
module RpcClient {
  import opened Wrappers
  import opened Integers
  import opened FrameValue
  import opened FrameCodec
  import opened RpcId
  import opened RpcProtocol
  import opened PublicKeyLine
  import opened ExecArgv

  datatype SendError = TooLarge | PipeClosed

  /** The pipes of the child process: what was sent whole, and what was read. A frame longer
      than a line may be does not fit; any other write may fail unless the pipe is reliable. */
  class RpcProcess {
    ghost var written: seq<Frame>
    ghost var received: seq<Incoming>
    var open: bool
    const fits: Frame -> bool
    const reliable: bool

    constructor (fits: Frame -> bool, reliable: bool)
      ensures written == [] && received == [] && open && this.fits == fits && this.reliable == reliable
    {
      written, received, open := [], [], true;
      this.fits, this.reliable := fits, reliable;
    }

    /** Whatever the peer sends; a frame that arrives has been decoded. */
    method ReadFrame() returns (incoming: Incoming)
      modifies this`received
      ensures received == old(received) + [incoming]
      ensures incoming.Arrived? ==> WellFormed(incoming.frame)
    {
      incoming := *;
      if incoming.Arrived? && !WellFormed(incoming.frame) {
        incoming := Garbled;
      }
      received := received + [incoming];
    }

    method WriteFrame(frame: Frame) returns (failure: Option<SendError>)
      modifies this`written
      ensures failure.Some? ==> written == old(written)
      ensures failure == None ==> open && fits(frame) && written == old(written) + [frame]
      ensures failure == Some(TooLarge) <==> open && !fits(frame)
      ensures reliable && open && fits(frame) ==> failure == None
    {
      if !open {
        return Some(PipeClosed);
      }
      if !fits(frame) {
        return Some(TooLarge);
      }
      var fails: bool := *;
      if fails && !reliable {
        return Some(PipeClosed);
      }
      written := written + [frame];
      return None;
    }

    method Abort()
      modifies this`open
      ensures !open
    {
      open := false;
    }
  }

  /** What a typed method makes of the data it gets. */
  datatype Verdict = Accept | Malformed | InvalidManifest

  predicate IsRequestWithId(f: Frame, id: string) {
    f.Request? && f.id == id
  }

  /** The opening hello, then requests numbered from one. */
  ghost predicate Numbered(written: seq<Frame>) {
    && written != [] && written[0].ClientHello?
    && forall i :: 1 <= i < |written| ==> IsRequestWithId(written[i], RequestId(i))
  }

  /** What a caller can observe of a session. */
  datatype Session = Session(nextId: nat, terminated: bool, written: seq<Frame>, received: seq<Incoming>)

  /** What one attempt to read means for the request `id` and for the session. `judge` is
      the method's opinion of the data. */
  ghost predicate Outcome(id: string, incoming: Incoming, judge: Value -> Verdict, r: Result<Value, ErrorCode>,
      live: bool)
  {
    match incoming
    case Ended => r == Err(SessionLost) && !live
    case Broken => r == Err(SessionLost) && !live
    case Garbled => r == Err(ProtocolMalformed) && !live
    case Arrived(frame) =>
      if frame.Response? && frame.id == id && frame.ok && frame.data.Some? && frame.errors == [] then
        match judge(frame.data.value)
        case Accept => r == Ok(frame.data.value) && live
        case Malformed => r == Err(ProtocolMalformed) && !live
        case InvalidManifest => r == Err(ManifestInvalid) && !live
      else if frame.Response? && frame.id == id && !frame.ok && SaysExecutionFailed(frame.errors) then
        r == Err(RemoteExecutionFailed) && live
      else if frame.ErrorFrame? && frame.id == id && frame.errors != []
        && frame.errors[0].code == "protocol.incompatible" then
        r == Err(ProtocolIncompatible) && !live
      else r == Err(ProtocolMalformed) && !live
  }

  predicate SaysExecutionFailed(errors: seq<Diagnostic>) {
    errors == [Diagnostic("remote.execution_failed", "the worker could not complete the RPC method", None)]
  }

  ghost predicate NothingSent(pre: Session, post: Session) {
    post.terminated && post.written == pre.written && post.received == pre.received
  }

  /** One request: it is sent and one attempt to read decides its outcome, or it cannot be
      sent and the session ends. */
  ghost predicate Requested(pre: Session, post: Session, process: RpcProcess, method_: string, params: Value,
      judge: Value -> Verdict, r: Result<Value, ErrorCode>)
  {
    var request := Frame.Request(RequestId(pre.nextId), method_, params);
    if pre.terminated then post == pre && r == Err(SessionLost)
    else if pre.nextId == MAX_U64 || !process.fits(request) then
      NothingSent(pre, post) && r == Err(ProtocolMalformed)
    else
      || (!process.reliable && NothingSent(pre, post) && r == Err(SessionLost))
      || (&& post.written == pre.written + [request] && |post.received| == |pre.received| + 1
          && post.received[..|pre.received|] == pre.received
          && Outcome(request.id, post.received[|pre.received|], judge, r, !post.terminated))
  }

  /** A terminated session does nothing; a live one sends at most the next request, and
      stays live after an error exactly when the error is the peer's failure to execute. */
  ghost predicate Exchange(pre: Session, post: Session, r: Result<Value, ErrorCode>) {
    && (pre.terminated ==> post == pre && r == Err(SessionLost))
    && (post.terminated <==> pre.terminated || (r.Err? && r.error != RemoteExecutionFailed))
    && (r.Err? ==> r.error != UsageInvalidArgument)
    && (post.written == pre.written
        || (!pre.terminated && |post.written| == |pre.written| + 1 && post.written[..|pre.written|] == pre.written
            && IsRequestWithId(post.written[|pre.written|], RequestId(pre.nextId))))
    && (!post.terminated ==> post.nextId == pre.nextId + 1 && |post.written| == |pre.written| + 1)
  }

  /** The same for a typed method, which may also reject its own argument, before sending
      anything. */
  ghost predicate Call<T>(pre: Session, post: Session, r: Result<T, ErrorCode>) {
    && (r == Err(UsageInvalidArgument) ==> post == pre)
    && (pre.terminated ==> post == pre && r.Err?)
    && (post.terminated <==>
        pre.terminated || (r.Err? && r.error != RemoteExecutionFailed && r.error != UsageInvalidArgument))
    && (post.written == pre.written
        || (!pre.terminated && |post.written| == |pre.written| + 1 && post.written[..|pre.written|] == pre.written
            && IsRequestWithId(post.written[|pre.written|], RequestId(pre.nextId))))
    && pre.written <= post.written
  }

  class Client {
    const process: RpcProcess
    const hello: Frame
    var nextId: U64
    var terminated: bool

    ghost predicate Valid()
      reads this, process
    {
      && hello.ServerHello? && 1 <= nextId && (terminated <==> !process.open)
      && Numbered(process.written) && |process.written| <= nextId && (!terminated ==> |process.written| == nextId)
    }

    ghost function State(): Session
      reads this, process
    {
      Session(nextId, terminated, process.written, process.received)
    }

    constructor (process: RpcProcess, hello: Frame)
      requires hello.ServerHello? && process.open && |process.written| == 1 && process.written[0].ClientHello?
      ensures Valid() && !terminated && nextId == 1 && this.process == process && this.hello == hello
    {
      this.process := process;
      this.hello := hello;
      this.nextId := 1;
      this.terminated := false;
    }

    /** RpcClient::terminate */
    method Terminate()
      requires hello.ServerHello? && 1 <= nextId && Numbered(process.written) && |process.written| <= nextId
      requires terminated ==> !process.open
      modifies this`terminated, process`open
      ensures Valid() && terminated
    {
      if !terminated {
        process.Abort();
        terminated := true;
      }
    }

    /** RpcClient::request: one request, one answer, or the end of the session. */
    method Request(method_: string, params: Value) returns (r: Result<Value, ErrorCode>)
      requires Valid()
      modifies this`nextId, this`terminated, process
      ensures Valid() && Exchange(old(State()), State(), r)
      ensures Requested(old(State()), State(), process, method_, params, _ => Accept, r)
    {
      hide WellFormed, RequestId, Answer, Outcome;
      if terminated {
        return Err(SessionLost);
      }
      var id := RequestId(nextId);
      if nextId == MAX_U64 {
        Terminate();
        return Err(ProtocolMalformed);
      }
      nextId := nextId + 1;
      var failure := process.WriteFrame(Frame.Request(id, method_, params));
      if failure.Some? {
        Terminate();
        return Err(if failure.value == PipeClosed then SessionLost else ProtocolMalformed);
      }
      var incoming := process.ReadFrame();
      r := Answer(id, incoming);
      if r.Err? && r.error != RemoteExecutionFailed {
        Terminate();
      }
      AnswerIsOutcome(id, incoming);
    }

    /** The common shape of the typed methods: ask, then judge the data. */
    method Ask(method_: string, params: Value, judge: Value -> Verdict) returns (r: Result<Value, ErrorCode>)
      requires Valid()
      modifies this`nextId, this`terminated, process
      ensures Valid() && Call(old(State()), State(), r) && r != Err(UsageInvalidArgument)
      ensures Requested(old(State()), State(), process, method_, params, judge, r)
    {
      hide WellFormed, RequestId, Numbered;
      var data :- Request(method_, params);
      match judge(data) {
        case Accept =>
          return Ok(data);
        case Malformed =>
          Terminate();
          return Err(ProtocolMalformed);
        case InvalidManifest =>
          Terminate();
          return Err(ManifestInvalid);
      }
    }

    /** RpcClient::machine_manifest */
    method MachineManifest(judge: Value -> Verdict) returns (r: Result<Value, ErrorCode>)
      requires Valid()
      modifies this`nextId, this`terminated, process
      ensures Valid() && Call(old(State()), State(), r)
      ensures Requested(old(State()), State(), process, "machine.manifest", Object(map[]), judge, r)
    {
      r := Ask("machine.manifest", Object(map[]), judge);
    }

    /** RpcClient::machine_status */
    method MachineStatus(judge: Value -> Verdict) returns (r: Result<Value, ErrorCode>)
      requires Valid()
      modifies this`nextId, this`terminated, process
      ensures Valid() && Call(old(State()), State(), r)
      ensures Requested(old(State()), State(), process, "machine.status", Object(map[]), judge, r)
    {
      r := Ask("machine.status", Object(map[]), judge);
    }

    /** RpcClient::machine_doctor */
    method Doctor(key: string, validKey: KeyFields -> bool, judge: Value -> Verdict)
      returns (r: Result<Value, ErrorCode>)
      requires Valid()
      modifies this`nextId, this`terminated, process
      ensures Valid() && Call(old(State()), State(), r)
      ensures r == Err(UsageInvalidArgument) <==> Canonical(key, validKey) == None
      ensures Canonical(key, validKey).Some? ==>
        Requested(old(State()), State(), process, "machine.doctor",
          Object(map[Other("authorized_public_key") := String(Canonical(key, validKey).value)]), judge, r)
    {
      var canonical := Canonical(key, validKey);
      if canonical == None {
        return Err(UsageInvalidArgument);
      }
      r := Ask("machine.doctor", Object(map[Other("authorized_public_key") := String(canonical.value)]), judge);
    }

    /** RpcClient::exec */
    method Exec(argv: seq<string>, secret: string -> bool, judge: Value -> Verdict)
      returns (r: Result<Value, ErrorCode>)
      requires Valid()
      modifies this`nextId, this`terminated, process
      ensures Valid() && Call(old(State()), State(), r)
      ensures r == Err(UsageInvalidArgument) <==> !ValidArgv(argv, secret)
      ensures ValidArgv(argv, secret) ==>
        Requested(old(State()), State(), process, "exec.run", Object(map[Other("argv") := ArgvValue(argv)]), judge, r)
    {
      var ok := ValidateExecArgv(argv, secret);
      if !ok {
        return Err(UsageInvalidArgument);
      }
      r := Ask("exec.run", Object(map[Other("argv") := ArgvValue(argv)]), judge);
    }
  }

  /** incompatible_server_hello_diagnostic */
  function IncompatibleDiagnostic(hello: Frame): Diagnostic
    requires hello.ServerHello?
  {
    Diagnostic(
      CodeText(ProtocolIncompatible),
      "controller protocol range [" + Decimal(PROTOCOL_MIN) + ", " + Decimal(PROTOCOL_MAX)
        + "], worker protocol range [" + Decimal(hello.protocolMin) + ", " + Decimal(hello.protocolMax)
        + "], controller manifest schema " + Decimal(MANIFEST_SCHEMA_VERSION)
        + ", worker manifest schema " + Decimal(hello.schemaVersion),
      None)
  }

  ghost predicate HasCommon(hello: Frame)
    requires hello.ServerHello?
  {
    exists p: U32 :: Common(hello, p)
  }

  /** Why a session does not begin, by what the peer said first; `fits` tells whether the
      answering hello fits. */
  ghost predicate ConnectFails(first: Incoming, preHello: ErrorCode, fits: bool, reliable: bool, error: ErrorCode) {
    match first
    case Broken => error == SessionLost
    case Garbled => error == ProtocolMalformed
    case Ended => error == preHello
    case Arrived(hello) =>
      if !hello.ServerHello? then error == ProtocolMalformed
      else if !HasCommon(hello) then error == ProtocolIncompatible
      else if !fits then error == ProtocolMalformed
      else error == SessionLost && !reliable
  }

  /** The error frame that tells the peer of `hello` why the two do not match. */
  function Explanation(hello: Frame): Frame
    requires hello.ServerHello?
  {
    ErrorFrame("hello", [Diagnostic("protocol.incompatible",
      "controller protocol range [" + Decimal(1) + ", " + Decimal(1)
        + "], worker protocol range [" + Decimal(hello.protocolMin) + ", " + Decimal(hello.protocolMax)
        + "], controller manifest schema " + Decimal(1)
        + ", worker manifest schema " + Decimal(hello.schemaVersion), None)])
  }

  lemma DiagnosticExplains(hello: Frame)
    requires hello.ServerHello?
    ensures ErrorFrame("hello", [IncompatibleDiagnostic(hello)]) == Explanation(hello)
  {
    hide Decimal;
  }

  /** What the peer is told then: only an incompatible hello is answered, if the pipe works. */
  ghost predicate Told(first: Incoming, process: RpcProcess, written: seq<Frame>) {
    if first.Arrived? && first.frame.ServerHello? && !HasCommon(first.frame) then
      var farewell := Explanation(first.frame);
      || (written == [] && !(process.reliable && process.fits(farewell)))
      || (written == [farewell] && process.fits(farewell))
    else written == []
  }

  /** RpcClient::connect. `preHello` is the code reported when the peer closes first. */
  method Connect(process: RpcProcess, version: string, preHello: ErrorCode) returns (r: Result<Client, ErrorCode>)
    requires process.open && process.written == []
    modifies process`written, process`received
    ensures r.Ok? ==>
      && fresh(r.value) && r.value.process == process && r.value.Valid() && !r.value.terminated && r.value.nextId == 1
      && process.received == old(process.received) + [Arrived(r.value.hello)]
      && process.written == [ClientHello(PROTOCOL_MAX, version)] && Common(r.value.hello, PROTOCOL_MAX)
    ensures |process.received| == |old(process.received)| + 1
    ensures r.Err? ==>
      var first := process.received[|old(process.received)|];
      && ConnectFails(first, preHello, process.fits(ClientHello(PROTOCOL_MAX, version)), process.reliable, r.error)
      && Told(first, process, process.written)
  {
    hide Explanation, IncompatibleDiagnostic;
    var incoming := process.ReadFrame();
    match incoming {
      case Broken => return Err(SessionLost);
      case Garbled => return Err(ProtocolMalformed);
      case Ended => return Err(preHello);
      case Arrived(hello) =>
        if !hello.ServerHello? {
          return Err(ProtocolMalformed);
        }
        NegotiateMeans(hello);
        var protocol := Negotiate(hello);
        if protocol.Err? {
          DiagnosticExplains(hello);
          var _ := process.WriteFrame(ErrorFrame("hello", [IncompatibleDiagnostic(hello)]));
          return Err(protocol.error);
        }
        var failure := process.WriteFrame(ClientHello(protocol.value, version));
        if failure.Some? {
          return Err(if failure.value == PipeClosed then SessionLost else ProtocolMalformed);
        }
        var client := new Client(process, hello);
        return Ok(client);
    }
  }

  // ---------------------------------------------------------------- what every answer means

  /** Data and non-fatal failures come from the response to the outstanding request only. */
  lemma AnswerComesFromItsResponse(id: string, incoming: Incoming)
    ensures forall v :: Answer(id, incoming) == Ok(v) <==> incoming == Arrived(Response(id, true, Some(v), []))
    ensures Answer(id, incoming) == Err(RemoteExecutionFailed) <==>
      exists data :: incoming == Arrived(Response(id, false, data, [REMOTE_FAILURE]))
    ensures Answer(id, incoming) != Err(UsageInvalidArgument)
  {
    if Answer(id, incoming) == Err(RemoteExecutionFailed) {
      assert incoming.frame.errors == [REMOTE_FAILURE];
      assert incoming == Arrived(Response(id, false, incoming.frame.data, [REMOTE_FAILURE]));
    }
  }

  /** What the client makes of an attempt to read is its outcome, and ends the session unless
      it is data or the failure to execute. */
  lemma AnswerIsOutcome(id: string, incoming: Incoming)
    ensures var r := Answer(id, incoming);
      && Outcome(id, incoming, _ => Accept, r, r.Ok? || r.error == RemoteExecutionFailed)
      && r != Err(UsageInvalidArgument)
  {
    if incoming.Arrived? && !incoming.frame.ServerHello? && !incoming.frame.ClientHello? && !incoming.frame.Request? {
      var errors := incoming.frame.errors;
      assert IsRemoteFailure(errors) <==> errors == [REMOTE_FAILURE];
    }
  }

  // ---------------------------------------------------------------- whole sessions

  /** The states a caller sees between the typed calls of one session. */
  ghost predicate IsSession(states: seq<Session>, results: seq<Result<Value, ErrorCode>>) {
    && |states| == |results| + 1
    && forall i :: 0 <= i < |results| ==> Call(states[i], states[i + 1], results[i])
  }

  /** Termination is final: the session stays terminated, nothing more is ever written, and
      every later call fails. */
  lemma {:induction false} TerminationIsFinal(states: seq<Session>, results: seq<Result<Value, ErrorCode>>, i: nat,
      j: nat)
    requires IsSession(states, results) && i <= j < |states| && states[i].terminated
    ensures states[j] == states[i] && forall k :: i <= k < j ==> results[k].Err?
    decreases j - i
  {
    if i < j {
      TerminationIsFinal(states, results, i, j - 1);
    }
  }

  /** A session is terminated exactly when some call failed with an error other than the
      peer's failure to execute and the caller's invalid argument. */
  lemma {:induction false} TerminatedIff(states: seq<Session>, results: seq<Result<Value, ErrorCode>>, j: nat)
    requires IsSession(states, results) && j < |states| && !states[0].terminated
    ensures states[j].terminated <==>
      exists k :: 0 <= k < j && results[k].Err? && results[k].error != RemoteExecutionFailed
        && results[k].error != UsageInvalidArgument
    decreases j
  {
    if j > 0 {
      TerminatedIff(states, results, j - 1);
      assert Call(states[j - 1], states[j], results[j - 1]);
    }
  }

  /** No two requests of a session carry the same identifier. */
  lemma IdentifiersAreNotReused(written: seq<Frame>, i: nat, j: nat)
    requires Numbered(written) && 1 <= i < |written| && 1 <= j < |written|
    requires written[i].id == written[j].id
    ensures i == j
  {
    assert IsRequestWithId(written[i], RequestId(i)) && IsRequestWithId(written[j], RequestId(j));
    RequestIdIsInjective(i, j);
  }
}
