/** An honest client and an honest server joined by two streams of frames. Module FrameCodec
    shows that a well-formed frame is read as it was written, and module FrameStream that a
    stream of lines is read in order, so the streams carry frames here. */
module RpcSession {
  import opened Wrappers
  import opened FrameValue
  import opened FrameCodec
  import opened RpcId
  import opened RpcProtocol
  import opened RpcServer
  import opened PublicKeyLine
  import opened ExecArgv
  import RpcClient

  datatype ClientPhase = Greeting | Idle(next: nat) | Waiting(next: nat) | Gone

  /** `asked` and `answered` are the requests written and the responses read so far. */
  datatype System = System(
    client: ClientPhase, server: Phase, toServer: seq<Frame>, toClient: seq<Frame>,
    asked: seq<Frame>, answered: seq<Frame>)

  /** The worker's hello fits the frame format, its protocol is ours, and its handlers
      produce data. Its size test may be any. */
  ghost predicate HonestWorker(w: Worker) {
    && w.hello.ServerHello? && WellFormed(w.hello)
    && w.hello.protocolMin == PROTOCOL_MIN && w.hello.protocolMax == PROTOCOL_MAX
    && w.hello.schemaVersion == MANIFEST_SCHEMA_VERSION
    && forall n :: w.outcome(n).Some? ==> w.outcome(n).value != Null
  }

  /** The requests the typed methods of the client build. */
  ghost predicate ClientBuilt(w: Worker, method_: string, params: Value) {
    || ((method_ == "machine.manifest" || method_ == "machine.status") && params == Object(map[]))
    || (method_ == "machine.doctor" && exists line :: CarriesKey(w, params, line))
    || (method_ == "exec.run" && exists argv :: CarriesArgv(w, params, argv))
  }

  predicate CarriesKey(w: Worker, params: Value, line: string) {
    && Canonical(line, w.validKey).Some?
    && params == Object(map[Other("authorized_public_key") := String(Canonical(line, w.validKey).value)])
  }

  predicate CarriesArgv(w: Worker, params: Value, argv: seq<string>) {
    ValidArgv(argv, w.secret) && params == Object(map[Other("argv") := ArgvValue(argv)])
  }

  function Start(w: Worker): System {
    System(Greeting, AwaitingHello, [], [w.hello], [], [])
  }

  // ---------------------------------------------------------------- steps

  ghost predicate ClientGreets(w: Worker, version: string, s: System, t: System) {
    && s.client.Greeting? && s.toClient != [] && s.toClient[0].ServerHello?
    && match Negotiate(s.toClient[0])
       case Ok(p) =>
         t == s.(client := Idle(1), toClient := s.toClient[1..], toServer := s.toServer + [ClientHello(p, version)])
       case Err(_) => t == s.(client := Gone, toClient := s.toClient[1..])
  }

  ghost predicate ClientAsks(w: Worker, s: System, t: System) {
    && s.client.Idle? && s.client.next < MAX_U64
    && exists m, params :: ClientBuilt(w, m, params) && Asked(s, t, Request(RequestId(s.client.next), m, params))
  }

  ghost predicate Asked(s: System, t: System, request: Frame)
    requires s.client.Idle?
  {
    t == s.(client := Waiting(s.client.next), toServer := s.toServer + [request], asked := s.asked + [request])
  }

  /** The answer keeps the session, unless the client dislikes its data or its form. */
  ghost predicate ClientReads(s: System, t: System) {
    && s.client.Waiting? && s.toClient != []
    && var r := Answer(RequestId(s.client.next), Arrived(s.toClient[0]));
       var read := s.(toClient := s.toClient[1..], answered := s.answered + [s.toClient[0]]);
       || ((r.Ok? || r.error == RemoteExecutionFailed) && t == read.(client := Idle(s.client.next + 1)))
       || (r != Err(RemoteExecutionFailed) && t == read.(client := Gone))
  }

  /** The client finishes, or its pipes fail. */
  ghost predicate ClientLeaves(s: System, t: System) {
    t == s.(client := Gone)
  }

  ghost predicate ServerReads(w: Worker, s: System, t: System) {
    && !s.server.Stopped? && s.toServer != []
    && var r := React(w, s.server, Arrived(s.toServer[0]));
       t == s.(server := r.phase, toServer := s.toServer[1..], toClient := s.toClient + r.output)
  }

  /** Once the client is gone the server sees the end of its input, or loses its output. */
  ghost predicate ServerStops(w: Worker, s: System, t: System) {
    && s.client.Gone? && !s.server.Stopped?
    && (|| (s.toServer == [] && t == s.(server := React(w, s.server, Ended).phase))
        || t == s.(server := Stopped(Err(SessionLost))))
  }

  ghost predicate Step(w: Worker, version: string, s: System, t: System) {
    || ClientGreets(w, version, s, t) || ClientAsks(w, s, t) || ClientReads(s, t) || ClientLeaves(s, t)
    || ServerReads(w, s, t) || ServerStops(w, s, t)
  }

  ghost predicate IsRun(w: Worker, version: string, states: seq<System>) {
    && states != [] && states[0] == Start(w)
    && forall i :: 0 <= i < |states| - 1 ==> Step(w, version, states[i], states[i + 1])
  }

  // ---------------------------------------------------------------- the invariant

  ghost predicate IsAsked(w: Worker, f: Frame, n: nat) {
    f.Request? && f.id == RequestId(n) && ClientBuilt(w, f.method_, f.params)
  }

  predicate IsAnswer(f: Frame, n: nat) {
    f.Response? && f.id == RequestId(n) && WellFormed(f) && (!f.ok ==> f == FailureResponse(RequestId(n)))
  }

  ghost predicate Numbered(w: Worker, asked: seq<Frame>) {
    |asked| < MAX_U64 && forall i :: 0 <= i < |asked| ==> IsAsked(w, asked[i], i + 1)
  }

  predicate Answers(frames: seq<Frame>) {
    forall i :: 0 <= i < |frames| ==> IsAnswer(frames[i], i + 1)
  }

  /** Nobody has read the hello yet. */
  predicate Unread(w: Worker, s: System) {
    && (s.client.Greeting? || s.client.Gone?) && s.toClient == [w.hello] && s.toServer == [] && s.asked == []
      && s.answered == []
    && (s.server.AwaitingHello?
      || (s.client.Gone? && (s.server == Stopped(Ok(())) || s.server == Stopped(Err(SessionLost)))))
  }

  /** What the server still has to read, and what it has answered. */
  ghost predicate InFlight(version: string, s: System) {
    var answers := s.answered + s.toClient;
    match s.server
    case AwaitingHello => answers == [] && s.toServer == [ClientHello(PROTOCOL_MAX, version)] + s.asked
    case Serving(k) => 1 <= k <= |s.asked| + 1 && |answers| == k - 1 && s.toServer == s.asked[k - 1..]
    case Stopped(r) => s.client.Gone? && (r == Ok(()) || r == Err(SessionLost))
  }

  ghost predicate ClientInStep(s: System) {
    match s.client
    case Greeting => false
    case Idle(n) => 1 <= n && |s.asked| == n - 1 == |s.answered|
    case Waiting(n) => 1 <= n && |s.asked| == n == |s.answered| + 1
    case Gone => true
  }

  ghost predicate Inv(w: Worker, version: string, s: System) {
    || Unread(w, s)
    || (&& Numbered(w, s.asked) && Answers(s.answered + s.toClient)
        && InFlight(version, s) && ClientInStep(s))
  }

  // ---------------------------------------------------------------- both sides understand each other

  lemma {:induction false} AllStringsAreRead(items: seq<Value>)
    requires forall i :: 0 <= i < |items| ==> items[i].String?
    ensures StringsOf(items).Some?
  {
    if items != [] {
      AllStringsAreRead(items[1..]);
    }
  }

  lemma StringsAreRead(argv: seq<string>)
    ensures StringsOf(ArgvValue(argv).items) == Some(argv)
  {
    hide StringsOf;
    var items := ArgvValue(argv).items;
    AllStringsAreRead(items);
    assert forall i :: 0 <= i < |items| ==> items[i] == String(argv[i]);
    assert StringsOf(items).value == argv;
  }

  lemma OnlyMemberIs(name: string, v: Value)
    ensures OnlyMember(Object(map[Other(name) := v]), name) == Some(v)
  {
    assert map[Other(name) := v].Keys == {Other(name)};
  }

  /** Every request the client builds is understood by the server: the vector it accepted
      is accepted again, and its canonical key is canonical. */
  lemma BuiltIsUnderstood(w: Worker, method_: string, params: Value)
    requires ClientBuilt(w, method_, params)
    ensures Understood(w, method_, params)
  {
    hide Canonical, ValidArgv;
    if method_ == "machine.doctor" {
      var line :| CarriesKey(w, params, line);
      CanonicalIsStable(line, w.validKey);
      OnlyMemberIs("authorized_public_key", String(Canonical(line, w.validKey).value));
    } else if method_ == "exec.run" {
      var argv :| CarriesArgv(w, params, argv);
      StringsAreRead(argv);
      OnlyMemberIs("argv", ArgvValue(argv));
    }
  }

  /** The server's reply to the `n`-th request is a well-formed answer to it. */
  lemma ReplyIsAnswer(w: Worker, n: nat, method_: string, params: Value)
    requires HonestWorker(w) && 0 < n <= MAX_U64 && Handle(w, n, method_, params) != Malformed
    ensures IsAnswer(Reply(w, RequestId(n), Handle(w, n, method_, params)), n)
  {
    hide RequestId, Understood, IsControllerId, Utf8Len, ValidDiagnostic;
    RequestIdIsControllerId(n);
    RemoteFailureIsValid();
  }

  /** The client takes an answer to its outstanding request as data or as a failure that
      leaves the session alive. */
  lemma AnswerIsTaken(f: Frame, n: nat)
    requires IsAnswer(f, n)
    ensures Answer(RequestId(n), Arrived(f)).Ok? || Answer(RequestId(n), Arrived(f)) == Err(RemoteExecutionFailed)
  {
    hide RequestId, IsControllerId, Utf8Len, ValidDiagnostics;
  }

  // ---------------------------------------------------------------- the invariant is kept

  lemma StartIsInvariant(w: Worker, version: string)
    ensures Inv(w, version, Start(w))
  {
  }

  lemma GreetingKeepsInv(w: Worker, version: string, s: System, t: System)
    requires HonestWorker(w) && Inv(w, version, s) && ClientGreets(w, version, s, t)
    ensures Inv(w, version, t)
  {
    hide WellFormed;
    assert Unread(w, s);
    assert Negotiate(w.hello) == Ok(PROTOCOL_MAX);
    assert t.toServer == [ClientHello(PROTOCOL_MAX, version)] + t.asked;
    assert t.answered + t.toClient == [];
  }

  lemma NumberedGrows(w: Worker, asked: seq<Frame>, request: Frame)
    requires Numbered(w, asked) && |asked| + 1 < MAX_U64 && IsAsked(w, request, |asked| + 1)
    ensures Numbered(w, asked + [request])
  {
    hide IsAsked;
  }

  lemma AskingKeepsInv(w: Worker, version: string, s: System, t: System)
    requires Inv(w, version, s) && ClientAsks(w, s, t)
    ensures Inv(w, version, t)
  {
    hide ClientBuilt, RequestId, IsAnswer, Numbered;
    var n := s.client.next;
    var m, params :| ClientBuilt(w, m, params) && Asked(s, t, Request(RequestId(n), m, params));
    var request := Request(RequestId(n), m, params);
    assert IsAsked(w, request, n);
    NumberedGrows(w, s.asked, request);
    if s.server.Serving? {
      assert s.asked[s.server.next - 1..] + [request] == t.asked[s.server.next - 1..];
    } else {
      var hello := ClientHello(PROTOCOL_MAX, version);
      assert ([hello] + s.asked) + [request] == [hello] + t.asked;
    }
  }

  lemma ReadingKeepsInv(w: Worker, version: string, s: System, t: System)
    requires Inv(w, version, s) && ClientReads(s, t)
    ensures Inv(w, version, t)
  {
    hide ClientBuilt, RequestId, IsAnswer, Answer;
    assert t.answered + t.toClient == s.answered + s.toClient;
  }

  lemma LeavingKeepsInv(w: Worker, version: string, s: System, t: System)
    requires Inv(w, version, s) && ClientLeaves(s, t)
    ensures Inv(w, version, t)
  {
    hide ClientBuilt, RequestId, IsAnswer;
  }

  lemma StoppingKeepsInv(w: Worker, version: string, s: System, t: System)
    requires Inv(w, version, s) && ServerStops(w, s, t)
    ensures Inv(w, version, t)
  {
    hide ClientBuilt, RequestId, IsAnswer;
  }

  lemma ServerGreetedKeepsInv(w: Worker, version: string, s: System, t: System)
    requires Inv(w, version, s) && ServerReads(w, s, t) && s.server.AwaitingHello?
    ensures Inv(w, version, t)
  {
    hide ClientBuilt, RequestId, IsAnswer;
    assert s.toServer[0] == ClientHello(PROTOCOL_MAX, version);
    assert t.toServer == s.asked == s.asked[0..];
    assert t.toClient == s.toClient;
  }

  /** A server that reads the next request answers it. */
  lemma RequestIsAnswered(w: Worker, k: nat, f: Frame)
    requires HonestWorker(w) && 1 <= k < MAX_U64 && IsAsked(w, f, k)
    ensures var r := React(w, Serving(k), Arrived(f));
      r.phase == Serving(k + 1) && |r.output| == 1 && IsAnswer(r.output[0], k)
  {
    hide ClientBuilt, RequestId, IsAnswer, Understood, HonestWorker;
    BuiltIsUnderstood(w, f.method_, f.params);
    ReplyIsAnswer(w, k, f.method_, f.params);
  }

  lemma ServingKeepsInv(w: Worker, version: string, s: System, t: System)
    requires HonestWorker(w) && Inv(w, version, s) && ServerReads(w, s, t) && s.server.Serving?
    ensures Inv(w, version, t)
  {
    hide ClientBuilt, RequestId, IsAnswer, React, HonestWorker;
    var k, request := s.server.next, s.toServer[0];
    assert request == s.asked[k - 1] && IsAsked(w, s.asked[k - 1], k);
    RequestIsAnswered(w, k, request);
    var reply := React(w, s.server, Arrived(request)).output[0];
    var before, after := s.answered + s.toClient, t.answered + t.toClient;
    assert after == before + [reply];
    forall i | 0 <= i < |after|
      ensures IsAnswer(after[i], i + 1)
    {
      if i < |before| {
        assert after[i] == before[i];
      }
    }
    assert t.toServer == t.asked[k..];
  }

  lemma StepKeepsInv(w: Worker, version: string, s: System, t: System)
    requires HonestWorker(w) && Inv(w, version, s) && Step(w, version, s, t)
    ensures Inv(w, version, t)
  {
    hide Inv, ClientGreets, ClientAsks, ClientReads, ClientLeaves, ServerStops, HonestWorker;
    if ClientGreets(w, version, s, t) {
      GreetingKeepsInv(w, version, s, t);
    } else if ClientAsks(w, s, t) {
      AskingKeepsInv(w, version, s, t);
    } else if ClientReads(s, t) {
      ReadingKeepsInv(w, version, s, t);
    } else if ClientLeaves(s, t) {
      LeavingKeepsInv(w, version, s, t);
    } else if ServerStops(w, s, t) {
      StoppingKeepsInv(w, version, s, t);
    } else if s.server.AwaitingHello? {
      ServerGreetedKeepsInv(w, version, s, t);
    } else {
      ServingKeepsInv(w, version, s, t);
    }
  }

  lemma {:induction false} RunsKeepInv(w: Worker, version: string, states: seq<System>, i: nat)
    requires HonestWorker(w) && IsRun(w, version, states) && i < |states|
    ensures Inv(w, version, states[i])
  {
    hide Inv, Step, HonestWorker;
    if i == 0 {
      StartIsInvariant(w, version);
    } else {
      RunsKeepInv(w, version, states, i - 1);
      StepKeepsInv(w, version, states[i - 1], states[i]);
    }
  }

  // ---------------------------------------------------------------- what every run satisfies

  predicate Quiescent(s: System) {
    s.client.Idle? && s.toServer == [] && s.toClient == []
  }

  /** Whenever nothing is in flight, the server expects exactly the client's next
      identifier, and every request has been answered once, by its own identifier. */
  lemma QuiescentInStep(w: Worker, version: string, states: seq<System>, i: nat)
    requires HonestWorker(w) && IsRun(w, version, states) && i < |states| && Quiescent(states[i])
    ensures var s := states[i];
      && s.server == Serving(s.client.next) && |s.asked| == |s.answered|
      && forall k :: 0 <= k < |s.asked| ==>
        s.answered[k].Response? && s.asked[k].Request? && s.answered[k].id == s.asked[k].id
  {
    hide IsRun, HonestWorker, ClientBuilt, RequestId, WellFormed;
    RunsKeepInv(w, version, states, i);
    var s := states[i];
    forall k | 0 <= k < |s.asked|
      ensures s.answered[k].Response? && s.asked[k].Request? && s.answered[k].id == s.asked[k].id
    {
      assert IsAsked(w, s.asked[k], k + 1) && IsAnswer((s.answered + s.toClient)[k], k + 1);
    }
  }

  predicate NoErrorFrame(frames: seq<Frame>) {
    forall f :: f in frames ==> !f.ErrorFrame?
  }

  /** An honest server never sends an error frame to an honest client and never fails with
      a protocol error, whatever the client asks and whenever it leaves. */
  lemma NeverAnErrorFrame(w: Worker, version: string, states: seq<System>, i: nat)
    requires HonestWorker(w) && IsRun(w, version, states) && i < |states|
    ensures NoErrorFrame(states[i].toClient) && NoErrorFrame(states[i].answered)
    ensures states[i].server.Stopped? ==>
      states[i].server.result == Ok(()) || states[i].server.result == Err(SessionLost)
  {
    hide IsRun, ClientBuilt, RequestId, WellFormed;
    RunsKeepInv(w, version, states, i);
    var s := states[i];
    if !Unread(w, s) {
      forall f | f in s.toClient || f in s.answered
        ensures !f.ErrorFrame?
      {
        assert f in s.answered + s.toClient;
        var k :| 0 <= k < |s.answered + s.toClient| && (s.answered + s.toClient)[k] == f;
        assert IsAnswer((s.answered + s.toClient)[k], k + 1);
      }
    }
  }

  /** Lock-step: responses are read in the order of the requests and never ahead of them,
      and only the request being waited for is unanswered. */
  lemma LockStep(w: Worker, version: string, states: seq<System>, i: nat)
    requires HonestWorker(w) && IsRun(w, version, states) && i < |states|
    ensures var s := states[i];
      && (s.client.Idle? ==> |s.asked| == |s.answered| == s.client.next - 1)
      && (s.client.Waiting? ==> |s.asked| == |s.answered| + 1 == s.client.next)
      && (s.client.Waiting? && s.toServer == [] ==> |s.toClient| == 1 && IsAnswer(s.toClient[0], s.client.next))
  {
    hide IsRun, HonestWorker, ClientBuilt, RequestId, IsAnswer;
    RunsKeepInv(w, version, states, i);
    var s := states[i];
    if s.client.Waiting? && s.toServer == [] {
      assert s.server.Serving?;
      assert s.toClient[0] == (s.answered + s.toClient)[|s.answered|];
    }
  }

  /** No honest client is ever forced to terminate: the frame it reads is always taken. */
  lemma EveryAnswerIsTaken(w: Worker, version: string, states: seq<System>, i: nat)
    requires HonestWorker(w) && IsRun(w, version, states) && i < |states|
    requires states[i].client.Waiting? && states[i].toClient != []
    ensures var r := Answer(RequestId(states[i].client.next), Arrived(states[i].toClient[0]));
      r.Ok? || r == Err(RemoteExecutionFailed)
  {
    hide IsRun, HonestWorker, ClientBuilt, RequestId, IsAnswer, Answer;
    RunsKeepInv(w, version, states, i);
    var s := states[i];
    assert s.toClient[0] == (s.answered + s.toClient)[|s.answered|];
    AnswerIsTaken(s.toClient[0], s.client.next);
  }

  lemma AskedIsWellFormed(w: Worker, f: Frame, n: nat)
    requires IsAsked(w, f, n) && 0 < n <= MAX_U64
    ensures WellFormed(f)
  {
    hide RequestId, IsControllerId, Utf8Len, Canonical, ValidArgv;
    RequestIdIsControllerId(n);
    Utf8AtMost(f.method_);
  }

  /** Everything in flight to a live peer is a well-formed frame, so that it is read as it
      was written. */
  lemma OnlyWellFormedFrames(w: Worker, version: string, states: seq<System>, i: nat)
    requires HonestWorker(w) && IsRun(w, version, states) && i < |states| && Sized(version, MAX_VERSION_BYTES)
    ensures forall f :: f in states[i].toClient ==> WellFormed(f)
    ensures !states[i].server.Stopped? ==> forall f :: f in states[i].toServer ==> WellFormed(f)
  {
    hide IsRun, ClientBuilt, RequestId, WellFormed, Sized;
    RunsKeepInv(w, version, states, i);
    var s := states[i];
    if !Unread(w, s) {
      forall f | f in s.toClient
        ensures WellFormed(f)
      {
        assert f in s.answered + s.toClient;
        var k :| 0 <= k < |s.answered + s.toClient| && (s.answered + s.toClient)[k] == f;
        assert IsAnswer((s.answered + s.toClient)[k], k + 1);
      }
      forall f | !s.server.Stopped? && f in s.toServer
        ensures WellFormed(f)
      {
        if f in s.asked {
          var k :| 0 <= k < |s.asked| && s.asked[k] == f;
          assert IsAsked(w, s.asked[k], k + 1);
          AskedIsWellFormed(w, f, k + 1);
        } else {
          assert f == ClientHello(PROTOCOL_MAX, version);
          HelloIsWellFormed(version);
        }
      }
    }
  }

  lemma HelloIsWellFormed(version: string)
    requires Sized(version, MAX_VERSION_BYTES)
    ensures WellFormed(ClientHello(PROTOCOL_MAX, version))
  {
  }

  // ---------------------------------------------------------------- sides that do not match

  function Farewell(hello: Frame): Frame
    requires hello.ServerHello?
  {
    ErrorFrame("hello", [RpcClient.IncompatibleDiagnostic(hello)])
  }

  lemma IncompatibleCodeIsShort()
    ensures Sized(CodeText(ProtocolIncompatible), MAX_METHOD_BYTES)
  {
    var code := CodeText(ProtocolIncompatible);
    assert code == "protocol.incompatible" && |code| == 21;
    assert forall i :: 0 <= i < |code| ==> code[i] < '\U{80}';
    AsciiLength(code);
  }

  lemma IncompatibleMessageIsShort(hello: Frame)
    requires hello.ServerHello?
    ensures Sized(RpcClient.IncompatibleDiagnostic(hello).message, MAX_DIAGNOSTIC_BYTES)
  {
    hide Decimal, Utf8Len;
    TwentyDigits();
    DecimalLength(PROTOCOL_MIN, 20);
    DecimalLength(hello.protocolMin, 20);
    DecimalLength(hello.protocolMax, 20);
    DecimalLength(hello.schemaVersion, 20);
    Utf8AtMost(RpcClient.IncompatibleDiagnostic(hello).message);
  }

  /** What a client says to an incompatible worker is read as it was written, and ends the
      worker's session well. */
  lemma FarewellIsUnderstood(w: Worker, hello: Frame)
    requires hello.ServerHello?
    ensures DecodeText(Emit(Farewell(hello))) == Ok(Farewell(hello))
    ensures React(w, AwaitingHello, Arrived(Farewell(hello))) == Reaction(Stopped(Ok(())), [])
  {
    hide Utf8Len, DecodeText, Emit, Sized, Decimal;
    HelloIdIsShort();
    IncompatibleCodeIsShort();
    IncompatibleMessageIsShort(hello);
    DecodeInvertsEmit(Farewell(hello));
  }
}
