/** The server of an RPC session. */
module RpcServer {
  import opened Wrappers
  import opened Integers
  import opened FrameValue
  import opened FrameCodec
  import opened FrameSize
  import FrameStream
  import MachineUuid
  import opened RpcId
  import opened RpcProtocol
  import opened PublicKeyLine
  import opened ExecArgv

  /** What a handler makes of a request. */
  datatype Handled = Produced(data: Value) | Malformed | Remote

  /** What the worker is and can do: its hello, the judgement of keys and secrets, the
      length of its numbers and its size test for frames, and the outcome of its `n`-th
      well-formed call. */
  datatype Worker = Worker(
    hello: Frame,
    validKey: KeyFields -> bool,
    secret: string -> bool,
    num: Num -> nat,
    fits: Frame -> bool,
    outcome: nat -> Option<Value>)

  /** The size test is the one of FrameWriter: the bytes of the printed frame, with whole
      numbers in decimal, against the limit. */
  ghost predicate RealSizeTest(w: Worker) {
    && (forall n: U64 :: w.num(Natural(n)) == |Decimal(n)|)
    && forall f :: w.fits(f) <==> TextLen(Emit(f), w.num) <= FrameStream.MAX_FRAME_BYTES
  }

  /** A worker as the process starts it. */
  ghost predicate RealWorker(w: Worker) {
    RealSizeTest(w) && w.hello.ServerHello? && WellFormed(w.hello)
  }

  // ---------------------------------------------------------------- handle_request

  function StringsOf(items: seq<Value>): (r: Option<seq<string>>)
    ensures r.Some? ==> |r.value| == |items| && forall i :: 0 <= i < |items| ==> items[i] == String(r.value[i])
  {
    if items == [] then Some([])
    else
      match (items[0], StringsOf(items[1..]))
      case (String(s), Some(rest)) => Some([s] + rest)
      case _ => None
  }

  predicate EmptyParams(params: Value) {
    params.Object? && params.fields == map[]
  }

  /** The only member of `params`, when it is named `name`. */
  function OnlyMember(params: Value, name: string): Option<Value> {
    if params.Object? && params.fields.Keys == {Other(name)} then Some(params.fields[Other(name)]) else None
  }

  predicate Understood(w: Worker, method_: string, params: Value) {
    if method_ == "machine.manifest" || method_ == "machine.status" then EmptyParams(params)
    else if method_ == "machine.doctor" then
      var key := OnlyMember(params, "authorized_public_key");
      key.Some? && key.value.String? && Canonical(key.value.s, w.validKey).Some?
    else if method_ == "exec.run" then
      var argv := OnlyMember(params, "argv");
      argv.Some? && argv.value.Array? && StringsOf(argv.value.items).Some?
        && ValidArgv(StringsOf(argv.value.items).value, w.secret)
    else false
  }

  /** handle_request */
  function Handle(w: Worker, n: nat, method_: string, params: Value): Handled {
    if !Understood(w, method_, params) then Malformed
    else
      match w.outcome(n)
      case Some(data) => Produced(data)
      case None => Remote
  }

  // ---------------------------------------------------------------- one frame at a time

  datatype Phase = AwaitingHello | Serving(next: nat) | Stopped(result: Result<(), ErrorCode>)

  datatype Reaction = Reaction(phase: Phase, output: seq<Frame>)

  function FailureFrame(id: string, code: ErrorCode): Frame {
    var message :=
      if code == ProtocolIncompatible then "the selected RPC protocol is incompatible"
      else "the RPC peer sent a malformed frame";
    ErrorFrame(id, [Diagnostic(CodeText(code), message, None)])
  }

  /** protocol_failure */
  function ProtocolFailure(id: string, code: ErrorCode): Reaction {
    Reaction(Stopped(Err(code)), [FailureFrame(id, code)])
  }

  function HelloReaction(incoming: Incoming): Reaction {
    match incoming
    case Arrived(ClientHello(protocol, _)) =>
      if protocol < PROTOCOL_MIN || protocol > PROTOCOL_MAX then ProtocolFailure("hello", ProtocolIncompatible)
      else Reaction(Serving(1), [])
    case Arrived(ErrorFrame(id, errors)) =>
      if id == "hello" && |errors| == 1 && errors[0].code == CodeText(ProtocolIncompatible) && errors[0].details == None
      then Reaction(Stopped(Ok(())), []) else ProtocolFailure("hello", ProtocolMalformed)
    case Ended => Reaction(Stopped(Ok(())), [])
    case Broken => Reaction(Stopped(Err(SessionLost)), [])
    case _ => ProtocolFailure("hello", ProtocolMalformed)
  }

  /** The frame written for a handled request: the response, or the failure response when
      the response does not fit. */
  function Reply(w: Worker, id: string, handled: Handled): Frame
    requires handled != Malformed
  {
    match handled
    case Produced(data) =>
      if w.fits(Response(id, true, Some(data), [])) then Response(id, true, Some(data), []) else FailureResponse(id)
    case Remote => FailureResponse(id)
  }

  function RequestReaction(w: Worker, next: nat, incoming: Incoming): Reaction {
    match incoming
    case Arrived(Request(id, m, params)) =>
      if id != RequestId(next) then ProtocolFailure(id, ProtocolMalformed)
      else if next == MAX_U64 then Reaction(Stopped(Err(ProtocolMalformed)), [])
      else
        var handled := Handle(w, next, m, params);
        if handled == Malformed then ProtocolFailure(id, ProtocolMalformed)
        else Reaction(Serving(next + 1), [Reply(w, id, handled)])
    case Ended => Reaction(Stopped(Ok(())), [])
    case Broken => Reaction(Stopped(Err(SessionLost)), [])
    case _ => ProtocolFailure("hello", ProtocolMalformed)
  }

  function React(w: Worker, phase: Phase, incoming: Incoming): Reaction {
    match phase
    case AwaitingHello => HelloReaction(incoming)
    case Serving(next) => RequestReaction(w, next, incoming)
    case Stopped(_) => Reaction(phase, [])
  }

  /** The whole session: what is written for the input `inputs`, which then ends. */
  function Session(w: Worker, phase: Phase, inputs: seq<Incoming>): Reaction
    decreases |inputs|
  {
    if phase.Stopped? then Reaction(phase, [])
    else if inputs == [] then React(w, phase, Ended)
    else
      var now := React(w, phase, inputs[0]);
      var rest := Session(w, now.phase, inputs[1..]);
      Reaction(rest.phase, now.output + rest.output)
  }

  // ---------------------------------------------------------------- what a session says

  /** The requests that are not malformed: no parameters for the two questions about the
      machine, one key line for the doctor, one acceptable vector for a command. */
  ghost predicate Allowed(w: Worker, method_: string, params: Value) {
    || ((method_ == "machine.manifest" || method_ == "machine.status") && params == Object(map[]))
    || (method_ == "machine.doctor" && exists line, f :: NamesKey(params, line, w.validKey, f))
    || (method_ == "exec.run" && exists argv :: NamesCommand(params, argv, w.secret))
  }

  ghost predicate NamesKey(params: Value, line: string, valid: KeyFields -> bool, f: KeyFields) {
    params == Object(map[Other("authorized_public_key") := String(line)]) && IsKeyLine(line, valid, f)
  }

  ghost predicate NamesCommand(params: Value, argv: seq<string>, secret: string -> bool) {
    && params.Object? && params.fields.Keys == {Other("argv")}
    && params.fields[Other("argv")].Array? && AreTexts(params.fields[Other("argv")].items, argv)
    && ValidArgv(argv, secret)
  }

  ghost predicate AreTexts(items: seq<Value>, texts: seq<string>) {
    |items| == |texts| && forall i :: 0 <= i < |items| ==> items[i] == String(texts[i])
  }

  lemma {:induction false} StringsOfIff(items: seq<Value>, texts: seq<string>)
    ensures StringsOf(items) == Some(texts) <==> AreTexts(items, texts)
  {
    if items == [] {
    } else if texts != [] {
      StringsOfIff(items[1..], texts[1..]);
      assert items == [items[0]] + items[1..] && texts == [texts[0]] + texts[1..];
    }
  }

  lemma OnlyMemberIff(params: Value, name: string, v: Value)
    ensures OnlyMember(params, name) == Some(v) <==> params == Object(map[Other(name) := v])
  {
    var one := map[Other(name) := v];
    assert one.Keys == {Other(name)};
    if params.Object? && params.fields.Keys == {Other(name)} && params.fields[Other(name)] == v {
      assert params.fields == one;
    }
  }

  lemma DoctorIff(w: Worker, params: Value)
    ensures Understood(w, "machine.doctor", params) <==> exists line, f :: NamesKey(params, line, w.validKey, f)
  {
    hide Canonical, IsKeyLine, OnlyMember;
    var key := OnlyMember(params, "authorized_public_key");
    if key.Some? && key.value.String? {
      OnlyMemberIff(params, "authorized_public_key", key.value);
      KeyLineIff(key.value.s, w.validKey);
      if f :| IsKeyLine(key.value.s, w.validKey, f) {
        assert NamesKey(params, key.value.s, w.validKey, f);
      }
    }
    forall line, f | NamesKey(params, line, w.validKey, f)
      ensures key == Some(String(line))
    {
      OnlyMemberIff(params, "authorized_public_key", String(line));
    }
  }

  lemma ExecIff(w: Worker, params: Value)
    ensures Understood(w, "exec.run", params) <==> exists argv :: NamesCommand(params, argv, w.secret)
  {
    hide StringsOf, ValidArgv;
    var argv := OnlyMember(params, "argv");
    if argv.Some? && argv.value.Array? {
      var items := argv.value.items;
      if StringsOf(items).Some? {
        StringsOfIff(items, StringsOf(items).value);
        assert ValidArgv(StringsOf(items).value, w.secret) <==> NamesCommand(params, StringsOf(items).value, w.secret);
      }
      forall texts | NamesCommand(params, texts, w.secret)
        ensures StringsOf(items) == Some(texts)
      {
        StringsOfIff(items, texts);
      }
    }
  }

  /** A request is malformed exactly if it is none of those. */
  lemma UnderstoodIff(w: Worker, method_: string, params: Value)
    ensures Understood(w, method_, params) <==> Allowed(w, method_, params)
  {
    if method_ == "machine.doctor" {
      DoctorIff(w, params);
    } else if method_ == "exec.run" {
      ExecIff(w, params);
    }
    hide NamesKey, NamesCommand, OnlyMember, Canonical, ValidArgv, StringsOf;
  }

  lemma KeyLineIff(line: string, valid: KeyFields -> bool)
    ensures Canonical(line, valid).Some? <==> exists f :: IsKeyLine(line, valid, f)
  {
    hide Canonical, IsKeyLine;
    if Canonical(line, valid).Some? {
      CanonicalIff(line, valid, Canonical(line, valid).value);
    }
    if f :| IsKeyLine(line, valid, f) {
      CanonicalIff(line, valid, f.keyType + " " + f.encoded);
    }
  }

  /** The reply to the `n`-th request: the data if the call produced some and it fits, and
      otherwise the one failure that a session survives. */
  predicate Replies(w: Worker, n: nat, f: Frame) {
    match w.outcome(n)
    case Some(data) =>
      var success := Response(RequestId(n), true, Some(data), []);
      f == if w.fits(success) then success else FailedToExecute(n)
    case None => f == FailedToExecute(n)
  }

  function FailedToExecute(n: nat): Frame {
    Response(RequestId(n), false, None,
      [Diagnostic("remote.execution_failed", "the worker could not complete the RPC method", None)])
  }

  /** `output` is one error frame that says so, and `result` is the same error. */
  predicate Rejects(output: seq<Frame>, result: Result<(), ErrorCode>, id: string, code: ErrorCode, text: string,
      message: string)
  {
    output == [ErrorFrame(id, [Diagnostic(text, message, None)])] && result == Err(code)
  }

  predicate RejectsAsMalformed(output: seq<Frame>, result: Result<(), ErrorCode>, id: string) {
    Rejects(output, result, id, ProtocolMalformed, "protocol.malformed", "the RPC peer sent a malformed frame")
  }

  function InputAt(inputs: seq<Incoming>, k: nat): Incoming {
    if k < |inputs| then inputs[k] else Ended
  }

  predicate AcceptsHello(incoming: Incoming) {
    incoming.Arrived? && incoming.frame.ClientHello? && incoming.frame.protocol == 1
  }

  /** How a session ends before its first request. */
  predicate EndsAtHello(incoming: Incoming, output: seq<Frame>, result: Result<(), ErrorCode>) {
    if incoming.Ended? then output == [] && result == Ok(())
    else if incoming.Broken? then output == [] && result == Err(SessionLost)
    else if incoming.Arrived? && incoming.frame.ErrorFrame? && incoming.frame.id == "hello"
      && |incoming.frame.errors| == 1 && incoming.frame.errors[0].code == "protocol.incompatible"
      && incoming.frame.errors[0].details == None then
      output == [] && result == Ok(())
    else if incoming.Arrived? && incoming.frame.ClientHello? then
      Rejects(output, result, "hello", ProtocolIncompatible, "protocol.incompatible",
        "the selected RPC protocol is incompatible")
    else RejectsAsMalformed(output, result, "hello")
  }

  ghost predicate IsCall(w: Worker, n: nat, incoming: Incoming) {
    && incoming.Arrived? && incoming.frame.Request? && incoming.frame.id == RequestId(n)
    && n != MAX_U64 && Allowed(w, incoming.frame.method_, incoming.frame.params)
  }

  /** How a session ends where its `n`-th request should be. */
  ghost predicate EndsAtRequest(w: Worker, n: nat, incoming: Incoming, output: seq<Frame>,
      result: Result<(), ErrorCode>)
  {
    && !IsCall(w, n, incoming)
    && if incoming.Ended? then output == [] && result == Ok(())
       else if incoming.Broken? then output == [] && result == Err(SessionLost)
       else if incoming.Arrived? && incoming.frame.Request? then
         if incoming.frame.id == RequestId(n) && n == MAX_U64 then output == [] && result == Err(ProtocolMalformed)
         else RejectsAsMalformed(output, result, incoming.frame.id)
       else RejectsAsMalformed(output, result, "hello")
  }

  /** `count` calls from the `n`-th on are replied to, and then the session ends. */
  ghost predicate Turns(w: Worker, n: nat, inputs: seq<Incoming>, output: seq<Frame>, result: Result<(), ErrorCode>,
      count: nat)
  {
    && count <= |output|
    && (forall k :: 0 <= k < count ==> IsCall(w, n + k, InputAt(inputs, k)) && Replies(w, n + k, output[k]))
    && EndsAtRequest(w, n + count, InputAt(inputs, count), output[count..], result)
  }

  /** What the server writes for `inputs`, and how it ends. */
  ghost predicate Stated(w: Worker, inputs: seq<Incoming>, output: seq<Frame>, result: Result<(), ErrorCode>) {
    && output != [] && output[0] == w.hello
    && if AcceptsHello(InputAt(inputs, 0)) then exists count :: Turns(w, 1, inputs[1..], output[1..], result, count)
       else EndsAtHello(InputAt(inputs, 0), output[1..], result)
  }

  lemma RequestReactionIsTurn(w: Worker, n: nat, incoming: Incoming)
    ensures var now := RequestReaction(w, n, incoming);
      if IsCall(w, n, incoming) then
        now.phase == Serving(n + 1) && |now.output| == 1 && Replies(w, n, now.output[0])
      else now.phase.Stopped? && EndsAtRequest(w, n, incoming, now.output, now.phase.result)
  {
    hide Understood, Allowed, RequestId;
    if incoming.Arrived? && incoming.frame.Request? {
      UnderstoodIff(w, incoming.frame.method_, incoming.frame.params);
    }
  }

  lemma {:induction false} SessionIsTurns(w: Worker, n: nat, inputs: seq<Incoming>)
    ensures var all := Session(w, Serving(n), inputs);
      all.phase.Stopped? && exists count :: Turns(w, n, inputs, all.output, all.phase.result, count)
    decreases |inputs|
  {
    hide Session, IsCall, EndsAtRequest, Replies;
    var first := InputAt(inputs, 0);
    RequestReactionIsTurn(w, n, first);
    SessionUnfolds(w, Serving(n), inputs);
    var all := Session(w, Serving(n), inputs);
    var now := React(w, Serving(n), first);
    if IsCall(w, n, first) {
      SessionIsTurns(w, n + 1, inputs[1..]);
      var rest := Session(w, Serving(n + 1), inputs[1..]);
      var count :| Turns(w, n + 1, inputs[1..], rest.output, rest.phase.result, count);
      MoreTurns(w, n, inputs, now.output[0], rest.output, rest.phase.result, count);
      assert all.output == [now.output[0]] + rest.output;
    } else {
      assert all.output[0..] == all.output;
      assert Turns(w, n, inputs, all.output, all.phase.result, 0);
    }
  }

  lemma MoreTurns(w: Worker, n: nat, inputs: seq<Incoming>, first: Frame, output: seq<Frame>,
      result: Result<(), ErrorCode>, count: nat)
    requires inputs != [] && IsCall(w, n, inputs[0]) && Replies(w, n, first)
    requires Turns(w, n + 1, inputs[1..], output, result, count)
    ensures Turns(w, n, inputs, [first] + output, result, count + 1)
  {
    hide IsCall, EndsAtRequest, Replies;
    var all := [first] + output;
    assert all[count + 1..] == output[count..];
    forall k | 0 <= k < count + 1
      ensures IsCall(w, n + k, InputAt(inputs, k)) && Replies(w, n + k, all[k])
    {
      if k > 0 {
        assert IsCall(w, n + 1 + (k - 1), InputAt(inputs[1..], k - 1)) && Replies(w, n + 1 + (k - 1), output[k - 1]);
      }
    }
  }

  lemma TurnsEndOnce(w: Worker, n: nat, inputs: seq<Incoming>, output: seq<Frame>, result: Result<(), ErrorCode>,
      count: nat, calls: nat)
    requires Turns(w, n, inputs, output, result, count)
    requires forall k :: 0 <= k < calls ==> IsCall(w, n + k, InputAt(inputs, k))
    requires !IsCall(w, n + calls, InputAt(inputs, calls))
    ensures count == calls
  {
    hide IsCall, Replies;
  }

  lemma HelloEndsOnce(incoming: Incoming, output: seq<Frame>, result: Result<(), ErrorCode>, output': seq<Frame>,
      result': Result<(), ErrorCode>)
    requires EndsAtHello(incoming, output, result) && EndsAtHello(incoming, output', result')
    ensures output == output' && result == result'
  {
  }

  /** The statement leaves no choice: it determines the output and the result. */
  lemma StatedIsUnique(w: Worker, inputs: seq<Incoming>, output: seq<Frame>, result: Result<(), ErrorCode>,
      output': seq<Frame>, result': Result<(), ErrorCode>)
    requires Stated(w, inputs, output, result) && Stated(w, inputs, output', result')
    ensures output == output' && result == result'
  {
    hide IsCall, Turns, EndsAtRequest, EndsAtHello;
    if AcceptsHello(InputAt(inputs, 0)) {
      var count :| Turns(w, 1, inputs[1..], output[1..], result, count);
      var count' :| Turns(w, 1, inputs[1..], output'[1..], result', count');
      TurnsAreUnique(w, 1, inputs[1..], output[1..], result, count, output'[1..], result', count');
    } else {
      HelloEndsOnce(InputAt(inputs, 0), output[1..], result, output'[1..], result');
    }
    assert output == [output[0]] + output[1..] && output' == [output'[0]] + output'[1..];
  }

  lemma TurnsAreUnique(w: Worker, n: nat, inputs: seq<Incoming>, output: seq<Frame>, result: Result<(), ErrorCode>,
      count: nat, output': seq<Frame>, result': Result<(), ErrorCode>, count': nat)
    requires Turns(w, n, inputs, output, result, count) && Turns(w, n, inputs, output', result', count')
    ensures output == output' && result == result'
  {
    hide IsCall, FailedToExecute;
    TurnsEndOnce(w, n, inputs, output, result, count, count');
    assert output[..count] == output'[..count];
    assert output[count..] == output'[count..];
    assert output == output[..count] + output[count..] && output' == output'[..count] + output'[count..];
  }

  /** After a hello and `n - 1` calls, a request with the right identifier that is not
      allowed ends the session, and the error frame that names it is the last thing said. */
  lemma FirstMalformedEnds(w: Worker, inputs: seq<Incoming>, n: nat, output: seq<Frame>,
      result: Result<(), ErrorCode>)
    requires Stated(w, inputs, output, result) && AcceptsHello(InputAt(inputs, 0)) && 1 <= n < MAX_U64
    requires forall k :: 1 <= k < n ==> IsCall(w, k, InputAt(inputs, k))
    requires InputAt(inputs, n).Arrived? && InputAt(inputs, n).frame.Request?
    requires InputAt(inputs, n).frame.id == RequestId(n)
    requires !Allowed(w, InputAt(inputs, n).frame.method_, InputAt(inputs, n).frame.params)
    ensures result == Err(ProtocolMalformed) && |output| == n + 1
    ensures output[n] ==
      ErrorFrame(RequestId(n), [Diagnostic("protocol.malformed", "the RPC peer sent a malformed frame", None)])
  {
    hide AcceptsHello, Allowed, Replies;
    var count :| Turns(w, 1, inputs[1..], output[1..], result, count);
    forall k | 0 <= k < n - 1
      ensures IsCall(w, 1 + k, InputAt(inputs[1..], k))
    {
      assert IsCall(w, k + 1, InputAt(inputs, k + 1));
    }
    assert InputAt(inputs[1..], n - 1) == InputAt(inputs, n);
    TurnsEndOnce(w, 1, inputs[1..], output[1..], result, count, n - 1);
    assert output[1..][n - 1..] == output[n..];
  }

  /** The reactions of the server are what is stated, for every input. */
  lemma WholeIsStated(w: Worker, inputs: seq<Incoming>)
    ensures Whole(w, inputs).phase.Stopped? && Stated(w, inputs, Whole(w, inputs).output, Whole(w, inputs).phase.result)
  {
    hide Session, HelloReaction, EndsAtHello, AcceptsHello, Turns;
    var all := Whole(w, inputs);
    WholeStarts(w, inputs);
    HelloReactionIsStated(InputAt(inputs, 0));
    if AcceptsHello(InputAt(inputs, 0)) {
      SessionIsTurns(w, 1, inputs[1..]);
      assert all.output[1..] == Session(w, Serving(1), inputs[1..]).output;
    } else {
      assert all.output[1..] == HelloReaction(InputAt(inputs, 0)).output;
    }
  }

  lemma HelloReactionIsStated(incoming: Incoming)
    ensures var now := HelloReaction(incoming);
      if AcceptsHello(incoming) then now == Reaction(Serving(1), [])
      else now.phase.Stopped? && EndsAtHello(incoming, now.output, now.phase.result)
  {
  }

  // ---------------------------------------------------------------- small frames fit

  /** Whatever a response was, the failure response that replaces it fits into a frame. */
  lemma FailureResponseFits(n: nat, num: Num -> nat)
    requires 0 < n <= MAX_U64
    ensures TextLen(Emit(FailureResponse(RequestId(n))), num) <= 2000
  {
    hide TextLen, MemberLen, WireOf, Decimal, KeyText;
    var id := RequestId(n);
    TwentyDigits();
    DecimalLength(n, 20);
    FailureMembersAre(id);
    FourMembersLen(Emit(FailureResponse(id)), num);
    IdMemberLen(id, num);
    TypeMemberLen("response", num);
    OkMemberLen(false, num);
    ErrorsKeyIsShort();
    OtherMemberLen(Errors, WireOf(DiagnosticValues([REMOTE_FAILURE])), num);
    FailureLengths();
    DiagnosticLen(REMOTE_FAILURE, 44, num);
  }

  lemma ErrorsKeyIsShort()
    ensures |KeyText(Errors)| == 6
  {
  }

  lemma FailureLengths()
    ensures |REMOTE_FAILURE.code| == 23 && |REMOTE_FAILURE.message| == 44
  {
  }

  lemma FailureMembersAre(id: string)
    ensures Emit(FailureResponse(id)) == WObject([
      (Id, WString(id)), (Type, WString("response")), (OkFlag, WBool(false)),
      (Errors, WireOf(DiagnosticValues([REMOTE_FAILURE])))])
  {
    hide DiagnosticValues;
    var w := Emit(FailureResponse(id));
    assert w.members[0] == (Id, WireOf(String(id))) && w.members[2] == (OkFlag, WireOf(Bool(false)));
    assert w.members == [
      (Id, WString(id)), (Type, WString("response")), (OkFlag, WBool(false)),
      (Errors, WireOf(DiagnosticValues([REMOTE_FAILURE])))];
  }

  lemma TextMemberLen(k: Key, s: string, max: nat, num: Num -> nat)
    requires |KeyText(k)| <= 30 && Utf8Len(s) <= max <= 255
    ensures MemberLen((k, WireOf(String(s))), num) <= 2000
  {
    hide KeyText, EscapedLen;
    PrintedString(s);
    OtherMemberLen(k, WString(s), num);
    EscapingIsAtMostSixfold(s);
  }

  lemma ShortTextMemberLen(k: Key, s: string, num: Num -> nat)
    requires |KeyText(k)| <= 30 && |s| <= 60
    ensures MemberLen((k, WireOf(String(s))), num) <= 2000
  {
    Utf8AtMost(s);
    TextMemberLen(k, s, 240, num);
  }

  lemma WholeMemberLen(k: Key, n: U64, num: Num -> nat)
    requires |KeyText(k)| <= 30 && num(Natural(n)) == |Decimal(n)|
    ensures MemberLen((k, WireOf(FrameCodec.Whole(n))), num) <= 2000
  {
    hide KeyText, EscapedLen, Decimal;
    TwentyDigits();
    DecimalLength(n, 20);
    OtherMemberLen(k, WNumber(Natural(n)), num);
  }

  lemma HelloMemberLen(f: Frame, i: nat, num: Num -> nat)
    requires f.ServerHello? && WellFormed(f) && i < 8 && forall n: U64 :: num(Natural(n)) == |Decimal(n)|
    ensures MemberLen((FieldsOf(f)[i].0, WireOf(FieldsOf(f)[i].1)), num) <= 2000
  {
    hide MemberLen, WireOf, Decimal, Utf8Len, FrameCodec.Whole, MachineUuid.Text, WellFormed;
    HelloTexts(f);
    assert |KeyText(FieldsOf(f)[i].0)| <= 30;
    if i < 2 {
      ShortTextMemberLen(FieldsOf(f)[i].0, "hello", num);
    } else if i == 2 {
      WholeMemberLen(ProtocolMin, f.protocolMin, num);
    } else if i == 3 {
      WholeMemberLen(ProtocolMax, f.protocolMax, num);
    } else if i == 4 {
      TextMemberLen(StyrnVersion, f.version, MAX_VERSION_BYTES, num);
    } else if i == 5 {
      ShortTextMemberLen(MachineId, MachineUuid.Text(f.machineId), num);
    } else if i == 6 {
      TextMemberLen(Name, f.name, MAX_NAME_BYTES, num);
    } else {
      WholeMemberLen(SchemaVersion, f.schemaVersion, num);
    }
  }

  lemma HelloTexts(f: Frame)
    requires f.ServerHello? && WellFormed(f)
    ensures Utf8Len(f.version) <= MAX_VERSION_BYTES && Utf8Len(f.name) <= MAX_NAME_BYTES
  {
  }

  /** A well-formed hello fits into a frame. */
  lemma ServerHelloFits(f: Frame, num: Num -> nat)
    requires f.ServerHello? && WellFormed(f) && forall n: U64 :: num(Natural(n)) == |Decimal(n)|
    ensures TextLen(Emit(f), num) <= 16010
  {
    hide WireOf, MemberLen, WellFormed, Decimal, TextLen;
    var w := Emit(f);
    assert |w.members| == |FieldsOf(f)| == 8;
    forall i | 0 <= i < 8
      ensures MemberLen(w.members[i], num) <= 2000
    {
      HelloMemberLen(f, i, num);
    }
    SmallObject(w, num);
  }

  /** An error frame of the server fits, whatever legible identifier it repeats. */
  lemma FailureFrameFits(id: string, code: ErrorCode, num: Num -> nat)
    requires Utf8Len(id) <= MAX_ID_BYTES
    ensures TextLen(Emit(FailureFrame(id, code)), num) <= 16010
  {
    hide WireOf, MemberLen, TextLen, KeyText, CodeText, Utf8Len;
    var f := FailureFrame(id, code);
    var w := Emit(f);
    assert |w.members| == |FieldsOf(f)| == 3;
    FailureKeysAreShort();
    FailureTextsAreShort(code);
    TextMemberLen(Id, id, MAX_ID_BYTES, num);
    ShortTextMemberLen(Type, "error", num);
    OtherMemberLen(Errors, WireOf(DiagnosticValues(f.errors)), num);
    DiagnosticLen(f.errors[0], 60, num);
    forall i | 0 <= i < 3
      ensures MemberLen(w.members[i], num) <= 2000
    {
      assert w.members[i] == (FieldsOf(f)[i].0, WireOf(FieldsOf(f)[i].1));
    }
    SmallObject(w, num);
  }

  lemma FailureKeysAreShort()
    ensures |KeyText(Id)| <= 30 && |KeyText(Type)| <= 30 && |KeyText(Errors)| <= 30
  {
  }

  lemma FailureTextsAreShort(code: ErrorCode)
    ensures |FailureFrame("", code).errors[0].code| <= 60 && |FailureFrame("", code).errors[0].message| <= 60
  {
  }

  /** What a worker says besides its answers fits: its hello, its failure responses, and its
      error frames. */
  ghost predicate SmallFramesFit(w: Worker) {
    && w.fits(w.hello)
    && (forall n :: 0 < n <= MAX_U64 ==> w.fits(FailureResponse(RequestId(n))))
    && forall id, code :: Utf8Len(id) <= MAX_ID_BYTES ==> w.fits(FailureFrame(id, code))
  }

  lemma RealWorkersSmallFramesFit(w: Worker)
    requires RealWorker(w)
    ensures SmallFramesFit(w)
  {
    hide TextLen, Emit, WellFormed, FailureResponse, FailureFrame, RequestId, Decimal, Utf8Len;
    ServerHelloFits(w.hello, w.num);
    forall n | 0 < n <= MAX_U64
      ensures w.fits(FailureResponse(RequestId(n)))
    {
      FailureResponseFits(n, w.num);
    }
    forall id, code | Utf8Len(id) <= MAX_ID_BYTES
      ensures w.fits(FailureFrame(id, code))
    {
      FailureFrameFits(id, code, w.num);
    }
  }

  // ---------------------------------------------------------------- the loop

  /** The output pipe. Writing may fail, unless the pipe is reliable; a frame that does not
      fit writes nothing. */
  class Pipe {
    ghost var written: seq<Frame>
    const reliable: bool

    constructor (reliable: bool)
      ensures written == [] && this.reliable == reliable
    {
      this.reliable := reliable;
      written := [];
    }

    method Write(w: Worker, frame: Frame) returns (r: Result<(), WriteFailure>)
      modifies this
      ensures r == Err(Oversize) <==> !w.fits(frame)
      ensures reliable && w.fits(frame) ==> r.Ok?
      ensures r.Err? ==> written == old(written)
      ensures r.Ok? ==> written == old(written) + [frame]
    {
      if !w.fits(frame) {
        return Err(Oversize);
      }
      var fails: bool := *;
      if fails && !reliable {
        return Err(Io);
      }
      written := written + [frame];
      return Ok(());
    }
  }

  datatype WriteFailure = Oversize | Io

  lemma HelloIsSmall(w: Worker)
    requires SmallFramesFit(w)
    ensures w.fits(w.hello)
  {
  }

  /** What the decoder lets through. */
  predicate Legible(incoming: Incoming) {
    incoming.Arrived? ==> WellFormed(incoming.frame)
  }

  lemma FailuresFit(w: Worker, incoming: Incoming)
    requires SmallFramesFit(w)
    ensures forall code :: w.fits(FailureFrame("hello", code))
    ensures Legible(incoming) && incoming.Arrived? && incoming.frame.Request? ==>
      forall code :: w.fits(FailureFrame(incoming.frame.id, code))
  {
    hide FailureFrame, Utf8Len;
    HelloIdIsShort();
  }

  lemma ResponseFits(w: Worker, n: nat)
    requires SmallFramesFit(w) && 0 < n <= MAX_U64
    ensures w.fits(FailureResponse(RequestId(n)))
  {
  }

  /** A reaction cut short by a broken output pipe, or the reaction itself. */
  ghost predicate Carried(expected: Reaction, written: seq<Frame>, result: Result<(), ErrorCode>) {
    && written <= expected.output
    && (result != Err(SessionLost) ==> expected.phase.Stopped? && result == expected.phase.result)
    && (result.Ok? ==> written == expected.output)
  }

  /** protocol_failure: the error frame is written if the pipe still works. */
  method Fail(w: Worker, pipe: Pipe, id: string, code: ErrorCode) returns (r: Result<(), ErrorCode>)
    modifies pipe
    ensures r == Err(code)
    ensures pipe.written == old(pipe.written) || pipe.written == old(pipe.written) + ProtocolFailure(id, code).output
    ensures pipe.reliable && w.fits(FailureFrame(id, code)) ==>
      pipe.written == old(pipe.written) + ProtocolFailure(id, code).output
  {
    var _ := pipe.Write(w, FailureFrame(id, code));
    return Err(code);
  }

  /** The hello exchange: `None` to go on, or the end of the session. */
  method Greet(w: Worker, incoming: Incoming, pipe: Pipe) returns (ending: Option<Result<(), ErrorCode>>)
    modifies pipe
    ensures ending == None ==> HelloReaction(incoming) == Reaction(Serving(1), []) && pipe.written == old(pipe.written)
    ensures ending.Some? ==>
      && HelloReaction(incoming).phase == Stopped(ending.value)
      && (pipe.written == old(pipe.written) || pipe.written == old(pipe.written) + HelloReaction(incoming).output)
      && (ending.value.Ok? ==> HelloReaction(incoming).output == [])
      && (pipe.reliable && SmallFramesFit(w) ==> pipe.written == old(pipe.written) + HelloReaction(incoming).output)
  {
    hide SmallFramesFit, FailureFrame;
    if SmallFramesFit(w) {
      FailuresFit(w, incoming);
    }
    var result: Result<(), ErrorCode>;
    match incoming {
      case Arrived(ClientHello(protocol, _)) =>
        if PROTOCOL_MIN <= protocol <= PROTOCOL_MAX {
          return None;
        }
        result := Fail(w, pipe, "hello", ProtocolIncompatible);
      case Arrived(ErrorFrame(id, errors)) =>
        if id == "hello" && |errors| == 1 && errors[0].code == CodeText(ProtocolIncompatible)
          && errors[0].details == None {
          return Some(Ok(()));
        }
        result := Fail(w, pipe, "hello", ProtocolMalformed);
      case Ended => return Some(Ok(()));
      case Broken => return Some(Err(SessionLost));
      case _ => result := Fail(w, pipe, "hello", ProtocolMalformed);
    }
    return Some(result);
  }

  /** serve_manifest */
  method ServeManifest(w: Worker, inputs: seq<Incoming>, pipe: Pipe) returns (result: Result<(), ErrorCode>)
    requires RealWorker(w) && pipe.written == []
    modifies pipe
    ensures Carried(Whole(w, inputs), pipe.written, result)
    ensures pipe.reliable && (forall i :: 0 <= i < |inputs| ==> Legible(inputs[i])) ==>
      Whole(w, inputs) == Reaction(Stopped(result), pipe.written) && Stated(w, inputs, pipe.written, result)
  {
    WholeIsStated(w, inputs);
    hide Stated, Session, SmallFramesFit, RealWorker, WellFormed, HelloReaction, RequestReaction;
    RealWorkersSmallFramesFit(w);
    HelloIsSmall(w);
    ghost var all := Whole(w, inputs);
    var sent := pipe.Write(w, w.hello);
    if sent.Err? {
      assert all.output[..0] == [];
      return Err(SessionLost);
    }
    var incoming := if inputs == [] then Ended else inputs[0];
    WholeStarts(w, inputs);
    var ending := Greet(w, incoming, pipe);
    if ending.Some? {
      return ending.value;
    }
    ghost var done := [w.hello];
    if inputs == [] {
      assert false;
    }
    var i, next := 1, 1;
    while true
      invariant 1 <= i <= |inputs| && 1 <= next <= MAX_U64
      invariant pipe.written == done
      invariant all == Prefixed(done, Session(w, Serving(next), inputs[i..]))
      decreases |inputs| - i
    {
      incoming := if i == |inputs| then Ended else inputs[i];
      SessionStarts(w, next, inputs, i, done);
      var reply;
      result, reply := ServeOne(w, next, incoming, pipe);
      if reply == None {
        return;
      }
      done := done + [reply.value];
      next := next + 1;
      i := i + 1;
    }
  }

  function Prefixed(first: seq<Frame>, rest: Reaction): Reaction {
    Reaction(rest.phase, first + rest.output)
  }

  /** The whole session: the server speaks first. */
  function Whole(w: Worker, inputs: seq<Incoming>): Reaction {
    Prefixed([w.hello], Session(w, AwaitingHello, inputs))
  }

  /** The first reaction and the rest of a session. */
  lemma SessionUnfolds(w: Worker, phase: Phase, inputs: seq<Incoming>)
    requires !phase.Stopped?
    ensures var now := React(w, phase, if inputs == [] then Ended else inputs[0]);
      && (now.phase.Stopped? ==> Session(w, phase, inputs) == now)
      && (!now.phase.Stopped? ==>
        inputs != [] && Session(w, phase, inputs) == Prefixed(now.output, Session(w, now.phase, inputs[1..])))
  {
    hide Handle, Reply, FailureFrame;
    if inputs != [] {
      var now := React(w, phase, inputs[0]);
      assert now.output + [] == now.output;
    }
  }

  lemma WholeStarts(w: Worker, inputs: seq<Incoming>)
    ensures var now := HelloReaction(if inputs == [] then Ended else inputs[0]);
      && (now.phase.Stopped? ==> Whole(w, inputs) == Reaction(now.phase, [w.hello] + now.output))
      && (now == Reaction(Serving(1), []) ==>
          inputs != [] && Whole(w, inputs) == Prefixed([w.hello], Session(w, Serving(1), inputs[1..])))
  {
    hide Session, HelloReaction;
    SessionUnfolds(w, AwaitingHello, inputs);
    if inputs != [] {
      var rest := Session(w, Serving(1), inputs[1..]);
      assert [] + rest.output == rest.output;
    }
  }

  lemma SessionStarts(w: Worker, next: nat, inputs: seq<Incoming>, i: nat, done: seq<Frame>)
    requires i <= |inputs|
    ensures var now := React(w, Serving(next), if i == |inputs| then Ended else inputs[i]);
      var all := Prefixed(done, Session(w, Serving(next), inputs[i..]));
      && (now.phase.Stopped? ==> all == Reaction(now.phase, done + now.output))
      && (!now.phase.Stopped? ==>
        i < |inputs| && all == Prefixed(done + now.output, Session(w, now.phase, inputs[i + 1..])))
  {
    hide Session, React;
    SessionUnfolds(w, Serving(next), inputs[i..]);
    if i < |inputs| {
      assert inputs[i..][0] == inputs[i] && inputs[i..][1..] == inputs[i + 1..];
      var now := React(w, Serving(next), inputs[i]);
      var rest := Session(w, now.phase, inputs[i + 1..]);
      assert done + (now.output + rest.output) == (done + now.output) + rest.output;
    }
  }

  /** The end of one turn: an oversize response writes nothing and is replaced. */
  method SendReply(w: Worker, id: string, handled: Handled, pipe: Pipe) returns (reply: Option<Frame>)
    requires w.fits(FailureResponse(id)) && handled != Malformed
    modifies pipe
    ensures reply == None ==> pipe.written == old(pipe.written) && !pipe.reliable
    ensures reply.Some? ==> reply.value == Reply(w, id, handled) && pipe.written == old(pipe.written) + [reply.value]
  {
    var response := if handled.Produced? then Response(id, true, Some(handled.data), []) else FailureResponse(id);
    var sent := pipe.Write(w, response);
    if sent == Err(Oversize) {
      response := FailureResponse(id);
      sent := pipe.Write(w, response);
    }
    return if sent.Ok? then Some(response) else None;
  }

  /** One turn of the loop: the reply that was written, or the end of the session. */
  method ServeOne(w: Worker, next: nat, incoming: Incoming, pipe: Pipe)
    returns (result: Result<(), ErrorCode>, reply: Option<Frame>)
    requires SmallFramesFit(w) && 1 <= next <= MAX_U64
    modifies pipe
    ensures reply.Some? ==>
      && next < MAX_U64 && React(w, Serving(next), incoming) == Reaction(Serving(next + 1), [reply.value])
      && pipe.written == old(pipe.written) + [reply.value]
    ensures reply == None ==>
      && (pipe.written == old(pipe.written)
        || pipe.written == old(pipe.written) + React(w, Serving(next), incoming).output)
      && (result != Err(SessionLost) ==>
          React(w, Serving(next), incoming).phase == Stopped(result)
          && (result.Ok? ==> pipe.written == old(pipe.written) + React(w, Serving(next), incoming).output))
      && (pipe.reliable && Legible(incoming) ==>
          React(w, Serving(next), incoming) == Reaction(Stopped(result), pipe.written[|old(pipe.written)|..]))
  {
    hide Understood, Handle, FailureResponse, FailureFrame, RequestId, SmallFramesFit, WellFormed, Reply;
    FailuresFit(w, incoming);
    ResponseFits(w, next);
    reply := None;
    match incoming {
      case Arrived(Request(id, m, params)) =>
        if id != RequestId(next) {
          result := Fail(w, pipe, id, ProtocolMalformed);
          return;
        }
        if next == MAX_U64 {
          return Err(ProtocolMalformed), None;
        }
        var handled := Handle(w, next, m, params);
        if handled == Malformed {
          result := Fail(w, pipe, id, ProtocolMalformed);
          return;
        }
        reply := SendReply(w, id, handled, pipe);
        return if reply == None then Err(SessionLost) else Ok(()), reply;
      case Ended => return Ok(()), None;
      case Broken => return Err(SessionLost), None;
      case _ =>
        result := Fail(w, pipe, "hello", ProtocolMalformed);
    }
  }

  // ---------------------------------------------------------------- for every input

  /** The output answers the inputs in order: response `k` carries the identifier of the
      `k`-th request, and an error frame, if any, is the last thing written. */
  ghost predicate AnswersInOrder(output: seq<Frame>, next: nat) {
    forall k :: 0 <= k < |output| ==> InOrder(output, next, k)
  }

  ghost predicate InOrder(output: seq<Frame>, next: nat, k: nat)
    requires k < |output|
  {
    || (output[k].Response? && output[k].id == RequestId(next + k))
    || (output[k].ErrorFrame? && k == |output| - 1)
  }

  lemma {:induction false} ServerAnswersInOrder(w: Worker, next: nat, inputs: seq<Incoming>)
    ensures AnswersInOrder(Session(w, Serving(next), inputs).output, next)
    decreases |inputs|
  {
    hide Session, React;
    ReactionAnswers(w, next, if inputs == [] then Ended else inputs[0]);
    SessionUnfolds(w, Serving(next), inputs);
    if inputs != [] {
      var now := React(w, Serving(next), inputs[0]);
      if now.phase.Serving? {
        ServerAnswersInOrder(w, next + 1, inputs[1..]);
        var rest := Session(w, Serving(next + 1), inputs[1..]).output;
        forall k | 0 <= k < |now.output + rest|
          ensures InOrder(now.output + rest, next, k)
        {
          if k > 0 {
            assert (now.output + rest)[k] == rest[k - 1];
            assert InOrder(rest, next + 1, k - 1);
          }
        }
      }
    }
  }

  lemma ReactionAnswers(w: Worker, next: nat, incoming: Incoming)
    ensures var now := React(w, Serving(next), incoming);
      && (now.phase.Serving? ==>
        now.phase == Serving(next + 1) && |now.output| == 1 && now.output[0].Response?
          && now.output[0].id == RequestId(next))
      && (!now.phase.Serving? ==>
        now.phase.Stopped? && (now.output == [] || (|now.output| == 1 && now.output[0].ErrorFrame?)))
  {
    hide Handle, RequestId;
  }
}
