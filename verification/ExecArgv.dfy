/** The argument vectors a client may ask to run, and the size of the frame that asks. */
module ExecArgv {
  import opened FrameValue
  import opened FrameCodec
  import opened FrameSize
  import opened FrameStream
  import opened RpcId

  const MAX_ARGUMENTS := 256
  const MAX_ARGUMENT_BYTES := 32 * 1024
  const MAX_TOTAL_BYTES := 256 * 1024

  function Total(argv: seq<string>): nat {
    if argv == [] then 0 else Total(argv[..|argv| - 1]) + Utf8Len(argv[|argv| - 1])
  }

  /** `secret` recognises secret-shaped text. */
  predicate ValidArgv(argv: seq<string>, secret: string -> bool) {
    && 0 < |argv| <= MAX_ARGUMENTS && argv[0] != ""
    && (forall i :: 0 <= i < |argv| ==> Utf8Len(argv[i]) <= MAX_ARGUMENT_BYTES && !secret(argv[i]))
    && Total(argv) <= MAX_TOTAL_BYTES
  }

  lemma {:induction false} TotalGrows(argv: seq<string>, i: nat)
    requires i <= |argv|
    ensures Total(argv[..i]) <= Total(argv)
    decreases |argv| - i
  {
    if i < |argv| {
      assert argv[..i + 1][..i] == argv[..i];
      TotalGrows(argv, i + 1);
    } else {
      assert argv[..i] == argv;
    }
  }

  /** validate_exec_argv */
  method ValidateExecArgv(argv: seq<string>, secret: string -> bool) returns (ok: bool)
    ensures ok <==> ValidArgv(argv, secret)
  {
    if |argv| == 0 || |argv| > MAX_ARGUMENTS || argv[0] == "" {
      return false;
    }
    var total := 0;
    var i := 0;
    while i < |argv|
      invariant 0 <= i <= |argv| && total == Total(argv[..i]) <= MAX_TOTAL_BYTES
      invariant forall k :: 0 <= k < i ==> Utf8Len(argv[k]) <= MAX_ARGUMENT_BYTES && !secret(argv[k])
    {
      if Utf8Len(argv[i]) > MAX_ARGUMENT_BYTES || secret(argv[i]) {
        return false;
      }
      assert argv[..i + 1][..i] == argv[..i];
      total := total + Utf8Len(argv[i]);
      TotalGrows(argv, i + 1);
      if total > MAX_TOTAL_BYTES {
        return false;
      }
      i := i + 1;
    }
    assert argv[..i] == argv;
    return true;
  }

  // ---------------------------------------------------------------- the exec request

  function ArgvValue(argv: seq<string>): Value {
    Array(seq(|argv|, i requires 0 <= i < |argv| => String(argv[i])))
  }

  /** The request RpcClient::exec sends. */
  function ExecRequest(n: nat, argv: seq<string>): Frame {
    Request(RequestId(n), "exec.run", Object(map[Other("argv") := ArgvValue(argv)]))
  }

  /** The arguments, each quoted, at sixfold length. */
  lemma {:induction false} ArgvLen(w: Wire, argv: seq<string>, n: nat, num: Num -> nat)
    requires w.WArray? && n <= |argv| == |w.items| && forall i :: 0 <= i < |argv| ==> w.items[i] == WString(argv[i])
    ensures ItemsLen(w, n, num) <= 6 * Total(argv[..n]) + 2 * n
  {
    if n > 0 {
      ArgvLen(w, argv, n - 1, num);
      EscapingIsAtMostSixfold(argv[n - 1]);
      assert argv[..n][..n - 1] == argv[..n - 1];
    }
  }

  lemma ArgvTextLen(argv: seq<string>, num: Num -> nat)
    requires |argv| <= MAX_ARGUMENTS && Total(argv) <= MAX_TOTAL_BYTES
    ensures TextLen(WireOf(ArgvValue(argv)), num) <= 6 * MAX_TOTAL_BYTES + 3 * MAX_ARGUMENTS + 2
  {
    hide Total, Utf8Len, EscapedLen;
    var w := WireOf(ArgvValue(argv));
    forall i | 0 <= i < |argv|
      ensures w.items[i] == WString(argv[i])
    {
      assert w.items[i] == WireOf(ArgvValue(argv).items[i]);
    }
    ArgvLen(w, argv, |argv|, num);
    assert argv[..|argv|] == argv;
  }

  lemma ParamsLen(v: Value, num: Num -> nat)
    ensures TextLen(WireOf(Object(map[Other("argv") := v])), num) <= 29 + TextLen(WireOf(v), num)
  {
    hide TextLen, EscapedLen, Enumerate;
    var m := map[Other("argv") := v];
    assert m.Keys == {Other("argv")};
    EnumerateOne(Other("argv"));
    EscapingIsAtMostSixfold("argv");
    var w := WireOf(Object(m));
    assert w.members[0] == (Other("argv"), WireOf(v));
    OneMemberLen(w, num);
  }

  lemma RequestMembersAre(id: string, method_: string, params: Value)
    ensures Emit(Request(id, method_, params)) ==
      WObject([(Id, WString(id)), (Type, WString("request")), (Method, WString(method_)), (Params, WireOf(params))])
  {
    var w := Emit(Request(id, method_, params));
    assert w.members[0] == (Id, WireOf(String(id))) && w.members[2] == (Method, WireOf(String(method_)));
    assert w.members == [(Id, WString(id)), (Type, WString("request")), (Method, WString(method_)),
      (Params, WireOf(params))];
  }

  lemma RequestLen(id: string, method_: string, params: Value, num: Num -> nat)
    requires |id| <= 21 && |method_| <= 64
    ensures TextLen(Emit(Request(id, method_, params)), num) <= 1000 + TextLen(WireOf(params), num)
  {
    hide TextLen, MemberLen, WireOf;
    RequestMembersAre(id, method_, params);
    FourMembersLen(Emit(Request(id, method_, params)), num);
    IdMemberLen(id, num);
    TypeMemberLen("request", num);
    OtherMemberLen(Method, WString(method_), num);
    OtherMemberLen(Params, WireOf(params), num);
    StringLen(method_, num);
  }

  lemma ExecRequestIsWellFormed(argv: seq<string>, n: nat)
    requires 0 < n <= MAX_U64
    ensures WellFormed(ExecRequest(n, argv))
  {
    hide Utf8Len, Decimal, IsControllerId;
    RequestIdIsControllerId(n);
    AsciiLength("exec.run");
  }

  /** Every accepted vector fits into one well-formed frame, however much of it must be
      escaped. */
  lemma AcceptedArgvFits(argv: seq<string>, secret: string -> bool, n: nat, num: Num -> nat)
    requires ValidArgv(argv, secret) && 0 < n <= MAX_U64
    ensures WellFormed(ExecRequest(n, argv))
    ensures TextLen(Emit(ExecRequest(n, argv)), num) <= MAX_FRAME_BYTES
  {
    hide TextLen, Utf8Len, EscapedLen, Decimal, WellFormed, Emit, WireOf, Total;
    ExecRequestIsWellFormed(argv, n);
    TwentyDigits();
    DecimalLength(n, 20);
    RequestLen(RequestId(n), "exec.run", Object(map[Other("argv") := ArgvValue(argv)]), num);
    ParamsLen(ArgvValue(argv), num);
    ArgvTextLen(argv, num);
  }
}
