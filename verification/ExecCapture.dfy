/** Capturing the output of a remote command within a limit. */
module ExecCapture {
  import opened Wrappers
  import opened Integers

  const MAX_CAPTURE_BYTES := 1024 * 1024
  const BUFFER_BYTES := 8192

  /** One read of the output: some bytes, an interruption, or an error. The end of the
      sequence of pieces is the end of the output. */
  datatype Read = Got(bytes: seq<Byte>) | Interrupted | Failed

  predicate Bounded(pieces: seq<Read>) {
    forall r :: r in pieces && r.Got? ==> 0 < |r.bytes| <= BUFFER_BYTES
  }

  function Output(pieces: seq<Read>): seq<Byte> {
    if pieces == [] then []
    else Output(pieces[..|pieces| - 1]) + if pieces[|pieces| - 1].Got? then pieces[|pieces| - 1].bytes else []
  }

  datatype Capture = Capture(bytes: seq<Byte>, overflow: bool)

  function Kept(output: seq<Byte>): seq<Byte> {
    if |output| <= MAX_CAPTURE_BYTES then output else output[..MAX_CAPTURE_BYTES]
  }

  /** capture_thread: the first MAX_CAPTURE_BYTES bytes are kept, overflow says whether
      there were more, and the supervisor is told at the first byte too many, and at a read
      error. Interrupted reads are retried. */
  method CaptureOutput(pieces: seq<Read>) returns (r: Option<Capture>, signals: nat)
    requires Bounded(pieces)
    ensures r == None <==> Failed in pieces
    ensures r.Some? ==>
      && r.value.bytes == Kept(Output(pieces)) && (r.value.overflow <==> |Output(pieces)| > MAX_CAPTURE_BYTES)
      && signals == if r.value.overflow then 1 else 0
    ensures r == None ==> 1 <= signals <= 2
  {
    var bytes, overflow := [], false;
    signals := 0;
    var i := 0;
    while i < |pieces|
      invariant 0 <= i <= |pieces| && Failed !in pieces[..i]
      invariant bytes == Kept(Output(pieces[..i])) && (overflow <==> |Output(pieces[..i])| > MAX_CAPTURE_BYTES)
      invariant signals == if overflow then 1 else 0
    {
      OneMoreRead(pieces, i);
      match pieces[i] {
        case Failed =>
          return None, signals + 1;
        case Interrupted =>
        case Got(buffer) =>
          var remaining := MAX_CAPTURE_BYTES - |bytes|;
          KeepsFilling(Output(pieces[..i]), buffer);
          bytes := bytes + buffer[..if |buffer| < remaining then |buffer| else remaining];
          if |buffer| > remaining && !overflow {
            overflow := true;
            signals := signals + 1;
          }
      }
      i := i + 1;
    }
    assert pieces[..i] == pieces;
    return Some(Capture(bytes, overflow)), signals;
  }

  lemma OneMoreRead(pieces: seq<Read>, i: nat)
    requires i < |pieces|
    ensures Output(pieces[..i + 1]) == Output(pieces[..i]) + if pieces[i].Got? then pieces[i].bytes else []
    ensures Failed in pieces[..i + 1] <==> Failed in pieces[..i] || pieces[i] == Failed
  {
    assert pieces[..i + 1][..i] == pieces[..i];
    assert pieces[..i + 1] == pieces[..i] + [pieces[i]];
  }

  /** Keeping what still fits of the next piece keeps what fits of the whole. */
  lemma KeepsFilling(output: seq<Byte>, buffer: seq<Byte>)
    ensures var kept := Kept(output);
      var remaining := MAX_CAPTURE_BYTES - |kept|;
      && 0 <= remaining
      && kept + buffer[..if |buffer| < remaining then |buffer| else remaining] == Kept(output + buffer)
      && (|output + buffer| > MAX_CAPTURE_BYTES <==> |output| > MAX_CAPTURE_BYTES || |buffer| > remaining)
  {
  }
}
