/** Framing: one JSON text per line on a byte stream, with a size limit. */
module FrameStream {
  import opened Wrappers
  import opened Integers

  const NEWLINE: Byte := 10
  const MAX_FRAME_BYTES := 4 * 1024 * 1024

  datatype ReadError = Io | Oversize | Truncated | InvalidUtf8
  datatype WriteError = WriteFailed | FrameTooLarge

  // ---------------------------------------------------------------- the meaning of a read

  /** The offset of the first newline, or the length when there is none. */
  function LineEnd(s: seq<Byte>): (n: nat)
    ensures n <= |s|
    ensures forall i :: 0 <= i < n ==> s[i] != NEWLINE
    ensures n < |s| ==> s[n] == NEWLINE
  {
    if s == [] || s[0] == NEWLINE then 0 else 1 + LineEnd(s[1..])
  }

  /** How much of the remaining stream `s` one read consumes. */
  function Taken(s: seq<Byte>): nat {
    var n := LineEnd(s);
    if n < |s| && n < MAX_FRAME_BYTES + 2 then n + 1
    else if |s| < MAX_FRAME_BYTES + 2 then |s| else MAX_FRAME_BYTES + 2
  }

  /** What one read returns when `s` remains in the stream. */
  function Meaning(s: seq<Byte>): Result<Option<seq<Byte>>, ReadError> {
    var n := LineEnd(s);
    if s == [] then Ok(None)
    else if n < |s| && n <= MAX_FRAME_BYTES then Ok(Some(s[..n]))
    else if |s| > MAX_FRAME_BYTES then Err(Oversize)
    else Err(Truncated)
  }

  // ---------------------------------------------------------------- the reader

  /** FrameReader: `buffer` has been fetched but not read, `source` is still to come. */
  class FrameReader {
    var buffer: seq<Byte>
    var source: seq<Byte>

    constructor (source: seq<Byte>)
      ensures Remaining() == source
    {
      this.buffer := [];
      this.source := source;
    }

    ghost function Remaining(): seq<Byte>
      reads this
    {
      buffer + source
    }

    /** BufRead::fill_buf: an empty buffer is filled with any nonempty piece of the source. */
    method FillBuffer() returns (failed: bool)
      modifies this
      ensures Remaining() == old(Remaining())
      ensures !failed && buffer == [] ==> source == []
    {
      if buffer != [] {
        return false;
      }
      failed := *;
      if failed || source == [] {
        return;
      }
      var n: int := *;
      if n < 1 || n > |source| {
        n := |source|;
      }
      buffer, source := source[..n], source[n..];
    }

    /** One turn of read_until: consume what is buffered, at most `limit` bytes and up to a
        newline. Nothing is consumed only at the end of the stream. */
    method ReadBuffered(limit: nat) returns (piece: seq<Byte>, failed: bool)
      requires limit > 0
      modifies this
      ensures old(Remaining()) == piece + Remaining() && |piece| <= limit
      ensures piece != [] ==> Unbroken(piece[..|piece| - 1])
      ensures !failed && piece == [] ==> Remaining() == []
    {
      piece := [];
      failed := FillBuffer();
      if failed {
        return;
      }
      var available := if |buffer| < limit then buffer else buffer[..limit];
      var n := LineEnd(available);
      piece := if n < |available| then available[..n + 1] else available;
      assert piece == buffer[..|piece|];
      buffer := buffer[|piece|..];
    }

    /** `take(MAX_FRAME_BYTES + 2).read_until(b'\n')`: what was read, unless the source failed. */
    method ReadUntilNewline() returns (bytes: seq<Byte>, failed: bool)
      modifies this
      ensures old(Remaining()) == bytes + Remaining()
      ensures |bytes| <= MAX_FRAME_BYTES + 2
      ensures !failed ==> |bytes| == Taken(old(Remaining()))
    {
      bytes, failed := [], false;
      assert Unbroken(bytes);
      hide Taken, Unbroken;
      ghost var all := Remaining();
      while |bytes| < MAX_FRAME_BYTES + 2
        invariant |bytes| <= MAX_FRAME_BYTES + 2
        invariant all == bytes + Remaining()
        invariant Unbroken(bytes)
        decreases MAX_FRAME_BYTES + 2 - |bytes|
      {
        ghost var before := bytes;
        var piece;
        piece, failed := ReadBuffered(MAX_FRAME_BYTES + 2 - |bytes|);
        bytes := bytes + piece;
        Regrouped(all, before, piece, Remaining());
        if failed {
          return;
        }
        if piece == [] {
          TakenFromPrefix(all, bytes);
          return;
        }
        UnbrokenUntilLast(before, piece);
        if piece[|piece| - 1] == NEWLINE {
          TakenAtNewline(all, bytes[..|bytes| - 1], |bytes| - 1);
          return;
        }
      }
      TakenFromPrefix(all, bytes);
    }

    /** FrameReader::read, up to the UTF-8 check. */
    method ReadLine() returns (r: Result<Option<seq<Byte>>, ReadError>)
      modifies this
      ensures r != Err(Io) ==>
        && r == Meaning(old(Remaining()))
        && Taken(old(Remaining())) <= |old(Remaining())|
        && Remaining() == old(Remaining())[Taken(old(Remaining()))..]
      ensures exists n ::
        0 <= n <= MAX_FRAME_BYTES + 2 && n <= |old(Remaining())| && Remaining() == old(Remaining())[n..]
    {
      ghost var all := Remaining();
      var bytes, failed := ReadUntilNewline();
      assert Remaining() == all[|bytes|..];
      if failed {
        return Err(Io);
      }
      ghost var n := LineEnd(all);
      assert bytes == all[..|bytes|];
      if |bytes| == 0 {
        return Ok(None);
      }
      if bytes[|bytes| - 1] != NEWLINE {
        return Err(if |bytes| > MAX_FRAME_BYTES then Oversize else Truncated);
      }
      assert n + 1 == |bytes|;
      bytes := bytes[..|bytes| - 1];
      assert bytes == all[..n];
      if |bytes| > MAX_FRAME_BYTES {
        return Err(Oversize);
      }
      return Ok(Some(bytes));
    }

    /** FrameReader::read, up to the decoding of the text. A line that is no text is used up
        like any other. */
    method ReadText(isText: seq<Byte> -> bool) returns (r: Result<Option<seq<Byte>>, ReadError>)
      modifies this
      ensures r != Err(Io) ==> Remaining() == old(Remaining())[Taken(old(Remaining()))..]
      ensures r != Err(Io) ==>
        match Meaning(old(Remaining()))
        case Ok(Some(line)) => r == if isText(line) then Ok(Some(line)) else Err(InvalidUtf8)
        case other => r == other
    {
      var line :- ReadLine();
      if line.Some? && !isText(line.value) {
        return Err(InvalidUtf8);
      }
      return Ok(line);
    }
  }

  lemma LineEndIs(s: seq<Byte>, n: nat)
    requires n <= |s| && (forall i :: 0 <= i < n ==> s[i] != NEWLINE) && (n < |s| ==> s[n] == NEWLINE)
    ensures LineEnd(s) == n
  {
  }

  predicate Unbroken(s: seq<Byte>) {
    forall i :: 0 <= i < |s| ==> s[i] != NEWLINE
  }

  lemma UnbrokenUntilLast(before: seq<Byte>, piece: seq<Byte>)
    requires piece != [] && Unbroken(before) && Unbroken(piece[..|piece| - 1])
    ensures Unbroken((before + piece)[..|before + piece| - 1])
    ensures piece[|piece| - 1] != NEWLINE ==> Unbroken(before + piece)
  {
    forall i | 0 <= i < |before + piece| - 1
      ensures (before + piece)[i] != NEWLINE
    {
      if i >= |before| {
        assert (before + piece)[i] == piece[..|piece| - 1][i - |before|];
      }
    }
  }

  lemma Regrouped(all: seq<Byte>, before: seq<Byte>, piece: seq<Byte>, rest: seq<Byte>)
    requires all == before + (piece + rest)
    ensures all == (before + piece) + rest && before + piece == all[..|before + piece|]
  {
  }

  lemma TakenAtNewline(all: seq<Byte>, before: seq<Byte>, n: nat)
    requires n == |before| < |all| && n < MAX_FRAME_BYTES + 2 && before == all[..n]
    requires Unbroken(before) && all[n] == NEWLINE
    ensures Taken(all) == n + 1
  {
    LineEndIs(all, n);
  }

  lemma TakenFromPrefix(all: seq<Byte>, bytes: seq<Byte>)
    requires |bytes| <= |all| && bytes == all[..|bytes|] && Unbroken(bytes)
    requires |bytes| == MAX_FRAME_BYTES + 2 || (|bytes| == |all| && |bytes| <= MAX_FRAME_BYTES + 2)
    ensures Taken(all) == |bytes|
  {
    assert forall i :: 0 <= i < |bytes| ==> all[i] == bytes[i];
  }

  // ---------------------------------------------------------------- the writer

  /** FrameWriter. A failing output may keep any part of a frame. */
  class FrameWriter {
    var output: seq<Byte>

    constructor ()
      ensures output == []
    {
      output := [];
    }

    method Write(payload: seq<Byte>) returns (r: Result<(), WriteError>)
      modifies this
      ensures r == Err(FrameTooLarge) <==> |payload| > MAX_FRAME_BYTES
      ensures r == Err(FrameTooLarge) ==> output == old(output)
      ensures r.Ok? ==> output == old(output) + Framed(payload)
      ensures r == Err(WriteFailed) ==>
        exists n :: 0 <= n <= |Framed(payload)| && output == old(output) + Framed(payload)[..n]
    {
      if |payload| > MAX_FRAME_BYTES {
        return Err(FrameTooLarge);
      }
      var n: int := *;
      if 0 <= n <= |Framed(payload)| {
        output := output + Framed(payload)[..n];
        return Err(WriteFailed);
      }
      output := output + payload;
      output := output + [NEWLINE];
      return Ok(());
    }
  }

  function Framed(payload: seq<Byte>): seq<Byte> {
    payload + [NEWLINE]
  }

  // ---------------------------------------------------------------- what every read decides

  /** A line is accepted exactly when the first newline is at offset MAX_FRAME_BYTES or
      before it, and then the line is what precedes it. */
  lemma AcceptedIff(s: seq<Byte>, line: seq<Byte>)
    ensures Meaning(s) == Ok(Some(line)) <==>
      |line| <= MAX_FRAME_BYTES && |line| < |s| && line == s[..|line|] && s[|line|] == NEWLINE && NEWLINE !in line
  {
    if |line| <= MAX_FRAME_BYTES && |line| < |s| && line == s[..|line|] && s[|line|] == NEWLINE && NEWLINE !in line {
      LineEndIs(s, |line|);
    }
  }

  ghost predicate NewlineWithin(s: seq<Byte>, k: nat) {
    exists i :: 0 <= i < |s| && i <= k && s[i] == NEWLINE
  }

  /** Every other read is classified by how much remains. */
  lemma RefusedIff(s: seq<Byte>)
    ensures Meaning(s) == Ok(None) <==> s == []
    ensures Meaning(s) == Err(Oversize) <==> |s| > MAX_FRAME_BYTES && !NewlineWithin(s, MAX_FRAME_BYTES)
    ensures Meaning(s) == Err(Truncated) <==> 0 < |s| <= MAX_FRAME_BYTES && NEWLINE !in s
    ensures Taken(s) <= MAX_FRAME_BYTES + 2 && Taken(s) <= |s| && (Taken(s) == 0 <==> s == [])
  {
    var n := LineEnd(s);
    if n < |s| {
      assert n <= MAX_FRAME_BYTES ==> NewlineWithin(s, MAX_FRAME_BYTES);
      assert s[n] in s;
    }
    if NewlineWithin(s, MAX_FRAME_BYTES) {
      var i :| 0 <= i < |s| && i <= MAX_FRAME_BYTES && s[i] == NEWLINE;
      assert n <= i;
    }
  }

  // ---------------------------------------------------------------- round trip

  /** What a reader sees until a read returns no line. */
  datatype Transcript = Transcript(lines: seq<seq<Byte>>, ending: Result<(), ReadError>)

  function ReadAll(s: seq<Byte>): Transcript
    decreases |s|
  {
    RefusedIff(s);
    match Meaning(s)
    case Ok(None) => Transcript([], Ok(()))
    case Err(e) => Transcript([], Err(e))
    case Ok(Some(line)) =>
      var rest := ReadAll(s[Taken(s)..]);
      Transcript([line] + rest.lines, rest.ending)
  }

  function Concatenated(payloads: seq<seq<Byte>>): seq<Byte> {
    if payloads == [] then [] else Framed(payloads[0]) + Concatenated(payloads[1..])
  }

  predicate Sendable(payload: seq<Byte>) {
    |payload| <= MAX_FRAME_BYTES && NEWLINE !in payload
  }

  lemma FramedIsRead(payload: seq<Byte>, tail: seq<Byte>)
    requires Sendable(payload)
    ensures var s := Framed(payload) + tail;
      Meaning(s) == Ok(Some(payload)) && Taken(s) <= |s| && s[Taken(s)..] == tail
  {
    var s := Framed(payload) + tail;
    forall i | 0 <= i < |payload|
      ensures s[i] != NEWLINE
    {
      assert s[i] == payload[i] && payload[i] in payload;
    }
    LineEndIs(s, |payload|);
    assert s[..|payload|] == payload;
    assert s[|payload| + 1..] == tail;
  }

  lemma FirstFrameIsRead(payload: seq<Byte>, tail: seq<Byte>)
    requires Sendable(payload)
    ensures ReadAll(Framed(payload) + tail) == Transcript([payload] + ReadAll(tail).lines, ReadAll(tail).ending)
  {
    hide Meaning, Taken, Framed;
    FramedIsRead(payload, tail);
  }

  /** Whatever was written is read back in order, and what follows decides the ending: a
      clean end after whole frames, a truncation after part of one. */
  lemma {:induction false} WrittenFramesAreRead(payloads: seq<seq<Byte>>, tail: seq<Byte>)
    requires forall p :: p in payloads ==> Sendable(p)
    ensures ReadAll(Concatenated(payloads) + tail) ==
      Transcript(payloads + ReadAll(tail).lines, ReadAll(tail).ending)
  {
    hide Meaning, Taken, Framed, Sendable, ReadAll;
    if payloads == [] {
      assert Concatenated(payloads) + tail == tail;
      assert payloads + ReadAll(tail).lines == ReadAll(tail).lines;
    } else {
      var rest := Concatenated(payloads[1..]) + tail;
      WrittenFramesAreRead(payloads[1..], tail);
      FirstFrameIsRead(payloads[0], rest);
      assert Concatenated(payloads) + tail == Framed(payloads[0]) + rest;
      assert [payloads[0]] + (payloads[1..] + ReadAll(tail).lines) == payloads + ReadAll(tail).lines;
    }
  }

  lemma RoundTrip(payloads: seq<seq<Byte>>)
    requires forall p :: p in payloads ==> Sendable(p)
    ensures ReadAll(Concatenated(payloads)) == Transcript(payloads, Ok(()))
  {
    WrittenFramesAreRead(payloads, []);
    assert Concatenated(payloads) + [] == Concatenated(payloads);
    assert payloads + [] == payloads;
  }

  /** A writer that dies inside its last frame costs the reader that frame and no other. */
  lemma TornFrameIsTruncated(payloads: seq<seq<Byte>>, last: seq<Byte>, n: nat)
    requires forall p :: p in payloads ==> Sendable(p)
    requires Sendable(last) && 0 < n <= |last|
    ensures ReadAll(Concatenated(payloads) + Framed(last)[..n]) == Transcript(payloads, Err(Truncated))
  {
    var torn := Framed(last)[..n];
    assert torn == last[..n];
    RefusedIff(torn);
    WrittenFramesAreRead(payloads, torn);
    assert payloads + [] == payloads;
  }
}
