/** The bytes of a compact JSON text: their number is what the size test counts, and none of
    them is the newline that ends a frame. */
module JsonText {
  import opened Integers
  import opened FrameValue
  import opened FrameCodec
  import opened FrameSize
  import FrameStream

  const QUOTE: Byte := 0x22
  const BACKSLASH: Byte := 0x5c

  /** One character in UTF-8 (section 3 of RFC 3629). */
  function Utf8Char(c: char): (r: seq<Byte>)
    ensures |r| == Utf8CharLen(c)
    ensures FrameStream.NEWLINE in r ==> c == '\n'
  {
    var u := c as int;
    if u < 0x80 then [u]
    else if u < 0x800 then [0xc0 + u / 0x40, 0x80 + u % 0x40]
    else if u < 0x1_0000 then [0xe0 + u / 0x1000, 0x80 + u / 0x40 % 0x40, 0x80 + u % 0x40]
    else [0xf0 + u / 0x4_0000, 0x80 + u / 0x1000 % 0x40, 0x80 + u / 0x40 % 0x40, 0x80 + u % 0x40]
  }

  function Utf8Text(s: string): seq<Byte> {
    if s == "" then [] else Utf8Char(s[0]) + Utf8Text(s[1..])
  }

  lemma {:induction false} Utf8TextLength(s: string)
    ensures |Utf8Text(s)| == Utf8Len(s)
  {
    if s != "" {
      Utf8TextLength(s[1..]);
    }
  }

  function HexDigit(n: int): Byte
    requires 0 <= n < 16
  {
    if n < 10 then 0x30 + n else 0x61 + (n - 10)
  }

  /** One character inside a string (section 7 of RFC 8259). */
  function EscapedChar(c: char): (r: seq<Byte>)
    ensures |r| == EscapedCharLen(c)
    ensures FrameStream.NEWLINE !in r
  {
    if c == '\"' then [BACKSLASH, QUOTE]
    else if c == '\\' then [BACKSLASH, BACKSLASH]
    else if c == '\U{8}' then [BACKSLASH, 0x62]
    else if c == '\t' then [BACKSLASH, 0x74]
    else if c == '\n' then [BACKSLASH, 0x6e]
    else if c == '\U{c}' then [BACKSLASH, 0x66]
    else if c == '\r' then [BACKSLASH, 0x72]
    else if c < ' ' then [BACKSLASH, 0x75, 0x30, 0x30, HexDigit(c as int / 16), HexDigit(c as int % 16)]
    else Utf8Char(c)
  }

  function EscapedText(s: string): (r: seq<Byte>)
    ensures |r| == EscapedLen(s)
    ensures FrameStream.NEWLINE !in r
  {
    if s == "" then [] else EscapedChar(s[0]) + EscapedText(s[1..])
  }

  function Quoted(s: string): seq<Byte> {
    [QUOTE] + EscapedText(s) + [QUOTE]
  }

  /** The text of `w`, members in order and nothing between tokens. */
  function TextBytes(w: Wire, num: Num -> seq<Byte>): seq<Byte>
    decreases w, 1, 0
  {
    match w
    case WNull => [0x6e, 0x75, 0x6c, 0x6c]
    case WBool(b) => if b then [0x74, 0x72, 0x75, 0x65] else [0x66, 0x61, 0x6c, 0x73, 0x65]
    case WNumber(n) => num(n)
    case WString(s) => Quoted(s)
    case WArray(items) => [0x5b] + ItemsBytes(w, |items|, num) + [0x5d]
    case WObject(members) => [0x7b] + MembersBytes(w, |members|, num) + [0x7d]
  }

  function Comma(n: nat): seq<Byte> {
    if n == 0 then [] else [0x2c]
  }

  function ItemsBytes(w: Wire, n: nat, num: Num -> seq<Byte>): seq<Byte>
    requires w.WArray? && n <= |w.items|
    decreases w, 0, n
  {
    if n == 0 then [] else ItemsBytes(w, n - 1, num) + Comma(n - 1) + TextBytes(w.items[n - 1], num)
  }

  function MembersBytes(w: Wire, n: nat, num: Num -> seq<Byte>): seq<Byte>
    requires w.WObject? && n <= |w.members|
    decreases w, 0, n
  {
    if n == 0 then []
    else
      MembersBytes(w, n - 1, num) + Comma(n - 1) + Quoted(KeyText(w.members[n - 1].0)) + [0x3a]
        + TextBytes(w.members[n - 1].1, num)
  }

  /** The size test counts the bytes of the text. */
  lemma {:induction false} TextLenIsByteCount(w: Wire, num: Num -> seq<Byte>, len: Num -> nat)
    requires forall n :: len(n) == |num(n)|
    ensures |TextBytes(w, num)| == TextLen(w, len)
    decreases w, 1, 0
  {
    match w {
      case WArray(items) => ItemsByteCount(w, |items|, num, len);
      case WObject(members) => MembersByteCount(w, |members|, num, len);
      case _ =>
    }
  }

  lemma {:induction false} ItemsByteCount(w: Wire, n: nat, num: Num -> seq<Byte>, len: Num -> nat)
    requires w.WArray? && n <= |w.items| && forall n :: len(n) == |num(n)|
    ensures |ItemsBytes(w, n, num)| == ItemsLen(w, n, len) + Commas(n)
    decreases w, 0, n
  {
    if n > 0 {
      ItemsByteCount(w, n - 1, num, len);
      TextLenIsByteCount(w.items[n - 1], num, len);
    }
  }

  lemma {:induction false} MembersByteCount(w: Wire, n: nat, num: Num -> seq<Byte>, len: Num -> nat)
    requires w.WObject? && n <= |w.members| && forall n :: len(n) == |num(n)|
    ensures |MembersBytes(w, n, num)| == MembersLen(w, n, len) + Commas(n)
    decreases w, 0, n
  {
    hide KeyText, EscapedText, EscapedLen;
    if n > 0 {
      MembersByteCount(w, n - 1, num, len);
      TextLenIsByteCount(w.members[n - 1].1, num, len);
    }
  }

  /** A frame's text never contains the byte that ends it, whatever its strings contain. */
  lemma {:induction false} NoNewlineInside(w: Wire, num: Num -> seq<Byte>)
    requires forall n :: FrameStream.NEWLINE !in num(n)
    ensures FrameStream.NEWLINE !in TextBytes(w, num)
    decreases w, 1, 0
  {
    match w {
      case WArray(items) => NoNewlineInItems(w, |items|, num);
      case WObject(members) => NoNewlineInMembers(w, |members|, num);
      case _ =>
    }
  }

  lemma {:induction false} NoNewlineInItems(w: Wire, n: nat, num: Num -> seq<Byte>)
    requires w.WArray? && n <= |w.items| && forall n :: FrameStream.NEWLINE !in num(n)
    ensures FrameStream.NEWLINE !in ItemsBytes(w, n, num)
    decreases w, 0, n
  {
    if n > 0 {
      NoNewlineInItems(w, n - 1, num);
      NoNewlineInside(w.items[n - 1], num);
    }
  }

  lemma {:induction false} NoNewlineInMembers(w: Wire, n: nat, num: Num -> seq<Byte>)
    requires w.WObject? && n <= |w.members| && forall n :: FrameStream.NEWLINE !in num(n)
    ensures FrameStream.NEWLINE !in MembersBytes(w, n, num)
    decreases w, 0, n
  {
    hide KeyText, EscapedText;
    if n > 0 {
      NoNewlineInMembers(w, n - 1, num);
      NoNewlineInside(w.members[n - 1].1, num);
    }
  }
}
