/** The canonical text of a UUID (section 4 of RFC 9562) and the version-7 test. */
module MachineUuid {
  import opened Wrappers

  type Nibble = x: int | 0 <= x < 16

  /** 32 hexadecimal digits, most significant first. */
  type Uuid = s: seq<Nibble> | |s| == 32 witness seq(32, _ => 0)

  const DIGITS := "0123456789abcdef"

  function Hex(s: seq<Nibble>): (r: string)
    ensures |r| == |s|
    ensures forall i :: 0 <= i < |s| ==> r[i] == DIGITS[s[i]]
  {
    seq(|s|, i requires 0 <= i < |s| => DIGITS[s[i]])
  }

  function NibbleOf(c: char): Option<Nibble> {
    if '0' <= c <= '9' then Some(c as int - '0' as int)
    else if 'a' <= c <= 'f' then Some(c as int - 'a' as int + 10)
    else None
  }

  function Unhex(s: string): (r: Option<seq<Nibble>>)
    ensures r.Some? ==> |r.value| == |s|
  {
    if s == "" then Some([])
    else
      match (NibbleOf(s[0]), Unhex(s[1..]))
      case (Some(n), Some(rest)) => Some([n] + rest)
      case _ => None
  }

  /** Lowercase digits in groups of 8, 4, 4, 4 and 12. */
  function Text(u: Uuid): (r: string)
    ensures |r| == 36
  {
    Hex(u[..8]) + "-" + Hex(u[8..12]) + "-" + Hex(u[12..16]) + "-" + Hex(u[16..20]) + "-" + Hex(u[20..])
  }

  /** The UUID whose canonical text is `s`: uppercase, braced and undashed forms are not. */
  function FromText(s: string): Option<Uuid> {
    if |s| == 36 && s[8] == '-' && s[13] == '-' && s[18] == '-' && s[23] == '-' then
      match (Unhex(s[..8]), Unhex(s[9..13]), Unhex(s[14..18]), Unhex(s[19..23]), Unhex(s[24..]))
      case (Some(a), Some(b), Some(c), Some(d), Some(e)) => Some(a + b + c + d + e)
      case _ => None
    else None
  }

  /** Version 7 and the variant of RFC 9562. */
  predicate IsVersion7(u: Uuid) {
    u[12] == 7 && 8 <= u[16] < 12
  }

  lemma NibbleRoundTrip(n: Nibble)
    ensures NibbleOf(DIGITS[n]) == Some(n)
  {
    assert DIGITS == ['0', '1', '2', '3', '4', '5', '6', '7', '8', '9', 'a', 'b', 'c', 'd', 'e', 'f'];
  }

  lemma DigitRoundTrip(c: char)
    requires NibbleOf(c).Some?
    ensures DIGITS[NibbleOf(c).value] == c
  {
    assert DIGITS == ['0', '1', '2', '3', '4', '5', '6', '7', '8', '9', 'a', 'b', 'c', 'd', 'e', 'f'];
  }

  lemma {:induction false} HexRoundTrip(s: seq<Nibble>)
    ensures Unhex(Hex(s)) == Some(s)
  {
    if s != [] {
      NibbleRoundTrip(s[0]);
      HexRoundTrip(s[1..]);
      assert Hex(s)[1..] == Hex(s[1..]);
      assert s == [s[0]] + s[1..];
    }
  }

  lemma {:induction false} UnhexAt(s: string, i: nat)
    requires Unhex(s).Some? && i < |s|
    ensures NibbleOf(s[i]) == Some(Unhex(s).value[i])
  {
    if i > 0 {
      UnhexAt(s[1..], i - 1);
    }
  }

  lemma UnhexRoundTrip(s: string)
    requires Unhex(s).Some?
    ensures Hex(Unhex(s).value) == s
  {
    hide Unhex, NibbleOf;
    forall i | 0 <= i < |s|
      ensures Hex(Unhex(s).value)[i] == s[i]
    {
      UnhexAt(s, i);
      DigitRoundTrip(s[i]);
    }
  }

  /** Every UUID is read back from its text. */
  lemma TextRoundTrip(u: Uuid)
    ensures FromText(Text(u)) == Some(u)
  {
    hide Hex, Unhex;
    var s := Text(u);
    HexRoundTrip(u[..8]);
    HexRoundTrip(u[8..12]);
    HexRoundTrip(u[12..16]);
    HexRoundTrip(u[16..20]);
    HexRoundTrip(u[20..]);
    assert s[..8] == Hex(u[..8]) && s[9..13] == Hex(u[8..12]) && s[14..18] == Hex(u[12..16]);
    assert s[19..23] == Hex(u[16..20]) && s[24..] == Hex(u[20..]);
    assert u == u[..8] + u[8..12] + u[12..16] + u[16..20] + u[20..];
  }

  /** Only canonical texts are read. */
  lemma FromTextRoundTrip(s: string)
    requires FromText(s).Some?
    ensures Text(FromText(s).value) == s
  {
    hide Hex, Unhex;
    var u := FromText(s).value;
    UnhexRoundTrip(s[..8]);
    UnhexRoundTrip(s[9..13]);
    UnhexRoundTrip(s[14..18]);
    UnhexRoundTrip(s[19..23]);
    UnhexRoundTrip(s[24..]);
    assert u[..8] == Unhex(s[..8]).value && u[8..12] == Unhex(s[9..13]).value && u[12..16] == Unhex(s[14..18]).value;
    assert u[16..20] == Unhex(s[19..23]).value && u[20..] == Unhex(s[24..]).value;
    assert s == s[..8] + [s[8]] + s[9..13] + [s[13]] + s[14..18] + [s[18]] + s[19..23] + [s[23]] + s[24..];
  }

  /** The version and the variant are the digits that begin the third and the fourth group. */
  lemma Version7Iff(u: Uuid)
    ensures IsVersion7(u) <==>
      && Text(u)[14] == '7'
      && (Text(u)[19] == '8' || Text(u)[19] == '9' || Text(u)[19] == 'a' || Text(u)[19] == 'b')
  {
    hide Hex;
    assert Text(u)[14] == Hex(u[12..16])[0] == DIGITS[u[12]];
    assert Text(u)[19] == Hex(u[16..20])[0] == DIGITS[u[16]];
    NibbleRoundTrip(u[12]);
    NibbleRoundTrip(u[16]);
  }
}
