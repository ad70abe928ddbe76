/** Request identifiers: "c" followed by a decimal counter. */
module RpcId {
  import opened FrameCodec

  const MAX_U64 := 0xffff_ffff_ffff_ffff

  function Digit(n: nat): (c: char)
    requires n < 10
    ensures '0' <= c <= '9' && c as int - '0' as int == n
  {
    ('0' as int + n) as char
  }

  function Decimal(n: nat): (s: string)
    ensures s != "" && forall i :: 0 <= i < |s| ==> '0' <= s[i] <= '9'
  {
    if n < 10 then [Digit(n)] else Decimal(n / 10) + [Digit(n % 10)]
  }

  function FromDecimal(s: string): nat
    requires forall i :: 0 <= i < |s| ==> '0' <= s[i] <= '9'
  {
    if s == "" then 0 else 10 * FromDecimal(s[..|s| - 1]) + (s[|s| - 1] as int - '0' as int)
  }

  function Pow10(k: nat): nat {
    if k == 0 then 1 else 10 * Pow10(k - 1)
  }

  function RequestId(n: nat): string {
    "c" + Decimal(n)
  }

  lemma {:induction false} DecimalRoundTrip(n: nat)
    ensures FromDecimal(Decimal(n)) == n
  {
    if n < 10 {
      assert FromDecimal("") == 0;
      assert Decimal(n)[..0] == "";
    } else {
      DecimalRoundTrip(n / 10);
      assert Decimal(n)[..|Decimal(n)| - 1] == Decimal(n / 10);
    }
  }

  lemma {:induction false} DecimalLength(n: nat, k: nat)
    requires n < Pow10(k) && 0 < k
    ensures |Decimal(n)| <= k
  {
    if n >= 10 {
      assert k > 1 by { assert Pow10(1) == 10 * Pow10(0); }
      DecimalLength(n / 10, k - 1);
    }
  }

  lemma {:induction false} NoLeadingZero(n: nat)
    requires 0 < n
    ensures Decimal(n)[0] != '0'
  {
    if n >= 10 {
      NoLeadingZero(n / 10);
    }
  }

  lemma {:induction false} AsciiLength(s: string)
    requires forall i :: 0 <= i < |s| ==> s[i] < '\U{80}'
    ensures Utf8Len(s) == |s|
  {
    if s != "" {
      AsciiLength(s[1..]);
    }
  }

  lemma TwentyDigits()
    ensures MAX_U64 < Pow10(20)
  {
    assert Pow10(5) == 100_000;
    assert Pow10(10) == 10_000_000_000;
    assert Pow10(15) == 1_000_000_000_000_000;
  }

  /** Every identifier a session can use is accepted by the frame decoder. */
  lemma RequestIdIsControllerId(n: nat)
    requires 0 < n <= MAX_U64
    ensures IsControllerId(RequestId(n)) && Utf8Len(RequestId(n)) <= 21
  {
    hide Decimal, Pow10, Utf8Len;
    NoLeadingZero(n);
    TwentyDigits();
    DecimalLength(n, 20);
    AsciiLength(RequestId(n));
  }

  /** Different counters give different identifiers. */
  lemma RequestIdIsInjective(m: nat, n: nat)
    requires RequestId(m) == RequestId(n)
    ensures m == n
  {
    hide Decimal, FromDecimal;
    assert RequestId(m)[1..] == Decimal(m) && RequestId(n)[1..] == Decimal(n);
    DecimalRoundTrip(m);
    DecimalRoundTrip(n);
  }

  lemma DigitsAreRead(s: string)
    requires s != "" && forall i :: 0 <= i < |s| ==> '0' <= s[i] <= '9'
    ensures FromDecimal(s) / 10 == FromDecimal(s[..|s| - 1])
    ensures FromDecimal(s) % 10 == s[|s| - 1] as int - '0' as int
  {
    hide FromDecimal;
    var q, r := FromDecimal(s[..|s| - 1]), s[|s| - 1] as int - '0' as int;
    assert FromDecimal(s) == 10 * q + r by { LastDigit(s); }
  }

  lemma LastDigit(s: string)
    requires s != "" && forall i :: 0 <= i < |s| ==> '0' <= s[i] <= '9'
    ensures FromDecimal(s) == 10 * FromDecimal(s[..|s| - 1]) + (s[|s| - 1] as int - '0' as int)
  {
  }

  /** A text of digits without leading zero is a decimal number. */
  lemma {:induction false} DigitsAreDecimal(s: string)
    requires s != "" && s[0] != '0' && forall i :: 0 <= i < |s| ==> '0' <= s[i] <= '9'
    ensures FromDecimal(s) > 0 && Decimal(FromDecimal(s)) == s
  {
    DigitsAreRead(s);
    var first, last := s[..|s| - 1], s[|s| - 1];
    assert s == first + [last];
    if first == "" {
      assert FromDecimal(s) == last as int - '0' as int by { LastDigit(s); assert FromDecimal("") == 0; }
    } else {
      DigitsAreDecimal(first);
      hide FromDecimal;
      assert Decimal(FromDecimal(s)) == Decimal(FromDecimal(first)) + [last];
    }
  }

  /** The decoder accepts exactly "c" and a positive decimal number, however large. */
  lemma ControllerIdIff(id: string)
    ensures IsControllerId(id) <==> exists n: nat :: 0 < n && id == RequestId(n)
  {
    hide Decimal, FromDecimal;
    if IsControllerId(id) {
      DigitsAreDecimal(id[1..]);
      assert id == "c" + id[1..];
      assert id == RequestId(FromDecimal(id[1..]));
    }
    if n: nat :| 0 < n && id == RequestId(n) {
      NoLeadingZero(n);
    }
  }
}
