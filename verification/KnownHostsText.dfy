/** The text of known_hosts: one line for each host, from which ssh reads back where the host
    is and which key it has. */
module KnownHostsText {
  import opened Inventory
  import opened HostFiles
  import opened RpcId

  const SSH_PORT := 22

  /** A port other than the usual one is written behind the bracketed host. */
  function Destination(l: Line): string {
    if l.port == SSH_PORT then l.host else "[" + l.host + "]:" + Decimal(l.port)
  }

  /** PinnedHostKey::known_hosts_line */
  function LineText(l: Line): string {
    Destination(l) + " " + l.pin + "\n"
  }

  function Text(lines: seq<Line>): string {
    if lines == [] then "" else LineText(lines[0]) + Text(lines[1..])
  }

  predicate HostChar(c: char) {
    '0' <= c <= '9' || 'a' <= c <= 'z' || 'A' <= c <= 'Z' || c == '.' || c == '-' || c == '_'
  }

  predicate AddressChar(c: char) {
    '0' <= c <= '9' || 'a' <= c <= 'f' || 'A' <= c <= 'F' || c == '.' || c == ':'
  }

  /** validate_host: a name, or an IPv6 address in brackets. */
  predicate ValidHost(h: string) {
    || (h != "" && forall i :: 0 <= i < |h| ==> HostChar(h[i]))
    || (2 <= |h| && h[0] == '[' && h[|h| - 1] == ']' && forall i :: 0 < i < |h| - 1 ==> AddressChar(h[i]))
  }

  /** A key is an algorithm and its base64 text, on one line. */
  predicate ValidLine(l: Line) {
    ValidHost(l.host) && '\n' !in l.pin
  }

  lemma CutAtFirst(x: string, y: string, x': string, y': string, c: char)
    requires x + [c] + y == x' + [c] + y' && c !in x && c !in x'
    ensures x == x' && y == y'
  {
    var s := x + [c] + y;
    assert s[|x|] == c && s[|x'|] == c;
    assert x == s[..|x|] && x' == s[..|x'|] && y == s[|x| + 1..] && y' == s[|x'| + 1..];
  }

  lemma CutAtLast(x: string, y: string, x': string, y': string, c: char)
    requires x + [c] + y == x' + [c] + y' && c !in y && c !in y'
    ensures x == x' && y == y'
  {
    var s := x + [c] + y;
    assert s[|x|] == c && s[|x'|] == c;
    assert x == s[..|x|] && x' == s[..|x'|] && y == s[|x| + 1..] && y' == s[|x'| + 1..];
  }

  lemma DestinationHasNoSpace(l: Line)
    requires ValidLine(l)
    ensures ' ' !in Destination(l) && '\n' !in Destination(l)
  {
  }

  lemma PortedDestination(k: Line)
    requires k.port != SSH_PORT
    ensures var d := Destination(k); d != "" && d[0] == '[' && '0' <= d[|d| - 1] <= '9'
  {
    var port := Decimal(k.port);
    assert Destination(k)[|Destination(k)| - 1] == port[|port| - 1];
  }

  /** A destination with a port ends with a digit, and a host that begins with a bracket
      does not. */
  lemma PortShows(l: Line, k: Line)
    requires ValidLine(l) && ValidLine(k) && Destination(l) == Destination(k) && l.port == SSH_PORT
    ensures k.port == SSH_PORT
  {
    if k.port != SSH_PORT {
      PortedDestination(k);
      assert false;
    }
  }

  lemma DestinationIsInjective(l: Line, k: Line)
    requires ValidLine(l) && ValidLine(k) && Destination(l) == Destination(k)
    ensures l.host == k.host && l.port == k.port
  {
    if l.port == SSH_PORT {
      PortShows(l, k);
    } else if k.port == SSH_PORT {
      PortShows(k, l);
    } else {
      var open, close := "[" + l.host + "]", "[" + k.host + "]";
      assert Destination(l) == open + [':'] + Decimal(l.port) && Destination(k) == close + [':'] + Decimal(k.port);
      CutAtLast(open, Decimal(l.port), close, Decimal(k.port), ':');
      assert l.host == open[1..|open| - 1] && k.host == close[1..|close| - 1];
      DecimalRoundTrip(l.port);
      DecimalRoundTrip(k.port);
    }
  }

  lemma LineIsInjective(l: Line, k: Line)
    requires ValidLine(l) && ValidLine(k) && Destination(l) + " " + l.pin == Destination(k) + " " + k.pin
    ensures l == k
  {
    hide Destination, ValidLine;
    DestinationHasNoSpace(l);
    DestinationHasNoSpace(k);
    CutAtFirst(Destination(l), l.pin, Destination(k), k.pin, ' ');
    DestinationIsInjective(l, k);
  }

  /** The text determines the lines: hosts, ports and keys, in order. */
  lemma {:induction false} TextIsInjective(a: seq<Line>, b: seq<Line>)
    requires (forall l :: l in a ==> ValidLine(l)) && (forall l :: l in b ==> ValidLine(l)) && Text(a) == Text(b)
    ensures a == b
  {
    hide Destination, ValidLine;
    if a == [] || b == [] {
      assert a == b;
    } else {
      var x, y := Destination(a[0]) + " " + a[0].pin, Destination(b[0]) + " " + b[0].pin;
      DestinationHasNoSpace(a[0]);
      DestinationHasNoSpace(b[0]);
      PinsAreOneLine(a[0]);
      PinsAreOneLine(b[0]);
      assert Text(a) == x + ['\n'] + Text(a[1..]) && Text(b) == y + ['\n'] + Text(b[1..]);
      CutAtFirst(x, Text(a[1..]), y, Text(b[1..]), '\n');
      LineIsInjective(a[0], b[0]);
      TextIsInjective(a[1..], b[1..]);
      assert a == [a[0]] + a[1..] && b == [b[0]] + b[1..];
    }
  }

  lemma PinsAreOneLine(l: Line)
    requires ValidLine(l)
    ensures '\n' !in l.pin
  {
  }

  /** known_hosts says of each host of the inventory, in order, where it is and its key, and
      nothing else. */
  lemma KnownHostsMeans(hosts: seq<Host>, lines: seq<Line>)
    requires (forall l :: l in lines ==> ValidLine(l)) && (forall l :: l in KnownHosts(hosts) ==> ValidLine(l))
    ensures Text(lines) == Text(KnownHosts(hosts)) <==>
      && |lines| == |hosts|
      && forall i :: 0 <= i < |hosts| ==>
           lines[i] == Line(hosts[i].transport.host, hosts[i].transport.port, hosts[i].transport.pin)
  {
    hide Text, ValidLine;
    var known := KnownHosts(hosts);
    if Text(lines) == Text(known) {
      TextIsInjective(lines, known);
    }
    if |lines| == |hosts| && forall i :: 0 <= i < |hosts| ==>
      lines[i] == Line(hosts[i].transport.host, hosts[i].transport.port, hosts[i].transport.pin)
    {
      assert lines == known;
    }
  }
}
