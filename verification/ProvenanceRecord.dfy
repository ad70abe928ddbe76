/** The byte encoding of a creation-provenance record and of the preimage of a marker name. */
module ProvenanceRecord {
  import opened Wrappers
  import opened Integers

  type FileId = s: seq<Byte> | |s| == 16 witness seq(16, _ => 0)

  datatype Identity = Identity(volume: U64, fileId: FileId)

  /** What one record binds together. */
  datatype Facts = Facts(
    staging: Identity, destination: Identity, created: Identity, marker: Identity,
    first: U64, second: U64, uid: U32, name: seq<Byte>)

  const MAGIC: seq<Byte> := [
    83, 84, 89, 82, 78, 45, 87, 79, 82, 75, 69, 82, 45, 80, 82, 79, 86, 69, 78, 65, 78, 67, 69, 45, 86, 50, 0]

  const NAME_DOMAIN: seq<Byte> := [
    115, 116, 121, 114, 110, 45, 119, 111, 114, 107, 101, 114, 45, 112, 114, 111, 118, 101, 110, 97, 110, 99, 101, 45,
      118, 49]

  // ---------------------------------------------------------------- little-endian integers

  function Pow256(w: nat): nat {
    if w == 0 then 1 else 256 * Pow256(w - 1)
  }

  function Le(n: nat, w: nat): (r: seq<Byte>)
    ensures |r| == w
  {
    if w == 0 then [] else [n % 256] + Le(n / 256, w - 1)
  }

  function FromLe(s: seq<Byte>): nat {
    if s == [] then 0 else s[0] + 256 * FromLe(s[1..])
  }

  lemma {:induction false} LeRoundTrip(n: nat, w: nat)
    requires n < Pow256(w)
    ensures FromLe(Le(n, w)) == n
  {
    if w > 0 {
      LeRoundTrip(n / 256, w - 1);
      assert Le(n, w)[1..] == Le(n / 256, w - 1);
    }
  }

  lemma {:induction false} FromLeRoundTrip(s: seq<Byte>)
    ensures FromLe(s) < Pow256(|s|) && Le(FromLe(s), |s|) == s
  {
    if s != [] {
      FromLeRoundTrip(s[1..]);
      assert FromLe(s) % 256 == s[0] && FromLe(s) / 256 == FromLe(s[1..]);
      assert s == [s[0]] + s[1..];
    }
  }

  lemma Widths()
    ensures Pow256(4) == 0x1_0000_0000 && Pow256(8) == 0x1_0000_0000_0000_0000
  {
    assert Pow256(2) == 0x1_0000;
    assert Pow256(4) == 0x1_0000_0000;
    assert Pow256(6) == 0x1_0000_0000_0000;
  }

  // ---------------------------------------------------------------- identities

  function IdentityBytes(i: Identity): (r: seq<Byte>)
    ensures |r| == 24
  {
    Le(i.volume, 8) + i.fileId
  }

  function IdentityOf(s: seq<Byte>): Identity
    requires |s| == 24
  {
    FromLeRoundTrip(s[..8]);
    Widths();
    Identity(FromLe(s[..8]), s[8..])
  }

  lemma IdentityRoundTrip(i: Identity)
    ensures IdentityOf(IdentityBytes(i)) == i
  {
    Widths();
    LeRoundTrip(i.volume, 8);
    assert IdentityBytes(i)[..8] == Le(i.volume, 8) && IdentityBytes(i)[8..] == i.fileId;
  }

  lemma IdentityBytesRoundTrip(s: seq<Byte>)
    requires |s| == 24
    ensures IdentityBytes(IdentityOf(s)) == s
  {
    FromLeRoundTrip(s[..8]);
    assert s == s[..8] + s[8..];
  }

  // ---------------------------------------------------------------- records

  /** Everything before the name: 147 bytes. */
  function Head(f: Facts): (r: seq<Byte>)
    ensures |r| == 147
  {
    MAGIC
    + IdentityBytes(f.staging) + IdentityBytes(f.destination) + IdentityBytes(f.created) + IdentityBytes(f.marker)
    + Le(f.first, 8) + Le(f.second, 8) + Le(f.uid, 4) + Le(|f.name|, 4)
  }

  function Encode(f: Facts): Option<seq<Byte>> {
    if |f.name| < 0x1_0000_0000 then Some(Head(f) + f.name) else None
  }

  /** worker_creation_provenance_record */
  method EncodeRecord(f: Facts) returns (r: Option<seq<Byte>>)
    ensures r == Encode(f)
    ensures r.None? <==> |f.name| >= 0x1_0000_0000
  {
    hide Le, FromLe;
    if |f.name| >= 0x1_0000_0000 {
      return None;
    }
    var record := MAGIC;
    var identities := [f.staging, f.destination, f.created, f.marker];
    var i := 0;
    ghost var bytes := [IdentityBytes(f.staging), IdentityBytes(f.destination), IdentityBytes(f.created),
      IdentityBytes(f.marker)];
    while i < |identities|
      invariant 0 <= i <= 4
      invariant record == match i
                          case 0 => MAGIC
                          case 1 => MAGIC + bytes[0]
                          case 2 => MAGIC + bytes[0] + bytes[1]
                          case 3 => MAGIC + bytes[0] + bytes[1] + bytes[2]
                          case _ => MAGIC + bytes[0] + bytes[1] + bytes[2] + bytes[3]
    {
      assert bytes[i] == Le(identities[i].volume, 8) + identities[i].fileId;
      record := record + Le(identities[i].volume, 8);
      record := record + identities[i].fileId;
      i := i + 1;
    }
    record := record + Le(f.first, 8);
    record := record + Le(f.second, 8);
    record := record + Le(f.uid, 4);
    record := record + Le(|f.name|, 4);
    record := record + f.name;
    return Some(record);
  }

  function Decode(s: seq<Byte>): Option<Facts> {
    if |s| < 147 || s[..27] != MAGIC then None
    else
      var name := s[147..];
      if FromLe(s[143..147]) != |name| then None
      else
        FromLeRoundTrip(s[123..131]);
        FromLeRoundTrip(s[131..139]);
        FromLeRoundTrip(s[139..143]);
        Widths();
        Some(Facts(IdentityOf(s[27..51]), IdentityOf(s[51..75]), IdentityOf(s[75..99]), IdentityOf(s[99..123]),
                   FromLe(s[123..131]), FromLe(s[131..139]), FromLe(s[139..143]), name))
  }

  lemma HeadSlices(f: Facts, s: seq<Byte>)
    requires s == Head(f) + f.name
    ensures s[..27] == MAGIC && s[27..51] == IdentityBytes(f.staging) && s[51..75] == IdentityBytes(f.destination)
    ensures s[75..99] == IdentityBytes(f.created) && s[99..123] == IdentityBytes(f.marker)
    ensures s[123..131] == Le(f.first, 8) && s[131..139] == Le(f.second, 8)
    ensures s[139..143] == Le(f.uid, 4) && s[143..147] == Le(|f.name|, 4) && s[147..] == f.name
  {
    hide Le, FromLe, IdentityBytes;
  }

  /** A record can be read back. */
  lemma DecodeInvertsEncode(f: Facts)
    requires Encode(f).Some?
    ensures Decode(Encode(f).value) == Some(f)
  {
    hide IdentityBytes, IdentityOf, Le, FromLe, Head;
    var s := Encode(f).value;
    HeadSlices(f, s);
    Widths();
    IdentityRoundTrip(f.staging);
    IdentityRoundTrip(f.destination);
    IdentityRoundTrip(f.created);
    IdentityRoundTrip(f.marker);
    LeRoundTrip(f.first, 8);
    LeRoundTrip(f.second, 8);
    LeRoundTrip(f.uid, 4);
    LeRoundTrip(|f.name|, 4);
  }

  /** Only encodings can be read back. */
  lemma EncodeInvertsDecode(s: seq<Byte>)
    requires Decode(s).Some?
    ensures Encode(Decode(s).value) == Some(s)
  {
    hide IdentityBytes, IdentityOf, Le, FromLe, Pow256;
    var f := Decode(s).value;
    Widths();
    IdentityBytesRoundTrip(s[27..51]);
    IdentityBytesRoundTrip(s[51..75]);
    IdentityBytesRoundTrip(s[75..99]);
    IdentityBytesRoundTrip(s[99..123]);
    FromLeRoundTrip(s[123..131]);
    FromLeRoundTrip(s[131..139]);
    FromLeRoundTrip(s[139..143]);
    FromLeRoundTrip(s[143..147]);
    assert s == s[..27] + s[27..51] + s[51..75] + s[75..99] + s[99..123] + s[123..131]
                + s[131..139] + s[139..143] + s[143..147] + s[147..];
  }

  /** Equal records state equal facts, so a marker that holds the expected record vouches
      for the expected creation and for no other. */
  lemma EncodingIsInjective(f: Facts, g: Facts)
    requires Encode(f).Some? && Encode(f) == Encode(g)
    ensures f == g
  {
    hide Encode, Decode;
    DecodeInvertsEncode(f);
    DecodeInvertsEncode(g);
  }

  // ---------------------------------------------------------------- marker names

  /** What is hashed into the name of a marker. */
  function NamePreimage(parent: Identity, name: seq<Byte>): seq<Byte> {
    NAME_DOMAIN + Le(parent.volume, 8) + parent.fileId + name
  }

  /** Different destinations never hash the same bytes: the parent has a fixed width. */
  lemma NamePreimageIsInjective(p: Identity, name: seq<Byte>, p': Identity, name': seq<Byte>)
    requires NamePreimage(p, name) == NamePreimage(p', name')
    ensures p == p' && name == name'
  {
    hide Le;
    var s := NamePreimage(p, name);
    assert |NAME_DOMAIN| == 26;
    assert s[26..50] == IdentityBytes(p) && s[50..] == name;
    assert s == NamePreimage(p', name');
    assert s[26..50] == IdentityBytes(p') && s[50..] == name';
    IdentityRoundTrip(p);
    IdentityRoundTrip(p');
  }
}
