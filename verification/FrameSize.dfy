/** The size of a frame on the wire: the bytes of its compact JSON text. */
module FrameSize {
  import opened FrameValue
  import opened FrameCodec

  /** One character inside a JSON string: quotes, backslashes and controls are escaped
      (section 7 of RFC 8259), five controls with two bytes and the others with six. */
  function EscapedCharLen(c: char): nat {
    if c == '\"' || c == '\\' || c == '\U{8}' || c == '\U{9}' || c == '\n' || c == '\U{c}' || c == '\r' then 2
    else if c < ' ' then 6
    else Utf8CharLen(c)
  }

  function EscapedLen(s: string): nat {
    if s == "" then 0 else EscapedCharLen(s[0]) + EscapedLen(s[1..])
  }

  function KeyText(k: Key): string {
    match k
    case Id => "id"
    case Type => "type"
    case ProtocolMin => "protocol_min"
    case ProtocolMax => "protocol_max"
    case Protocol => "protocol"
    case StyrnVersion => "styrn_version"
    case MachineId => "machine_id"
    case Name => "name"
    case SchemaVersion => "manifest_schema_version"
    case Method => "method"
    case Params => "params"
    case OkFlag => "ok"
    case Data => "data"
    case Errors => "errors"
    case Code => "code"
    case Message => "message"
    case Details => "details"
    case Other(text) => text
  }

  /** The number of bytes of a compact JSON text. `num` gives the length of a number. */
  function TextLen(w: Wire, num: Num -> nat): nat
    decreases w, 1, 0
  {
    match w
    case WNull => 4
    case WBool(b) => if b then 4 else 5
    case WNumber(n) => num(n)
    case WString(s) => 2 + EscapedLen(s)
    case WArray(items) => 2 + ItemsLen(w, |items|, num) + Commas(|items|)
    case WObject(members) => 2 + MembersLen(w, |members|, num) + Commas(|members|)
  }

  function Commas(n: nat): nat {
    if n == 0 then 0 else n - 1
  }

  function ItemsLen(w: Wire, n: nat, num: Num -> nat): nat
    requires w.WArray? && n <= |w.items|
    decreases w, 0, n
  {
    if n == 0 then 0 else ItemsLen(w, n - 1, num) + TextLen(w.items[n - 1], num)
  }

  function MembersLen(w: Wire, n: nat, num: Num -> nat): nat
    requires w.WObject? && n <= |w.members|
    decreases w, 0, n
  {
    if n == 0 then 0
    else MembersLen(w, n - 1, num) + 3 + EscapedLen(KeyText(w.members[n - 1].0)) + TextLen(w.members[n - 1].1, num)
  }

  lemma {:induction false} EscapingIsAtMostSixfold(s: string)
    ensures EscapedLen(s) <= 6 * Utf8Len(s) && EscapedLen(s) <= 6 * |s|
  {
    if s != "" {
      EscapingIsAtMostSixfold(s[1..]);
    }
  }

  lemma OneMemberLen(w: Wire, num: Num -> nat)
    requires w.WObject? && |w.members| == 1
    ensures TextLen(w, num) == 5 + EscapedLen(KeyText(w.members[0].0)) + TextLen(w.members[0].1, num)
  {
    hide KeyText, EscapedLen;
    assert MembersLen(w, 1, num) ==
      MembersLen(w, 0, num) + 3 + EscapedLen(KeyText(w.members[0].0)) + TextLen(w.members[0].1, num);
  }

  function MemberLen(m: (Key, Wire), num: Num -> nat): nat {
    3 + EscapedLen(KeyText(m.0)) + TextLen(m.1, num)
  }

  lemma FourMembersLen(w: Wire, num: Num -> nat)
    requires w.WObject? && |w.members| == 4
    ensures TextLen(w, num) == 5 + MemberLen(w.members[0], num) + MemberLen(w.members[1], num)
                                 + MemberLen(w.members[2], num) + MemberLen(w.members[3], num)
  {
    hide KeyText, EscapedLen;
    assert MembersLen(w, 1, num) == MembersLen(w, 0, num) + MemberLen(w.members[0], num);
    assert MembersLen(w, 2, num) == MembersLen(w, 1, num) + MemberLen(w.members[1], num);
    assert MembersLen(w, 3, num) == MembersLen(w, 2, num) + MemberLen(w.members[2], num);
    assert MembersLen(w, 4, num) == MembersLen(w, 3, num) + MemberLen(w.members[3], num);
  }

  lemma {:induction false} MembersAtMost(w: Wire, n: nat, bound: nat, num: Num -> nat)
    requires w.WObject? && n <= |w.members|
    requires forall i :: 0 <= i < n ==> MemberLen(w.members[i], num) <= bound
    ensures MembersLen(w, n, num) <= n * bound
  {
    hide KeyText, EscapedLen, TextLen;
    if n > 0 {
      MembersAtMost(w, n - 1, bound, num);
      assert MembersLen(w, n, num) == MembersLen(w, n - 1, num) + MemberLen(w.members[n - 1], num);
      assert (n - 1) * bound + bound == n * bound;
    }
  }

  /** An object of at most eight members of at most 2000 bytes each is small. */
  lemma SmallObject(w: Wire, num: Num -> nat)
    requires w.WObject? && |w.members| <= 8
    requires forall i :: 0 <= i < |w.members| ==> MemberLen(w.members[i], num) <= 2000
    ensures TextLen(w, num) <= 16010
  {
    MembersAtMost(w, |w.members|, 2000, num);
  }

  lemma StringMemberLen(k: Key, s: string, num: Num -> nat)
    ensures MemberLen((k, WString(s)), num) <= 5 + 6 * |KeyText(k)| + 6 * |s|
  {
    EscapingIsAtMostSixfold(KeyText(k));
    EscapingIsAtMostSixfold(s);
  }

  // ---------------------------------------------------------------- small objects

  lemma EnumerateOne(k: Key)
    ensures Enumerate({k}) == [k]
  {
    assert {k} - {k} == {};
  }

  lemma {:induction false} EnumerateSize(keys: set<Key>)
    ensures |Enumerate(keys)| == |keys|
  {
    if keys != {} {
      EnumerateSize(keys - {Enumerate(keys)[0]});
    }
  }

  /** All members are short texts. */
  predicate ShortMembers(w: Wire, key: nat, text: nat) {
    w.WObject? && forall i :: 0 <= i < |w.members| ==>
      |KeyText(w.members[i].0)| <= key && w.members[i].1.WString? && |w.members[i].1.s| <= text
  }

  lemma {:induction false} ShortMembersLen(w: Wire, n: nat, key: nat, text: nat, num: Num -> nat)
    requires ShortMembers(w, key, text) && n <= |w.members|
    ensures MembersLen(w, n, num) <= n * (5 + 6 * key + 6 * text)
  {
    if n > 0 {
      ShortMembersLen(w, n - 1, key, text, num);
      StringMemberLen(w.members[n - 1].0, w.members[n - 1].1.s, num);
      assert (n - 1) * (5 + 6 * key + 6 * text) + (5 + 6 * key + 6 * text) == n * (5 + 6 * key + 6 * text);
    }
  }

  lemma ObjectMembers(fields: map<Key, Value>)
    ensures WireOf(Object(fields)).WObject? && |WireOf(Object(fields)).members| == |fields.Keys|
    ensures forall m :: m in WireOf(Object(fields)).members ==> m.0 in fields && m.1 == WireOf(fields[m.0])
  {
    var names, w := Enumerate(fields.Keys), WireOf(Object(fields));
    EnumerateSize(fields.Keys);
    forall m | m in w.members
      ensures m.0 in fields && m.1 == WireOf(fields[m.0])
    {
      var i :| 0 <= i < |w.members| && w.members[i] == m;
      assert names[i] in names;
    }
  }

  lemma PrintedString(s: string)
    ensures WireOf(String(s)) == WString(s)
  {
  }

  lemma ShortObject(fields: map<Key, Value>, key: nat, text: nat)
    requires forall k :: k in fields ==> |KeyText(k)| <= key && fields[k].String? && |fields[k].s| <= text
    ensures ShortMembers(WireOf(Object(fields)), key, text) && |WireOf(Object(fields)).members| == |fields.Keys|
  {
    hide KeyText, WireOf;
    ObjectMembers(fields);
    var w := WireOf(Object(fields));
    forall i | 0 <= i < |w.members|
      ensures |KeyText(w.members[i].0)| <= key && w.members[i].1.WString? && |w.members[i].1.s| <= text
    {
      assert w.members[i] in w.members;
      PrintedString(fields[w.members[i].0].s);
    }
  }

  lemma OneItemLen(v: Value, num: Num -> nat)
    ensures TextLen(WireOf(Array([v])), num) == 2 + TextLen(WireOf(v), num)
  {
    hide EscapedLen;
    var list := WireOf(Array([v]));
    assert list.items[0] == WireOf(v) && |list.items| == 1;
    assert ItemsLen(list, 1, num) == ItemsLen(list, 0, num) + TextLen(WireOf(v), num);
  }

  lemma TwoTextsLen(code: string, message: string, text: nat, num: Num -> nat)
    requires |code| <= text && |message| <= text
    ensures TextLen(WireOf(Object(map[Code := String(code), Message := String(message)])), num) <= 97 + 12 * text
  {
    hide EscapedLen, WireOf;
    var fields := map[Code := String(code), Message := String(message)];
    ShortObject(fields, 7, text);
    assert fields.Keys == {Code, Message};
    ShortMembersLen(WireOf(Object(fields)), 2, 7, text, num);
  }

  /** A list with one diagnostic without details. */
  lemma DiagnosticLen(d: Diagnostic, text: nat, num: Num -> nat)
    requires d.details.None? && |d.code| <= text && |d.message| <= text
    ensures TextLen(WireOf(DiagnosticValues([d])), num) <= 99 + 12 * text
  {
    hide TextLen, WireOf;
    assert DiagnosticValues([d]).items == [DiagnosticValue(d)];
    OneItemLen(DiagnosticValue(d), num);
    TwoTextsLen(d.code, d.message, text, num);
  }

  lemma StringLen(s: string, num: Num -> nat)
    ensures TextLen(WString(s), num) <= 2 + 6 * |s|
  {
    EscapingIsAtMostSixfold(s);
  }

  lemma IdMemberLen(id: string, num: Num -> nat)
    ensures MemberLen((Id, WString(id)), num) <= 17 + 6 * |id|
  {
    StringMemberLen(Id, id, num);
  }

  lemma TypeMemberLen(kind: string, num: Num -> nat)
    ensures MemberLen((Type, WString(kind)), num) <= 29 + 6 * |kind|
  {
    StringMemberLen(Type, kind, num);
  }

  lemma OkMemberLen(ok: bool, num: Num -> nat)
    ensures MemberLen((OkFlag, WBool(ok)), num) <= 20
  {
    EscapingIsAtMostSixfold(KeyText(OkFlag));
  }

  lemma OtherMemberLen(k: Key, w: Wire, num: Num -> nat)
    requires |KeyText(k)| <= 30
    ensures MemberLen((k, w), num) <= 183 + TextLen(w, num)
  {
    EscapingIsAtMostSixfold(KeyText(k));
  }
}
