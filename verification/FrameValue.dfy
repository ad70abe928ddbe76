/** JSON values: texts as trees with repeated members, values as maps, and the parser that
    refuses repetition. */
module FrameValue {
  import opened Wrappers
  import opened Integers

  /** A JSON number as the parser keeps it. A float is finite and known by its bits. */
  datatype Num = Natural(n: U64) | Negative(magnitude: U64) | Float(bits: U64)

  /** Member names: those the frame codec knows, and all others. */
  datatype Key =
    | Id | Type | ProtocolMin | ProtocolMax | Protocol | StyrnVersion | MachineId | Name | SchemaVersion
    | Method | Params | OkFlag | Data | Errors | Code | Message | Details
    | Other(text: string)

  /** A JSON text: members in order, names possibly repeated. */
  datatype Wire =
    | WNull | WBool(b: bool) | WNumber(num: Num) | WString(s: string)
    | WArray(items: seq<Wire>) | WObject(members: seq<(Key, Wire)>)

  datatype Value =
    | Null | Bool(b: bool) | Number(num: Num) | String(s: string)
    | Array(items: seq<Value>) | Object(fields: map<Key, Value>)

  // ---------------------------------------------------------------- what a text denotes

  /** No object at any depth repeats a member name. */
  ghost predicate Unique(w: Wire) {
    match w
    case WArray(items) => forall i :: 0 <= i < |items| ==> Unique(items[i])
    case WObject(members) =>
      && DistinctMembers(members)
      && (forall i :: 0 <= i < |members| ==> Unique(members[i].1))
    case _ => true
  }

  function Names(members: seq<(Key, Wire)>): set<Key> {
    set m | m in members :: m.0
  }

  ghost function IndexOf(members: seq<(Key, Wire)>, k: Key): (i: nat)
    requires k in Names(members)
    ensures i < |members| && members[i].0 == k
  {
    var m :| m in members && m.0 == k;
    var i :| 0 <= i < |members| && members[i] == m;
    i
  }

  /** The value of a text without repetition. */
  ghost function ValueOf(w: Wire): Value
    requires Unique(w)
  {
    match w
    case WNull => Null
    case WBool(b) => Bool(b)
    case WNumber(num) => Number(num)
    case WString(s) => String(s)
    case WArray(items) => Array(seq(|items|, i requires 0 <= i < |items| => ValueOf(items[i])))
    case WObject(members) => Object(map k | k in Names(members) :: ValueOf(members[IndexOf(members, k)].1))
  }

  ghost predicate DistinctMembers(members: seq<(Key, Wire)>) {
    forall i, j :: 0 <= i < j < |members| ==> members[i].0 != members[j].0
  }

  /** `m` has the members of the text `members[..n]` and no others. */
  ghost predicate Collects(members: seq<(Key, Wire)>, n: nat, m: map<Key, Value>)
    requires n <= |members|
  {
    && (forall i :: 0 <= i < n ==>
          members[i].0 in m && Unique(members[i].1) && m[members[i].0] == ValueOf(members[i].1))
    && (forall k :: k in m ==> HasMember(members, n, k))
  }

  ghost predicate HasMember(members: seq<(Key, Wire)>, n: nat, k: Key)
    requires n <= |members|
  {
    exists i :: 0 <= i < n && members[i].0 == k
  }

  lemma ObjectValueIs(members: seq<(Key, Wire)>, m: map<Key, Value>)
    requires DistinctMembers(members) && Collects(members, |members|, m)
    ensures Unique(WObject(members)) && ValueOf(WObject(members)) == Object(m)
  {
    var v := ValueOf(WObject(members)).fields;
    forall k
      ensures k in v <==> k in m
    {
      if k in m {
        var i :| 0 <= i < |members| && members[i].0 == k;
        assert members[i] in members;
      }
    }
    forall k | k in m
      ensures v[k] == m[k]
    {
      assert members[IndexOf(members, k)].0 == k;
    }
    assert v == m;
  }

  // ---------------------------------------------------------------- the parser

  /** UniqueVisitor: a value exactly for the texts without repetition. */
  method Parse(w: Wire) returns (r: Option<Value>)
    ensures r.Some? <==> Unique(w)
    ensures r.Some? ==> r.value == ValueOf(w)
    decreases w, 1
  {
    match w
    case WNull => return Some(Null);
    case WBool(b) => return Some(Bool(b));
    case WNumber(num) => return Some(Number(num));
    case WString(s) => return Some(String(s));
    case WArray(items) => r := VisitSeq(w);
    case WObject(members) => r := VisitMap(w);
  }

  /** visit_seq */
  method VisitSeq(w: Wire) returns (r: Option<Value>)
    requires w.WArray?
    ensures r.Some? <==> Unique(w)
    ensures r.Some? ==> r.value == ValueOf(w)
    decreases w, 0
  {
    var values := [];
    var i := 0;
    while i < |w.items|
      invariant 0 <= i <= |w.items| && |values| == i
      invariant forall k :: 0 <= k < i ==> Unique(w.items[k]) && values[k] == ValueOf(w.items[k])
    {
      var value := Parse(w.items[i]);
      if value == None {
        return None;
      }
      values := values + [value.value];
      i := i + 1;
    }
    return Some(Array(values));
  }

  /** visit_map */
  method VisitMap(w: Wire) returns (r: Option<Value>)
    requires w.WObject?
    ensures r.Some? <==> Unique(w)
    ensures r.Some? ==> r.value == ValueOf(w)
    decreases w, 0
  {
    var values: map<Key, Value> := map[];
    var i := 0;
    while i < |w.members|
      invariant 0 <= i <= |w.members| && DistinctMembers(w.members[..i]) && Collects(w.members, i, values)
    {
      hide ValueOf, Unique;
      var key := w.members[i].0;
      if key in values {
        RepeatedMember(w.members, i, values);
        return None;
      }
      var value := Parse(w.members[i].1);
      if value == None {
        BadMember(w.members, i);
        return None;
      }
      OneMoreMember(w.members, i, values, value.value);
      values := values[key := value.value];
      i := i + 1;
    }
    assert w.members[..i] == w.members;
    ObjectValueIs(w.members, values);
    return Some(Object(values));
  }

  lemma RepeatedMember(members: seq<(Key, Wire)>, i: nat, m: map<Key, Value>)
    requires i < |members| && Collects(members, i, m) && members[i].0 in m
    ensures !Unique(WObject(members))
  {
    assert HasMember(members, i, members[i].0);
  }

  lemma BadMember(members: seq<(Key, Wire)>, i: nat)
    requires i < |members| && !Unique(members[i].1)
    ensures !Unique(WObject(members))
  {
  }

  lemma OneMoreMember(members: seq<(Key, Wire)>, i: nat, m: map<Key, Value>, v: Value)
    requires i < |members| && DistinctMembers(members[..i]) && Collects(members, i, m) && members[i].0 !in m
    requires Unique(members[i].1) && v == ValueOf(members[i].1)
    ensures DistinctMembers(members[..i + 1]) && Collects(members, i + 1, m[members[i].0 := v])
  {
    hide ValueOf, Unique;
    var m' := m[members[i].0 := v];
    forall k | k in m'
      ensures HasMember(members, i + 1, k)
    {
      if k in m {
        assert HasMember(members, i, k);
      }
    }
    var s := members[..i + 1];
    forall a, b | 0 <= a < b < |s|
      ensures s[a].0 != s[b].0
    {
      if b < i {
        assert members[..i][a].0 != members[..i][b].0;
      }
    }
  }

  // ---------------------------------------------------------------- the printer

  /** Some order of the members of an object. */
  ghost function Enumerate(keys: set<Key>): (r: seq<Key>)
    ensures forall k :: k in keys <==> k in r
    ensures forall i, j :: 0 <= i < j < |r| ==> r[i] != r[j]
  {
    if keys == {} then []
    else
      var k :| k in keys;
      [k] + Enumerate(keys - {k})
  }

  /** The text a value is printed as. */
  ghost function WireOf(v: Value): Wire {
    match v
    case Null => WNull
    case Bool(b) => WBool(b)
    case Number(num) => WNumber(num)
    case String(s) => WString(s)
    case Array(items) => WArray(seq(|items|, i requires 0 <= i < |items| => WireOf(items[i])))
    case Object(fields) =>
      var names := Enumerate(fields.Keys);
      WObject(seq(|names|, i requires 0 <= i < |names| => (names[i], WireOf(fields[names[i]]))))
  }

  lemma PrintedObjectIsRead(fields: map<Key, Value>)
    requires forall k :: k in fields ==> Unique(WireOf(fields[k])) && ValueOf(WireOf(fields[k])) == fields[k]
    ensures Unique(WireOf(Object(fields))) && ValueOf(WireOf(Object(fields))) == Object(fields)
  {
    hide ValueOf, Unique;
    var names, members := Enumerate(fields.Keys), WireOf(Object(fields)).members;
    forall k | k in fields
      ensures HasMember(members, |members|, k)
    {
      var i :| 0 <= i < |names| && names[i] == k;
      assert members[i].0 == k;
    }
    ObjectValueIs(members, fields);
  }

  /** A printed value repeats no member and is read back unchanged. */
  lemma {:induction false} PrintedValueIsRead(v: Value)
    ensures Unique(WireOf(v)) && ValueOf(WireOf(v)) == v
  {
    match v
    case Array(items) =>
      forall i | 0 <= i < |items|
        ensures Unique(WireOf(items[i])) && ValueOf(WireOf(items[i])) == items[i]
      {
        PrintedValueIsRead(items[i]);
      }
      assert ValueOf(WireOf(v)).items == items;
    case Object(fields) =>
      forall k | k in fields
        ensures Unique(WireOf(fields[k])) && ValueOf(WireOf(fields[k])) == fields[k]
      {
        PrintedValueIsRead(fields[k]);
      }
      PrintedObjectIsRead(fields);
    case _ =>
  }

  /** A struct is printed as its fields in the order of the serialize_field calls. */
  ghost function Printed(fields: seq<(Key, Value)>): Wire {
    WObject(seq(|fields|, i requires 0 <= i < |fields| => (fields[i].0, WireOf(fields[i].1))))
  }

  ghost predicate DistinctNames(fields: seq<(Key, Value)>) {
    forall i, j :: 0 <= i < j < |fields| ==> fields[i].0 != fields[j].0
  }

  lemma PrintedStructIsRead(fields: seq<(Key, Value)>, m: map<Key, Value>)
    requires DistinctNames(fields)
    requires forall i :: 0 <= i < |fields| ==> fields[i].0 in m && m[fields[i].0] == fields[i].1
    requires forall k :: k in m ==> exists i :: 0 <= i < |fields| && fields[i].0 == k
    ensures Unique(Printed(fields)) && ValueOf(Printed(fields)) == Object(m)
  {
    forall i | 0 <= i < |fields|
      ensures Unique(WireOf(fields[i].1)) && ValueOf(WireOf(fields[i].1)) == fields[i].1
    {
      PrintedValueIsRead(fields[i].1);
    }
    hide ValueOf, Unique;
    var members := Printed(fields).members;
    forall k | k in m
      ensures HasMember(members, |members|, k)
    {
      var i :| 0 <= i < |fields| && fields[i].0 == k;
      assert members[i].0 == k;
    }
    ObjectValueIs(members, m);
  }
}
