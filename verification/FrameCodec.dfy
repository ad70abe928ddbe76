/** Frames: how each kind is printed, and which texts are accepted as which frame. */
module FrameCodec {
  import opened Wrappers
  import opened Integers
  import opened FrameValue
  import opened MachineUuid

  const MAX_ID_BYTES := 64
  const MAX_VERSION_BYTES := 128
  const MAX_NAME_BYTES := 255
  const MAX_METHOD_BYTES := 64
  const MAX_DIAGNOSTIC_BYTES := 1024

  datatype Diagnostic = Diagnostic(code: string, message: string, details: Option<Value>)

  datatype Frame =
    | ServerHello(
        protocolMin: U32, protocolMax: U32, version: string, machineId: Uuid, name: string, schemaVersion: U64)
    | ClientHello(protocol: U32, version: string)
    | Request(id: string, method_: string, params: Value)
    | Response(id: string, ok: bool, data: Option<Value>, errors: seq<Diagnostic>)
    | ErrorFrame(id: string, errors: seq<Diagnostic>)

  datatype FrameError = InvalidJson | InvalidId | UnsupportedType

  function Utf8CharLen(c: char): nat {
    if c < '\U{80}' then 1 else if c < '\U{800}' then 2 else if c < '\U{10000}' then 3 else 4
  }

  /** The length of a text in UTF-8 bytes. */
  function Utf8Len(s: string): nat {
    if s == "" then 0 else Utf8CharLen(s[0]) + Utf8Len(s[1..])
  }

  predicate Sized(s: string, max: nat) {
    s != "" && Utf8Len(s) <= max
  }

  // ---------------------------------------------------------------- printing

  function DiagnosticValue(d: Diagnostic): Value {
    var m := map[Code := String(d.code), Message := String(d.message)];
    Object(if d.details.Some? then m[Details := d.details.value] else m)
  }

  function DiagnosticValues(errors: seq<Diagnostic>): Value {
    Array(seq(|errors|, i requires 0 <= i < |errors| => DiagnosticValue(errors[i])))
  }

  function Whole(n: U64): Value { Number(Natural(n)) }

  /** The serialize_field calls for a frame, in order. */
  function FieldsOf(f: Frame): seq<(Key, Value)> {
    match f
    case ServerHello(min, max, version, machineId, name, schema) =>
      [(Id, String("hello")), (Type, String("hello")), (ProtocolMin, Whole(min)), (ProtocolMax, Whole(max)),
       (StyrnVersion, String(version)), (MachineId, String(Text(machineId))), (Name, String(name)),
       (SchemaVersion, Whole(schema))]
    case ClientHello(protocol, version) =>
      [(Id, String("hello")), (Type, String("hello")), (Protocol, Whole(protocol)), (StyrnVersion, String(version))]
    case Request(id, m, params) =>
      [(Id, String(id)), (Type, String("request")), (Method, String(m)), (Params, params)]
    case Response(id, ok, data, errors) =>
      [(Id, String(id)), (Type, String("response")), (OkFlag, Bool(ok)),
       if ok then (Data, if data.Some? then data.value else Null) else (Errors, DiagnosticValues(errors))]
    case ErrorFrame(id, errors) =>
      [(Id, String(id)), (Type, String("error")), (Errors, DiagnosticValues(errors))]
  }

  ghost function Emit(f: Frame): Wire {
    Printed(FieldsOf(f))
  }

  /** The printed members as a map. */
  function Members(f: Frame): map<Key, Value> {
    match f
    case ServerHello(min, max, version, machineId, name, schema) =>
      map[Id := String("hello"), Type := String("hello"), ProtocolMin := Whole(min), ProtocolMax := Whole(max),
          StyrnVersion := String(version), MachineId := String(Text(machineId)), Name := String(name),
          SchemaVersion := Whole(schema)]
    case ClientHello(protocol, version) =>
      map[Id := String("hello"), Type := String("hello"), Protocol := Whole(protocol), StyrnVersion := String(version)]
    case Request(id, m, params) =>
      map[Id := String(id), Type := String("request"), Method := String(m), Params := params]
    case Response(id, ok, data, errors) =>
      if ok then
        map[Id := String(id), Type := String("response"), OkFlag := Bool(ok),
            Data := if data.Some? then data.value else Null]
      else map[Id := String(id), Type := String("response"), OkFlag := Bool(ok), Errors := DiagnosticValues(errors)]
    case ErrorFrame(id, errors) =>
      map[Id := String(id), Type := String("error"), Errors := DiagnosticValues(errors)]
  }

  // ---------------------------------------------------------------- typed fields

  /** One optional field of RawFrame: null counts as absent. */
  datatype Field<+T> = Wrong | Absent | Has(value: T) {
    function Get(): Option<T> {
      if Has? then Some(value) else None
    }
  }

  function Member(m: map<Key, Value>, k: Key): Value {
    if k in m then m[k] else Null
  }

  function TextField(v: Value): Field<string> {
    match v
    case Null => Absent
    case String(s) => Has(s)
    case _ => Wrong
  }

  function SmallField(v: Value): Field<U32> {
    match v
    case Null => Absent
    case Number(Natural(n)) => if n < 0x1_0000_0000 then Has(n) else Wrong
    case _ => Wrong
  }

  function LargeField(v: Value): Field<U64> {
    match v
    case Null => Absent
    case Number(Natural(n)) => Has(n)
    case _ => Wrong
  }

  function BoolField(v: Value): Field<bool> {
    match v
    case Null => Absent
    case Bool(b) => Has(b)
    case _ => Wrong
  }

  function ValueField(v: Value): Option<Value> {
    if v == Null then None else Some(v)
  }

  /** A diagnostic is an object, or the sequence of its fields. */
  function DiagnosticOf(v: Value): Option<Diagnostic> {
    match v
    case Object(m) =>
      if Code in m && m[Code].String? && Message in m && m[Message].String?
        && (Details in m ==> m[Details].Object?) then
        Some(Diagnostic(m[Code].s, m[Message].s, if Details in m then Some(m[Details]) else None))
      else None
    case Array(items) =>
      if 2 <= |items| <= 3 && items[0].String? && items[1].String? && (|items| == 3 ==> items[2].Object?) then
        Some(Diagnostic(items[0].s, items[1].s, if |items| == 3 then Some(items[2]) else None))
      else None
    case _ => None
  }

  function DiagnosticsOf(items: seq<Value>): (r: Option<seq<Diagnostic>>)
    ensures r.Some? <==> forall i :: 0 <= i < |items| ==> DiagnosticOf(items[i]).Some?
    ensures r.Some? ==> |r.value| == |items| && forall i :: 0 <= i < |items| ==>
      DiagnosticOf(items[i]) == Some(r.value[i])
  {
    if items == [] then Some([])
    else
      match (DiagnosticOf(items[0]), DiagnosticsOf(items[1..]))
      case (Some(d), Some(rest)) =>
        assert items == [items[0]] + items[1..];
        Some([d] + rest)
      case (None, _) => None
      case (_, None) =>
        assert exists i :: 0 <= i < |items[1..]| && DiagnosticOf(items[1..][i]).None?;
        assert forall i :: 0 <= i < |items[1..]| ==> items[1..][i] == items[i + 1];
        None
  }

  function ErrorsField(v: Value): Field<seq<Diagnostic>> {
    match v
    case Null => Absent
    case Array(items) =>
      var d := DiagnosticsOf(items);
      if d.Some? then Has(d.value) else Wrong
    case _ => Wrong
  }

  /** RawFrame, once its fields have their types. */
  datatype Raw = Raw(
    id: string, protocolMin: Option<U32>, protocolMax: Option<U32>, protocol: Option<U32>, version: Option<string>,
    machineId: Option<string>, name: Option<string>, schemaVersion: Option<U64>, method_: Option<string>,
    params: Option<Value>, ok: Option<bool>, data: Option<Value>, errors: Option<seq<Diagnostic>>)

  predicate WellTyped(m: map<Key, Value>) {
    && Member(m, Id).String?
    && !SmallField(Member(m, ProtocolMin)).Wrong? && !SmallField(Member(m, ProtocolMax)).Wrong?
    && !SmallField(Member(m, Protocol)).Wrong?
    && !TextField(Member(m, StyrnVersion)).Wrong? && !TextField(Member(m, MachineId)).Wrong?
    && !TextField(Member(m, Name)).Wrong?
    && !LargeField(Member(m, SchemaVersion)).Wrong? && !TextField(Member(m, Method)).Wrong?
    && !BoolField(Member(m, OkFlag)).Wrong? && !ErrorsField(Member(m, Errors)).Wrong?
  }

  function RawOf(m: map<Key, Value>): Raw
    requires WellTyped(m)
  {
    Raw(Member(m, Id).s,
        SmallField(Member(m, ProtocolMin)).Get(), SmallField(Member(m, ProtocolMax)).Get(),
        SmallField(Member(m, Protocol)).Get(),
        TextField(Member(m, StyrnVersion)).Get(), TextField(Member(m, MachineId)).Get(),
        TextField(Member(m, Name)).Get(),
        LargeField(Member(m, SchemaVersion)).Get(), TextField(Member(m, Method)).Get(), ValueField(Member(m, Params)),
        BoolField(Member(m, OkFlag)).Get(), ValueField(Member(m, Data)), ErrorsField(Member(m, Errors)).Get())
  }

  // ---------------------------------------------------------------- accepting

  predicate NoHelloFields(m: map<Key, Value>) {
    && ProtocolMin !in m && ProtocolMax !in m && Protocol !in m && StyrnVersion !in m
    && MachineId !in m && Name !in m && SchemaVersion !in m
  }

  /** validate_controller_id: "c" and a decimal number without leading zero. */
  predicate IsControllerId(id: string) {
    && 1 < |id| && id[0] == 'c' && id[1] != '0'
    && forall i :: 1 <= i < |id| ==> '0' <= id[i] <= '9'
  }

  predicate ValidDiagnostic(d: Diagnostic) {
    && Sized(d.code, MAX_METHOD_BYTES) && Sized(d.message, MAX_DIAGNOSTIC_BYTES)
    && (d.details.Some? ==> d.details.value.Object?)
  }

  predicate ValidDiagnostics(errors: seq<Diagnostic>) {
    forall i :: 0 <= i < |errors| ==> ValidDiagnostic(errors[i])
  }

  predicate SizedOption(s: Option<string>, max: nat) {
    s.Some? && Sized(s.value, max)
  }

  function DecodeHello(m: map<Key, Value>, raw: Raw): Result<Frame, FrameError> {
    if raw.id != "hello" || Method in m || Params in m || OkFlag in m || Data in m || Errors in m
       || !SizedOption(raw.version, MAX_VERSION_BYTES)
    then Err(InvalidJson)
    else
      match (raw.protocolMin, raw.protocolMax, raw.protocol)
      case (Some(min), Some(max), None) =>
        if !(0 < min <= max) || Protocol in m || raw.machineId == None || FromText(raw.machineId.value) == None
           || !IsVersion7(FromText(raw.machineId.value).value) || !SizedOption(raw.name, MAX_NAME_BYTES)
           || raw.schemaVersion == None
        then Err(InvalidJson)
        else Ok(ServerHello(min, max, raw.version.value, FromText(raw.machineId.value).value, raw.name.value,
          raw.schemaVersion.value))
      case (None, None, Some(protocol)) =>
        if protocol == 0 || ProtocolMin in m || ProtocolMax in m || MachineId in m || Name in m || SchemaVersion in m
        then Err(InvalidJson)
        else Ok(ClientHello(protocol, raw.version.value))
      case _ => Err(InvalidJson)
  }

  function DecodeRequest(m: map<Key, Value>, raw: Raw): Result<Frame, FrameError> {
    if !IsControllerId(raw.id) then Err(InvalidId)
    else if !NoHelloFields(m) || OkFlag in m || Data in m || Errors in m then Err(InvalidJson)
    else if !SizedOption(raw.method_, MAX_METHOD_BYTES) || raw.params == None || !raw.params.value.Object?
    then Err(InvalidJson)
    else Ok(Request(raw.id, raw.method_.value, raw.params.value))
  }

  function DecodeResponse(m: map<Key, Value>, raw: Raw): Result<Frame, FrameError> {
    if !IsControllerId(raw.id) then Err(InvalidId)
    else if !NoHelloFields(m) || Method in m || Params in m || raw.ok == None then Err(InvalidJson)
    else
      var errors := if raw.errors.Some? then raw.errors.value else [];
      if raw.ok.value && (raw.data == None || Errors in m) then Err(InvalidJson)
      else if !raw.ok.value && (Data in m || errors == [] || !ValidDiagnostics(errors)) then Err(InvalidJson)
      else Ok(Response(raw.id, raw.ok.value, raw.data, errors))
  }

  function DecodeError(m: map<Key, Value>, raw: Raw): Result<Frame, FrameError> {
    if !NoHelloFields(m) || Method in m || Params in m || OkFlag in m || Data in m then Err(InvalidJson)
    else if raw.id != "hello" && !IsControllerId(raw.id) then Err(InvalidId)
    else if raw.errors == None || raw.errors.value == [] || !ValidDiagnostics(raw.errors.value) then Err(InvalidJson)
    else Ok(ErrorFrame(raw.id, raw.errors.value))
  }

  predicate IsFrameType(kind: string) {
    kind == "hello" || kind == "request" || kind == "response" || kind == "error"
  }

  function DecodeValue(v: Value): Result<Frame, FrameError> {
    if !v.Object? || !Member(v.fields, Type).String? then Err(InvalidJson)
    else
      var m := v.fields;
      var kind := Member(m, Type).s;
      if !IsFrameType(kind) then Err(UnsupportedType)
      else if !WellTyped(m) then Err(InvalidJson)
      else if Utf8Len(Member(m, Id).s) > MAX_ID_BYTES then Err(InvalidId)
      else if kind == "hello" then DecodeHello(m, RawOf(m))
      else if kind == "request" then DecodeRequest(m, RawOf(m))
      else if kind == "response" then DecodeResponse(m, RawOf(m))
      else DecodeError(m, RawOf(m))
  }

  ghost function DecodeText(w: Wire): Result<Frame, FrameError> {
    if Unique(w) then DecodeValue(ValueOf(w)) else Err(InvalidJson)
  }

  // ---------------------------------------------------------------- well-formed frames

  predicate WellFormed(f: Frame) {
    match f
    case ServerHello(min, max, version, machineId, name, schema) =>
      0 < min <= max && Sized(version, MAX_VERSION_BYTES) && IsVersion7(machineId) && Sized(name, MAX_NAME_BYTES)
    case ClientHello(protocol, version) =>
      0 < protocol && Sized(version, MAX_VERSION_BYTES)
    case Request(id, m, params) =>
      IsControllerId(id) && Utf8Len(id) <= MAX_ID_BYTES && Sized(m, MAX_METHOD_BYTES) && params.Object?
    case Response(id, ok, data, errors) =>
      && IsControllerId(id) && Utf8Len(id) <= MAX_ID_BYTES
      && if ok then data.Some? && data.value != Null && errors == []
         else data == None && errors != [] && ValidDiagnostics(errors)
    case ErrorFrame(id, errors) =>
      && (id == "hello" || IsControllerId(id)) && Utf8Len(id) <= MAX_ID_BYTES && errors != []
        && ValidDiagnostics(errors)
  }

  /** Where a printed frame has its member `k`. */
  function Position(f: Frame, k: Key): nat {
    match k
    case Id => 0
    case Type => 1
    case ProtocolMin | Protocol | Method | OkFlag => 2
    case Errors => if f.ErrorFrame? then 2 else 3
    case StyrnVersion => if f.ServerHello? then 4 else 3
    case MachineId => 5
    case Name => 6
    case SchemaVersion => 7
    case _ => 3
  }

  ghost predicate MembersAreFields(f: Frame) {
    && DistinctNames(FieldsOf(f))
    && (forall k :: k in Members(f) ==> Position(f, k) < |FieldsOf(f)| && FieldsOf(f)[Position(f, k)].0 == k)
    && (forall i :: 0 <= i < |FieldsOf(f)| ==>
          FieldsOf(f)[i].0 in Members(f) && Members(f)[FieldsOf(f)[i].0] == FieldsOf(f)[i].1)
  }

  lemma ServerHelloField(f: Frame, i: nat)
    requires f.ServerHello? && i < |FieldsOf(f)|
    ensures Position(f, FieldsOf(f)[i].0) == i
    ensures FieldsOf(f)[i].0 in Members(f) && Members(f)[FieldsOf(f)[i].0] == FieldsOf(f)[i].1
  {
    hide Whole, Text;
  }

  /** Every field is printed where its name belongs, and is the member of that name. */
  lemma FieldIsMember(f: Frame, i: nat)
    requires i < |FieldsOf(f)|
    ensures Position(f, FieldsOf(f)[i].0) == i
    ensures FieldsOf(f)[i].0 in Members(f) && Members(f)[FieldsOf(f)[i].0] == FieldsOf(f)[i].1
  {
    hide Whole, Text, DiagnosticValues;
    if f.ServerHello? {
      ServerHelloField(f, i);
    }
  }

  lemma ServerHelloMember(f: Frame, k: Key)
    requires f.ServerHello? && k in Members(f)
    ensures Position(f, k) < |FieldsOf(f)| && FieldsOf(f)[Position(f, k)].0 == k
  {
    hide Whole, Text;
    assert Members(f).Keys == {Id, Type, ProtocolMin, ProtocolMax, StyrnVersion, MachineId, Name, SchemaVersion};
  }

  lemma MemberIsField(f: Frame, k: Key)
    requires k in Members(f)
    ensures Position(f, k) < |FieldsOf(f)| && FieldsOf(f)[Position(f, k)].0 == k
  {
    hide Whole, Text, DiagnosticValues;
    if f.ServerHello? {
      ServerHelloMember(f, k);
    }
  }

  lemma FieldsHaveDistinctNames(f: Frame)
    ensures MembersAreFields(f)
  {
    hide FieldsOf, Members, Position;
    forall i | 0 <= i < |FieldsOf(f)|
      ensures Position(f, FieldsOf(f)[i].0) == i
      ensures FieldsOf(f)[i].0 in Members(f) && Members(f)[FieldsOf(f)[i].0] == FieldsOf(f)[i].1
    {
      FieldIsMember(f, i);
    }
    forall k | k in Members(f)
      ensures Position(f, k) < |FieldsOf(f)| && FieldsOf(f)[Position(f, k)].0 == k
    {
      MemberIsField(f, k);
    }
  }

  lemma MembersArePrinted(f: Frame)
    ensures Unique(Emit(f)) && ValueOf(Emit(f)) == Object(Members(f))
  {
    hide Unique, ValueOf, FieldsOf, Members, Position;
    FieldsHaveDistinctNames(f);
    PrintedStructIsRead(FieldsOf(f), Members(f));
  }

  lemma DiagnosticRoundTrip(d: Diagnostic)
    requires ValidDiagnostic(d)
    ensures DiagnosticOf(DiagnosticValue(d)) == Some(d)
  {
  }

  lemma DiagnosticsRoundTrip(errors: seq<Diagnostic>)
    requires ValidDiagnostics(errors)
    ensures ErrorsField(DiagnosticValues(errors)) == Has(errors)
  {
    hide DiagnosticOf, DiagnosticValue, ValidDiagnostic;
    var items := DiagnosticValues(errors).items;
    forall i | 0 <= i < |items|
      ensures DiagnosticOf(items[i]) == Some(errors[i])
    {
      DiagnosticRoundTrip(errors[i]);
    }
    assert DiagnosticsOf(items).value == errors;
  }

  lemma HelloIdIsShort()
    ensures Utf8Len("hello") == 5
  {
    assert "hello" == ['h', 'e', 'l', 'l', 'o'];
    assert Utf8Len("o") == 1 && "lo"[1..] == "o";
    assert Utf8Len("lo") == 2 && "llo"[1..] == "lo";
    assert Utf8Len("llo") == 3 && "ello"[1..] == "llo";
    assert Utf8Len("ello") == 4 && "hello"[1..] == "ello";
  }

  lemma ServerHelloIsRead(f: Frame)
    requires f.ServerHello?
    ensures WellTyped(Members(f)) && RawOf(Members(f)) == Raw(
      "hello", Some(f.protocolMin), Some(f.protocolMax), None, Some(f.version), Some(Text(f.machineId)), Some(f.name),
      Some(f.schemaVersion), None, None, None, None, None)
  {
    hide DiagnosticsOf, Text, Members, Member, Whole;
    ServerHelloFields(f);
    assert SmallField(Whole(f.protocolMin)) == Has(f.protocolMin)
      && SmallField(Whole(f.protocolMax)) == Has(f.protocolMax)
      && LargeField(Whole(f.schemaVersion)) == Has(f.schemaVersion) by { WholeIsRead(f); }
  }

  lemma WholeIsRead(f: Frame)
    requires f.ServerHello?
    ensures SmallField(Whole(f.protocolMin)) == Has(f.protocolMin)
      && SmallField(Whole(f.protocolMax)) == Has(f.protocolMax)
    ensures LargeField(Whole(f.schemaVersion)) == Has(f.schemaVersion)
  {
  }

  /** The members of a printed server hello, and those it lacks. */
  lemma ServerHelloFields(f: Frame)
    requires f.ServerHello?
    ensures var m := Members(f);
      && Member(m, Id) == String("hello") && Member(m, ProtocolMin) == Whole(f.protocolMin)
      && Member(m, ProtocolMax) == Whole(f.protocolMax) && Member(m, StyrnVersion) == String(f.version)
      && Member(m, MachineId) == String(Text(f.machineId)) && Member(m, Name) == String(f.name)
      && Member(m, SchemaVersion) == Whole(f.schemaVersion)
      && Member(m, Protocol) == Member(m, Method) == Member(m, Params) == Member(m, OkFlag) == Member(m, Data)
         == Member(m, Errors) == Null
  {
    hide Text, Whole;
  }

  lemma ServerHelloIsAccepted(f: Frame)
    requires WellFormed(f) && f.ServerHello?
    ensures DecodeValue(Object(Members(f))) == Ok(f)
  {
    hide Utf8Len, Text, FromText, IsVersion7, WellTyped, RawOf;
    ServerHelloIsRead(f);
    HelloIdIsShort();
    TextRoundTrip(f.machineId);
  }

  lemma ClientHelloIsAccepted(f: Frame)
    requires WellFormed(f) && f.ClientHello?
    ensures DecodeValue(Object(Members(f))) == Ok(f)
  {
    hide Utf8Len, DiagnosticValues, DiagnosticsOf, ValidDiagnostic, Text, FromText, IsVersion7;
    HelloIdIsShort();
  }

  lemma RequestIsAccepted(f: Frame)
    requires WellFormed(f) && f.Request?
    ensures DecodeValue(Object(Members(f))) == Ok(f)
  {
    hide Utf8Len, DiagnosticValues, DiagnosticsOf, ValidDiagnostic, Text, FromText, IsVersion7;
  }

  lemma ResponseIsAccepted(f: Frame)
    requires WellFormed(f) && f.Response?
    ensures DecodeValue(Object(Members(f))) == Ok(f)
  {
    hide Utf8Len, DiagnosticValues, DiagnosticsOf, ValidDiagnostic, Text, FromText, IsVersion7;
    DiagnosticsRoundTrip(f.errors);
  }

  lemma ErrorIsAccepted(f: Frame)
    requires WellFormed(f) && f.ErrorFrame?
    ensures DecodeValue(Object(Members(f))) == Ok(f)
  {
    hide Utf8Len, DiagnosticValues, DiagnosticsOf, ValidDiagnostic, Text, FromText, IsVersion7;
    DiagnosticsRoundTrip(f.errors);
  }

  lemma AcceptedIsWellFormed(v: Value)
    requires DecodeValue(v).Ok?
    ensures WellFormed(DecodeValue(v).value)
  {
    hide Utf8Len, DiagnosticsOf, ValidDiagnostic, FromText, IsVersion7;
  }

  /** Decoding inverts printing exactly on the well-formed frames. */
  lemma DecodeInvertsEmit(f: Frame)
    ensures DecodeText(Emit(f)) == Ok(f) <==> WellFormed(f)
  {
    hide WellFormed, DecodeValue, Emit, Members;
    MembersArePrinted(f);
    if WellFormed(f) {
      match f {
        case ServerHello(_, _, _, _, _, _) => ServerHelloIsAccepted(f);
        case ClientHello(_, _) => ClientHelloIsAccepted(f);
        case Request(_, _, _) => RequestIsAccepted(f);
        case Response(_, _, _, _) => ResponseIsAccepted(f);
        case ErrorFrame(_, _) => ErrorIsAccepted(f);
      }
    }
    if DecodeValue(Object(Members(f))) == Ok(f) {
      AcceptedIsWellFormed(Object(Members(f)));
    }
  }

  /** Every accepted text denotes a well-formed frame, which is accepted again as itself. */
  lemma AcceptedTextIsCanonical(w: Wire)
    requires DecodeText(w).Ok?
    ensures Unique(w) && WellFormed(DecodeText(w).value) && DecodeText(Emit(DecodeText(w).value)) == DecodeText(w)
  {
    hide WellFormed, DecodeValue, Emit, Unique, ValueOf;
    AcceptedIsWellFormed(ValueOf(w));
    DecodeInvertsEmit(DecodeText(w).value);
  }

  /** A successful response whose data is null is printed but never accepted. */
  lemma NullDataIsRefused(id: string, data: Option<Value>, errors: seq<Diagnostic>)
    requires data == None || data == Some(Null)
    requires IsControllerId(id) && Utf8Len(id) <= MAX_ID_BYTES
    ensures DecodeText(Emit(Response(id, true, data, errors))) == Err(InvalidJson)
  {
    hide Utf8Len, Text, FromText, ValueOf, Unique, Emit;
    MembersArePrinted(Response(id, true, data, errors));
  }

  // ---------------------------------------------------------------- which values are accepted

  /** The member names of a frame; all others are ignored. */
  predicate IsFrameKey(k: Key) {
    !k.Code? && !k.Message? && !k.Details? && !k.Other?
  }

  predicate SameAt(m: map<Key, Value>, n: map<Key, Value>, k: Key) {
    (k in m <==> k in n) && (k in m ==> m[k] == n[k])
  }

  /** A diagnostic is spelled as an object that has its members as printed, or as the
      sequence of its fields. */
  predicate SpellsDiagnostic(v: Value, d: Diagnostic) {
    && (d.details.Some? ==> d.details.value.Object?)
    && (|| (&& v.Object? && SameAt(v.fields, DiagnosticValue(d).fields, Code)
            && SameAt(v.fields, DiagnosticValue(d).fields, Message)
            && SameAt(v.fields, DiagnosticValue(d).fields, Details))
        || v == Array([String(d.code), String(d.message)] + if d.details.Some? then [d.details.value] else []))
  }

  predicate SpellsDiagnostics(v: Value, errors: seq<Diagnostic>) {
    v.Array? && |v.items| == |errors| && forall i :: 0 <= i < |errors| ==> SpellsDiagnostic(v.items[i], errors[i])
  }

  /** `m` has exactly the frame members that the printed frame has, as printed; only its
      diagnostics may be spelled otherwise. */
  ghost predicate Spells(m: map<Key, Value>, f: Frame) {
    forall k :: IsFrameKey(k) ==> SpellsMember(m, f, k)
  }

  predicate SpellsMember(m: map<Key, Value>, f: Frame, k: Key) {
    && (k in m <==> k in Members(f))
    && (k in m ==> if k == Errors then SpellsDiagnostics(m[k], ErrorsOf(f)) else m[k] == Members(f)[k])
  }

  function ErrorsOf(f: Frame): seq<Diagnostic> {
    if f.Response? || f.ErrorFrame? then f.errors else []
  }

  lemma DiagnosticIff(v: Value, d: Diagnostic)
    ensures DiagnosticOf(v) == Some(d) <==> SpellsDiagnostic(v, d)
  {
    var printed := DiagnosticValue(d).fields;
    assert printed[Code] == String(d.code) && printed[Message] == String(d.message);
    assert Details in printed <==> d.details.Some?;
    if v.Object? {
      var m := v.fields;
      assert SpellsDiagnostic(v, d) <==>
        && Code in m && m[Code] == String(d.code) && Message in m && m[Message] == String(d.message)
        && (Details in m <==> d.details.Some?)
        && (Details in m ==> m[Details] == d.details.value && m[Details].Object?);
    } else if v.Array? {
      var items := v.items;
      if DiagnosticOf(v) == Some(d) {
        assert items == [String(d.code), String(d.message)] + if |items| == 3 then [items[2]] else [];
      }
    }
  }

  lemma DiagnosticsIff(v: Value, errors: seq<Diagnostic>)
    ensures ErrorsField(v) == Has(errors) <==> SpellsDiagnostics(v, errors)
  {
    hide DiagnosticOf, SpellsDiagnostic;
    if v.Array? && |v.items| == |errors| {
      forall i | 0 <= i < |errors|
        ensures DiagnosticOf(v.items[i]) == Some(errors[i]) <==> SpellsDiagnostic(v.items[i], errors[i])
      {
        DiagnosticIff(v.items[i], errors[i]);
      }
      var d := DiagnosticsOf(v.items);
      if SpellsDiagnostics(v, errors) {
        assert d.value == errors;
      }
    }
  }

  // ---------------------------------------------------------------- spelled alike, decoded alike

  ghost predicate SameNames(m: map<Key, Value>, n: map<Key, Value>) {
    forall k :: IsFrameKey(k) ==> (k in m <==> k in n)
  }

  /** The decoder cannot tell `m` and `n` apart. */
  ghost predicate Alike(m: map<Key, Value>, n: map<Key, Value>) {
    && SameNames(m, n)
    && (forall k :: IsFrameKey(k) && k != Errors ==> Member(m, k) == Member(n, k))
    && ErrorsField(Member(m, Errors)) == ErrorsField(Member(n, Errors))
  }

  lemma AlikeMember(m: map<Key, Value>, n: map<Key, Value>, k: Key)
    requires Alike(m, n) && IsFrameKey(k) && k != Errors
    ensures Member(m, k) == Member(n, k)
  {
  }

  lemma AlikeMembers(m: map<Key, Value>, n: map<Key, Value>)
    requires Alike(m, n)
    ensures Member(m, Id) == Member(n, Id) && Member(m, Type) == Member(n, Type)
    ensures Member(m, ProtocolMin) == Member(n, ProtocolMin) && Member(m, ProtocolMax) == Member(n, ProtocolMax)
    ensures Member(m, Protocol) == Member(n, Protocol) && Member(m, StyrnVersion) == Member(n, StyrnVersion)
    ensures Member(m, MachineId) == Member(n, MachineId) && Member(m, Name) == Member(n, Name)
    ensures Member(m, SchemaVersion) == Member(n, SchemaVersion) && Member(m, Method) == Member(n, Method)
    ensures Member(m, Params) == Member(n, Params) && Member(m, OkFlag) == Member(n, OkFlag)
    ensures Member(m, Data) == Member(n, Data)
  {
    AlikeMember(m, n, Id);
    AlikeMember(m, n, Type);
    AlikeMember(m, n, ProtocolMin);
    AlikeMember(m, n, ProtocolMax);
    AlikeMember(m, n, Protocol);
    AlikeMember(m, n, StyrnVersion);
    AlikeMember(m, n, MachineId);
    AlikeMember(m, n, Name);
    AlikeMember(m, n, SchemaVersion);
    AlikeMember(m, n, Method);
    AlikeMember(m, n, Params);
    AlikeMember(m, n, OkFlag);
    AlikeMember(m, n, Data);
    hide Alike, Member;
  }

  lemma AlikeReads(m: map<Key, Value>, n: map<Key, Value>)
    requires Alike(m, n)
    ensures WellTyped(m) == WellTyped(n) && Member(m, Id) == Member(n, Id) && Member(m, Type) == Member(n, Type)
    ensures WellTyped(m) ==> RawOf(m) == RawOf(n)
  {
    AlikeMembers(m, n);
    assert ErrorsField(Member(m, Errors)) == ErrorsField(Member(n, Errors));
    hide Alike, ErrorsField, SmallField, LargeField, TextField, BoolField, ValueField, Member;
  }

  lemma SameNamesDecode(m: map<Key, Value>, n: map<Key, Value>, raw: Raw)
    requires SameNames(m, n)
    ensures DecodeHello(m, raw) == DecodeHello(n, raw) && DecodeRequest(m, raw) == DecodeRequest(n, raw)
    ensures DecodeResponse(m, raw) == DecodeResponse(n, raw) && DecodeError(m, raw) == DecodeError(n, raw)
  {
    hide FromText, IsVersion7, IsControllerId, ValidDiagnostics, SizedOption;
    assert NoHelloFields(m) == NoHelloFields(n);
  }

  lemma AlikeDecodes(m: map<Key, Value>, n: map<Key, Value>)
    requires Alike(m, n)
    ensures DecodeValue(Object(m)) == DecodeValue(Object(n))
  {
    hide Utf8Len, WellTyped, RawOf, DecodeHello, DecodeRequest, DecodeResponse, DecodeError, IsFrameType;
    AlikeReads(m, n);
    if WellTyped(m) {
      SameNamesDecode(m, n, RawOf(m));
    }
  }

  lemma SpelledIsAlike(m: map<Key, Value>, f: Frame)
    requires WellFormed(f) && Spells(m, f)
    ensures Alike(m, Members(f))
  {
    hide Members, WellFormed, ErrorsField, SpellsDiagnostics, DiagnosticsOf;
    forall k | IsFrameKey(k)
      ensures k in m <==> k in Members(f)
      ensures k != Errors ==> Member(m, k) == Member(Members(f), k)
    {
      assert SpellsMember(m, f, k);
    }
    assert SpellsMember(m, f, Errors);
    if Errors in m {
      PrintedErrors(f);
      DiagnosticsIff(m[Errors], ErrorsOf(f));
    }
  }

  lemma PrintedErrors(f: Frame)
    requires WellFormed(f) && Errors in Members(f)
    ensures ErrorsField(Members(f)[Errors]) == Has(ErrorsOf(f))
  {
    hide DiagnosticValues, ErrorsField, ValidDiagnostics;
    DiagnosticsRoundTrip(ErrorsOf(f));
  }

  // ---------------------------------------------------------------- decoded only as spelled

  /** A field that has a value is a member that prints it. */
  lemma FieldIs(m: map<Key, Value>, k: Key)
    ensures SmallField(Member(m, k)).Has? ==> k in m && m[k] == Whole(SmallField(Member(m, k)).value)
    ensures LargeField(Member(m, k)).Has? ==> k in m && m[k] == Whole(LargeField(Member(m, k)).value)
    ensures TextField(Member(m, k)).Has? ==> k in m && m[k] == String(TextField(Member(m, k)).value)
    ensures BoolField(Member(m, k)).Has? ==> k in m && m[k] == Bool(BoolField(Member(m, k)).value)
    ensures ValueField(Member(m, k)).Some? ==> k in m && m[k] == ValueField(Member(m, k)).value
    ensures ErrorsField(Member(m, k)).Has? ==> k in m && SpellsDiagnostics(m[k], ErrorsField(Member(m, k)).value)
    ensures Member(m, k).String? ==> k in m && m[k] == Member(m, k)
  {
    hide DiagnosticsOf, SpellsDiagnostics;
    if ErrorsField(Member(m, k)).Has? {
      DiagnosticsIff(m[k], ErrorsField(Member(m, k)).value);
    }
  }

  lemma ServerHelloFieldsAre(m: map<Key, Value>, f: Frame)
    requires f.ServerHello? && DecodeValue(Object(m)) == Ok(f)
    ensures WellTyped(m) && RawOf(m) == Raw("hello", Some(f.protocolMin), Some(f.protocolMax), None, Some(f.version),
      RawOf(m).machineId, Some(f.name), Some(f.schemaVersion), RawOf(m).method_, RawOf(m).params, RawOf(m).ok,
      RawOf(m).data, RawOf(m).errors)
    ensures RawOf(m).machineId.Some? && Text(f.machineId) == RawOf(m).machineId.value
    ensures Member(m, Type) == String("hello")
    ensures Protocol !in m && Method !in m && Params !in m && OkFlag !in m && Data !in m && Errors !in m
  {
    hide Utf8Len, Text, FromText, IsVersion7, WellTyped, RawOf;
    FromTextRoundTrip(RawOf(m).machineId.value);
  }

  predicate IsMember(m: map<Key, Value>, k: Key, v: Value) {
    k in m && m[k] == v
  }

  lemma ServerHelloMembersAre(m: map<Key, Value>, f: Frame)
    requires f.ServerHello? && DecodeValue(Object(m)) == Ok(f)
    ensures IsMember(m, Id, String("hello")) && IsMember(m, Type, String("hello"))
    ensures IsMember(m, ProtocolMin, Whole(f.protocolMin)) && IsMember(m, ProtocolMax, Whole(f.protocolMax))
    ensures IsMember(m, StyrnVersion, String(f.version)) && IsMember(m, MachineId, String(Text(f.machineId)))
    ensures IsMember(m, Name, String(f.name)) && IsMember(m, SchemaVersion, Whole(f.schemaVersion))
  {
    ServerHelloFieldsAre(m, f);
    hide DecodeValue, ErrorsField, SmallField, LargeField, TextField, BoolField, ValueField, Text, Whole;
    FieldIs(m, Id);
    FieldIs(m, Type);
    FieldIs(m, ProtocolMin);
    FieldIs(m, ProtocolMax);
    FieldIs(m, StyrnVersion);
    FieldIs(m, MachineId);
    FieldIs(m, Name);
    FieldIs(m, SchemaVersion);
  }

  lemma ServerHelloIsSpelled(m: map<Key, Value>, f: Frame)
    requires f.ServerHello? && DecodeValue(Object(m)) == Ok(f)
    ensures Spells(m, f)
  {
    ServerHelloFieldsAre(m, f);
    ServerHelloMembersAre(m, f);
    hide DecodeValue, WellTyped, RawOf, Text, Whole, SpellsMember;
    forall k | IsFrameKey(k)
      ensures SpellsMember(m, f, k)
    {
      ServerHelloSpells(m, f, k);
    }
  }

  lemma ServerHelloSpells(m: map<Key, Value>, f: Frame, k: Key)
    requires f.ServerHello? && IsFrameKey(k)
    requires IsMember(m, Id, String("hello")) && IsMember(m, Type, String("hello"))
    requires IsMember(m, ProtocolMin, Whole(f.protocolMin)) && IsMember(m, ProtocolMax, Whole(f.protocolMax))
    requires IsMember(m, StyrnVersion, String(f.version)) && IsMember(m, MachineId, String(Text(f.machineId)))
    requires IsMember(m, Name, String(f.name)) && IsMember(m, SchemaVersion, Whole(f.schemaVersion))
    requires Protocol !in m && Method !in m && Params !in m && OkFlag !in m && Data !in m && Errors !in m
    ensures SpellsMember(m, f, k)
  {
    hide Text, Whole, SpellsDiagnostics, ErrorsOf;
    ServerHelloFields(f);
    assert Members(f).Keys == {Id, Type, ProtocolMin, ProtocolMax, StyrnVersion, MachineId, Name, SchemaVersion};
    assert Members(f)[Type] == String("hello");
    hide Members;
  }

  lemma ClientHelloIsSpelled(m: map<Key, Value>, f: Frame)
    requires f.ClientHello? && DecodeValue(Object(m)) == Ok(f)
    ensures Spells(m, f)
  {
    hide Utf8Len, ErrorsField, SmallField, LargeField, TextField, BoolField, FromText, IsVersion7, Whole;
    FieldIs(m, Id);
    FieldIs(m, Type);
    FieldIs(m, Protocol);
    FieldIs(m, StyrnVersion);
  }

  lemma RequestIsSpelled(m: map<Key, Value>, f: Frame)
    requires f.Request? && DecodeValue(Object(m)) == Ok(f)
    ensures Spells(m, f)
  {
    hide Utf8Len, ErrorsField, SmallField, LargeField, TextField, BoolField, FromText, IsVersion7, Whole,
      IsControllerId;
    FieldIs(m, Id);
    FieldIs(m, Type);
    FieldIs(m, Method);
    FieldIs(m, Params);
  }

  lemma ResponseIsSpelled(m: map<Key, Value>, f: Frame)
    requires f.Response? && DecodeValue(Object(m)) == Ok(f)
    ensures Spells(m, f)
  {
    hide Utf8Len, ErrorsField, SmallField, LargeField, TextField, BoolField, FromText, IsVersion7, Whole,
      IsControllerId, ValidDiagnostics, SpellsDiagnostics, DiagnosticValues;
    FieldIs(m, Id);
    FieldIs(m, Type);
    FieldIs(m, OkFlag);
    FieldIs(m, Data);
    FieldIs(m, Errors);
  }

  lemma ErrorFrameIsSpelled(m: map<Key, Value>, f: Frame)
    requires f.ErrorFrame? && DecodeValue(Object(m)) == Ok(f)
    ensures Spells(m, f)
  {
    hide Utf8Len, ErrorsField, SmallField, LargeField, TextField, BoolField, FromText, IsVersion7, Whole,
      IsControllerId, ValidDiagnostics, SpellsDiagnostics, DiagnosticValues;
    FieldIs(m, Id);
    FieldIs(m, Type);
    FieldIs(m, Errors);
  }

  /** A value is accepted as a frame exactly if the frame is well-formed and the value is an
      object that spells it. */
  lemma DecodeIff(v: Value, f: Frame)
    ensures DecodeValue(v) == Ok(f) <==> v.Object? && WellFormed(f) && Spells(v.fields, f)
  {
    hide DecodeValue, WellFormed, Spells, Members, Emit, Alike;
    if v.Object? && WellFormed(f) && Spells(v.fields, f) {
      SpelledIsAlike(v.fields, f);
      AlikeDecodes(v.fields, Members(f));
      DecodeInvertsEmit(f);
      MembersArePrinted(f);
    }
    if DecodeValue(v) == Ok(f) {
      AcceptedIsWellFormed(v);
      OnlyObjectsDecode(v);
      match f {
        case ServerHello(_, _, _, _, _, _) => ServerHelloIsSpelled(v.fields, f);
        case ClientHello(_, _) => ClientHelloIsSpelled(v.fields, f);
        case Request(_, _, _) => RequestIsSpelled(v.fields, f);
        case Response(_, _, _, _) => ResponseIsSpelled(v.fields, f);
        case ErrorFrame(_, _) => ErrorFrameIsSpelled(v.fields, f);
      }
    }
  }

  lemma OnlyObjectsDecode(v: Value)
    requires DecodeValue(v).Ok?
    ensures v.Object?
  {
  }

  // ---------------------------------------------------------------- which error is given

  predicate IsKind(v: Value, kind: string) {
    v.Object? && Type in v.fields && v.fields[Type] == String(kind)
  }

  /** `v` may stand as the frame member `k`: null anywhere but in the two texts that every
      frame has, and else a value of the right type and size. */
  ghost predicate Fits(k: Key, v: Value) {
    match k
    case Id | Type => v.String?
    case ProtocolMin | ProtocolMax | Protocol => v == Null || exists n: U32 :: v == Number(Natural(n))
    case SchemaVersion => v == Null || exists n: U64 :: v == Number(Natural(n))
    case StyrnVersion | MachineId | Name | Method => v == Null || v.String?
    case OkFlag => v == Null || v.Bool?
    case Errors => v == Null || exists errors :: SpellsDiagnostics(v, errors)
    case _ => true
  }

  ghost predicate AllFit(m: map<Key, Value>) {
    Id in m && forall k :: k in m ==> Fits(k, m[k])
  }

  /** The identifier is too long, or not one that this kind of frame may have. An error frame
      is asked for its identifier only if it has no member of another kind. */
  ghost predicate BadId(m: map<Key, Value>, kind: string, id: string) {
    || Utf8Len(id) > MAX_ID_BYTES
    || ((kind == "request" || kind == "response") && !IsControllerId(id))
    || (kind == "error" && id != "hello" && !IsControllerId(id)
        && forall k :: k in m && IsFrameKey(k) ==> k == Id || k == Type || k == Errors)
  }

  lemma FieldFitsIff(m: map<Key, Value>, k: Key)
    ensures k == ProtocolMin || k == ProtocolMax || k == Protocol ==>
      (SmallField(Member(m, k)).Wrong? <==> k in m && !Fits(k, m[k]))
    ensures k == SchemaVersion ==> (LargeField(Member(m, k)).Wrong? <==> k in m && !Fits(k, m[k]))
    ensures k == StyrnVersion || k == MachineId || k == Name || k == Method ==>
      (TextField(Member(m, k)).Wrong? <==> k in m && !Fits(k, m[k]))
    ensures k == OkFlag ==> (BoolField(Member(m, k)).Wrong? <==> k in m && !Fits(k, m[k]))
  {
  }

  lemma ErrorsFitIff(m: map<Key, Value>)
    ensures ErrorsField(Member(m, Errors)).Wrong? <==> Errors in m && !Fits(Errors, m[Errors])
  {
    hide DiagnosticsOf, SpellsDiagnostics;
    if Errors in m {
      forall errors
        ensures ErrorsField(m[Errors]) == Has(errors) <==> SpellsDiagnostics(m[Errors], errors)
      {
        DiagnosticsIff(m[Errors], errors);
      }
      if ErrorsField(m[Errors]).Has? {
        assert SpellsDiagnostics(m[Errors], ErrorsField(m[Errors]).value);
      }
    }
  }

  lemma WellTypedIff(m: map<Key, Value>)
    requires Type in m && m[Type].String?
    ensures WellTyped(m) <==> AllFit(m)
  {
    FieldFitsIff(m, ProtocolMin);
    FieldFitsIff(m, ProtocolMax);
    FieldFitsIff(m, Protocol);
    FieldFitsIff(m, SchemaVersion);
    FieldFitsIff(m, StyrnVersion);
    FieldFitsIff(m, MachineId);
    FieldFitsIff(m, Name);
    FieldFitsIff(m, Method);
    FieldFitsIff(m, OkFlag);
    ErrorsFitIff(m);
    AllFitIff(m);
    assert Member(m, Id).String? <==> Id in m && Fits(Id, m[Id]);
    hide SmallField, LargeField, TextField, BoolField, ErrorsField, Fits, AllFit, Member;
  }

  ghost predicate FitsAt(m: map<Key, Value>, k: Key) {
    k in m ==> Fits(k, m[k])
  }

  lemma AllFitIff(m: map<Key, Value>)
    requires Type in m && m[Type].String?
    ensures AllFit(m) <==>
      && Id in m && Fits(Id, m[Id]) && FitsAt(m, ProtocolMin) && FitsAt(m, ProtocolMax) && FitsAt(m, Protocol)
      && FitsAt(m, SchemaVersion) && FitsAt(m, StyrnVersion) && FitsAt(m, MachineId) && FitsAt(m, Name)
      && FitsAt(m, Method) && FitsAt(m, OkFlag) && FitsAt(m, Errors)
  {
    hide SpellsDiagnostics;
  }

  lemma ErrorOfKind(m: map<Key, Value>, raw: Raw)
    ensures DecodeHello(m, raw) != Err(InvalidId) && DecodeHello(m, raw) != Err(UnsupportedType)
    ensures DecodeRequest(m, raw) == Err(InvalidId) <==> !IsControllerId(raw.id)
    ensures DecodeRequest(m, raw) != Err(UnsupportedType)
    ensures DecodeResponse(m, raw) == Err(InvalidId) <==> !IsControllerId(raw.id)
    ensures DecodeResponse(m, raw) != Err(UnsupportedType)
    ensures DecodeError(m, raw) == Err(InvalidId) <==>
      && raw.id != "hello" && !IsControllerId(raw.id) && NoHelloFields(m) && Method !in m && Params !in m
      && OkFlag !in m && Data !in m
    ensures DecodeError(m, raw) != Err(UnsupportedType)
  {
    hide IsControllerId, ValidDiagnostics, FromText, IsVersion7, SizedOption, NoHelloFields;
  }

  lemma OnlyErrorMembers(m: map<Key, Value>)
    ensures NoHelloFields(m) && Method !in m && Params !in m && OkFlag !in m && Data !in m <==>
      forall k :: k in m && IsFrameKey(k) ==> k == Id || k == Type || k == Errors
  {
  }

  lemma KnownKindError(m: map<Key, Value>, kind: string)
    requires IsKind(Object(m), kind) && IsFrameType(kind)
    ensures DecodeValue(Object(m)) != Err(UnsupportedType)
    ensures DecodeValue(Object(m)) == Err(InvalidId) <==> AllFit(m) && BadId(m, kind, m[Id].s)
  {
    hide Utf8Len, AllFit, IsControllerId, DecodeHello, DecodeRequest, DecodeResponse, DecodeError, NoHelloFields,
      IsFrameKey;
    WellTypedIff(m);
    if WellTyped(m) {
      ErrorOfKind(m, RawOf(m));
      OnlyErrorMembers(m);
      IdIsRead(m);
    }
    hide WellTyped, RawOf;
  }

  lemma IdIsRead(m: map<Key, Value>)
    requires WellTyped(m)
    ensures Id in m && m[Id].String? && RawOf(m).id == m[Id].s == Member(m, Id).s
  {
  }

  /** Which error a value is refused with: an unknown kind first, then a member of the wrong
      type, then the identifier, and every other reason as a malformed frame. */
  lemma DecodeErrorIff(v: Value)
    ensures DecodeValue(v) == Err(UnsupportedType) <==> exists kind :: IsKind(v, kind) && !IsFrameType(kind)
    ensures DecodeValue(v) == Err(InvalidId) <==>
      exists kind ::
        IsKind(v, kind) && IsFrameType(kind) && AllFit(v.fields) && BadId(v.fields, kind, v.fields[Id].s)
  {
    if v.Object? && Type in v.fields && v.fields[Type].String? {
      var kind := v.fields[Type].s;
      assert IsKind(v, kind);
      if IsFrameType(kind) {
        KnownKindError(v.fields, kind);
      }
    }
    hide Utf8Len, AllFit, BadId, WellTyped, RawOf, DecodeHello, DecodeRequest, DecodeResponse, DecodeError;
  }

  /** decode */
  method Decode(w: Wire) returns (r: Result<Frame, FrameError>)
    ensures r == DecodeText(w)
    ensures forall f :: r == Ok(f) <==>
      Unique(w) && ValueOf(w).Object? && WellFormed(f) && Spells(ValueOf(w).fields, f)
  {
    hide WellFormed, Spells, DecodeValue, Unique, ValueOf;
    if Unique(w) {
      forall f
        ensures DecodeValue(ValueOf(w)) == Ok(f) <==>
          ValueOf(w).Object? && WellFormed(f) && Spells(ValueOf(w).fields, f)
      {
        DecodeIff(ValueOf(w), f);
      }
    }
    var parsed := Parse(w);
    if parsed == None {
      return Err(InvalidJson);
    }
    return DecodeValue(parsed.value);
  }
}
