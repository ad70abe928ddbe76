/** What a well-formed frame is, in numbers of bytes and in the digits of its identifiers. */
module FrameRules {
  import opened Wrappers
  import opened FrameValue
  import opened FrameCodec
  import opened RpcId
  import opened JsonText
  import MachineUuid

  /** A text of one to `max` bytes. */
  predicate Bytes(s: string, max: nat) {
    1 <= |Utf8Text(s)| <= max
  }

  /** "c" and a positive decimal number of at most 63 digits. */
  ghost predicate NamesRequest(id: string) {
    |id| <= 64 && exists n: nat :: 0 < n && id == RequestId(n)
  }

  predicate Explains(d: Diagnostic) {
    Bytes(d.code, 64) && Bytes(d.message, 1024) && (d.details == None || d.details.value.Object?)
  }

  predicate Explained(errors: seq<Diagnostic>) {
    errors != [] && forall i :: 0 <= i < |errors| ==> Explains(errors[i])
  }

  predicate HasVersion7(text: string)
    requires |text| == 36
  {
    text[14] == '7' && (text[19] == '8' || text[19] == '9' || text[19] == 'a' || text[19] == 'b')
  }

  /** What the two sides may say. */
  ghost predicate MayBeSaid(f: Frame) {
    match f
    case ServerHello(min, max, version, machineId, name, _) =>
      1 <= min <= max && Bytes(version, 128) && HasVersion7(MachineUuid.Text(machineId)) && Bytes(name, 255)
    case ClientHello(protocol, version) => 1 <= protocol && Bytes(version, 128)
    case Request(id, m, params) => NamesRequest(id) && Bytes(m, 64) && params.Object?
    case Response(id, ok, data, errors) =>
      && NamesRequest(id)
      && if ok then data != None && data != Some(Null) && errors == [] else data == None && Explained(errors)
    case ErrorFrame(id, errors) => (id == "hello" || NamesRequest(id)) && Explained(errors)
  }

  lemma BytesIff(s: string, max: nat)
    ensures Bytes(s, max) <==> Sized(s, max)
  {
    Utf8TextLength(s);
  }

  lemma NamesRequestIff(id: string)
    ensures NamesRequest(id) <==> IsControllerId(id) && Utf8Len(id) <= MAX_ID_BYTES
  {
    ControllerIdIff(id);
    if IsControllerId(id) {
      AsciiLength(id);
    }
  }

  lemma ExplainedIff(errors: seq<Diagnostic>)
    ensures Explained(errors) <==> errors != [] && ValidDiagnostics(errors)
  {
    hide Bytes, Sized;
    forall i | 0 <= i < |errors|
      ensures Explains(errors[i]) <==> ValidDiagnostic(errors[i])
    {
      BytesIff(errors[i].code, MAX_METHOD_BYTES);
      BytesIff(errors[i].message, MAX_DIAGNOSTIC_BYTES);
    }
  }

  /** The frames that are accepted, and written as accepted, are those that may be said. */
  lemma WellFormedIff(f: Frame)
    ensures WellFormed(f) <==> MayBeSaid(f)
  {
    hide Bytes, Sized, NamesRequest, IsControllerId, Explained, ValidDiagnostics, MachineUuid.Text, HasVersion7,
      MachineUuid.IsVersion7;
    match f {
      case ServerHello(_, _, version, machineId, name, _) =>
        BytesIff(version, MAX_VERSION_BYTES);
        BytesIff(name, MAX_NAME_BYTES);
        VersionIff(machineId);
      case ClientHello(_, version) => BytesIff(version, MAX_VERSION_BYTES);
      case Request(id, m, _) =>
        NamesRequestIff(id);
        BytesIff(m, MAX_METHOD_BYTES);
      case Response(id, _, _, errors) =>
        NamesRequestIff(id);
        ExplainedIff(errors);
      case ErrorFrame(id, errors) =>
        NamesRequestIff(id);
        ExplainedIff(errors);
        HelloIdIsShort();
    }
  }

  lemma VersionIff(u: MachineUuid.Uuid)
    ensures HasVersion7(MachineUuid.Text(u)) <==> MachineUuid.IsVersion7(u)
  {
    MachineUuid.Version7Iff(u);
  }
}
