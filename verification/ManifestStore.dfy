/** The manifest store, call by call: what a holder of the mutation lock does to the file.
    Module MachineIdentity interleaves these calls. */
module ManifestStore {
  import opened Wrappers
  import opened MachineIdentity

  datatype Failure = MissingId | Invalid | Io

  datatype Outcome = Outcome(id: MachineId, minted: bool)

  ghost predicate AcceptsAny(valid: (Text, MachineId) -> bool, text: Text) {
    forall id: MachineId :: valid(text, id)
  }

  lemma AnyIsAccepted(valid: (Text, MachineId) -> bool, text: Text, id: MachineId)
    ensures AcceptsAny(valid, text) ==> valid(text, id)
  {
  }

  /** A document without an identity that would be valid with any. */
  ghost predicate MintsAnyway(valid: (Text, MachineId) -> bool, file: Stored) {
    file.Doc? && file.id == None && AcceptsAny(valid, file.rest)
  }

  /** The file, and whether its reads and writes may fail. */
  class Store {
    var file: Stored
    const reliable: bool

    constructor (file: Stored, reliable: bool)
      ensures this.file == file && this.reliable == reliable
    {
      this.file := file;
      this.reliable := reliable;
    }

    /** MachineManifestStore::read */
    method Read(valid: (Text, MachineId) -> bool) returns (r: Result<Outcome, Failure>)
      ensures r.Ok? ==> Readable(valid, file) && r.value == Outcome(file.id.value, false)
      ensures r == Err(MissingId) ==> file.Doc? && file.id == None
      ensures Readable(valid, file) ==> r.Ok? || r == Err(Io)
      ensures reliable ==>
        r == if file.Doc? && file.id == None then Err(MissingId)
             else if file.Doc? && valid(file.rest, file.id.value) then Ok(Outcome(file.id.value, false))
             else Err(Invalid)
    {
      var fails: bool := *;
      if fails && !reliable {
        return Err(Io);
      }
      if !file.Doc? {
        return Err(Invalid);
      }
      if file.id == None {
        return Err(MissingId);
      }
      if !valid(file.rest, file.id.value) {
        return Err(Invalid);
      }
      return Ok(Outcome(file.id.value, false));
    }

    /** write_manifest: one atomic replacement, which may fail before or after it. */
    method WriteManifest(id: MachineId, rest: Text) returns (ok: bool)
      modifies this
      ensures file == old(file) || file == Doc(Some(id), rest)
      ensures ok ==> file == Doc(Some(id), rest)
      ensures reliable ==> ok
    {
      var before: bool, after: bool := *, *;
      if before && !reliable {
        return false;
      }
      file := Doc(Some(id), rest);
      return !after || reliable;
    }

    /** reconcile_locked: rewrite the document with its identity, or mint one. */
    method ReconcileLocked(valid: (Text, MachineId) -> bool) returns (r: Result<Outcome, Failure>)
      modifies this
      ensures IdOf(old(file)).Some? ==> file == old(file)
      ensures file != old(file) ==>
        file.Doc? && file.id.Some? && old(file).Doc? && file.rest == old(file).rest && valid(file.rest, file.id.value)
      ensures r.Ok? ==> IdOf(file) == Some(r.value.id) && (r.value.minted <==> IdOf(old(file)) == None)
      ensures r != Err(MissingId)
      ensures reliable && IdOf(old(file)).Some? ==>
        r == if Readable(valid, old(file)) then Ok(Outcome(old(file).id.value, false)) else Err(Invalid)
      ensures reliable && MintsAnyway(valid, old(file)) ==> r.Ok?
      ensures reliable && !r.Ok? ==> r == Err(Invalid) && file == old(file)
    {
      var fails: bool := *;
      if fails && !reliable {
        return Err(Io);
      }
      if !file.Doc? {
        return Err(Invalid);
      }
      var id: MachineId := *;
      var minted := file.id == None;
      if !minted {
        id := file.id.value;
      }
      AnyIsAccepted(valid, file.rest, id);
      if !valid(file.rest, id) {
        return Err(Invalid);
      }
      var written := WriteManifest(id, file.rest);
      if !written {
        return Err(Io);
      }
      return Ok(Outcome(id, minted));
    }

    /** The part of read_or_reconcile_missing_machine_id under the lock. */
    method ReadOrReconcileLocked(valid: (Text, MachineId) -> bool) returns (r: Result<Outcome, Failure>)
      modifies this
      ensures IdOf(old(file)).Some? ==> file == old(file)
      ensures file != old(file) ==>
        && old(file).Doc? && old(file).id == None
        && file.Doc? && file.id.Some? && file.rest == old(file).rest && valid(file.rest, file.id.value)
      ensures r.Ok? ==> IdOf(file) == Some(r.value.id) && (r.value.minted <==> IdOf(old(file)) == None)
      ensures r != Err(MissingId)
      ensures reliable && IdOf(old(file)).Some? ==>
        r == if Readable(valid, old(file)) then Ok(Outcome(old(file).id.value, false)) else Err(Invalid)
      ensures reliable && MintsAnyway(valid, old(file)) ==> r.Ok?
      ensures reliable && !r.Ok? ==> r == Err(Invalid) && file == old(file)
    {
      r := Read(valid);
      if r == Err(MissingId) {
        r := ReconcileLocked(valid);
      }
    }

    /** existing_machine_id_for_generated: an existing document without an identity yields a
        fresh one. */
    method ExistingId(valid: (Text, MachineId) -> bool) returns (r: Result<Option<MachineId>, Failure>)
      ensures r == Ok(None) ==> file.Missing?
      ensures r.Ok? && r.value.Some? ==>
        file.Doc? && valid(file.rest, r.value.value) && (file.id.Some? ==> file.id == r.value)
      ensures reliable && (file.Missing? || Readable(valid, file) || MintsAnyway(valid, file)) ==> r.Ok?
      ensures reliable && !r.Ok? ==> r == Err(Invalid)
    {
      var fails: bool := *;
      if fails && !reliable {
        return Err(Io);
      }
      if file.Missing? {
        return Ok(None);
      }
      if file.Malformed? {
        return Err(Invalid);
      }
      var id: MachineId := *;
      if file.id.Some? {
        id := file.id.value;
      }
      AnyIsAccepted(valid, file.rest, id);
      if !valid(file.rest, id) {
        return Err(Invalid);
      }
      return Ok(Some(id));
    }

    /** write_generated under the lock: the draft replaces the document and keeps the
        identity it had. */
    method WriteGenerated(valid: (Text, MachineId) -> bool, draft: Text) returns (r: Result<MachineId, Failure>)
      modifies this
      ensures IdOf(old(file)).Some? ==> IdOf(file) == IdOf(old(file))
      ensures file != old(file) ==> file.Doc? && file.id.Some? && file.rest == draft && valid(draft, file.id.value)
      ensures r.Ok? ==> file == Doc(Some(r.value), draft)
      ensures reliable && AcceptsAny(valid, draft)
        && (old(file).Missing? || Readable(valid, old(file)) || MintsAnyway(valid, old(file)))
        ==> r.Ok?
      ensures reliable && !r.Ok? ==> r == Err(Invalid) && file == old(file)
    {
      var existing :- ExistingId(valid);
      var id: MachineId := *;
      if existing.Some? {
        id := existing.value;
      }
      AnyIsAccepted(valid, draft, id);
      if !valid(draft, id) {
        return Err(Invalid);
      }
      var written := WriteManifest(id, draft);
      if !written {
        return Err(Io);
      }
      return Ok(id);
    }
  }
}
