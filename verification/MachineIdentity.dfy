/** Minting the machine identity: processes that read, lock, reread and atomically replace
    one manifest file, and may fail or crash between any two of these steps. */
module MachineIdentity {
  import opened Wrappers

  type Pid = nat
  type Text = string
  type MachineId = nat

  /** The manifest file: the identity it states, if any, and the rest of the document. */
  datatype Stored = Missing | Malformed | Doc(id: Option<MachineId>, rest: Text)

  datatype Kind = ReadOrReconcile | Reconcile | Generate(draft: Text)

  datatype Pc =
    | Idle
    | Reading
    | Preflight(kind: Kind)
    | Wanting(kind: Kind)
    | Holding(kind: Kind)
    | Writing(kind: Kind, id: MachineId, rest: Text, minted: bool)
    | Written(kind: Kind, id: MachineId, minted: bool)

  /** A call that returned successfully, and whether it reported a minted identity. */
  datatype Report = Report(kind: Kind, id: MachineId, minted: bool)

  datatype System = System(file: Stored, lock: Option<Pid>, pcs: map<Pid, Pc>, log: seq<Report>)

  predicate InCritical(pc: Pc) {
    pc.Holding? || pc.Writing? || pc.Written?
  }

  function IdOf(file: Stored): Option<MachineId> {
    if file.Doc? then file.id else None
  }

  // ---------------------------------------------------------------- the steps of one process

  /** `read`: a complete and valid document is all it takes. */
  predicate Readable(valid: (Text, MachineId) -> bool, file: Stored) {
    file.Doc? && file.id.Some? && valid(file.rest, file.id.value)
  }

  function Goes(s: System, p: Pid, pc: Pc): System {
    s.(pcs := s.pcs[p := pc])
  }

  function Returns(s: System, p: Pid, report: Report): System {
    s.(pcs := s.pcs[p := Idle], log := s.log + [report], lock := if s.lock == Some(p) then None else s.lock)
  }

  /** The process gives up, or dies: the kernel drops its lock. */
  function GivesUp(s: System, p: Pid): System {
    s.(pcs := s.pcs[p := Idle], lock := if s.lock == Some(p) then None else s.lock)
  }

  ghost predicate Begins(s: System, p: Pid, t: System)
    requires p in s.pcs
  {
    s.pcs[p].Idle?
      && (t == Goes(s, p, Reading) || t == Goes(s, p, Preflight(Reconcile))
        || exists draft :: t == Goes(s, p, Wanting(Generate(draft))))
  }

  /** The unlocked read of read_or_reconcile_missing_machine_id. */
  predicate Reads(valid: (Text, MachineId) -> bool, s: System, p: Pid, t: System)
    requires p in s.pcs
  {
    && s.pcs[p].Reading?
    && if Readable(valid, s.file) then t == Returns(s, p, Report(ReadOrReconcile, s.file.id.value, false))
       else if s.file.Doc? && s.file.id == None then t == Goes(s, p, Preflight(ReadOrReconcile))
       else t == GivesUp(s, p)
  }

  /** preflight_document_binding(true): a missing identity is filled in for the check only. */
  ghost predicate Preflights(valid: (Text, MachineId) -> bool, s: System, p: Pid, t: System)
    requires p in s.pcs
  {
    && s.pcs[p].Preflight? && s.file.Doc?
    && (exists id :: (s.file.id.Some? ==> id == s.file.id.value) && valid(s.file.rest, id))
    && t == Goes(s, p, Wanting(s.pcs[p].kind))
  }

  predicate Locks(s: System, p: Pid, t: System)
    requires p in s.pcs
  {
    s.pcs[p].Wanting? && s.lock == None && t == Goes(s, p, Holding(s.pcs[p].kind)).(lock := Some(p))
  }

  /** The reread under the lock, which decides what to write. */
  ghost predicate Rereads(valid: (Text, MachineId) -> bool, s: System, p: Pid, t: System)
    requires p in s.pcs
  {
    && s.pcs[p].Holding?
    && match s.pcs[p].kind
       case ReadOrReconcile =>
         || (Readable(valid, s.file) && t == Returns(s, p, Report(ReadOrReconcile, s.file.id.value, false)))
         || (s.file.Doc? && s.file.id == None && exists id :: Mints(valid, s, p, t, s.file.rest, id))
       case Reconcile =>
         || (Readable(valid, s.file) && t == Goes(s, p, Writing(Reconcile, s.file.id.value, s.file.rest, false)))
         || (s.file.Doc? && s.file.id == None && exists id :: Mints(valid, s, p, t, s.file.rest, id))
       case Generate(draft) =>
         || (Readable(valid, s.file) && valid(draft, s.file.id.value)
             && t == Goes(s, p, Writing(s.pcs[p].kind, s.file.id.value, draft, false)))
         || ((s.file.Missing? || (s.file.Doc? && s.file.id == None)) && exists id ::
             (s.file.Doc? ==> valid(s.file.rest, id)) && Mints(valid, s, p, t, draft, id))
  }

  predicate Mints(valid: (Text, MachineId) -> bool, s: System, p: Pid, t: System, rest: Text, id: MachineId)
    requires p in s.pcs && s.pcs[p].Holding?
  {
    valid(rest, id) && t == Goes(s, p, Writing(s.pcs[p].kind, id, rest, true))
  }

  /** write_manifest: the temporary file replaces the manifest in one step. */
  predicate Replaces(s: System, p: Pid, t: System)
    requires p in s.pcs
  {
    && s.pcs[p].Writing?
    && var w := s.pcs[p]; t == Goes(s, p, Written(w.kind, w.id, w.minted)).(file := Doc(Some(w.id), w.rest))
  }

  /** The call returns; write_generated returns the identity without saying who minted it. */
  predicate Finishes(s: System, p: Pid, t: System)
    requires p in s.pcs
  {
    && s.pcs[p].Written?
    && var w := s.pcs[p]; t == Returns(s, p, Report(w.kind, w.id, w.minted && !w.kind.Generate?))
  }

  predicate Stops(s: System, p: Pid, t: System)
    requires p in s.pcs
  {
    !s.pcs[p].Idle? && t == GivesUp(s, p)
  }

  ghost predicate StepOf(valid: (Text, MachineId) -> bool, s: System, p: Pid, t: System)
    requires p in s.pcs
  {
    || Begins(s, p, t) || Reads(valid, s, p, t) || Preflights(valid, s, p, t) || Locks(s, p, t)
    || Rereads(valid, s, p, t) || Replaces(s, p, t) || Finishes(s, p, t) || Stops(s, p, t)
  }

  ghost predicate Step(valid: (Text, MachineId) -> bool, s: System, t: System) {
    exists p :: p in s.pcs && StepOf(valid, s, p, t)
  }

  predicate Initial(s: System) {
    s.lock == None && s.log == [] && forall p :: p in s.pcs ==> s.pcs[p].Idle?
  }

  ghost predicate IsRun(valid: (Text, MachineId) -> bool, states: seq<System>) {
    && states != [] && Initial(states[0])
    && forall i :: 0 <= i < |states| - 1 ==> Step(valid, states[i], states[i + 1])
  }

  // ---------------------------------------------------------------- the invariant

  predicate LockIsExclusive(s: System) {
    forall p :: p in s.pcs ==> (InCritical(s.pcs[p]) <==> s.lock == Some(p))
  }

  /** A writer mints only where nothing is stored, and else keeps what is stored. */
  predicate WritersAgree(s: System) {
    forall p :: p in s.pcs ==>
      && (s.pcs[p].Writing? ==> IdOf(s.file) == if s.pcs[p].minted then None else Some(s.pcs[p].id))
      && (s.pcs[p].Written? ==> IdOf(s.file) == Some(s.pcs[p].id))
  }

  predicate ReportsAgree(s: System) {
    forall i :: 0 <= i < |s.log| ==> IdOf(s.file) == Some(s.log[i].id)
  }

  predicate OneMinter(s: System) {
    && (forall i, j :: 0 <= i < |s.log| && 0 <= j < |s.log| && s.log[i].minted && s.log[j].minted ==> i == j)
    && (forall p, i :: p in s.pcs && s.pcs[p].Written? && s.pcs[p].minted && 0 <= i < |s.log| ==> !s.log[i].minted)
  }

  predicate Inv(s: System) {
    LockIsExclusive(s) && WritersAgree(s) && ReportsAgree(s) && OneMinter(s)
  }

  /** The stored identity never changes once it is there. */
  predicate Keeps(s: System, t: System) {
    IdOf(s.file).Some? ==> IdOf(t.file) == IdOf(s.file)
  }

  lemma ReplacingKeepsInv(s: System, p: Pid, t: System)
    requires Inv(s) && p in s.pcs && Replaces(s, p, t)
    ensures Inv(t) && Keeps(s, t)
  {
    forall q | q in t.pcs && q != p
      ensures !t.pcs[q].Writing? && !t.pcs[q].Written?
    {
      assert InCritical(s.pcs[q]) <==> s.lock == Some(q);
    }
  }

  lemma ReturningKeepsInv(s: System, p: Pid, t: System, report: Report)
    requires Inv(s) && p in s.pcs && t == Returns(s, p, report) && IdOf(s.file) == Some(report.id)
    requires report.minted ==> s.pcs[p].Written? && s.pcs[p].minted
    ensures Inv(t) && Keeps(s, t)
  {
    assert report.minted ==> forall i :: 0 <= i < |s.log| ==> !s.log[i].minted;
    forall q | q in t.pcs && q != p
      ensures report.minted ==> !t.pcs[q].Written?
    {
      assert InCritical(s.pcs[q]) <==> s.lock == Some(q);
    }
  }

  lemma MovingKeepsInv(s: System, p: Pid, t: System)
    requires Inv(s) && p in s.pcs && p in t.pcs && t == Goes(s, p, t.pcs[p]).(lock := t.lock)
    requires !t.pcs[p].Written? && (InCritical(t.pcs[p]) <==> t.lock == Some(p))
    requires t.lock == s.lock || (s.lock == Some(p) && t.lock == None) || (s.lock == None && t.lock == Some(p))
    requires t.pcs[p].Writing? ==> IdOf(s.file) == if t.pcs[p].minted then None else Some(t.pcs[p].id)
    ensures Inv(t) && Keeps(s, t)
  {
  }

  lemma FinishingKeepsInv(s: System, p: Pid, t: System)
    requires Inv(s) && p in s.pcs && Finishes(s, p, t)
    ensures Inv(t) && Keeps(s, t)
  {
    ReturningKeepsInv(s, p, t, Report(s.pcs[p].kind, s.pcs[p].id, s.pcs[p].minted && !s.pcs[p].kind.Generate?));
  }

  lemma HolderIsCritical(s: System, p: Pid)
    requires Inv(s) && p in s.pcs
    ensures InCritical(s.pcs[p]) <==> s.lock == Some(p)
  {
  }

  lemma RereadingKeepsInv(valid: (Text, MachineId) -> bool, s: System, p: Pid, t: System)
    requires Inv(s) && p in s.pcs && Rereads(valid, s, p, t)
    ensures Inv(t) && Keeps(s, t)
  {
    hide Inv;
    HolderIsCritical(s, p);
    if t.pcs[p].Writing? {
      MovingKeepsInv(s, p, t);
    } else {
      ReturningKeepsInv(s, p, t, Report(ReadOrReconcile, s.file.id.value, false));
    }
  }

  lemma ReadingKeepsInv(valid: (Text, MachineId) -> bool, s: System, p: Pid, t: System)
    requires Inv(s) && p in s.pcs && Reads(valid, s, p, t)
    ensures Inv(t) && Keeps(s, t)
  {
    hide Inv;
    HolderIsCritical(s, p);
    if Readable(valid, s.file) {
      ReturningKeepsInv(s, p, t, Report(ReadOrReconcile, s.file.id.value, false));
    } else {
      MovingKeepsInv(s, p, t);
    }
  }

  lemma StepKeepsInv(valid: (Text, MachineId) -> bool, s: System, t: System)
    requires Inv(s) && Step(valid, s, t)
    ensures Inv(t) && Keeps(s, t)
  {
    hide Inv, Keeps, Reads, Rereads, Replaces, Finishes;
    var p :| p in s.pcs && StepOf(valid, s, p, t);
    if Replaces(s, p, t) {
      ReplacingKeepsInv(s, p, t);
    } else if Finishes(s, p, t) {
      FinishingKeepsInv(s, p, t);
    } else if Rereads(valid, s, p, t) {
      RereadingKeepsInv(valid, s, p, t);
    } else if Reads(valid, s, p, t) {
      ReadingKeepsInv(valid, s, p, t);
    } else {
      HolderIsCritical(s, p);
      MovingKeepsInv(s, p, t);
    }
  }

  lemma {:induction false} RunsKeepInv(valid: (Text, MachineId) -> bool, states: seq<System>, i: nat)
    requires IsRun(valid, states) && i < |states|
    ensures Inv(states[i])
  {
    hide Step;
    if i > 0 {
      RunsKeepInv(valid, states, i - 1);
      StepKeepsInv(valid, states[i - 1], states[i]);
    }
  }

  // ---------------------------------------------------------------- what every run satisfies

  /** The stored identity goes from absent to one value and never changes again. */
  lemma {:induction false} IdentityIsForever(valid: (Text, MachineId) -> bool, states: seq<System>, i: nat, j: nat)
    requires IsRun(valid, states) && i <= j < |states| && IdOf(states[i].file).Some?
    ensures IdOf(states[j].file) == IdOf(states[i].file)
    decreases j - i
  {
    hide Step, Inv;
    if i < j {
      IdentityIsForever(valid, states, i, j - 1);
      RunsKeepInv(valid, states, j - 1);
      StepKeepsInv(valid, states[j - 1], states[j]);
    }
  }

  /** Every call that ever succeeded returned the identity stored now. */
  lemma EverySuccessReturnsIt(valid: (Text, MachineId) -> bool, states: seq<System>, j: nat, k: nat)
    requires IsRun(valid, states) && j < |states| && k < |states[j].log|
    ensures IdOf(states[j].file) == Some(states[j].log[k].id)
  {
    RunsKeepInv(valid, states, j);
  }

  /** At most one call ever reports that it minted the identity. */
  lemma MintedAtMostOnce(valid: (Text, MachineId) -> bool, states: seq<System>, j: nat, k: nat, l: nat)
    requires IsRun(valid, states) && j < |states| && k < |states[j].log| && l < |states[j].log|
    requires states[j].log[k].minted && states[j].log[l].minted
    ensures k == l
  {
    RunsKeepInv(valid, states, j);
  }

  /** Nobody mints over a stored identity: a report of minting means that the run began
      without one. */
  lemma {:induction false} MintingNeedsAbsence(valid: (Text, MachineId) -> bool, states: seq<System>, j: nat, k: nat)
    requires IsRun(valid, states) && j < |states| && k < |states[j].log| && states[j].log[k].minted
    ensures IdOf(states[0].file) == None
  {
    if IdOf(states[0].file).Some? {
      NoMinterEver(valid, states, j);
    }
  }

  lemma {:induction false} NoMinterEver(valid: (Text, MachineId) -> bool, states: seq<System>, j: nat)
    requires IsRun(valid, states) && j < |states| && IdOf(states[0].file).Some?
    ensures forall p :: p in states[j].pcs && (states[j].pcs[p].Writing? || states[j].pcs[p].Written?) ==>
      !states[j].pcs[p].minted
    ensures forall k :: 0 <= k < |states[j].log| ==> !states[j].log[k].minted
  {
    if j > 0 {
      NoMinterEver(valid, states, j - 1);
      IdentityIsForever(valid, states, 0, j - 1);
      StepMintsNothing(valid, states[j - 1], states[j]);
    }
  }

  lemma StepMintsNothing(valid: (Text, MachineId) -> bool, s: System, t: System)
    requires Step(valid, s, t) && IdOf(s.file).Some?
    requires forall p :: p in s.pcs && (s.pcs[p].Writing? || s.pcs[p].Written?) ==> !s.pcs[p].minted
    requires forall k :: 0 <= k < |s.log| ==> !s.log[k].minted
    ensures forall p :: p in t.pcs && (t.pcs[p].Writing? || t.pcs[p].Written?) ==> !t.pcs[p].minted
    ensures forall k :: 0 <= k < |t.log| ==> !t.log[k].minted
  {
    var p :| p in s.pcs && StepOf(valid, s, p, t);
  }
}
