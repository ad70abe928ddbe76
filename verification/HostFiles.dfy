/** The controller's three files, the inventory, the manifest caches and known_hosts, under
    concurrent host commands that may fail or crash between any two file replacements. */
module HostFiles {
  import opened Wrappers
  import opened Inventory

  type Pid = nat

  /** A cached manifest and the machine it states. */
  datatype Cache = Cache(machineId: MachineId, manifest: string)

  datatype Line = Line(host: string, port: nat, pin: string)

  /** The text of known_hosts for an inventory. */
  function KnownHosts(hosts: seq<Host>): seq<Line> {
    seq(|hosts|,
      i requires 0 <= i < |hosts| => Line(hosts[i].transport.host, hosts[i].transport.port, hosts[i].transport.pin))
  }

  /** host_enroll, host_trust, and the selection that begins every other host command. */
  datatype Command =
    | Enroll(record: Host, cache: Cache)
    | Trust(expected: Host, replacement: Host)
    | Select(name: Option<string>)

  datatype Update = Added(record: Host) | Swapped(expected: Host, replacement: Host)

  datatype Pc =
    | Idle
    | Wanting(command: Command)
    | Locked(command: Command)
    | Caching(record: Host, cache: Cache, after: Upsert)
    | Committing(hosts: seq<Host>, update: Update)
    | Rebuilding(hosts: seq<Host>, selected: Option<Host>)

  /** The files, the lock, the processes, and what has been committed so far. */
  datatype System = System(
    inventory: seq<Host>, caches: map<MachineId, Cache>, known: Option<seq<Line>>,
    lock: Option<Pid>, pcs: map<Pid, Pc>, log: seq<Update>, history: seq<seq<Host>>)

  predicate InCritical(pc: Pc) {
    !pc.Idle? && !pc.Wanting?
  }

  /** A record names the machine whose manifest is cached with it. */
  predicate WellMade(rules: Rules, c: Command) {
    match c
    case Enroll(record, cache) => GoodHost(rules, record) && cache.machineId == record.machineId
    case Trust(_, replacement) => GoodHost(rules, replacement)
    case Select(_) => true
  }

  function SelectOf(hosts: seq<Host>, name: Option<string>): Option<Host> {
    if name == None then if |hosts| == 1 then Some(hosts[0]) else None
    else
      var i := IndexByName(hosts, name.value);
      if i == None then None else Some(hosts[i.value])
  }

  // ---------------------------------------------------------------- the steps of one process

  function Goes(s: System, p: Pid, pc: Pc): System {
    s.(pcs := s.pcs[p := pc])
  }

  /** The process returns, gives up or dies; the kernel drops its lock. */
  function Leaves(s: System, p: Pid): System {
    s.(pcs := s.pcs[p := Idle], lock := if s.lock == Some(p) then None else s.lock)
  }

  ghost predicate Begins(rules: Rules, s: System, p: Pid, t: System)
    requires p in s.pcs
  {
    s.pcs[p].Idle? && exists c :: WellMade(rules, c) && t == Goes(s, p, Wanting(c))
  }

  predicate Locks(s: System, p: Pid, t: System)
    requires p in s.pcs
  {
    s.pcs[p].Wanting? && s.lock == None && t == Goes(s, p, Locked(s.pcs[p].command)).(lock := Some(p))
  }

  /** read_locked and the change of the document in memory. */
  function Plan(hosts: seq<Host>, c: Command): Option<Pc> {
    match c
    case Enroll(record, cache) =>
      (match UpsertExact(hosts, record)
       case Ok(after) => Some(Caching(record, cache, after))
       case Err(_) => None)
    case Trust(expected, replacement) =>
      (match ReplaceExact(hosts, expected, replacement)
       case Ok(after) => Some(Committing(after, Swapped(expected, replacement)))
       case Err(_) => None)
    case Select(name) =>
      (match SelectOf(hosts, name)
       case Some(h) => Some(Rebuilding(hosts, Some(h)))
       case None => None)
  }

  predicate Plans(s: System, p: Pid, t: System)
    requires p in s.pcs
  {
    && s.pcs[p].Locked?
    && var plan := Plan(s.inventory, s.pcs[p].command);
       t == if plan.Some? then Goes(s, p, plan.value) else Leaves(s, p)
  }

  /** write_cache of an enrollment, under the lock. */
  predicate WritesCache(s: System, p: Pid, t: System)
    requires p in s.pcs
  {
    && s.pcs[p].Caching?
    && var c := s.pcs[p];
       var next :=
         if c.after.created then Committing(c.after.hosts, Added(c.record)) else Rebuilding(c.after.hosts, None);
       t == Goes(s, p, next).(caches := s.caches[c.cache.machineId := c.cache])
  }

  /** replace_inventory: the update is committed. */
  predicate Commits(s: System, p: Pid, t: System)
    requires p in s.pcs
  {
    && s.pcs[p].Committing?
    && var c := s.pcs[p];
       t == Goes(s, p, Rebuilding(c.hosts, None)).(
         inventory := c.hosts, log := s.log + [c.update], history := s.history + [c.hosts])
  }

  /** rebuild_known_hosts, which skips writing what is already there. */
  predicate Rebuilds(s: System, p: Pid, t: System)
    requires p in s.pcs
  {
    && s.pcs[p].Rebuilding?
    && t == Leaves(s, p).(known := Some(KnownHosts(s.pcs[p].hosts)))
  }

  /** host_refresh writes its cache without the lock. */
  ghost predicate Refreshes(s: System, p: Pid, t: System)
    requires p in s.pcs
  {
    s.pcs[p].Idle? && exists c: Cache :: t == s.(caches := s.caches[c.machineId := c])
  }

  predicate Stops(s: System, p: Pid, t: System)
    requires p in s.pcs
  {
    !s.pcs[p].Idle? && t == Leaves(s, p)
  }

  ghost predicate StepOf(rules: Rules, s: System, p: Pid, t: System)
    requires p in s.pcs
  {
    || Begins(rules, s, p, t) || Locks(s, p, t) || Plans(s, p, t) || WritesCache(s, p, t)
    || Commits(s, p, t) || Rebuilds(s, p, t) || Refreshes(s, p, t) || Stops(s, p, t)
  }

  ghost predicate Step(rules: Rules, s: System, t: System) {
    exists p :: p in s.pcs && StepOf(rules, s, p, t)
  }

  // ---------------------------------------------------------------- the invariant

  function Apply(hosts: seq<Host>, u: Update): Option<seq<Host>> {
    match u
    case Added(record) =>
      (match UpsertExact(hosts, record)
       case Ok(after) => if after.created then Some(after.hosts) else None
       case Err(_) => None)
    case Swapped(expected, replacement) =>
      (match ReplaceExact(hosts, expected, replacement)
       case Ok(after) => Some(after)
       case Err(_) => None)
  }

  predicate Covered(hosts: seq<Host>, caches: map<MachineId, Cache>) {
    forall h :: h in hosts ==> h.machineId in caches && caches[h.machineId].machineId == h.machineId
  }

  predicate CachesMatch(caches: map<MachineId, Cache>) {
    forall id :: id in caches ==> caches[id].machineId == id
  }

  /** Every committed state follows from the one before by its update. */
  predicate Replays(s: System) {
    && |s.history| == |s.log| + 1 && s.history[|s.log|] == s.inventory
    && forall i :: 0 <= i < |s.log| ==> Apply(s.history[i], s.log[i]) == Some(s.history[i + 1])
  }

  predicate Derived(s: System) {
    s.known == None || exists i :: 0 <= i < |s.history| && s.known == Some(KnownHosts(s.history[i]))
  }

  predicate Consistent(rules: Rules, s: System) {
    ValidHosts(rules, s.inventory) && CachesMatch(s.caches) && Covered(s.inventory, s.caches) && Replays(s)
      && Derived(s)
  }

  /** What the process in the critical section has worked out still fits the files. */
  predicate Fits(rules: Rules, s: System, pc: Pc) {
    match pc
    case Caching(record, cache, after) =>
      UpsertExact(s.inventory, record) == Ok(after) && GoodHost(rules, record) && cache.machineId == record.machineId
    case Committing(hosts, update) =>
      Apply(s.inventory, update) == Some(hosts) && ValidHosts(rules, hosts) && Covered(hosts, s.caches)
    case Rebuilding(hosts, selected) => hosts == s.inventory && (selected.Some? ==> selected.value in hosts)
    case Wanting(c) => WellMade(rules, c)
    case Locked(c) => WellMade(rules, c)
    case Idle => true
  }

  predicate Excluded(s: System) {
    forall p :: p in s.pcs ==> (InCritical(s.pcs[p]) <==> s.lock == Some(p))
  }

  predicate AllFit(rules: Rules, s: System) {
    forall p :: p in s.pcs ==> Fits(rules, s, s.pcs[p])
  }

  predicate Inv(rules: Rules, s: System) {
    Consistent(rules, s) && Excluded(s) && AllFit(rules, s)
  }

  /** A start: consistent files, nothing committed yet, nobody at work. */
  predicate Initial(rules: Rules, s: System) {
    && s.lock == None && s.log == [] && s.history == [s.inventory]
    && ValidHosts(rules, s.inventory) && CachesMatch(s.caches) && Covered(s.inventory, s.caches)
    && (s.known == None || s.known == Some(KnownHosts(s.inventory)))
    && forall p :: p in s.pcs ==> s.pcs[p].Idle?
  }

  lemma InitialIsInvariant(rules: Rules, s: System)
    requires Initial(rules, s)
    ensures Inv(rules, s)
  {
    assert s.history[0] == s.inventory;
  }

  // ---------------------------------------------------------------- every step keeps it

  lemma PlanFits(rules: Rules, s: System, c: Command)
    requires Consistent(rules, s) && WellMade(rules, c) && Plan(s.inventory, c).Some?
    ensures Fits(rules, s, Plan(s.inventory, c).value)
  {
    hide ValidHosts, UpsertExact, ReplaceExact, Derived, Replays;
    if c.Trust? {
      ReplaceOutcome(rules, s.inventory, c.expected, c.replacement);
      var i :| 0 <= i < |s.inventory| && s.inventory[i] == c.expected
        && Plan(s.inventory, c).value.hosts == s.inventory[i := c.replacement];
      assert s.inventory[i] in s.inventory;
    }
  }

  /** A process that changes no file but keeps or leaves its place. */
  lemma MovingKeepsInv(rules: Rules, s: System, p: Pid, t: System)
    requires Inv(rules, s) && p in s.pcs && p in t.pcs && t == Goes(s, p, t.pcs[p]).(lock := t.lock)
    requires InCritical(t.pcs[p]) <==> t.lock == Some(p)
    requires t.lock == s.lock || (s.lock == Some(p) && t.lock == None) || (s.lock == None && t.lock == Some(p))
    requires Fits(rules, s, t.pcs[p])
    ensures Inv(rules, t)
  {
    hide ValidHosts, UpsertExact, Apply, GoodHost, KnownHosts;
    forall q | q in t.pcs
      ensures Fits(rules, t, t.pcs[q])
    {
      assert Fits(rules, s, t.pcs[q]);
    }
    forall q | q in t.pcs
      ensures InCritical(t.pcs[q]) <==> t.lock == Some(q)
    {
      assert InCritical(s.pcs[q]) <==> s.lock == Some(q);
    }
  }

  lemma CacheKeepsCover(hosts: seq<Host>, caches: map<MachineId, Cache>, c: Cache)
    requires Covered(hosts, caches)
    ensures Covered(hosts, caches[c.machineId := c])
  {
  }

  /** A cache written under its own identity harms nobody. */
  lemma CachingKeepsFit(rules: Rules, s: System, c: Cache, pc: Pc)
    requires Fits(rules, s, pc)
    ensures Fits(rules, s.(caches := s.caches[c.machineId := c]), pc)
  {
    hide ValidHosts, UpsertExact, Apply, GoodHost;
  }

  lemma RefreshingKeepsInv(rules: Rules, s: System, t: System, c: Cache)
    requires Inv(rules, s) && t == s.(caches := s.caches[c.machineId := c])
    ensures Inv(rules, t)
  {
    hide ValidHosts, Fits, KnownHosts, Apply;
    CacheKeepsCover(s.inventory, s.caches, c);
    forall q | q in t.pcs
      ensures Fits(rules, t, t.pcs[q])
    {
      CachingKeepsFit(rules, s, c, t.pcs[q]);
    }
  }

  lemma WritingCacheKeepsInv(rules: Rules, s: System, p: Pid, t: System)
    requires Inv(rules, s) && p in s.pcs && WritesCache(s, p, t)
    ensures Inv(rules, t)
  {
    var c := s.pcs[p];
    var mid := s.(caches := s.caches[c.cache.machineId := c.cache]);
    RefreshingKeepsInv(rules, s, mid, c.cache);
    CommitWillFit(rules, mid, c, t.pcs[p]);
    hide Inv;
    CriticalHolds(rules, mid, p);
    MovingKeepsInv(rules, mid, p, t);
  }

  lemma CriticalHolds(rules: Rules, s: System, p: Pid)
    requires Inv(rules, s) && p in s.pcs
    ensures Fits(rules, s, s.pcs[p]) && (InCritical(s.pcs[p]) <==> s.lock == Some(p))
  {
  }

  /** Once its cache is there, a new record may be committed. */
  lemma CommitWillFit(rules: Rules, s: System, c: Pc, next: Pc)
    requires Consistent(rules, s) && c.Caching? && Fits(rules, s, c)
    requires c.record.machineId in s.caches
    requires next ==
      if c.after.created then Committing(c.after.hosts, Added(c.record)) else Rebuilding(c.after.hosts, None)
    ensures Fits(rules, s, next)
  {
    hide ValidHosts, SortByName, FirstConflict, GoodHost, Derived, Replays;
    UpsertKeepsValid(rules, s.inventory, c.record);
    UpsertOutcome(rules, s.inventory, c.record);
  }

  lemma CommittingKeepsInv(rules: Rules, s: System, p: Pid, t: System)
    requires Inv(rules, s) && p in s.pcs && Commits(s, p, t)
    ensures Inv(rules, t)
  {
    hide ValidHosts, GoodHost, KnownHosts, Apply, UpsertExact, Covered;
    var c := s.pcs[p];
    assert Fits(rules, s, c);
    forall i | 0 <= i < |t.log|
      ensures Apply(t.history[i], t.log[i]) == Some(t.history[i + 1])
    {
      if i < |s.log| {
        assert t.history[i] == s.history[i] && t.history[i + 1] == s.history[i + 1] && t.log[i] == s.log[i];
      }
    }
    DerivedGrows(s, t);
    forall q | q in t.pcs
      ensures Fits(rules, t, t.pcs[q]) && (InCritical(t.pcs[q]) <==> t.lock == Some(q))
    {
      assert InCritical(s.pcs[q]) <==> s.lock == Some(q);
      assert Fits(rules, s, s.pcs[q]);
    }
  }

  lemma DerivedGrows(s: System, t: System)
    requires Derived(s) && t.known == s.known && |s.history| <= |t.history| && t.history[..|s.history|] == s.history
    ensures Derived(t)
  {
    if s.known.Some? {
      var i :| 0 <= i < |s.history| && s.known == Some(KnownHosts(s.history[i]));
      assert t.history[i] == t.history[..|s.history|][i];
    }
  }

  lemma RebuildingKeepsInv(rules: Rules, s: System, p: Pid, t: System)
    requires Inv(rules, s) && p in s.pcs && Rebuilds(s, p, t)
    ensures Inv(rules, t) && t.known == Some(KnownHosts(t.inventory))
  {
    hide ValidHosts, GoodHost, KnownHosts, Apply, UpsertExact, Covered;
    assert Fits(rules, s, s.pcs[p]);
    assert t.known == Some(KnownHosts(t.history[|t.log|]));
    forall q | q in t.pcs
      ensures Fits(rules, t, t.pcs[q]) && (InCritical(t.pcs[q]) <==> t.lock == Some(q))
    {
      assert InCritical(s.pcs[q]) <==> s.lock == Some(q);
      assert Fits(rules, s, s.pcs[q]);
    }
  }

  lemma StepKeepsInv(rules: Rules, s: System, t: System)
    requires Inv(rules, s) && Step(rules, s, t)
    ensures Inv(rules, t)
  {
    hide Inv, Fits, WritesCache, Commits, Rebuilds, Plan;
    var p :| p in s.pcs && StepOf(rules, s, p, t);
    CriticalHolds(rules, s, p);
    if WritesCache(s, p, t) {
      WritingCacheKeepsInv(rules, s, p, t);
    } else if Commits(s, p, t) {
      CommittingKeepsInv(rules, s, p, t);
    } else if Rebuilds(s, p, t) {
      RebuildingKeepsInv(rules, s, p, t);
    } else if Refreshes(s, p, t) {
      var c: Cache :| t == s.(caches := s.caches[c.machineId := c]);
      RefreshingKeepsInv(rules, s, t, c);
    } else {
      SimpleStepFits(rules, s, p, t);
      MovingKeepsInv(rules, s, p, t);
    }
  }

  lemma SimpleStepFits(rules: Rules, s: System, p: Pid, t: System)
    requires Inv(rules, s) && p in s.pcs
    requires Begins(rules, s, p, t) || Locks(s, p, t) || Plans(s, p, t) || Stops(s, p, t)
    ensures p in t.pcs && t == Goes(s, p, t.pcs[p]).(lock := t.lock) && Fits(rules, s, t.pcs[p])
    ensures InCritical(t.pcs[p]) <==> t.lock == Some(p)
    ensures t.lock == s.lock || (s.lock == Some(p) && t.lock == None) || (s.lock == None && t.lock == Some(p))
  {
    hide Consistent, Apply, UpsertExact, ReplaceExact, GoodHost, Plan;
    CriticalHolds(rules, s, p);
    if Plans(s, p, t) && Plan(s.inventory, s.pcs[p].command).Some? {
      PlanFits(rules, s, s.pcs[p].command);
      PlanIsCritical(s.inventory, s.pcs[p].command);
    }
  }

  lemma PlanIsCritical(hosts: seq<Host>, c: Command)
    requires Plan(hosts, c).Some?
    ensures InCritical(Plan(hosts, c).value)
  {
  }

  // ---------------------------------------------------------------- whole runs

  ghost predicate IsRun(rules: Rules, states: seq<System>) {
    && states != [] && Initial(rules, states[0])
    && forall i :: 0 <= i < |states| - 1 ==> Step(rules, states[i], states[i + 1])
  }

  /** In every state of every run: every host has a valid cache for its machine, the
      inventory is valid and replays every committed update, and known_hosts is the text of
      some committed inventory. */
  lemma {:induction false} FilesStayConsistent(rules: Rules, states: seq<System>, i: nat)
    requires IsRun(rules, states) && i < |states|
    ensures Inv(rules, states[i]) && Consistent(rules, states[i])
  {
    hide Step, Consistent;
    if i == 0 {
      InitialIsInvariant(rules, states[0]);
    } else {
      FilesStayConsistent(rules, states, i - 1);
      StepKeepsInv(rules, states[i - 1], states[i]);
    }
  }

  /** A selection that succeeds leaves known_hosts equal to the text of the inventory, and
      returns a host of it that has a cache. */
  lemma SelectionIsCurrent(rules: Rules, states: seq<System>, i: nat, p: Pid)
    requires IsRun(rules, states) && i < |states| - 1 && p in states[i].pcs
    requires Rebuilds(states[i], p, states[i + 1]) && states[i].pcs[p].selected.Some?
    ensures states[i + 1].known == Some(KnownHosts(states[i + 1].inventory))
    ensures var h := states[i].pcs[p].selected.value;
      && h in states[i + 1].inventory
      && h.machineId in states[i + 1].caches && states[i + 1].caches[h.machineId].machineId == h.machineId
  {
    hide Step, KnownHosts, Initial, ValidHosts, Derived, Replays;
    FilesStayConsistent(rules, states, i);
    RebuildingKeepsInv(rules, states[i], p, states[i + 1]);
    assert Fits(rules, states[i], states[i].pcs[p]);
  }

  /** The record of `name` and `id` is still there, under some transport. */
  predicate Enrolled(hosts: seq<Host>, name: string, id: MachineId) {
    exists k :: 0 <= k < |hosts| && hosts[k].name == name && hosts[k].machineId == id
  }

  lemma UpdateKeepsEnrolled(rules: Rules, hosts: seq<Host>, u: Update, name: string, id: MachineId)
    requires ValidHosts(rules, hosts) && Apply(hosts, u).Some?
    requires Enrolled(hosts, name, id) || (u.Added? && u.record.name == name && u.record.machineId == id)
    ensures Enrolled(Apply(hosts, u).value, name, id)
  {
    hide ValidHosts, GoodHost;
    var after := Apply(hosts, u).value;
    match u
    case Added(record) =>
      AddedIsInserted(rules, hosts, record);
      var x := record;
      if Enrolled(hosts, name, id) {
        var k :| 0 <= k < |hosts| && hosts[k].name == name && hosts[k].machineId == id;
        x := hosts[k];
      }
      assert x in after;
    case Swapped(expected, replacement) =>
      var k :| 0 <= k < |hosts| && hosts[k].name == name && hosts[k].machineId == id;
      assert after[k].name == name && after[k].machineId == id;
  }

  lemma AddedIsInserted(rules: Rules, hosts: seq<Host>, record: Host)
    requires ValidHosts(rules, hosts) && UpsertExact(hosts, record).Ok? && UpsertExact(hosts, record).value.created
    ensures forall x :: x in UpsertExact(hosts, record).value.hosts <==> x in hosts || x == record
  {
    hide UpsertExact;
    OrderedIsSorted(hosts);
    SortOfAppend(hosts, record);
    CreatedIsInserted(hosts, record);
    InsertKeeps(hosts, record);
  }

  /** No enrollment is lost: a host that was enrolled at any time of a run is in the
      inventory ever after, whatever runs beside it and wherever it crashes. */
  lemma {:induction false} EnrolledForever(rules: Rules, states: seq<System>, i: nat, j: nat, name: string,
      id: MachineId)
    requires IsRun(rules, states) && i <= j < |states| && Enrolled(states[i].inventory, name, id)
    ensures Enrolled(states[j].inventory, name, id)
    decreases j - i
  {
    hide Enrolled, Initial, Consistent, Inv, Apply;
    if i < j {
      EnrolledForever(rules, states, i, j - 1, name, id);
      FilesStayConsistent(rules, states, j - 1);
      StepKeepsEnrolled(rules, states[j - 1], states[j], name, id);
    }
  }

  lemma StepKeepsEnrolled(rules: Rules, s: System, t: System, name: string, id: MachineId)
    requires Inv(rules, s) && Step(rules, s, t) && Enrolled(s.inventory, name, id)
    ensures Enrolled(t.inventory, name, id)
  {
    hide Enrolled, Inv, Apply, Plan, ValidHosts;
    var p :| p in s.pcs && StepOf(rules, s, p, t);
    if Commits(s, p, t) {
      CriticalHolds(rules, s, p);
      ConsistentIsValid(rules, s);
      UpdateKeepsEnrolled(rules, s.inventory, s.pcs[p].update, name, id);
    }
  }

  lemma ConsistentIsValid(rules: Rules, s: System)
    requires Inv(rules, s)
    ensures ValidHosts(rules, s.inventory)
  {
  }
}
