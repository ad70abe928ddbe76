/** The locked parts of the host commands, file replacement by file replacement. Any
    replacement may fail before or after it takes effect, and a crash is a failure too:
    nothing is undone. Module HostFiles interleaves these steps. */
module HostCommands {
  import opened Wrappers
  import opened Inventory
  import opened HostFiles

  datatype Failure = Refused(error: Error) | Broken

  /** An enrollment, and whether rebuilding known_hosts failed, which only warns. */
  datatype Enrollment = Enrollment(created: bool, knownHostsFailed: bool)

  class HostStore {
    var inventory: seq<Host>
    var caches: map<MachineId, Cache>
    var known: Option<seq<Line>>

    constructor (inventory: seq<Host>, caches: map<MachineId, Cache>, known: Option<seq<Line>>)
      ensures this.inventory == inventory && this.caches == caches && this.known == known
    {
      this.inventory, this.caches, this.known := inventory, caches, known;
    }

    /** The inventory is valid and every host of it has a valid cache. */
    ghost predicate Valid(rules: Rules)
      reads this
    {
      ValidHosts(rules, inventory) && CachesMatch(caches) && Covered(inventory, caches)
    }

    /** write_cache */
    method WriteCache(cache: Cache) returns (ok: bool)
      modifies this`caches
      ensures caches == old(caches) || caches == old(caches)[cache.machineId := cache]
      ensures ok ==> caches == old(caches)[cache.machineId := cache]
    {
      var before: bool, after: bool := *, *;
      if before {
        return false;
      }
      caches := caches[cache.machineId := cache];
      return !after;
    }

    /** replace_inventory */
    method ReplaceInventory(hosts: seq<Host>) returns (ok: bool)
      modifies this`inventory
      ensures inventory == old(inventory) || inventory == hosts
      ensures ok ==> inventory == hosts
    {
      var before: bool, after: bool := *, *;
      if before {
        return false;
      }
      inventory := hosts;
      return !after;
    }

    /** rebuild_known_hosts */
    method RebuildKnownHosts(hosts: seq<Host>) returns (ok: bool)
      modifies this`known
      ensures known == old(known) || known == Some(KnownHosts(hosts))
      ensures ok ==> known == Some(KnownHosts(hosts))
    {
      var lines: seq<Line> := [];
      var i := 0;
      while i < |hosts|
        invariant 0 <= i <= |hosts| && lines == KnownHosts(hosts)[..i]
      {
        lines := lines + [Line(hosts[i].transport.host, hosts[i].transport.port, hosts[i].transport.pin)];
        i := i + 1;
      }
      assert lines == KnownHosts(hosts);
      if known == Some(lines) {
        return true;
      }
      var before: bool, after: bool := *, *;
      if before {
        return false;
      }
      known := Some(lines);
      return !after;
    }

    /** The locked part of host_enroll: the cache first, then the inventory, so that no host
        is ever without its cache. */
    method Enroll(ghost rules: Rules, record: Host, cache: Cache) returns (r: Result<Enrollment, Failure>)
      requires Valid(rules) && GoodHost(rules, record) && cache.machineId == record.machineId
      modifies this
      ensures Valid(rules)
      ensures inventory == old(inventory) || Apply(old(inventory), Added(record)) == Some(inventory)
      ensures known == old(known) || known == Some(KnownHosts(inventory))
      ensures r.Ok? ==>
        && record in inventory && caches == old(caches)[record.machineId := cache]
        && (r.value.created <==> record !in old(inventory))
        && (!r.value.knownHostsFailed ==> known == Some(KnownHosts(inventory)))
      ensures r.Err? && r.error.Refused? ==>
        && inventory == old(inventory) && caches == old(caches) && known == old(known)
        && record !in inventory && (!NewTo(inventory, record) || |inventory| == MAX_HOSTS)
    {
      var document := new InventoryDocument.Holding(inventory);
      UpsertOutcome(rules, inventory, record);
      var created := document.Upsert(record);
      if created.Err? {
        return Err(Refused(created.error));
      }
      UpsertKeepsValid(rules, inventory, record);
      var cached := WriteCache(cache);
      if !cached {
        return Err(Broken);
      }
      if created.value {
        var replaced := ReplaceInventory(document.hosts);
        if !replaced {
          return Err(Broken);
        }
      }
      var rebuilt := RebuildKnownHosts(document.hosts);
      return Ok(Enrollment(created.value, !rebuilt));
    }

    /** The locked part of host_trust. Returns whether rebuilding known_hosts failed. */
    method Trust(ghost rules: Rules, expected: Host, replacement: Host) returns (r: Result<bool, Failure>)
      requires Valid(rules) && GoodHost(rules, replacement)
      modifies this`inventory, this`known
      ensures Valid(rules)
      ensures inventory == old(inventory) || Apply(old(inventory), Swapped(expected, replacement)) == Some(inventory)
      ensures r.Ok? ==> expected in old(inventory) && ReplacedOnly(old(inventory), inventory, expected, replacement)
      ensures r.Ok? && !r.value ==> known == Some(KnownHosts(inventory))
      ensures r.Err? && r.error.Refused? ==> inventory == old(inventory) && known == old(known)
      ensures (expected !in old(inventory)) ==> r.Err? && r.error.Refused?
    {
      var document := new InventoryDocument.Holding(inventory);
      ReplaceOutcome(rules, inventory, expected, replacement);
      var replaced := document.Replace(expected, replacement);
      if replaced.Err? {
        return Err(Refused(replaced.error));
      }
      SwapKeepsCover(inventory, document.hosts, caches, expected, replacement);
      var ok := ReplaceInventory(document.hosts);
      if !ok {
        return Err(Broken);
      }
      var rebuilt := RebuildKnownHosts(document.hosts);
      return Ok(!rebuilt);
    }

    /** select_host_for_network: known_hosts is current before the host is used. */
    method SelectForNetwork(name: Option<string>) returns (r: Result<Host, Failure>)
      modifies this`known
      ensures r.Ok? ==>
        r.value in inventory && known == Some(KnownHosts(inventory)) && (name.Some? ==> r.value.name == name.value)
      ensures r.Err? && r.error.Refused? ==>
        && known == old(known)
        && match name
           case Some(n) => forall h :: h in inventory ==> h.name != n
           case None => |inventory| != 1
    {
      var document := new InventoryDocument.Holding(inventory);
      var host := document.Select(name);
      if host.Err? {
        return Err(Refused(host.error));
      }
      var rebuilt := RebuildKnownHosts(document.hosts);
      if !rebuilt {
        return Err(Broken);
      }
      return Ok(host.value);
    }

    /** The end of host_refresh, without the lock. */
    method Refresh(ghost rules: Rules, cache: Cache) returns (ok: bool)
      requires Valid(rules)
      modifies this`caches
      ensures Valid(rules) && (ok ==> cache.machineId in caches && caches[cache.machineId] == cache)
    {
      ok := WriteCache(cache);
    }
  }

  lemma SwapKeepsCover(before: seq<Host>, after: seq<Host>, caches: map<MachineId, Cache>, expected: Host,
      replacement: Host)
    requires Covered(before, caches) && ReplacedOnly(before, after, expected, replacement)
      && expected.machineId == replacement.machineId
    ensures Covered(after, caches)
  {
    var i :| 0 <= i < |before| && before[i] == expected && after == before[i := replacement];
    assert before[i] in before;
    forall h | h in after
      ensures h.machineId in caches && caches[h.machineId].machineId == h.machineId
    {
      var k :| 0 <= k < |after| && after[k] == h;
      assert before[k] in before;
    }
  }
}
