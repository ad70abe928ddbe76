/** The controller's inventory of hosts. */
module Inventory {
  import opened Wrappers

  const MAX_HOSTS := 1024

  type MachineId = nat

  /** Where and as whom a host is reached, and its pinned key. */
  datatype Transport = Transport(host: string, user: string, port: nat, identity: string, pin: string)

  datatype Host = Host(name: string, machineId: MachineId, cache: string, transport: Transport)

  datatype Error = Argument | Config

  /** What a name, a cache path and a transport must satisfy: valid_name, the path derived
      from the machine identity, and RpcTarget::new. */
  datatype Rules = Rules(validName: string -> bool, cachePath: MachineId -> string, reachable: Transport -> bool)

  predicate GoodHost(rules: Rules, h: Host) {
    rules.validName(h.name) && h.cache == rules.cachePath(h.machineId) && rules.reachable(h.transport)
  }

  // ---------------------------------------------------------------- the order of names

  /** `a < b` as byte strings; code point order is the same. */
  predicate Less(a: string, b: string) {
    b != "" && (a == "" || a[0] < b[0] || (a[0] == b[0] && Less(a[1..], b[1..])))
  }

  /** The order is decided at the first difference, and a prefix comes first. */
  lemma {:induction false} LessIff(a: string, b: string)
    ensures Less(a, b) <==> exists k :: 0 <= k <= |a| && DiffersAt(a, b, k)
  {
    if a == "" {
      assert b != "" ==> DiffersAt(a, b, 0);
    } else if b != "" {
      LessIff(a[1..], b[1..]);
      if a[0] < b[0] {
        assert DiffersAt(a, b, 0);
      } else if a[0] == b[0] {
        if k :| 0 <= k <= |a[1..]| && DiffersAt(a[1..], b[1..], k) {
          assert a[..k + 1] == [a[0]] + a[1..][..k] && b[..k + 1] == [b[0]] + b[1..][..k];
          assert DiffersAt(a, b, k + 1);
        }
        if k :| 0 <= k <= |a| && DiffersAt(a, b, k) {
          assert k > 0 && a[1..][..k - 1] == a[..k][1..] && b[1..][..k - 1] == b[..k][1..];
          assert DiffersAt(a[1..], b[1..], k - 1);
        }
      } else {
        forall k | 0 <= k <= |a|
          ensures !DiffersAt(a, b, k)
        {
          assert k > 0 && k < |b| ==> a[..k][0] != b[..k][0];
        }
      }
    }
  }

  predicate DiffersAt(a: string, b: string, k: nat)
    requires k <= |a|
  {
    k < |b| && a[..k] == b[..k] && (k == |a| || a[k] < b[k])
  }

  lemma {:induction false} LessIsTotal(a: string, b: string)
    ensures !(Less(a, b) && Less(b, a)) && (a == b <==> !Less(a, b) && !Less(b, a))
  {
    if a != "" && b != "" && a[0] == b[0] {
      LessIsTotal(a[1..], b[1..]);
      assert a == [a[0]] + a[1..] && b == [b[0]] + b[1..];
    }
  }

  lemma {:induction false} LessIsTransitive(a: string, b: string, c: string)
    requires Less(a, b) && Less(b, c)
    ensures Less(a, c)
  {
    if a != "" && b != "" && c != "" && a[0] == b[0] == c[0] {
      LessIsTransitive(a[1..], b[1..], c[1..]);
    }
  }

  // ---------------------------------------------------------------- valid inventories

  predicate Ordered(hosts: seq<Host>) {
    forall i, j :: 0 <= i < j < |hosts| ==> Less(hosts[i].name, hosts[j].name)
  }

  predicate DistinctIds(hosts: seq<Host>) {
    forall i, j :: 0 <= i < j < |hosts| ==> hosts[i].machineId != hosts[j].machineId
  }

  predicate ValidHosts(rules: Rules, hosts: seq<Host>) {
    && |hosts| <= MAX_HOSTS && Ordered(hosts) && DistinctIds(hosts)
    && forall i :: 0 <= i < |hosts| ==> GoodHost(rules, hosts[i])
  }

  /** Comparing each name with the one before it orders all of them. */
  lemma OrderedStep(hosts: seq<Host>, i: nat)
    requires i < |hosts| && Ordered(hosts[..i]) && (i > 0 ==> Less(hosts[i - 1].name, hosts[i].name))
    ensures Ordered(hosts[..i + 1])
  {
    var s, t := hosts[..i], hosts[..i + 1];
    forall k, l | 0 <= k < l < |t|
      ensures Less(t[k].name, t[l].name)
    {
      if l < i {
        assert Less(s[k].name, s[l].name);
      } else if k < i - 1 {
        assert Less(s[k].name, s[i - 1].name);
        LessIsTransitive(t[k].name, t[i - 1].name, t[i].name);
      }
    }
  }

  /** validate_hosts */
  method ValidateHosts(rules: Rules, hosts: seq<Host>) returns (ok: bool)
    ensures ok <==> ValidHosts(rules, hosts)
  {
    if |hosts| > MAX_HOSTS {
      return false;
    }
    var names: set<string>, ids: set<MachineId>, previous: Option<string> := {}, {}, None;
    var i := 0;
    while i < |hosts|
      invariant 0 <= i <= |hosts|
      invariant Ordered(hosts[..i]) && DistinctIds(hosts[..i])
      invariant forall k :: 0 <= k < i ==> GoodHost(rules, hosts[k])
      invariant forall n :: n in names <==> exists k :: 0 <= k < i && hosts[k].name == n
      invariant forall d :: d in ids <==> exists k :: 0 <= k < i && hosts[k].machineId == d
      invariant previous == if i == 0 then None else Some(hosts[i - 1].name)
    {
      var h := hosts[i];
      if !rules.validName(h.name) || h.name in names || h.machineId in ids
         || (previous.Some? && !Less(previous.value, h.name))
         || h.cache != rules.cachePath(h.machineId) || !rules.reachable(h.transport)
      {
        RejectedHost(rules, hosts, i);
        return false;
      }
      OrderedStep(hosts, i);
      DistinctStep(hosts, i);
      names, ids, previous := names + {h.name}, ids + {h.machineId}, Some(h.name);
      i := i + 1;
    }
    assert hosts[..i] == hosts;
    return true;
  }

  lemma DistinctStep(hosts: seq<Host>, i: nat)
    requires i < |hosts| && DistinctIds(hosts[..i]) && forall k :: 0 <= k < i ==>
      hosts[k].machineId != hosts[i].machineId
    ensures DistinctIds(hosts[..i + 1])
  {
    var s, t := hosts[..i], hosts[..i + 1];
    forall k, l | 0 <= k < l < |t|
      ensures t[k].machineId != t[l].machineId
    {
      if l < i {
        assert s[k].machineId != s[l].machineId;
      }
    }
  }

  lemma RejectedHost(rules: Rules, hosts: seq<Host>, i: nat)
    requires i < |hosts|
    requires || !GoodHost(rules, hosts[i])
             || (exists k :: 0 <= k < i && (hosts[k].name == hosts[i].name || hosts[k].machineId == hosts[i].machineId))
             || (i > 0 && !Less(hosts[i - 1].name, hosts[i].name))
    ensures !ValidHosts(rules, hosts)
  {
    if ValidHosts(rules, hosts) && exists k :: 0 <= k < i && hosts[k].name == hosts[i].name {
      var k :| 0 <= k < i && hosts[k].name == hosts[i].name;
      LessIsTotal(hosts[k].name, hosts[i].name);
    }
  }

  // ---------------------------------------------------------------- sorting by name

  /** A stable insertion: after every host whose name is not greater. */
  function Insert(hosts: seq<Host>, h: Host): seq<Host> {
    if hosts == [] || !Less(h.name, hosts[|hosts| - 1].name) then hosts + [h]
    else Insert(hosts[..|hosts| - 1], h) + [hosts[|hosts| - 1]]
  }

  /** The stable sort by name. */
  function SortByName(hosts: seq<Host>): seq<Host> {
    if hosts == [] then [] else Insert(SortByName(hosts[..|hosts| - 1]), hosts[|hosts| - 1])
  }

  predicate NewTo(hosts: seq<Host>, h: Host) {
    forall i :: 0 <= i < |hosts| ==> hosts[i].name != h.name && hosts[i].machineId != h.machineId
  }

  lemma {:induction false} InsertKeeps(hosts: seq<Host>, h: Host)
    ensures multiset(Insert(hosts, h)) == multiset(hosts) + multiset{h} && |Insert(hosts, h)| == |hosts| + 1
    ensures forall x :: x in Insert(hosts, h) <==> x in hosts || x == h
  {
    if hosts != [] && Less(h.name, hosts[|hosts| - 1].name) {
      InsertKeeps(hosts[..|hosts| - 1], h);
      assert hosts == hosts[..|hosts| - 1] + [hosts[|hosts| - 1]];
    }
  }

  /** A new name goes to its only place. */
  lemma {:induction false} InsertOrders(hosts: seq<Host>, h: Host)
    requires Ordered(hosts) && forall i :: 0 <= i < |hosts| ==> hosts[i].name != h.name
    ensures Ordered(Insert(hosts, h))
  {
    hide Less;
    if hosts == [] {
    } else {
      var init, last := hosts[..|hosts| - 1], hosts[|hosts| - 1];
      LessIsTotal(h.name, last.name);
      if Less(h.name, last.name) {
        InsertOrders(init, h);
        InsertKeeps(init, h);
        AllBelow(init, h, last);
        AppendOrders(Insert(init, h), last);
      } else {
        forall i | 0 <= i < |hosts|
          ensures Less(hosts[i].name, h.name)
        {
          if i < |hosts| - 1 {
            LessIsTransitive(hosts[i].name, last.name, h.name);
          }
        }
        AppendOrders(hosts, h);
      }
    }
  }

  lemma AllBelow(init: seq<Host>, h: Host, last: Host)
    requires Ordered(init + [last]) && Less(h.name, last.name)
    ensures forall i :: 0 <= i < |Insert(init, h)| ==> Less(Insert(init, h)[i].name, last.name)
  {
    hide Less, Insert;
    InsertKeeps(init, h);
    var t := Insert(init, h);
    forall i | 0 <= i < |t|
      ensures Less(t[i].name, last.name)
    {
      assert t[i] in t;
      if t[i] in init {
        var k :| 0 <= k < |init| && init[k] == t[i];
        assert Less((init + [last])[k].name, (init + [last])[|init|].name);
      }
    }
  }

  lemma AppendOrders(hosts: seq<Host>, h: Host)
    requires Ordered(hosts) && forall i :: 0 <= i < |hosts| ==> Less(hosts[i].name, h.name)
    ensures Ordered(hosts + [h])
  {
    hide Less;
  }

  lemma {:induction false} OrderedIsSorted(hosts: seq<Host>)
    requires Ordered(hosts)
    ensures SortByName(hosts) == hosts
  {
    if hosts != [] {
      var init, last := hosts[..|hosts| - 1], hosts[|hosts| - 1];
      OrderedIsSorted(init);
      assert hosts == init + [last];
      if init != [] {
        LessIsTotal(init[|init| - 1].name, last.name);
      }
    }
  }

  // ---------------------------------------------------------------- what can be sorted

  predicate DistinctNames(hosts: seq<Host>) {
    forall i, j :: 0 <= i < j < |hosts| ==> hosts[i].name != hosts[j].name
  }

  lemma {:induction false} InsertSplits(hosts: seq<Host>, h: Host) returns (k: nat)
    ensures k <= |hosts| && Insert(hosts, h) == hosts[..k] + [h] + hosts[k..]
  {
    if hosts == [] || !Less(h.name, hosts[|hosts| - 1].name) {
      k := |hosts|;
    } else {
      k := InsertSplits(hosts[..|hosts| - 1], h);
    }
  }

  /** An insertion that leaves an ordered list found one, and a new name. */
  lemma InsertOrdersOnlyNew(hosts: seq<Host>, h: Host)
    requires Ordered(Insert(hosts, h))
    ensures Ordered(hosts) && forall i :: 0 <= i < |hosts| ==> hosts[i].name != h.name
  {
    hide Less, Insert;
    var k := InsertSplits(hosts, h);
    var t := Insert(hosts, h);
    forall i, j | 0 <= i < j < |hosts|
      ensures Less(hosts[i].name, hosts[j].name)
    {
      assert t[if i < k then i else i + 1] == hosts[i] && t[if j < k then j else j + 1] == hosts[j];
    }
    forall i | 0 <= i < |hosts|
      ensures hosts[i].name != h.name
    {
      assert t[k] == h && t[if i < k then i else i + 1] == hosts[i];
      LessIsTotal(hosts[i].name, h.name);
    }
  }

  lemma InsertDistinguishesOnlyNew(hosts: seq<Host>, h: Host)
    requires DistinctIds(Insert(hosts, h))
    ensures DistinctIds(hosts) && forall i :: 0 <= i < |hosts| ==> hosts[i].machineId != h.machineId
  {
    hide Less, Insert;
    var k := InsertSplits(hosts, h);
    var t := Insert(hosts, h);
    forall i, j | 0 <= i < j < |hosts|
      ensures hosts[i].machineId != hosts[j].machineId
    {
      assert t[if i < k then i else i + 1] == hosts[i] && t[if j < k then j else j + 1] == hosts[j];
    }
    forall i | 0 <= i < |hosts|
      ensures hosts[i].machineId != h.machineId
    {
      assert t[k] == h && t[if i < k then i else i + 1] == hosts[i];
    }
  }

  lemma InsertAddsOne(hosts: seq<Host>, h: Host)
    ensures multiset(Insert(hosts, h)) == multiset(hosts) + multiset{h}
  {
    InsertKeeps(hosts, h);
  }

  lemma LastIsOneMore(hosts: seq<Host>)
    requires hosts != []
    ensures multiset(hosts) == multiset(hosts[..|hosts| - 1]) + multiset{hosts[|hosts| - 1]}
  {
    assert hosts == hosts[..|hosts| - 1] + [hosts[|hosts| - 1]];
  }

  lemma {:induction false} SortPermutes(hosts: seq<Host>)
    ensures multiset(SortByName(hosts)) == multiset(hosts)
  {
    hide Insert;
    if hosts != [] {
      SortPermutes(hosts[..|hosts| - 1]);
      InsertAddsOne(SortByName(hosts[..|hosts| - 1]), hosts[|hosts| - 1]);
      LastIsOneMore(hosts);
    }
  }

  lemma SortKeeps(hosts: seq<Host>)
    ensures multiset(SortByName(hosts)) == multiset(hosts) && |SortByName(hosts)| == |hosts|
    ensures forall x :: x in SortByName(hosts) <==> x in hosts
  {
    SortPermutes(hosts);
    SameMembers(SortByName(hosts), hosts);
  }

  lemma SameMembers(s: seq<Host>, t: seq<Host>)
    requires multiset(s) == multiset(t)
    ensures |s| == |t| && forall x :: x in s <==> x in t
  {
    assert |multiset(s)| == |s| && |multiset(t)| == |t|;
    assert forall x :: (x in s <==> x in multiset(s)) && (x in t <==> x in multiset(t));
  }

  predicate NamesApart(hosts: seq<Host>, h: Host) {
    forall i :: 0 <= i < |hosts| ==> hosts[i].name != h.name
  }

  predicate IdsApart(hosts: seq<Host>, h: Host) {
    forall i :: 0 <= i < |hosts| ==> hosts[i].machineId != h.machineId
  }

  lemma ApartByMembers(s: seq<Host>, t: seq<Host>, h: Host)
    requires forall x :: x in s <==> x in t
    ensures NamesApart(s, h) <==> NamesApart(t, h)
    ensures IdsApart(s, h) <==> IdsApart(t, h)
  {
    assert NamesApart(s, h) <==> forall x :: x in s ==> x.name != h.name;
    assert NamesApart(t, h) <==> forall x :: x in t ==> x.name != h.name;
    assert IdsApart(s, h) <==> forall x :: x in s ==> x.machineId != h.machineId;
    assert IdsApart(t, h) <==> forall x :: x in t ==> x.machineId != h.machineId;
  }

  /** Sorting orders a list exactly if its names are distinct, and identities stay distinct
      or not. */
  lemma {:induction false} SortOrdersIff(hosts: seq<Host>)
    ensures Ordered(SortByName(hosts)) <==> DistinctNames(hosts)
    ensures DistinctIds(SortByName(hosts)) <==> DistinctIds(hosts)
  {
    hide Less, Insert;
    if hosts != [] {
      var init, last := hosts[..|hosts| - 1], hosts[|hosts| - 1];
      SortOrdersIff(init);
      SortKeeps(init);
      ApartByMembers(SortByName(init), init, last);
      assert hosts == init + [last];
      assert DistinctNames(hosts) <==> DistinctNames(init) && NamesApart(init, last);
      assert DistinctIds(hosts) <==> DistinctIds(init) && IdsApart(init, last);
      InsertedIff(SortByName(init), last);
    }
  }

  lemma InsertedIff(hosts: seq<Host>, h: Host)
    ensures Ordered(Insert(hosts, h)) <==> Ordered(hosts) && NamesApart(hosts, h)
    ensures DistinctIds(Insert(hosts, h)) <==> DistinctIds(hosts) && IdsApart(hosts, h)
  {
    hide Less, Insert;
    if Ordered(Insert(hosts, h)) {
      InsertOrdersOnlyNew(hosts, h);
    } else if Ordered(hosts) && NamesApart(hosts, h) {
      InsertOrders(hosts, h);
    }
    if DistinctIds(Insert(hosts, h)) {
      InsertDistinguishesOnlyNew(hosts, h);
    } else if DistinctIds(hosts) && IdsApart(hosts, h) {
      InsertKeepsIds(hosts, h);
    }
  }

  /** What a list must satisfy to become an inventory, whatever its order. */
  predicate AcceptableHosts(rules: Rules, hosts: seq<Host>) {
    && |hosts| <= MAX_HOSTS && DistinctNames(hosts) && DistinctIds(hosts)
    && forall i :: 0 <= i < |hosts| ==> GoodHost(rules, hosts[i])
  }

  lemma SortedIsValidIff(rules: Rules, hosts: seq<Host>)
    ensures ValidHosts(rules, SortByName(hosts)) <==> AcceptableHosts(rules, hosts)
  {
    hide SortByName, Less, GoodHost, DistinctIds, DistinctNames, Ordered;
    SortKeeps(hosts);
    SortOrdersIff(hosts);
    if ValidHosts(rules, SortByName(hosts)) {
      AllGoodMembers(rules, hosts, SortByName(hosts));
    } else if AcceptableHosts(rules, hosts) {
      AllGoodMembers(rules, SortByName(hosts), hosts);
    }
  }

  // ---------------------------------------------------------------- updates

  datatype Upsert = Upsert(hosts: seq<Host>, created: bool)

  predicate Conflicts(a: Host, b: Host) {
    a.name == b.name || a.machineId == b.machineId
  }

  /** The first host that shares a name or an identity with `h`. */
  function FirstConflict(hosts: seq<Host>, h: Host): (r: Option<Host>)
    ensures r == None <==> NewTo(hosts, h)
    ensures r.Some? ==> r.value in hosts && Conflicts(r.value, h)
  {
    if hosts == [] then None
    else if Conflicts(hosts[0], h) then Some(hosts[0])
    else
      var r := FirstConflict(hosts[1..], h);
      assert r == None ==> forall i :: 0 < i < |hosts| ==> hosts[i] == hosts[1..][i - 1];
      r
  }

  function UpsertExact(hosts: seq<Host>, h: Host): Result<Upsert, Error> {
    var conflict := FirstConflict(hosts, h);
    if conflict.Some? then
      if conflict.value == h then Ok(Upsert(hosts, false)) else Err(Config)
    else if |hosts| == MAX_HOSTS then Err(Argument)
    else Ok(Upsert(SortByName(hosts + [h]), true))
  }

  lemma ExactIsTheOnlyConflict(rules: Rules, hosts: seq<Host>, h: Host, i: nat)
    requires ValidHosts(rules, hosts) && h in hosts && i < |hosts| && Conflicts(hosts[i], h)
    ensures hosts[i] == h
  {
    hide Less;
    var k :| 0 <= k < |hosts| && hosts[k] == h;
    if hosts[i].name == h.name {
      NamesAreUnique(hosts, i, k);
    } else {
      IdsAreUnique(hosts, i, k);
    }
  }

  /** What an upsert decides on a valid inventory: present exactly, new and fitting, or an
      error that says which. */
  lemma UpsertOutcome(rules: Rules, hosts: seq<Host>, h: Host)
    requires ValidHosts(rules, hosts)
    ensures var r := UpsertExact(hosts, h);
      && (r == Ok(Upsert(hosts, false)) <==> h in hosts)
      && (r.Ok? && r.value.created <==> NewTo(hosts, h) && |hosts| < MAX_HOSTS)
      && (r == Err(Argument) <==> NewTo(hosts, h) && |hosts| == MAX_HOSTS)
      && (r == Err(Config) <==> !NewTo(hosts, h) && h !in hosts)
  {
    hide ValidHosts, SortByName, Less;
    if h in hosts {
      var k :| 0 <= k < |hosts| && hosts[k] == h;
      assert !NewTo(hosts, h);
      var c := FirstConflict(hosts, h).value;
      assert c in hosts && Conflicts(c, h);
      var i :| 0 <= i < |hosts| && hosts[i] == c;
      ExactIsTheOnlyConflict(rules, hosts, h, i);
    }
    assert |hosts| <= MAX_HOSTS by { SizeBound(rules, hosts); }
  }

  lemma ValidIsOrdered(rules: Rules, hosts: seq<Host>)
    requires ValidHosts(rules, hosts)
    ensures Ordered(hosts)
  {
  }

  lemma SortOfAppend(hosts: seq<Host>, h: Host)
    ensures SortByName(hosts + [h]) == Insert(SortByName(hosts), h)
  {
    hide Insert;
    assert (hosts + [h])[..|hosts|] == hosts;
  }

  lemma SizeBound(rules: Rules, hosts: seq<Host>)
    requires ValidHosts(rules, hosts)
    ensures |hosts| <= MAX_HOSTS
  {
  }

  /** An upsert of a good host keeps the inventory valid, keeps every other host, and adds
      exactly the new one. */
  lemma UpsertKeepsValid(rules: Rules, hosts: seq<Host>, h: Host)
    requires ValidHosts(rules, hosts) && GoodHost(rules, h) && UpsertExact(hosts, h).Ok?
    ensures var after := UpsertExact(hosts, h).value;
      && ValidHosts(rules, after.hosts) && h in after.hosts
      && (after.created ==> multiset(after.hosts) == multiset(hosts) + multiset{h})
      && forall x :: x in after.hosts <==> x in hosts || x == h
  {
    UpsertOutcome(rules, hosts, h);
    if UpsertExact(hosts, h).value.created {
      hide UpsertExact, Less, ValidHosts, SortByName;
      ValidIsOrdered(rules, hosts);
      OrderedIsSorted(hosts);
      SortOfAppend(hosts, h);
      InsertKeeps(hosts, h);
      InsertKeepsValid(rules, hosts, h);
      CreatedIsInserted(hosts, h);
    }
  }

  lemma InsertKeepsValid(rules: Rules, hosts: seq<Host>, h: Host)
    requires ValidHosts(rules, hosts) && GoodHost(rules, h) && NewTo(hosts, h) && |hosts| < MAX_HOSTS
    ensures ValidHosts(rules, Insert(hosts, h))
  {
    hide Less, Insert, GoodHost;
    InsertOrders(hosts, h);
    InsertKeeps(hosts, h);
    InsertKeepsIds(hosts, h);
    AllGoodMembers(rules, Insert(hosts, h), hosts + [h]);
  }

  lemma AllGoodMembers(rules: Rules, s: seq<Host>, t: seq<Host>)
    requires forall x :: x in s ==> x in t
    requires forall i :: 0 <= i < |t| ==> GoodHost(rules, t[i])
    ensures forall i :: 0 <= i < |s| ==> GoodHost(rules, s[i])
  {
    hide GoodHost;
    forall i | 0 <= i < |s|
      ensures GoodHost(rules, s[i])
    {
      assert s[i] in t;
      var k :| 0 <= k < |t| && t[k] == s[i];
    }
  }

  lemma CreatedIsInserted(hosts: seq<Host>, h: Host)
    requires UpsertExact(hosts, h).Ok? && UpsertExact(hosts, h).value.created
    requires SortByName(hosts + [h]) == Insert(hosts, h)
    ensures UpsertExact(hosts, h).value.hosts == Insert(hosts, h)
  {
  }

  lemma {:induction false} InsertKeepsIds(hosts: seq<Host>, h: Host)
    requires DistinctIds(hosts) && forall i :: 0 <= i < |hosts| ==> hosts[i].machineId != h.machineId
    ensures DistinctIds(Insert(hosts, h))
  {
    hide Less;
    if hosts != [] && Less(h.name, hosts[|hosts| - 1].name) {
      var init, last := hosts[..|hosts| - 1], hosts[|hosts| - 1];
      InsertKeepsIds(init, h);
      InsertKeeps(init, h);
      var t := Insert(init, h);
      forall i | 0 <= i < |t|
        ensures t[i].machineId != last.machineId
      {
        assert t[i] in t;
      }
    }
  }

  function ReplaceExact(hosts: seq<Host>, expected: Host, replacement: Host): Result<seq<Host>, Error> {
    if expected.name != replacement.name || expected.machineId != replacement.machineId then Err(Argument)
    else
      match IndexByName(hosts, expected.name)
      case None => Err(Config)
      case Some(i) => if hosts[i] != expected then Err(Config) else Ok(hosts[i := replacement])
  }

  function IndexByName(hosts: seq<Host>, name: string): (r: Option<nat>)
    ensures r.Some? ==> r.value < |hosts| && hosts[r.value].name == name
    ensures r == None ==> forall i :: 0 <= i < |hosts| ==> hosts[i].name != name
  {
    if hosts == [] then None
    else if hosts[0].name == name then Some(0)
    else
      match IndexByName(hosts[1..], name)
      case None => assert forall i :: 0 < i < |hosts| ==> hosts[i] == hosts[1..][i - 1]; None
      case Some(i) => Some(i + 1)
  }

  lemma IdsAreUnique(hosts: seq<Host>, i: nat, j: nat)
    requires DistinctIds(hosts) && i < |hosts| && j < |hosts| && hosts[i].machineId == hosts[j].machineId
    ensures i == j
  {
  }

  lemma NamesAreUnique(hosts: seq<Host>, i: nat, j: nat)
    requires Ordered(hosts) && i < |hosts| && j < |hosts| && hosts[i].name == hosts[j].name
    ensures i == j
  {
    LessIsTotal(hosts[i].name, hosts[j].name);
  }

  ghost predicate ReplacedOnly(before: seq<Host>, after: seq<Host>, expected: Host, replacement: Host) {
    exists i :: 0 <= i < |before| && before[i] == expected && after == before[i := replacement]
  }

  /** A replacement succeeds exactly when the expected record is there unchanged and keeps
      its name and identity; it puts the new record in its place and stays valid. */
  lemma ReplaceOutcome(rules: Rules, hosts: seq<Host>, expected: Host, replacement: Host)
    requires ValidHosts(rules, hosts) && GoodHost(rules, replacement)
    ensures var r := ReplaceExact(hosts, expected, replacement);
      && (r.Ok? <==>
        expected in hosts && expected.name == replacement.name && expected.machineId == replacement.machineId)
      && (r == Err(Argument) <==> expected.name != replacement.name || expected.machineId != replacement.machineId)
      && (r.Ok? ==> ValidHosts(rules, r.value) && ReplacedOnly(hosts, r.value, expected, replacement))
  {
    hide Less;
    if expected in hosts {
      var i :| 0 <= i < |hosts| && hosts[i] == expected;
      NamesAreUnique(hosts, i, IndexByName(hosts, expected.name).value);
    }
  }

  // ---------------------------------------------------------------- the document

  class InventoryDocument {
    var hosts: seq<Host>

    constructor Empty()
      ensures hosts == []
    {
      hosts := [];
    }

    constructor Holding(hosts: seq<Host>)
      ensures this.hosts == hosts
    {
      this.hosts := hosts;
    }

    /** InventoryDocument::upsert_exact */
    method Upsert(host: Host) returns (r: Result<bool, Error>)
      modifies this
      ensures r == match UpsertExact(old(hosts), host)
                   case Ok(after) => Ok(after.created)
                   case Err(e) => Err(e)
      ensures hosts == if r.Ok? then UpsertExact(old(hosts), host).value.hosts else old(hosts)
    {
      var i := 0;
      while i < |hosts| && !Conflicts(hosts[i], host)
        invariant 0 <= i <= |hosts| && hosts == old(hosts)
        invariant FirstConflict(hosts, host) == FirstConflict(hosts[i..], host)
      {
        assert hosts[i..][1..] == hosts[i + 1..];
        i := i + 1;
      }
      if i < |hosts| {
        return if hosts[i] == host then Ok(false) else Err(Config);
      }
      if |hosts| == MAX_HOSTS {
        return Err(Argument);
      }
      hosts := hosts + [host];
      hosts := SortByName(hosts);
      return Ok(true);
    }

    /** InventoryDocument::replace_exact */
    method Replace(expected: Host, replacement: Host) returns (r: Result<(), Error>)
      modifies this
      ensures r.Ok? <==> ReplaceExact(old(hosts), expected, replacement).Ok?
      ensures r.Err? ==> r.error == ReplaceExact(old(hosts), expected, replacement).error && hosts == old(hosts)
      ensures r.Ok? ==> hosts == ReplaceExact(old(hosts), expected, replacement).value
    {
      if expected.name != replacement.name || expected.machineId != replacement.machineId {
        return Err(Argument);
      }
      var i := 0;
      while i < |hosts| && hosts[i].name != expected.name
        invariant 0 <= i <= |hosts| && hosts == old(hosts)
        invariant match IndexByName(hosts[i..], expected.name)
                  case None => IndexByName(hosts, expected.name) == None
                  case Some(k) => IndexByName(hosts, expected.name) == Some(i + k)
      {
        assert hosts[i..][1..] == hosts[i + 1..];
        i := i + 1;
      }
      if i == |hosts| || hosts[i] != expected {
        return Err(Config);
      }
      hosts := hosts[i := replacement];
      return Ok(());
    }

    /** InventoryDocument::select: a named host, or the only one. */
    method Select(name: Option<string>) returns (r: Result<Host, Error>)
      ensures name.Some? && r.Ok? ==> r.value in hosts && r.value.name == name.value
      ensures name.Some? && r.Err? ==> forall h :: h in hosts ==> h.name != name.value
      ensures name == None ==> (r.Ok? <==> |hosts| == 1) && (r.Ok? ==> hosts == [r.value])
    {
      if name == None {
        return if |hosts| == 1 then Ok(hosts[0]) else Err(Argument);
      }
      var i := IndexByName(hosts, name.value);
      return if i == None then Err(Argument) else Ok(hosts[i.value]);
    }
  }

  /** InventoryDocument::new: sort, then validate. */
  method NewDocument(rules: Rules, hosts: seq<Host>) returns (r: Result<InventoryDocument, Error>)
    ensures r.Ok? <==> AcceptableHosts(rules, hosts)
    ensures r.Ok? ==> fresh(r.value) && ValidHosts(rules, r.value.hosts) && multiset(r.value.hosts) == multiset(hosts)
    ensures ValidHosts(rules, hosts) ==> r.Ok? && r.value.hosts == hosts
  {
    hide SortByName, Less, GoodHost;
    SortKeeps(hosts);
    SortedIsValidIff(rules, hosts);
    if ValidHosts(rules, hosts) {
      OrderedIsSorted(hosts);
    }
    var sorted := SortByName(hosts);
    var ok := ValidateHosts(rules, sorted);
    if !ok {
      return Err(Argument);
    }
    var document := new InventoryDocument.Holding(sorted);
    return Ok(document);
  }
}
