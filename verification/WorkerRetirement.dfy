/** Retiring creation evidence: an active marker becomes a retired one, never both. */
module WorkerRetirement {
  import opened Wrappers
  import opened WorkerFs
  import opened WorkerTree
  import opened WorkerDisk
  import opened WorkerNode

  /** `post` is `pre` with the active marker of `t` renamed to the retired one. */
  ghost predicate MarkerRetired(pre: Fs, post: Fs, t: Slot) {
    && SlotFrame(pre, post, t) && post.Keys == pre.Keys
    && ActiveMarker(pre, t).Some? && RetiredMarker(post, t) == ActiveMarker(pre, t)
    && RetiredMarker(pre, t) == None && ActiveMarker(post, t) == None
    && Destination(post, t) == Destination(pre, t) && Staged(post, t) == Staged(pre, t)
    && (forall i :: i in pre && i != t.staging ==> post[i] == pre[i])
  }

  lemma RenameRetires(pre: Fs, post: Fs, k: Marker, euid: Uid)
    requires HoldsMarker(pre, k, Active(k.slot.dest, k.slot.leaf), euid) && RetiredMarker(pre, k.slot) == None
    requires IsDirectory(pre, k.slot.staging)
    requires post == Bind(Unbind(pre, k.slot.staging, Active(k.slot.dest, k.slot.leaf)),
                          k.slot.staging, Retired(k.slot.dest, k.slot.leaf), k.directory)
    ensures MarkerRetired(pre, post, k.slot) && HoldsMarker(post, k, Retired(k.slot.dest, k.slot.leaf), euid)
  {
    assert k.directory != k.slot.staging by {
      assert Active(k.slot.dest, k.slot.leaf) in pre[k.slot.staging].children;
    }
    assert k.file != k.slot.staging;
  }

  /** retire_worker_creation_provenance */
  method RetireMarker(disk: Disk, k: Marker, euid: Uid) returns (r: Io<()>)
    modifies disk
    ensures KeepsTree(old(disk.fs), disk.fs)
    ensures disk.fs == old(disk.fs)
      || (HoldsMarker(old(disk.fs), k, Active(k.slot.dest, k.slot.leaf), euid)
        && MarkerRetired(old(disk.fs), disk.fs, k.slot)
          && HoldsMarker(disk.fs, k, Retired(k.slot.dest, k.slot.leaf), euid))
    ensures r.Done? ==> disk.fs != old(disk.fs)
    ensures (disk.faultFree && HoldsMarker(old(disk.fs), k, Active(k.slot.dest, k.slot.leaf), euid)
      && RetiredMarker(old(disk.fs), k.slot) == None)
      ==> r.Done?
  {
    hide Tree;
    var t := k.slot;
    :- disk.Sys();
    if !HoldsMarker(disk.fs, k, Active(t.dest, t.leaf), euid) || RetiredMarker(disk.fs, t).Some? {
      return Failed(Refused);
    }
    ghost var pre := disk.fs;
    var moved :- disk.RenameNoReplace(t.staging, Active(t.dest, t.leaf), t.staging, Retired(t.dest, t.leaf));
    if !moved {
      return Failed(Refused);
    }
    RenameRetires(pre, disk.fs, k, euid);
    :- disk.Sys();
    if !HoldsMarker(disk.fs, k, Retired(t.dest, t.leaf), euid) || ActiveMarker(disk.fs, t).Some? {
      return Failed(Refused);
    }
    :- disk.Sys();
    return Done(());
  }

  /** retire_succeeded_worker_directory_evidence, from the point where the node is located. */
  method RetireSucceeded(disk: Disk, t: Slot, euid: Uid, worker: Uid, canonical: bool) returns (r: Io<()>)
    modifies disk
    ensures KeepsTree(old(disk.fs), disk.fs)
    ensures disk.fs == old(disk.fs)
      || (PhaseOf(old(disk.fs), t) == Published && MarkerRetired(old(disk.fs), disk.fs, t))
    ensures r.Done? ==> PhaseOf(disk.fs, t) == Settled
    ensures (r.Done? && PhaseOf(old(disk.fs), t) == Published) || disk.fs != old(disk.fs) ==>
      Settleable(old(disk.fs), t, Active(t.dest, t.leaf), euid, worker, canonical)
    ensures r.Done? || disk.fs != old(disk.fs) ==>
      Settleable(disk.fs, t, Retired(t.dest, t.leaf), euid, worker, canonical)
    ensures (disk.faultFree && PhaseOf(old(disk.fs), t) == Published
      && Settleable(old(disk.fs), t, Active(t.dest, t.leaf), euid, worker, canonical))
      ==> r.Done?
    ensures (disk.faultFree && PhaseOf(old(disk.fs), t) == Settled
      && Settleable(old(disk.fs), t, Retired(t.dest, t.leaf), euid, worker, canonical))
      ==> r.Done? && disk.fs == old(disk.fs)
  {
    hide Tree;
    var fate := disk.Sys();
    :- fate;
    if Staged(disk.fs, t).Some? {
      return Failed(Refused);
    }
    var d :- disk.OpenDirectory(t.dest, Plain(t.leaf));
    :- disk.Sys();
    if !ExistingAcceptable(disk.fs, d, euid, worker, canonical) {
      return Failed(Refused);
    }
    :- disk.Sys();
    var active := ActiveMarker(disk.fs, t).Some?;
    var retired := RetiredMarker(disk.fs, t).Some?;
    if active == retired {
      return Failed(Refused);
    }
    var name := if active then Active(t.dest, t.leaf) else Retired(t.dest, t.leaf);
    var found :- OpenMarker(disk, t, name, d, euid, worker);
    if found == None {
      return Failed(Refused);
    }
    if active {
      ghost var pre := disk.fs;
      r := RetireMarker(disk, found.value, euid);
      if disk.fs != pre {
        assert disk.fs[d].attr == pre[d].attr;
      }
      return;
    }
    :- disk.Sys();
    return Done(());
  }

  /** The checks a retirement makes on a published directory and its marker under `name`. */
  predicate Settleable(fs: Fs, t: Slot, name: Name, euid: Uid, worker: Uid, canonical: bool) {
    && Destination(fs, t).Some?
    && ExistingAcceptable(fs, Destination(fs, t).value, euid, worker, canonical)
    && ExactMarker(fs, t, name, Destination(fs, t).value, euid, worker).Some?
  }

  // ---------------------------------------------------------------- a whole lease

  /** `k` is the exact active marker of a published node. */
  ghost predicate StillActive(fs: Fs, k: Marker, euid: Uid) {
    PhaseOf(fs, k.slot) == Published && HoldsMarker(fs, k, Active(k.slot.dest, k.slot.leaf), euid)
  }

  /** `k` has become the retired marker of its node. */
  ghost predicate NowRetired(fs: Fs, k: Marker) {
    PhaseOf(fs, k.slot) == Settled && RetiredMarker(fs, k.slot) == Some(k.directory)
  }

  ghost predicate DistinctSlots(lease: seq<Marker>) {
    forall i, j :: 0 <= i < j < |lease| ==> Comparable(lease[i].slot, lease[j].slot)
  }

  /** The markers of a lease, in creation order, all active and on comparable slots. */
  ghost predicate LiveLease(fs: Fs, lease: seq<Marker>, euid: Uid) {
    DistinctSlots(lease) && forall j :: 0 <= j < |lease| ==> StillActive(fs, lease[j], euid)
  }

  /** The first `c` nodes of the lease are still active, the others are retired. */
  ghost predicate CutAt(fs: Fs, lease: seq<Marker>, c: nat, euid: Uid) {
    && c <= |lease|
    && (forall j :: 0 <= j < c ==> StillActive(fs, lease[j], euid))
    && (forall j :: c <= j < |lease| ==> NowRetired(fs, lease[j]))
  }

  function SlotsOf(lease: seq<Marker>): set<Slot> {
    set k | k in lease :: k.slot
  }

  ghost predicate SameDestinations(pre: Fs, post: Fs, lease: seq<Marker>) {
    forall j :: 0 <= j < |lease| ==> Destination(post, lease[j].slot) == Destination(pre, lease[j].slot)
  }

  lemma RetirementKeepsPhase(pre: Fs, post: Fs, t: Slot, x: Slot)
    requires MarkerRetired(pre, post, t) && Comparable(t, x)
    ensures PhaseOf(post, x) == PhaseOf(pre, x) && RetiredMarker(post, x) == RetiredMarker(pre, x)
    ensures Destination(post, x) == Destination(pre, x)
  {
    SlotFrameIsFrame(pre, post, t);
    FrameKeepsPhase(pre, post, {t}, x);
  }

  lemma RetirementKeepsActive(pre: Fs, post: Fs, t: Slot, k: Marker, euid: Uid)
    requires MarkerRetired(pre, post, t) && Comparable(t, k.slot) && StillActive(pre, k, euid)
    ensures StillActive(post, k, euid)
  {
    RetirementKeepsPhase(pre, post, t, k.slot);
    assert k.directory != t.staging by {
      assert Active(t.dest, t.leaf) in pre[t.staging].children;
    }
    assert k.file != t.staging;
    assert !OwnsName(t, k.slot.staging, Active(k.slot.dest, k.slot.leaf));
  }

  lemma RetirementKeepsRetired(pre: Fs, post: Fs, t: Slot, k: Marker)
    requires MarkerRetired(pre, post, t) && Comparable(t, k.slot) && NowRetired(pre, k)
    ensures NowRetired(post, k)
  {
    RetirementKeepsPhase(pre, post, t, k.slot);
  }

  lemma RetirementRetires(pre: Fs, post: Fs, k: Marker, euid: Uid)
    requires MarkerRetired(pre, post, k.slot) && StillActive(pre, k, euid)
    ensures NowRetired(post, k)
  {
  }

  lemma DistinctMeansComparable(lease: seq<Marker>, i: nat, j: nat)
    requires DistinctSlots(lease) && i < |lease| && j < |lease| && i != j
    ensures Comparable(lease[i].slot, lease[j].slot)
  {
    assert i < j ==> Comparable(lease[i].slot, lease[j].slot);
    assert j < i ==> Comparable(lease[j].slot, lease[i].slot);
  }

  lemma RetirementKeepsDestinations(pre: Fs, post: Fs, lease: seq<Marker>, c: nat)
    requires c < |lease| && DistinctSlots(lease) && MarkerRetired(pre, post, lease[c].slot)
    ensures SameDestinations(pre, post, lease)
  {
    forall j | 0 <= j < |lease|
      ensures Destination(post, lease[j].slot) == Destination(pre, lease[j].slot)
    {
      if j != c {
        DistinctMeansComparable(lease, c, j);
        RetirementKeepsPhase(pre, post, lease[c].slot, lease[j].slot);
      }
    }
  }

  lemma EarlierStayActive(pre: Fs, post: Fs, lease: seq<Marker>, c: nat, euid: Uid)
    requires 0 < c <= |lease| && CutAt(pre, lease, c, euid) && DistinctSlots(lease)
    requires MarkerRetired(pre, post, lease[c - 1].slot)
    ensures forall j :: 0 <= j < c - 1 ==> StillActive(post, lease[j], euid)
  {
    forall j | 0 <= j < c - 1
      ensures StillActive(post, lease[j], euid)
    {
      DistinctMeansComparable(lease, c - 1, j);
      RetirementKeepsActive(pre, post, lease[c - 1].slot, lease[j], euid);
    }
  }

  lemma LaterStayRetired(pre: Fs, post: Fs, lease: seq<Marker>, c: nat, euid: Uid)
    requires 0 < c <= |lease| && CutAt(pre, lease, c, euid) && DistinctSlots(lease)
    requires MarkerRetired(pre, post, lease[c - 1].slot)
    ensures forall j :: c - 1 <= j < |lease| ==> NowRetired(post, lease[j])
  {
    forall j | c - 1 <= j < |lease|
      ensures NowRetired(post, lease[j])
    {
      if j == c - 1 {
        RetirementRetires(pre, post, lease[j], euid);
      } else {
        DistinctMeansComparable(lease, c - 1, j);
        RetirementKeepsRetired(pre, post, lease[c - 1].slot, lease[j]);
      }
    }
  }

  lemma RetirementFrame(pre: Fs, before: Fs, after: Fs, touched: set<Slot>, t: Slot)
    requires Frame(pre, before, touched) && t in touched && MarkerRetired(before, after, t)
    ensures Frame(pre, after, touched)
  {
    SlotFrameIsFrame(before, after, t);
    FrameTrans(pre, before, after, touched, {t});
    assert touched + {t} == touched;
  }

  lemma NextRetirement(pre: Fs, post: Fs, lease: seq<Marker>, c: nat, euid: Uid)
    requires 0 < c <= |lease| && CutAt(pre, lease, c, euid) && DistinctSlots(lease)
    requires MarkerRetired(pre, post, lease[c - 1].slot)
    ensures CutAt(post, lease, c - 1, euid)
  {
    EarlierStayActive(pre, post, lease, c, euid);
    LaterStayRetired(pre, post, lease, c, euid);
  }

  lemma RetirementSpares(pre: Fs, before: Fs, after: Fs, lease: seq<Marker>, c: nat)
    requires c < |lease| && DistinctSlots(lease)
    requires SameDestinations(pre, before, lease) && Frame(pre, before, SlotsOf(lease))
    requires MarkerRetired(before, after, lease[c].slot)
    ensures SameDestinations(pre, after, lease) && Frame(pre, after, SlotsOf(lease))
  {
    assert lease[c] in lease;
    RetirementFrame(pre, before, after, SlotsOf(lease), lease[c].slot);
    RetirementKeepsDestinations(before, after, lease, c);
  }

  /** retire_worker_directory_authority: newest evidence first, so that an interruption
      leaves the active markers a prefix of the creation order. */
  method RetireLease(disk: Disk, lease: seq<Marker>, euid: Uid) returns (r: Io<()>)
    modifies disk
    ensures KeepsTree(old(disk.fs), disk.fs)
    ensures LiveLease(old(disk.fs), lease, euid) ==>
      && (exists c :: CutAt(disk.fs, lease, c, euid))
      && (r.Done? ==> CutAt(disk.fs, lease, 0, euid))
      && SameDestinations(old(disk.fs), disk.fs, lease)
      && Frame(old(disk.fs), disk.fs, SlotsOf(lease))
    ensures LiveLease(old(disk.fs), lease, euid) ==> disk.fs.Keys == old(disk.fs).Keys
    ensures disk.faultFree && LiveLease(old(disk.fs), lease, euid) ==> r.Done?
  {
    hide Tree;
    ghost var pre := disk.fs;
    ghost var live := LiveLease(pre, lease, euid);
    var i := |lease|;
    while i > 0
      invariant 0 <= i <= |lease|
      invariant live ==> CutAt(disk.fs, lease, i, euid)
      invariant live ==> SameDestinations(pre, disk.fs, lease) && Frame(pre, disk.fs, SlotsOf(lease))
      invariant live ==> disk.fs.Keys == pre.Keys
      invariant KeepsTree(pre, disk.fs)
    {
      r := RetireNext(disk, pre, lease, i, live, euid);
      if !r.Done? {
        return;
      }
      i := i - 1;
    }
    return Done(());
  }

  /** One turn of that loop. */
  method RetireNext(disk: Disk, ghost pre: Fs, lease: seq<Marker>, c: nat, ghost live: bool, euid: Uid)
    returns (r: Io<()>)
    requires 0 < c <= |lease|
    requires live ==> DistinctSlots(lease) && CutAt(disk.fs, lease, c, euid)
    requires live ==> SameDestinations(pre, disk.fs, lease) && Frame(pre, disk.fs, SlotsOf(lease))
    modifies disk
    ensures KeepsTree(old(disk.fs), disk.fs)
    ensures live ==> SameDestinations(pre, disk.fs, lease) && Frame(pre, disk.fs, SlotsOf(lease))
    ensures live ==> disk.fs == old(disk.fs) || CutAt(disk.fs, lease, c - 1, euid)
    ensures live ==> disk.fs.Keys == old(disk.fs).Keys
    ensures r.Done? ==> disk.fs != old(disk.fs)
    ensures disk.faultFree && live ==> r.Done?
  {
    hide Tree;
    ghost var before := disk.fs;
    assert live ==> StillActive(before, lease[c - 1], euid);
    r := RetireMarker(disk, lease[c - 1], euid);
    if live && disk.fs != before {
      NextRetirement(before, disk.fs, lease, c, euid);
      RetirementSpares(pre, before, disk.fs, lease, c - 1);
    }
  }
}
