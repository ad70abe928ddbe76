/** When a second creation succeeds. Without faults a layout can be created again exactly if
    all its evidence was retired, unless its creator made support directories for another
    user: those are no acceptable ancestors for the creator any more.

    As in module WorkerLayout, `P(x) == true` in a precondition is `P(x)`. */
module WorkerUndisturbed {
  import opened Wrappers
  import opened WorkerFs
  import opened WorkerTree
  import opened WorkerDisk
  import opened WorkerNode
  import opened WorkerRetirement
  import opened WorkerRoot
  import opened WorkerLayout
  import opened WorkerRerun

  // ---------------------------------------------------------------- what is open is not pending

  lemma {:induction false} OpenIsNotPending(fs: Fs, d: Ino, components: seq<Leaf>, euid: Uid, worker: Uid)
    requires LayoutOpen(fs, d, components, euid, worker)
    ensures !LayoutPending(fs, d, components)
    decreases |components|
  {
    if PhaseOf(fs, OwnSlot(d, components[0])) != Nothing {
      if |components| == 1 {
        forall j | 0 <= j < |CHILD_NAMES|
          ensures !Pending(fs, ChildSlot(d, Below(fs, d, components), j))
        {
          assert Openable(fs, ChildSlot(d, Below(fs, d, components), j), euid, worker, true);
        }
      } else {
        OpenIsNotPending(fs, Below(fs, d, components), components[1..], euid, worker);
      }
    }
  }

  /** An open layout is open from every point of the way. */
  lemma {:induction false} OpenFromThere(fs: Fs, d: Ino, components: seq<Leaf>, at: Ino, rest: seq<Leaf>, euid: Uid,
      worker: Uid)
    requires Via(fs, d, components, at, rest) && LayoutOpen(fs, d, components, euid, worker)
    ensures LayoutOpen(fs, at, rest, euid, worker)
    decreases |components|
  {
    if !(at == d && rest == components) {
      OpenFromThere(fs, Below(fs, d, components), components[1..], at, rest, euid, worker);
    }
  }

  // ---------------------------------------------------------------- directories have one name

  ghost predicate PlainlyNamed(fs: Fs, d: Ino) {
    exists p, leaf :: Look(fs, p, Plain(leaf)) == Some(d)
  }

  /** Of the directories that existed, the slots of `touched` work in `here` and in
      directories with an ordinary name only. */
  ghost predicate WorksPlainly(fs: Fs, touched: set<Slot>, here: Ino) {
    forall t :: t in touched ==> PlainOrNew(fs, t.staging, here) && PlainOrNew(fs, t.dest, here)
  }

  ghost predicate PlainOrNew(fs: Fs, d: Ino, here: Ino) {
    d == here || d !in fs || PlainlyNamed(fs, d)
  }

  lemma WorksPlainlyAnywhere(fs: Fs, touched: set<Slot>, here: Ino, there: Ino)
    requires WorksPlainly(fs, touched, here) && PlainlyNamed(fs, here)
    ensures WorksPlainly(fs, touched, there)
  {
    hide PlainlyNamed;
  }

  /** The directory of a retired marker has a reserved name, and holds a record only. */
  lemma MarkerIsElsewhere(fs: Fs, x: Slot, d: Ino, euid: Uid, worker: Uid, canonical: bool)
    requires Reopenable(fs, x, euid, worker, canonical) && RetiredMarker(fs, x).Some? && OneName(fs)
    requires PlainOrNew(fs, d, x.dest)
    ensures d != RetiredMarker(fs, x).value
  {
    var m := RetiredMarker(fs, x).value;
    assert Plain(x.leaf) in fs[x.dest].children;
    if d != x.dest && d in fs {
      var p, leaf :| Look(fs, p, Plain(leaf)) == Some(d);
      assert Look(fs, x.staging, Retired(x.dest, x.leaf)) == Some(m);
    }
  }

  /** A node stays reopenable whoever works where it is, in new directories, or in
      directories with an ordinary name. */
  lemma NodeStaysOpen(pre: Fs, post: Fs, touched: set<Slot>, x: Slot, euid: Uid, worker: Uid, canonical: bool)
    requires Frame(pre, post, touched) && SameNames(pre, post, x) && Reopenable(pre, x, euid, worker, canonical)
    requires OneName(pre) && WorksPlainly(pre, touched, x.dest)
    ensures Reopenable(post, x, euid, worker, canonical)
  {
    hide KeepsNames, KeepsInodes, OneName, Reopenable, PlainOrNew;
    if RetiredMarker(pre, x).Some? {
      forall t | t in touched
        ensures RetiredMarker(pre, x).value != t.staging && RetiredMarker(pre, x).value != t.dest
      {
        MarkerIsElsewhere(pre, x, t.staging, euid, worker, canonical);
        MarkerIsElsewhere(pre, x, t.dest, euid, worker, canonical);
      }
    }
    ReopenableKept(pre, post, touched, x, euid, worker, canonical);
  }

  lemma {:induction false} EndIsNamed(fs: Fs, d: Ino, components: seq<Leaf>, at: Ino, rest: seq<Leaf>)
    requires Via(fs, d, components, at, rest) && !(at == d && rest == components)
    ensures PlainlyNamed(fs, at)
    decreases |components|
  {
    var next := Below(fs, d, components);
    if at == next && rest == components[1..] {
      assert Look(fs, d, Plain(components[0])) == Some(next);
    } else {
      EndIsNamed(fs, next, components[1..], at, rest);
    }
  }

  /** Work at the end of the way leaves the way open. */
  lemma {:induction false} WayStaysOpen(pre: Fs, post: Fs, touched: set<Slot>, d: Ino, components: seq<Leaf>, at: Ino,
      rest: seq<Leaf>, depth: Ino -> nat, euid: Uid, worker: Uid)
    requires Via(pre, d, components, at, rest) && Deeper(pre, depth) && IsDirectory(pre, at) && OneName(pre)
    requires Frame(pre, post, touched) && Aside(pre, touched, depth, at) && WorksPlainly(pre, touched, at)
    requires LayoutOpen(pre, d, components, euid, worker) && LayoutOpen(post, at, rest, euid, worker)
    ensures LayoutOpen(post, d, components, euid, worker)
    decreases |components|
  {
    hide KeepsNames, KeepsInodes, OneName, WorksPlainly, Reopenable, Aside, Deeper, PlainlyNamed;
    if !(at == d && rest == components) {
      ViaDeeper(pre, d, components, at, rest, depth);
      EndIsNamed(pre, d, components, at, rest);
      WorksPlainlyAnywhere(pre, touched, at, d);
      AsideKeepsNode(pre, post, touched, OwnSlot(d, components[0]), at, depth);
      NodeStaysOpen(pre, post, touched, OwnSlot(d, components[0]), euid, worker, false);
      WayStaysOpen(pre, post, touched, Below(pre, d, components), components[1..], at, rest, depth, euid, worker);
    }
  }

  // ---------------------------------------------------------------- retired nodes are reopenable

  /** A retirement leaves the directories of the markers as they were. */
  lemma RetiredMarkerHolds(fs: Fs, post: Fs, lease: seq<Marker>, j: nat, euid: Uid)
    requires LiveLease(fs, lease, euid) && RetiredTo(fs, post, lease, 0, euid) && j < |lease|
    ensures HoldsMarker(post, lease[j], Retired(lease[j].slot.dest, lease[j].slot.leaf), euid)
  {
    hide PhaseOf, KeepsNames;
    assert StillActive(fs, lease[j], euid) && NowRetired(post, lease[j]);
    NobodyWorksInMarkers(fs, lease, j, euid);
    ContentsKept(fs, post, SlotsOf(lease), lease[j].directory);
  }

  lemma NobodyWorksInMarkers(fs: Fs, lease: seq<Marker>, j: nat, euid: Uid)
    requires LiveLease(fs, lease, euid) && j < |lease|
    ensures Apart(SlotsOf(lease), lease[j].directory)
  {
    hide PhaseOf;
    assert StillActive(fs, lease[j], euid);
    forall t | t in SlotsOf(lease)
      ensures lease[j].directory != t.staging && lease[j].directory != t.dest
    {
      var k :| k in lease && k.slot == t;
      var i :| 0 <= i < |lease| && lease[i] == k;
      LiveDirectoriesHoldNames(fs, lease[i], euid);
    }
  }

  lemma LiveDirectoriesHoldNames(fs: Fs, k: Marker, euid: Uid)
    requires StillActive(fs, k, euid)
    ensures Look(fs, k.slot.staging, Active(k.slot.dest, k.slot.leaf)).Some?
    ensures Look(fs, k.slot.dest, Plain(k.slot.leaf)).Some?
  {
  }

  /** A node of a completely retired lease is reopenable, if its directory is acceptable. */
  lemma LeaseNodeReopens(fs: Fs, post: Fs, lease: seq<Marker>, k: Marker, i: Ino, euid: Uid, worker: Uid,
      canonical: bool)
    requires LiveLease(fs, lease, euid) && RetiredTo(fs, post, lease, 0, euid) && k in lease
    requires k == MarkerFor(k.slot, i, k.directory, k.file, worker) && Destination(fs, k.slot) == Some(i)
    requires SecureDirectory(fs, i, worker)
    ensures PhaseOf(post, k.slot) == Settled && Destination(post, k.slot) == Some(i)
    ensures Reopenable(post, k.slot, euid, worker, canonical) <==> canonical || euid == worker
  {
    hide HoldsMarker, Frame, KeepsNames;
    var j :| 0 <= j < |lease| && lease[j] == k;
    RetiredMarkerHolds(fs, post, lease, j, euid);
    assert Destination(post, lease[j].slot) == Destination(fs, lease[j].slot);
    assert NowRetired(post, lease[j]);
    assert SecureDirectory(post, i, worker) by { SecureStays(fs, post, SlotsOf(lease), i, worker); }
    ExactWhenHeld(post, k, i, euid, worker);
  }

  lemma SecureStays(fs: Fs, post: Fs, touched: set<Slot>, i: Ino, worker: Uid)
    requires Frame(fs, post, touched) && SecureDirectory(fs, i, worker)
    ensures SecureDirectory(post, i, worker)
  {
  }

  lemma ExactWhenHeld(fs: Fs, k: Marker, i: Ino, euid: Uid, worker: Uid)
    requires HoldsMarker(fs, k, Retired(k.slot.dest, k.slot.leaf), euid)
    requires k == MarkerFor(k.slot, i, k.directory, k.file, worker)
    ensures ExactMarker(fs, k.slot, Retired(k.slot.dest, k.slot.leaf), i, euid, worker) == Some(k)
  {
    assert RecordFile in fs[k.directory].children;
  }

  // ---------------------------------------------------------------- a new root

  lemma NewKidsReopen(fs: Fs, post: Fs, p: Ino, root: Ino, kids: seq<Opened>, lease: seq<Marker>, euid: Uid,
      worker: Uid)
    requires AllCreatedHere(fs, p, root, kids, euid) && KidsVouched(fs, p, root, kids, worker)
    requires LiveLease(fs, lease, euid) && RetiredTo(fs, post, lease, 0, euid)
    requires forall k :: k in Retained(kids) ==> k in lease
    ensures AllOpenable(post, p, root, euid, worker)
  {
    hide StillActive, LiveLease, RetiredTo, Reopenable;
    forall j | 0 <= j < |CHILD_NAMES|
      ensures Openable(post, ChildSlot(p, root, j), euid, worker, true)
    {
      assert CreatedHere(fs, ChildSlot(p, root, j), kids[j], euid);
      assert Vouched(ChildSlot(p, root, j), kids[j], worker) && SecureDirectory(fs, kids[j].ino, worker);
      RetainedHas(kids, j);
      LeaseNodeReopens(fs, post, lease, kids[j].marker.value, kids[j].ino, euid, worker, true);
    }
  }

  lemma LinkReopens(pre: Fs, fs: Fs, post: Fs, names: seq<Leaf>, ch: Chain, kids: seq<Opened>, lease: seq<Marker>,
      k: nat, canonical: bool, euid: Uid, worker: Uid)
    requires Linked(pre, fs, names, ch, euid) && |ch.made| == |names| && k < |ch.made|
    requires Sealed(fs, names, ch, kids, euid, worker)
    requires LiveLease(fs, lease, euid) && RetiredTo(fs, post, lease, 0, euid)
    requires forall m :: m in ch.markers ==> m in lease
    ensures var x := OwnSlot(ch.Holder(k), names[k]);
      && PhaseOf(post, x) == Settled && Destination(post, x) == Some(ch.Holder(k + 1))
      && (Reopenable(post, x, euid, worker, canonical) <==> canonical || euid == worker)
  {
    hide StillActive, LiveLease, RetiredTo, Reopenable, PhaseOf;
    assert Link(pre, fs, names, ch, k, euid) && LinkVouched(fs, names, ch, k, euid, worker);
    assert ch.markers[k] in ch.markers;
    LeaseNodeReopens(fs, post, lease, ch.markers[k], ch.made[k], euid, worker, canonical);
  }

  lemma {:induction false} ChainReopens(pre: Fs, fs: Fs, post: Fs, names: seq<Leaf>, ch: Chain, kids: seq<Opened>,
      lease: seq<Marker>, k: nat, euid: Uid, worker: Uid)
    requires Linked(pre, fs, names, ch, euid) && |ch.made| == |names| && k < |ch.made|
    requires Sealed(fs, names, ch, kids, euid, worker) && (euid == worker || |ch.made| == 1)
    requires LiveLease(fs, lease, euid) && RetiredTo(fs, post, lease, 0, euid)
    requires forall m :: m in ch.markers ==> m in lease
    requires AllOpenable(post, ch.Holder(|ch.made| - 1), ch.Tail(), euid, worker)
    ensures LayoutOpen(post, ch.Holder(k), names[k..], euid, worker)
    decreases |ch.made| - k
  {
    hide Linked, Sealed, LiveLease, RetiredTo, Reopenable, AllOpenable;
    LinkReopens(pre, fs, post, names, ch, kids, lease, k, k + 1 == |ch.made|, euid, worker);
    ReopenableIsPassable(post, OwnSlot(ch.Holder(k), names[k]), euid, worker, k + 1 == |ch.made|);
    if k + 1 < |ch.made| {
      ChainReopens(pre, fs, post, names, ch, kids, lease, k + 1, euid, worker);
      assert names[k..][1..] == names[k + 1..];
    }
  }

  /** After a complete retirement a new chain can be walked again, unless it has support
      directories that its creator made for another user. */
  lemma FreshReopensIff(pre: Fs, fs: Fs, post: Fs, d: Ino, components: seq<Leaf>, names: seq<Leaf>, ch: Chain,
      kids: seq<Opened>, touched: set<Slot>, euid: Uid, worker: Uid)
    requires Fresh(pre, fs, d, components, names, ch, kids, touched, euid) == true
      && Sealed(fs, names, ch, kids, euid, worker)
    requires Hierarchical(pre) && OneName(pre) && Frame(pre, post, touched)
    requires LayoutOpen(pre, d, components, euid, worker)
    requires var lease := ch.markers + Retained(kids);
      LiveLease(fs, lease, euid) && RetiredTo(fs, post, lease, 0, euid)
    ensures LayoutOpen(post, d, components, euid, worker) <==> euid == worker || |ch.made| == 1
  {
    hide Via, LayoutOpen, LayoutStanding, LayoutSound, NoClash, Steps, Linked, AllCreatedHere, LiveLease, RetiredTo,
      KeepsNames, KeepsInodes, OneName, KidsVouched, ChainVouched, HandedUpTo, PhaseOf, Reopenable, ChildrenWereNothing,
      Deeper;
    var depth :| Deeper(pre, depth);
    var lease := ch.markers + Retained(kids);
    StartIsDirectory(pre, fs, names, ch, euid);
    ViaKept(pre, post, touched, d, components, ch.start, names, depth);
    if euid == worker || |ch.made| == 1 {
      NewKidsReopen(fs, post, ch.Holder(|ch.made| - 1), ch.Tail(), kids, lease, euid, worker);
      ChainReopens(pre, fs, post, names, ch, kids, lease, 0, euid, worker);
      assert names[0..] == names;
      WayStaysOpen(pre, post, touched, d, components, ch.start, names, depth, euid, worker);
    } else if LayoutOpen(post, d, components, euid, worker) {
      OpenFromThere(post, d, components, ch.start, names, euid, worker);
      LinkReopens(pre, fs, post, names, ch, kids, lease, 0, false, euid, worker);
      FirstIsReopenable(post, ch.start, names, euid, worker);
    }
  }

  lemma StartIsDirectory(pre: Fs, fs: Fs, names: seq<Leaf>, ch: Chain, euid: Uid)
    requires Linked(pre, fs, names, ch, euid)
    ensures IsDirectory(pre, ch.start) && |ch.markers| == |ch.made|
  {
  }

  lemma FirstIsReopenable(fs: Fs, d: Ino, components: seq<Leaf>, euid: Uid, worker: Uid)
    requires LayoutOpen(fs, d, components, euid, worker) && PhaseOf(fs, OwnSlot(d, components[0])) != Nothing
    ensures Reopenable(fs, OwnSlot(d, components[0]), euid, worker, |components| == 1)
  {
  }

  // ---------------------------------------------------------------- a root that existed

  lemma UnmarkedIsNotInLease(fs: Fs, p: Ino, root: Ino, kids: seq<Opened>, j: nat, euid: Uid)
    requires KidsLive(fs, p, root, kids, euid) && j < |kids| && kids[j].marker == None
    ensures ChildSlot(p, root, j) !in SlotsOf(Retained(kids))
  {
    hide StillActive;
    if ChildSlot(p, root, j) in SlotsOf(Retained(kids)) {
      var k :| k in Retained(kids) && k.slot == ChildSlot(p, root, j);
      RetainedIsSome(kids, k);
      var i :| 0 <= i < |kids| && kids[i].marker == Some(k);
      ChildSlotsComparable(p, root, i, j);
    }
  }

  /** A child that was reopened or created can be reopened after the retirement. */
  lemma OpenedKidReopens(pre: Fs, fs: Fs, post: Fs, p: Ino, root: Ino, kids: seq<Opened>, j: nat, euid: Uid,
      worker: Uid)
    requires |kids| == |CHILD_NAMES| && ChildrenSoFar(pre, fs, p, root, kids, euid, worker)
      && AllOpenedAlone(pre, p, root, kids)
    requires LiveLease(fs, Retained(kids), euid) && RetiredTo(fs, post, Retained(kids), 0, euid)
    requires SlotsOf(Retained(kids)) <= ChildSlots(p, root) && KidsLive(fs, p, root, kids, euid) && j < |kids|
      && p != root
    ensures Openable(post, ChildSlot(p, root, j), euid, worker, true)
  {
    hide StillActive, LiveLease, KidsLive, KeepsNames, KeepsInodes, Reopenable, CutAt, SameDestinations, PhaseOf;
    var x, o, lease := ChildSlot(p, root, j), kids[j], Retained(kids);
    assert ChildHeld(pre, fs, x, o, euid, worker) && OpenedAlone(pre, x, o);
    if o.marker.Some? {
      RetainedHas(kids, j);
      LeaseNodeReopens(fs, post, lease, o.marker.value, o.ino, euid, worker, true);
    } else {
      UnmarkedIsNotInLease(fs, p, root, kids, j, euid);
      FrameKeepsPhase(fs, post, SlotsOf(lease), x);
      if RetiredMarker(fs, x).Some? {
        MarkersStandApart(fs, SlotsOf(lease), x, euid, worker, true);
      }
      ReopenableKept(fs, post, SlotsOf(lease), x, euid, worker, true);
    }
  }

  lemma RootStaysOpen(pre: Fs, post: Fs, touched: set<Slot>, at: Ino, leaf: Leaf, root: Ino, depth: Ino -> nat,
      euid: Uid, worker: Uid)
    requires Deeper(pre, depth) && IsDirectory(pre, root) && Look(pre, at, Plain(leaf)) == Some(root) && OneName(pre)
    requires touched == ChildSlots(at, root) && Frame(pre, post, touched)
    requires Reopenable(pre, OwnSlot(at, leaf), euid, worker, true)
    ensures WorksPlainly(pre, touched, at) && Reopenable(post, OwnSlot(at, leaf), euid, worker, true)
    ensures Destination(post, OwnSlot(at, leaf)) == Some(root)
  {
    hide KeepsNames, KeepsInodes, Reopenable, OneName, Deeper;
    ReopenableIsPassable(pre, OwnSlot(at, leaf), euid, worker, true);
    ChildrenAside(pre, at, leaf, root, depth);
    AsideKeepsNode(pre, post, touched, OwnSlot(at, leaf), at, depth);
    assert PlainlyNamed(pre, root);
    NodeStaysOpen(pre, post, touched, OwnSlot(at, leaf), euid, worker, true);
  }

  lemma ExtendedReopens(pre: Fs, fs: Fs, post: Fs, d: Ino, components: seq<Leaf>, at: Ino, leaf: Leaf, root: Ino,
      kids: seq<Opened>, touched: set<Slot>, euid: Uid, worker: Uid)
    requires Extended(pre, fs, d, components, at, leaf, root, kids, touched, euid, worker) == true
    requires Hierarchical(pre) && OneName(pre) && Frame(pre, post, touched)
    requires LayoutOpen(pre, d, components, euid, worker)
    requires LiveLease(fs, Retained(kids), euid) && RetiredTo(fs, post, Retained(kids), 0, euid)
    requires SlotsOf(Retained(kids)) <= touched
    ensures LayoutOpen(post, d, components, euid, worker)
  {
    hide Via, LayoutOpen, LayoutStanding, LayoutSound, NoClash, Steps, LiveLease, RetiredTo, KeepsNames, KeepsInodes,
      OneName, AllOpenedAlone, ChildrenSoFar, PhaseOf, Reopenable, Openable, Deeper, ChildSlots, KidsLive;
    var depth :| Deeper(pre, depth);
    OpenFromThere(pre, d, components, at, [leaf], euid, worker);
    PassableHasBegun(pre, OwnSlot(at, leaf));
    FirstIsReopenable(pre, at, [leaf], euid, worker);
    RootStaysOpen(pre, post, touched, at, leaf, root, depth, euid, worker);
    NoDirectoryInItself(pre, at, Plain(leaf));
    OpenedKidsLive(pre, fs, at, root, kids, euid, worker);
    forall j | 0 <= j < |CHILD_NAMES|
      ensures Openable(post, ChildSlot(at, root, j), euid, worker, true)
    {
      OpenedKidReopens(pre, fs, post, at, root, kids, j, euid, worker);
    }
    EndIsOpenIff(post, at, leaf, euid, worker);
    ReopenableIsPassable(post, OwnSlot(at, leaf), euid, worker, true);
    ChildrenAside(pre, at, leaf, root, depth);
    WayStaysOpen(pre, post, touched, d, components, at, [leaf], depth, euid, worker);
  }

  lemma PassableHasBegun(fs: Fs, t: Slot)
    requires Passable(fs, t)
    ensures PhaseOf(fs, t) != Nothing
  {
  }

  // ---------------------------------------------------------------- the theorem

  /** The directory of the root was there before: no support had to be made. */
  predicate ParentExisted(fs: Fs, d: Ino, components: seq<Leaf>)
    requires components != []
  {
    Resolve(fs, d, components[..|components| - 1]).Some?
  }

  lemma {:induction false} ParentFromThere(fs: Fs, d: Ino, components: seq<Leaf>, at: Ino, rest: seq<Leaf>)
    requires Via(fs, d, components, at, rest) && components != [] && rest != []
    ensures ParentExisted(fs, d, components) <==> ParentExisted(fs, at, rest)
    decreases |components|
  {
    if !(at == d && rest == components) {
      ParentFromThere(fs, Below(fs, d, components), components[1..], at, rest);
      assert components[1..][..|components| - 2] == components[..|components| - 1][1..];
    }
  }

  /** A chain of one directory is the root alone. */
  lemma NoSupportMadeIff(pre: Fs, fs: Fs, d: Ino, components: seq<Leaf>, made: Creation, names: seq<Leaf>, ch: Chain,
      touched: set<Slot>, euid: Uid, worker: Uid)
    requires LayoutMade(pre, fs, d, components, made, names, ch, touched, euid, worker) == true && components != []
    ensures |ch.made| <= 1 <==> ParentExisted(pre, d, components)
  {
    hide Steps, Linked, AllCreatedHere, NoClash, AllNew, Via, ChildrenSoFar, AllOpenedAlone, WorksFrom,
      ChildrenWereNothing;
    if !made.root.created {
      assert names == [names[0]];
    }
    ParentFromThere(pre, d, components, ch.start, names);
    if made.root.created && |names| > 1 {
      assert names[..|names| - 1][0] == names[0];
      assert Look(pre, ch.start, Plain(names[0])) == None;
    }
  }

  /** Retirement may stop anywhere. Afterwards the layout is open to its creator exactly if
      every marker was retired and no support directory was made for another user. */
  lemma ReopensIff(pre: Fs, fs: Fs, post: Fs, d: Ino, components: seq<Leaf>, made: Creation, names: seq<Leaf>,
      ch: Chain, touched: set<Slot>, c: nat, euid: Uid, worker: Uid)
    requires LayoutMade(pre, fs, d, components, made, names, ch, touched, euid, worker) == true
    requires made.root.created ==> Sealed(fs, names, ch, made.children, euid, worker)
    requires Hierarchical(pre) && OneName(pre) && LayoutOpen(pre, d, components, euid, worker)
    requires RetiredTo(fs, post, made.lease, c, euid)
    ensures LayoutOpen(post, d, components, euid, worker) <==>
      c == 0 && (euid == worker || ParentExisted(pre, d, components))
  {
    NoSupportMadeIff(pre, fs, d, components, made, names, ch, touched, euid, worker);
    hide LayoutOpen, LayoutPending, Hierarchical, OneName, Sealed, Fresh, Extended, RetiredTo, LiveLease;
    if c > 0 {
      PartlyRetiredIsPending(pre, fs, post, d, components, made, names, ch, touched, c, euid, worker);
      if LayoutOpen(post, d, components, euid, worker) {
        OpenIsNotPending(post, d, components, euid, worker);
      }
    } else {
      CompletelyRetiredReopensIff(pre, fs, post, d, components, made, names, ch, touched, euid, worker);
    }
  }

  lemma CompletelyRetiredReopensIff(pre: Fs, fs: Fs, post: Fs, d: Ino, components: seq<Leaf>, made: Creation,
      names: seq<Leaf>, ch: Chain, touched: set<Slot>, euid: Uid, worker: Uid)
    requires LayoutMade(pre, fs, d, components, made, names, ch, touched, euid, worker) == true
    requires made.root.created ==> Sealed(fs, names, ch, made.children, euid, worker)
    requires Hierarchical(pre) && OneName(pre) && LayoutOpen(pre, d, components, euid, worker)
    requires RetiredTo(fs, post, made.lease, 0, euid)
    ensures LayoutOpen(post, d, components, euid, worker) <==> euid == worker || |ch.made| <= 1
  {
    hide LayoutOpen, Hierarchical, OneName, Sealed, RetiredTo, LiveLease, Steps, FreshPlan, AllCreatedHere,
      AllOpenedAlone, ChildrenSoFar, Linked;
    LeaseIsLive(pre, fs, d, components, made, names, ch, touched, euid, worker);
    RetirementTouches(pre, fs, post, made.lease, 0, touched, euid);
    if made.root.created {
      ChainIsNotEmpty(pre, fs, d, components, names, ch, made.children, touched, euid);
      FreshReopensIff(pre, fs, post, d, components, names, ch, made.children, touched, euid, worker);
    } else {
      assert made.lease == Retained(made.children);
      ExtendedReopens(pre, fs, post, d, components, ch.start, names[0], made.root.ino, made.children, touched, euid,
        worker);
    }
  }

  lemma ChainIsNotEmpty(pre: Fs, fs: Fs, d: Ino, components: seq<Leaf>, names: seq<Leaf>, ch: Chain, kids: seq<Opened>,
      touched: set<Slot>, euid: Uid)
    requires Fresh(pre, fs, d, components, names, ch, kids, touched, euid)
    ensures |ch.made| >= 1
  {
  }

  lemma DirectoriesStay(fs: Fs, post: Fs, touched: set<Slot>, d: Ino)
    requires Frame(fs, post, touched) && IsDirectory(fs, d)
    ensures IsDirectory(post, d)
  {
  }

  // ---------------------------------------------------------------- the runs, call by call

  /** What a rerun may rely on besides the first run: that found the layout open, and its
      record of new directories is true. */
  ghost predicate Remembered(pre: Fs, fs: Fs, d: Ino, components: seq<Leaf>, first: Creation, names: seq<Leaf>,
      ch: Chain, euid: Uid, worker: Uid)
  {
    && LayoutOpen(pre, d, components, euid, worker)
    && (first.root.created ==> Sealed(fs, names, ch, first.children, euid, worker))
  }

  /** A retirement that may stop anywhere, and then the same creation again: if it succeeds
      the retirement was complete and the layout is found unchanged. Without faults it
      succeeds, except for one who made support directories for another user. */
  method RetireThenCreateAgain(disk: Disk, ghost pre: Fs, d: Ino, components: seq<Leaf>, first: Creation,
      ghost names: seq<Leaf>, ghost ch: Chain, ghost touched: set<Slot>, euid: Uid, worker: Uid)
    returns (retired: Io<()>, second: Io<Creation>)
    requires LayoutMade(pre, disk.fs, d, components, first, names, ch, touched, euid, worker) == true
    requires Tree(pre) && Tree(disk.fs) && LayoutSound(pre, d, components) && IsDirectory(disk.fs, d)
      && components != []
    modifies disk
    ensures Tree(disk.fs)
    ensures second.Done? ==>
      && AllRetired(disk.fs, first.lease) && AllExisting(second.value)
      && second.value.root.ino == first.root.ino && |second.value.children| == |first.children|
      && forall j :: 0 <= j < |first.children| ==> second.value.children[j].ino == first.children[j].ino
    ensures disk.faultFree ==> retired.Done?
    ensures disk.faultFree && Remembered(pre, old(disk.fs), d, components, first, names, ch, euid, worker) ==>
      (second.Done? <==> euid == worker || ParentExisted(pre, d, components))
  {
    hide Tree, LayoutMade, LayoutPending, LayoutStanding, LayoutSound, LayoutOpen, Sealed, OneName, Hierarchical,
      HoldsMarker, Frame, SameDestinations, LiveLease, AllRetired, AllExisting;
    ghost var fs := disk.fs;
    TreeMeans(pre);
    LeaseIsLive(pre, fs, d, components, first, names, ch, touched, euid, worker);
    retired := RetireLease(disk, first.lease, euid);
    ghost var post := disk.fs;
    ghost var c :| CutAt(post, first.lease, c, euid) && (retired.Done? ==> c == 0);
    assert IsDirectory(post, d) by { DirectoriesStay(fs, post, SlotsOf(first.lease), d); }
    if c == 0 {
      FullyRetiredStands(pre, fs, post, d, components, first, names, ch, touched, euid, worker);
    }
    if Remembered(pre, fs, d, components, first, names, ch, euid, worker) {
      ReopensIff(pre, fs, post, d, components, first, names, ch, touched, c, euid, worker);
    }
    ghost var names', ch', touched';
    second, names', ch', touched' := CreateBelow(disk, d, components, euid, worker);
    if second.Done? {
      RerunAfterRetirement(pre, fs, d, components, first, names, ch, touched, post, c,
                           disk.fs, second.value, names', ch', touched', euid, worker);
      AllCut(post, first.lease, euid);
    }
  }

  lemma AllCut(post: Fs, lease: seq<Marker>, euid: Uid)
    requires CutAt(post, lease, 0, euid)
    ensures AllRetired(post, lease)
  {
  }

  /** A whole life: a layout is created, its evidence retired, and the layout created again,
      each of which may fail or crash anywhere. A second success found what the first had
      made. Without faults the first creation succeeds on an open layout that stands or has
      nothing orphaned in its way, and on no other; then the retirement succeeds, and the
      second creation does unless its creator made support directories for another user. */
  method CreateTwice(disk: Disk, d: Ino, components: seq<Leaf>, euid: Uid, worker: Uid)
    returns (first: Io<Creation>, retired: Io<()>, second: Io<Creation>)
    requires Tree(disk.fs) && LayoutSound(disk.fs, d, components) && IsDirectory(disk.fs, d) && components != []
    modifies disk
    ensures Tree(disk.fs)
    ensures second.Done? ==>
      && first.Done? && AllRetired(disk.fs, first.value.lease) && AllExisting(second.value)
      && second.value.root.ino == first.value.root.ino && |second.value.children| == |first.value.children|
      && forall j :: 0 <= j < |first.value.children| ==> second.value.children[j].ino == first.value.children[j].ino
    ensures first.Done? ==> LayoutOpen(old(disk.fs), d, components, euid, worker)
    ensures (disk.faultFree && LayoutOpen(old(disk.fs), d, components, euid, worker)
             && (LayoutStanding(old(disk.fs), d, components) || NoOrphans(old(disk.fs)))) ==> first.Done?
    ensures disk.faultFree && first.Done? ==>
      retired.Done? && (second.Done? <==> euid == worker || ParentExisted(old(disk.fs), d, components))
  {
    hide Tree, LayoutMade, LayoutStanding, LayoutSound, LayoutOpen, NoOrphans, Sealed, NoClash, AllRetired, AllExisting;
    ghost var pre := disk.fs;
    ghost var names, ch, touched;
    first, names, ch, touched := CreateBelow(disk, d, components, euid, worker);
    if !first.Done? {
      return first, Failed(Refused), Failed(Refused);
    }
    assert IsDirectory(disk.fs, d) by { DirectoriesStay(pre, disk.fs, touched, d); }
    retired, second :=
      RetireThenCreateAgain(disk, pre, d, components, first.value, names, ch, touched, euid, worker);
  }
}
