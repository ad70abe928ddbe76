/** What a layout looks like to the next run: a creation whose evidence is not all retired
    is refused, and a creation whose evidence is all retired is found again unchanged.

    As in module WorkerLayout, `P(x) == true` in a precondition is `P(x)`. */
module WorkerRerun {
  import opened Wrappers
  import opened WorkerFs
  import opened WorkerTree
  import opened WorkerNode
  import opened WorkerRetirement
  import opened WorkerRoot
  import opened WorkerLayout

  lemma StepsFrame(pre: Fs, post: Fs, touched: set<Slot>)
    requires Steps(pre, post, touched)
    ensures KeepsInodes(pre, post) && Frame(pre, post, touched)
  {
  }

  // ---------------------------------------------------------------- the lease is live

  lemma NewKidsLive(fs: Fs, p: Ino, root: Ino, kids: seq<Opened>, euid: Uid)
    requires AllCreatedHere(fs, p, root, kids, euid)
    ensures KidsLive(fs, p, root, kids, euid)
  {
    hide StillActive;
    forall j | 0 <= j < |kids|
      ensures kids[j].marker.Some? && kids[j].marker.value.slot == ChildSlot(p, root, j)
        && StillActive(fs, kids[j].marker.value, euid)
    {
      assert CreatedHere(fs, ChildSlot(p, root, j), kids[j], euid);
    }
  }

  lemma OpenedKidsLive(pre: Fs, fs: Fs, p: Ino, root: Ino, kids: seq<Opened>, euid: Uid, worker: Uid)
    requires |kids| == |CHILD_NAMES| && ChildrenSoFar(pre, fs, p, root, kids, euid, worker)
      && AllOpenedAlone(pre, p, root, kids)
    ensures KidsLive(fs, p, root, kids, euid)
  {
    hide StillActive;
    forall j | 0 <= j < |kids| && kids[j].marker.Some?
      ensures kids[j].marker.value.slot == ChildSlot(p, root, j) && StillActive(fs, kids[j].marker.value, euid)
    {
      assert ChildHeld(pre, fs, ChildSlot(p, root, j), kids[j], euid, worker);
      assert OpenedAlone(pre, ChildSlot(p, root, j), kids[j]);
    }
  }

  lemma ChainLive(pre: Fs, fs: Fs, names: seq<Leaf>, ch: Chain, euid: Uid)
    requires Linked(pre, fs, names, ch, euid) && KeepsInodes(pre, fs) && 0 < |ch.made|
    ensures LiveLease(fs, ch.markers, euid) && ApartFromChildren(ch.markers, ch.Holder(|ch.made| - 1), ch.Tail())
  {
    hide StillActive, Look;
    forall i | 0 <= i < |ch.markers|
      ensures StillActive(fs, ch.markers[i], euid) && ch.markers[i].slot.dest == ch.Holder(i) != ch.Tail()
    {
      assert Link(pre, fs, names, ch, i, euid);
      HoldersDiffer(pre, fs, names, ch, i, |ch.made|, euid);
    }
    forall i, j | 0 <= i < j < |ch.markers|
      ensures Comparable(ch.markers[i].slot, ch.markers[j].slot)
    {
      ChainSlotsComparable(pre, fs, names, ch, i, j, euid);
    }
  }

  /** Every marker of the lease of a new or extended root is live, oldest first. */
  lemma LeaseIsLive(pre: Fs, fs: Fs, d: Ino, components: seq<Leaf>, made: Creation, names: seq<Leaf>, ch: Chain,
      touched: set<Slot>, euid: Uid, worker: Uid)
    requires LayoutMade(pre, fs, d, components, made, names, ch, touched, euid, worker) == true
    ensures LiveLease(fs, made.lease, euid) && SlotsOf(made.lease) <= touched
  {
    hide StillActive, Linked, Steps, Via, AllCreatedHere, ChildrenSoFar, AllOpenedAlone;
    var kids, first := made.children, ch.markers;
    assert KeepsInodes(pre, fs) by { StepsFrame(pre, fs, touched); }
    var p, root := if made.root.created then ch.Holder(|ch.made| - 1) else ch.start, made.root.ino;
    if made.root.created {
      NewKidsLive(fs, p, root, kids, euid);
      ChainLive(pre, fs, names, ch, euid);
    } else {
      OpenedKidsLive(pre, fs, p, root, kids, euid, worker);
    }
    RetainedLive(fs, first, p, root, kids, |kids|, euid);
    assert kids[..|kids|] == kids;
    forall t | t in SlotsOf(made.lease)
      ensures t in touched
    {
      var k :| k in made.lease && k.slot == t;
      var i :| 0 <= i < |made.lease| && made.lease[i] == k;
      if i < |first| {
        assert first[i] in first && first[i].slot in SlotsOf(first);
      } else {
        assert IsChildSlot(made.lease[i].slot, p, root, |kids|);
        assert t in ChildSlots(p, root);
      }
    }
  }

  lemma ChainWasNothing(pre: Fs, fs: Fs, names: seq<Leaf>, ch: Chain, k: nat, euid: Uid)
    requires Linked(pre, fs, names, ch, euid) && k < |ch.made| && PhaseOf(pre, OwnSlot(ch.start, names[0])) == Nothing
    ensures PhaseOf(pre, ch.markers[k].slot) == Nothing
  {
    hide StillActive;
    assert Link(pre, fs, names, ch, k, euid);
    if k > 0 {
      assert Link(pre, fs, names, ch, k - 1, euid);
    }
  }

  lemma OpenedWasNothing(pre: Fs, fs: Fs, p: Ino, root: Ino, kids: seq<Opened>, j: nat, euid: Uid, worker: Uid)
    requires |kids| == |CHILD_NAMES| && ChildrenSoFar(pre, fs, p, root, kids, euid, worker)
      && AllOpenedAlone(pre, p, root, kids)
    requires j < |kids| && kids[j].marker.Some?
    ensures PhaseOf(pre, ChildSlot(p, root, j)) == Nothing && kids[j].marker.value.slot == ChildSlot(p, root, j)
  {
    hide StillActive;
    assert ChildHeld(pre, fs, ChildSlot(p, root, j), kids[j], euid, worker);
    assert OpenedAlone(pre, ChildSlot(p, root, j), kids[j]);
  }

  lemma {:induction false} RetainedIsSome(kids: seq<Opened>, k: Marker)
    requires k in Retained(kids)
    ensures exists j :: 0 <= j < |kids| && kids[j].marker == Some(k)
  {
    if k in Retained(kids[..|kids| - 1]) {
      RetainedIsSome(kids[..|kids| - 1], k);
      var j :| 0 <= j < |kids| - 1 && kids[..|kids| - 1][j].marker == Some(k);
      assert kids[j].marker == Some(k);
    } else {
      assert kids[|kids| - 1].marker == Some(k);
    }
  }

  /** Every node of the lease had left no trace before, and is published now: the lease is
      the one right to claim these creations. */
  lemma LeaseWasNothing(pre: Fs, fs: Fs, d: Ino, components: seq<Leaf>, made: Creation, names: seq<Leaf>, ch: Chain,
      touched: set<Slot>, euid: Uid, worker: Uid, k: Marker)
    requires LayoutMade(pre, fs, d, components, made, names, ch, touched, euid, worker) == true && k in made.lease
    ensures PhaseOf(pre, k.slot) == Nothing && PhaseOf(fs, k.slot) == Published && k.slot in touched
  {
    hide Linked, Steps, Via, AllCreatedHere, ChildrenSoFar, AllOpenedAlone, PhaseOf, HoldsMarker, NoClash, AllNew;
    LeaseIsLive(pre, fs, d, components, made, names, ch, touched, euid, worker);
    assert k.slot in SlotsOf(made.lease);
    var i :| 0 <= i < |made.lease| && made.lease[i] == k;
    assert StillActive(fs, made.lease[i], euid);
    if i < |ch.markers| {
      ChainHasMarkers(pre, fs, names, ch, euid);
      ChainWasNothing(pre, fs, names, ch, i, euid);
    } else {
      assert k == Retained(made.children)[i - |ch.markers|];
      RetainedIsSome(made.children, k);
      var j :| 0 <= j < |made.children| && made.children[j].marker == Some(k);
      if made.root.created {
        NewKidsLive(fs, ch.Holder(|ch.made| - 1), ch.Tail(), made.children, euid);
      } else {
        OpenedWasNothing(pre, fs, ch.start, made.root.ino, made.children, j, euid, worker);
      }
    }
  }

  // ---------------------------------------------------------------- what a creation reports

  /** The reported root and children are what their paths lead to. */
  ghost predicate Reported(fs: Fs, d: Ino, components: seq<Leaf>, root: Ino, kids: seq<Opened>) {
    && Resolve(fs, d, components) == Some(root) && |kids| == |CHILD_NAMES|
    && forall j :: 0 <= j < |kids| ==> Look(fs, root, Plain(CHILD_NAMES[j])) == Some(kids[j].ino)
  }

  lemma {:induction false} ChainResolves(pre: Fs, fs: Fs, names: seq<Leaf>, ch: Chain, k: nat, euid: Uid)
    requires Linked(pre, fs, names, ch, euid) && |ch.made| == |names| && k <= |ch.made|
    ensures Resolve(fs, ch.Holder(k), names[k..]) == Some(ch.Tail())
    decreases |ch.made| - k
  {
    hide StillActive;
    if k < |ch.made| {
      assert Link(pre, fs, names, ch, k, euid);
      ChainResolves(pre, fs, names, ch, k + 1, euid);
      assert names[k..][1..] == names[k + 1..];
    }
  }

  lemma FreshReports(pre: Fs, fs: Fs, d: Ino, components: seq<Leaf>, names: seq<Leaf>, ch: Chain, kids: seq<Opened>,
      touched: set<Slot>, euid: Uid)
    requires Fresh(pre, fs, d, components, names, ch, kids, touched, euid) == true && Hierarchical(pre)
    ensures Reported(fs, d, components, ch.Tail(), kids)
  {
    hide StillActive, Via, LayoutPending, LayoutStanding, LayoutSound, NoClash, Deeper, PhaseOf;
    var depth :| Deeper(pre, depth);
    StepsFrame(pre, fs, touched);
    ViaKept(pre, fs, touched, d, components, ch.start, names, depth);
    ViaCarries(fs, d, components, ch.start, names);
    ChainResolves(pre, fs, names, ch, 0, euid);
    assert names[0..] == names;
    forall j | 0 <= j < |kids|
      ensures Look(fs, ch.Tail(), Plain(CHILD_NAMES[j])) == Some(kids[j].ino)
    {
      assert CreatedHere(fs, ChildSlot(ch.Holder(|ch.made| - 1), ch.Tail(), j), kids[j], euid);
    }
  }

  /** The slots of the children of a root are off the way to that root. */
  lemma ChildrenAside(pre: Fs, at: Ino, leaf: Leaf, root: Ino, depth: Ino -> nat)
    requires Deeper(pre, depth) && IsDirectory(pre, root) && Look(pre, at, Plain(leaf)) == Some(root)
    ensures Aside(pre, ChildSlots(at, root), depth, at) && depth(root) > depth(at)
  {
  }

  lemma ExtendedReports(pre: Fs, fs: Fs, d: Ino, components: seq<Leaf>, at: Ino, leaf: Leaf, root: Ino,
      kids: seq<Opened>, touched: set<Slot>, euid: Uid, worker: Uid)
    requires Extended(pre, fs, d, components, at, leaf, root, kids, touched, euid, worker) == true
    requires fs == pre || Hierarchical(pre)
    ensures Reported(fs, d, components, root, kids)
    ensures Via(fs, d, components, at, [leaf]) && Passable(fs, OwnSlot(at, leaf)) && Below(fs, at, [leaf]) == root
  {
    hide StillActive, Via, LayoutPending, LayoutStanding, LayoutSound, NoClash, Deeper, PhaseOf, AllOpenedAlone,
      ChildSlots;
    if fs != pre {
      var depth :| Deeper(pre, depth);
      StepsFrame(pre, fs, touched);
      ChildrenAside(pre, at, leaf, root, depth);
      ViaKept(pre, fs, touched, d, components, at, [leaf], depth);
      AsideKeepsNode(pre, fs, touched, OwnSlot(at, leaf), at, depth);
    }
    ViaCarries(fs, d, components, at, [leaf]);
    forall j | 0 <= j < |kids|
      ensures Look(fs, root, Plain(CHILD_NAMES[j])) == Some(kids[j].ino)
    {
      assert ChildHeld(pre, fs, ChildSlot(at, root, j), kids[j], euid, worker);
    }
  }

  /** Every creation reports what its paths lead to. */
  lemma CreationReports(pre: Fs, fs: Fs, d: Ino, components: seq<Leaf>, made: Creation, names: seq<Leaf>, ch: Chain,
      touched: set<Slot>, euid: Uid, worker: Uid)
    requires LayoutMade(pre, fs, d, components, made, names, ch, touched, euid, worker) == true
    requires Hierarchical(pre) || (fs == pre && !made.root.created)
    ensures Reported(fs, d, components, made.root.ino, made.children)
  {
    hide Fresh, Extended;
    if made.root.created {
      FreshReports(pre, fs, d, components, names, ch, made.children, touched, euid);
    } else {
      ExtendedReports(pre, fs, d, components, ch.start, names[0], made.root.ino, made.children, touched, euid, worker);
    }
  }

  // ---------------------------------------------------------------- after a retirement

  /** What a retirement of `lease`, interrupted or not, does: module WorkerRetirement. */
  ghost predicate RetiredTo(fs: Fs, post: Fs, lease: seq<Marker>, c: nat, euid: Uid) {
    CutAt(post, lease, c, euid) && SameDestinations(fs, post, lease) && Frame(fs, post, SlotsOf(lease))
      && post.Keys == fs.Keys
  }

  /** Wherever a retirement stopped, the markers of the root and of every new directory
      above it are active as long as one child's marker is. */
  lemma RootOutlivesChildren(pre: Fs, fs: Fs, post: Fs, d: Ino, components: seq<Leaf>, made: Creation, names: seq<Leaf>,
      ch: Chain, touched: set<Slot>, c: nat, k: Marker, i: nat, euid: Uid, worker: Uid)
    requires LayoutMade(pre, fs, d, components, made, names, ch, touched, euid, worker) == true && made.root.created
    requires CutAt(post, made.lease, c, euid) && k in Retained(made.children) && ActiveMarker(post, k.slot).Some?
    requires i < |ch.markers|
    ensures StillActive(post, ch.markers[i], euid)
  {
    hide Fresh, HoldsMarker, Look;
    var j :| 0 <= j < |Retained(made.children)| && Retained(made.children)[j] == k;
    assert made.lease[|ch.markers| + j] == k;
    assert |ch.markers| + j >= c ==> NowRetired(post, k);
    assert made.lease[i] == ch.markers[i];
  }

  lemma RetirementKeepsPaths(fs: Fs, post: Fs, lease: seq<Marker>, c: nat, euid: Uid)
    requires RetiredTo(fs, post, lease, c, euid)
    ensures forall d, leaf :: Look(post, d, Plain(leaf)) == Look(fs, d, Plain(leaf))
  {
    forall d, leaf
      ensures Look(post, d, Plain(leaf)) == Look(fs, d, Plain(leaf))
    {
      if Owned(SlotsOf(lease), d, Plain(leaf)) {
        var t :| t in SlotsOf(lease) && OwnsName(t, d, Plain(leaf));
        var k :| k in lease && k.slot == t;
        var j :| 0 <= j < |lease| && lease[j] == k;
        assert Destination(post, lease[j].slot) == Destination(fs, lease[j].slot);
      }
    }
  }

  lemma {:induction false} ResolveKept(fs: Fs, post: Fs, d: Ino, components: seq<Leaf>)
    requires forall d, leaf :: Look(post, d, Plain(leaf)) == Look(fs, d, Plain(leaf))
    ensures Resolve(post, d, components) == Resolve(fs, d, components)
    decreases |components|
  {
    if components != [] && Look(fs, d, Plain(components[0])).Some? {
      ResolveKept(fs, post, Look(fs, d, Plain(components[0])).value, components[1..]);
    }
  }

  lemma RetirementTouches(pre: Fs, fs: Fs, post: Fs, lease: seq<Marker>, c: nat, touched: set<Slot>, euid: Uid)
    requires Steps(pre, fs, touched) && SlotsOf(lease) <= touched && RetiredTo(fs, post, lease, c, euid)
    ensures Frame(pre, post, touched)
  {
    FrameTrans(pre, fs, post, touched, SlotsOf(lease));
    assert touched + SlotsOf(lease) == touched;
  }

  lemma FreshPartlyRetired(pre: Fs, fs: Fs, post: Fs, d: Ino, components: seq<Leaf>, names: seq<Leaf>, ch: Chain,
      kids: seq<Opened>, touched: set<Slot>, euid: Uid)
    requires Fresh(pre, fs, d, components, names, ch, kids, touched, euid) == true && Hierarchical(pre)
      && Frame(pre, post, touched)
    requires |ch.markers| > 0 && StillActive(post, ch.markers[0], euid)
    ensures LayoutPending(post, d, components)
  {
    hide Via, LayoutStanding, LayoutSound, NoClash, Deeper, HoldsMarker, AllCreatedHere;
    var depth :| Deeper(pre, depth);
    ViaKept(pre, post, touched, d, components, ch.start, names, depth);
    ViaCarries(post, d, components, ch.start, names);
    assert Link(pre, fs, names, ch, 0, euid);
  }

  lemma ExtendedPartlyRetired(pre: Fs, fs: Fs, post: Fs, d: Ino, components: seq<Leaf>, at: Ino, leaf: Leaf, root: Ino,
      kids: seq<Opened>, touched: set<Slot>, j: nat, euid: Uid, worker: Uid)
    requires Extended(pre, fs, d, components, at, leaf, root, kids, touched, euid, worker) == true
    requires Hierarchical(pre) && Frame(pre, post, touched)
    requires j < |CHILD_NAMES| && Pending(post, ChildSlot(at, root, j))
    ensures LayoutPending(post, d, components)
  {
    hide Via, LayoutStanding, LayoutSound, NoClash, Deeper, ChildrenSoFar, AllOpenedAlone, ChildSlots, Pending;
    var depth :| Deeper(pre, depth);
    ChildrenAside(pre, at, leaf, root, depth);
    ViaKept(pre, post, touched, d, components, at, [leaf], depth);
    AsideKeepsNode(pre, post, touched, OwnSlot(at, leaf), at, depth);
    ViaCarries(post, d, components, at, [leaf]);
    assert ChildPending(post, at, root);
  }

  /** While one marker of a creation is still active, its layout is pending. */
  lemma PartlyRetiredIsPending(pre: Fs, fs: Fs, post: Fs, d: Ino, components: seq<Leaf>, made: Creation,
      names: seq<Leaf>, ch: Chain, touched: set<Slot>, c: nat, euid: Uid, worker: Uid)
    requires LayoutMade(pre, fs, d, components, made, names, ch, touched, euid, worker) == true && Hierarchical(pre)
    requires RetiredTo(fs, post, made.lease, c, euid) && c > 0
    ensures LayoutPending(post, d, components)
  {
    hide LayoutPending, Linked, Steps, Via, AllCreatedHere, ChildrenSoFar, AllOpenedAlone, Frame, HoldsMarker, KidsLive,
      SameDestinations;
    LeaseIsLive(pre, fs, d, components, made, names, ch, touched, euid, worker);
    RetirementTouches(pre, fs, post, made.lease, c, touched, euid);
    assert StillActive(post, made.lease[0], euid);
    if made.root.created {
      ChainHasMarkers(pre, fs, names, ch, euid);
      FreshPartlyRetired(pre, fs, post, d, components, names, ch, made.children, touched, euid);
    } else {
      OpenedKidsLive(pre, fs, ch.start, made.root.ino, made.children, euid, worker);
      RetainedLive(fs, [], ch.start, made.root.ino, made.children, |made.children|, euid);
      assert made.children[..|made.children|] == made.children && [] + Retained(made.children) == made.lease;
      assert IsChildSlot(made.lease[0].slot, ch.start, made.root.ino, |made.children|);
      var j :| 0 <= j < |made.children| && made.lease[0].slot == ChildSlot(ch.start, made.root.ino, j);
      ExtendedPartlyRetired(pre, fs, post, d, components, ch.start, names[0], made.root.ino, made.children, touched, j,
        euid, worker);
    }
  }

  // ---------------------------------------------------------------- everything retired

  ghost predicate AllRetired(post: Fs, lease: seq<Marker>) {
    forall k :: k in lease ==> NowRetired(post, k)
  }

  lemma {:induction false} RetainedHas(kids: seq<Opened>, j: nat)
    requires j < |kids| && kids[j].marker.Some?
    ensures kids[j].marker.value in Retained(kids)
  {
    if j < |kids| - 1 {
      RetainedHas(kids[..|kids| - 1], j);
    }
  }

  lemma {:induction false} RetiredChainStands(pre: Fs, fs: Fs, post: Fs, names: seq<Leaf>, ch: Chain, k: nat, euid: Uid)
    requires Linked(pre, fs, names, ch, euid) && |ch.made| == |names| && k < |ch.made|
    requires AllRetired(post, ch.markers) && AllSettledOrAdopted(post, ch.Holder(|ch.made| - 1), ch.Tail())
    requires forall d, leaf :: Look(post, d, Plain(leaf)) == Look(fs, d, Plain(leaf))
    ensures LayoutStanding(post, ch.Holder(k), names[k..])
    decreases |ch.made| - k
  {
    hide StillActive, AllSettledOrAdopted;
    assert Link(pre, fs, names, ch, k, euid);
    assert NowRetired(post, ch.markers[k]);
    if k + 1 < |ch.made| {
      RetiredChainStands(pre, fs, post, names, ch, k + 1, euid);
      assert names[k..][1..] == names[k + 1..];
    }
  }

  lemma NewKidsStand(fs: Fs, post: Fs, p: Ino, root: Ino, kids: seq<Opened>, lease: seq<Marker>, euid: Uid)
    requires AllCreatedHere(fs, p, root, kids, euid) && AllRetired(post, lease)
    requires forall k :: k in Retained(kids) ==> k in lease
    ensures AllSettledOrAdopted(post, p, root)
  {
    hide StillActive;
    forall j | 0 <= j < |CHILD_NAMES|
      ensures PhaseOf(post, ChildSlot(p, root, j)) == Settled
    {
      assert CreatedHere(fs, ChildSlot(p, root, j), kids[j], euid);
      RetainedHas(kids, j);
    }
  }

  lemma FreshRetiredStands(pre: Fs, fs: Fs, post: Fs, d: Ino, components: seq<Leaf>, names: seq<Leaf>, ch: Chain,
      kids: seq<Opened>, touched: set<Slot>, euid: Uid)
    requires Fresh(pre, fs, d, components, names, ch, kids, touched, euid) == true && Hierarchical(pre)
      && Frame(pre, post, touched)
    requires AllRetired(post, ch.markers + Retained(kids)) && LayoutSound(pre, d, components)
    requires forall d, leaf :: Look(post, d, Plain(leaf)) == Look(fs, d, Plain(leaf))
    ensures LayoutStanding(post, d, components)
  {
    hide Via, LayoutStanding, LayoutSound, LayoutPending, NoClash, Deeper, Steps, AllCreatedHere, NowRetired,
      KeepsNames, KeepsInodes;
    var depth :| Deeper(pre, depth);
    NewKidsStand(fs, post, ch.Holder(|ch.made| - 1), ch.Tail(), kids, ch.markers + Retained(kids), euid);
    RetiredChainStands(pre, fs, post, names, ch, 0, euid);
    assert names[0..] == names;
    ViaKept(pre, post, touched, d, components, ch.start, names, depth);
  }

  /** An opened child stands once its marker, if it has one, is retired. */
  lemma OpenedKidStands(pre: Fs, fs: Fs, post: Fs, p: Ino, root: Ino, j: nat, o: Opened, lease: seq<Marker>, euid: Uid,
      worker: Uid)
    requires j < |CHILD_NAMES| && ChildHeld(pre, fs, ChildSlot(p, root, j), o, euid, worker)
      && OpenedAlone(pre, ChildSlot(p, root, j), o)
    requires PhaseOf(pre, ChildSlot(p, root, j)) != Corrupt && Frame(fs, post, SlotsOf(lease))
      && AllRetired(post, lease)
    requires forall k :: k in lease ==> k.slot.staging == p
    requires o.marker.Some? ==> o.marker.value in lease
    ensures Standing(PhaseOf(post, ChildSlot(p, root, j)))
  {
    hide StillActive;
    var x := ChildSlot(p, root, j);
    if x in SlotsOf(lease) {
      var k :| k in lease && k.slot == x;
      assert NowRetired(post, k);
    } else {
      FrameKeepsPhase(fs, post, SlotsOf(lease), x);
    }
  }

  lemma ExtendedRetiredStands(pre: Fs, fs: Fs, post: Fs, d: Ino, components: seq<Leaf>, at: Ino, leaf: Leaf, root: Ino,
      kids: seq<Opened>, touched: set<Slot>, euid: Uid, worker: Uid)
    requires Extended(pre, fs, d, components, at, leaf, root, kids, touched, euid, worker) == true
    requires Hierarchical(pre) && Frame(pre, post, touched) && LayoutSound(pre, d, components)
    requires Frame(fs, post, SlotsOf(Retained(kids))) && AllRetired(post, Retained(kids))
      && SlotsOf(Retained(kids)) <= touched
    ensures LayoutStanding(post, d, components)
  {
    hide Via, LayoutStanding, LayoutSound, LayoutPending, NoClash, Deeper, KeepsNames, KeepsInodes, ChildHeld,
      OpenedAlone, AllRetired;
    var depth :| Deeper(pre, depth);
    ChildrenAside(pre, at, leaf, root, depth);
    ViaCarries(pre, d, components, at, [leaf]);
    EndIsSound(pre, at, leaf, root);
    forall k | k in Retained(kids)
      ensures k.slot.staging == at
    {
      assert k.slot in SlotsOf(Retained(kids));
    }
    forall j | 0 <= j < |CHILD_NAMES|
      ensures Standing(PhaseOf(post, ChildSlot(at, root, j)))
    {
      if kids[j].marker.Some? {
        RetainedHas(kids, j);
      }
      OpenedKidStands(pre, fs, post, at, root, j, kids[j], Retained(kids), euid, worker);
    }
    AsideKeepsNode(pre, post, touched, OwnSlot(at, leaf), at, depth);
    EndStands(pre, post, at, leaf, root);
    ViaKept(pre, post, touched, d, components, at, [leaf], depth);
  }

  lemma EndIsSound(pre: Fs, at: Ino, leaf: Leaf, root: Ino)
    requires LayoutSound(pre, at, [leaf]) && Passable(pre, OwnSlot(at, leaf)) && Below(pre, at, [leaf]) == root
    ensures PhaseOf(pre, OwnSlot(at, leaf)) != Corrupt && NoneCorrupt(pre, at, root)
  {
  }

  lemma EndStands(pre: Fs, post: Fs, at: Ino, leaf: Leaf, root: Ino)
    requires Passable(pre, OwnSlot(at, leaf)) && PhaseOf(pre, OwnSlot(at, leaf)) != Corrupt
    requires PhaseOf(post, OwnSlot(at, leaf)) == PhaseOf(pre, OwnSlot(at, leaf))
      && Destination(post, OwnSlot(at, leaf)) == Some(root)
    requires AllSettledOrAdopted(post, at, root)
    ensures LayoutStanding(post, at, [leaf])
  {
  }

  /** Once every marker of a creation is retired, its layout stands. */
  lemma FullyRetiredStands(pre: Fs, fs: Fs, post: Fs, d: Ino, components: seq<Leaf>, made: Creation, names: seq<Leaf>,
      ch: Chain, touched: set<Slot>, euid: Uid, worker: Uid)
    requires LayoutMade(pre, fs, d, components, made, names, ch, touched, euid, worker) == true && Hierarchical(pre)
    requires LayoutSound(pre, d, components) && RetiredTo(fs, post, made.lease, 0, euid)
    ensures LayoutStanding(post, d, components)
  {
    hide LayoutStanding, LayoutSound, Linked, Steps, Via, AllCreatedHere, ChildrenSoFar, AllOpenedAlone, Frame,
      KidsLive, SameDestinations, NowRetired, StillActive;
    LeaseIsLive(pre, fs, d, components, made, names, ch, touched, euid, worker);
    RetirementTouches(pre, fs, post, made.lease, 0, touched, euid);
    RetirementKeepsPaths(fs, post, made.lease, 0, euid);
    assert AllRetired(post, made.lease);
    if made.root.created {
      FreshRetiredStands(pre, fs, post, d, components, names, ch, made.children, touched, euid);
    } else {
      assert made.lease == Retained(made.children);
      ExtendedRetiredStands(pre, fs, post, d, components, ch.start, names[0], made.root.ino, made.children, touched,
        euid, worker);
    }
  }

  // ---------------------------------------------------------------- the next run

  /** A creation can only succeed where nothing is pending. */
  lemma SuccessMeansNothingPending(pre: Fs, fs: Fs, d: Ino, components: seq<Leaf>, made: Creation, names: seq<Leaf>,
      ch: Chain, touched: set<Slot>, euid: Uid, worker: Uid)
    requires LayoutMade(pre, fs, d, components, made, names, ch, touched, euid, worker) == true
    ensures !LayoutPending(pre, d, components)
  {
    hide Steps, ChildrenSoFar, Linked, AllCreatedHere, NoClash, AllNew, Via;
    if made.root.created {
      FreshIsNotStanding(pre, fs, d, components, names, ch, made.children, touched, euid);
    } else {
      ViaCarries(pre, d, components, ch.start, [names[0]]);
      forall j | 0 <= j < |CHILD_NAMES|
        ensures !Pending(pre, ChildSlot(ch.start, made.root.ino, j))
      {
        assert OpenedAlone(pre, ChildSlot(ch.start, made.root.ino, j), made.children[j]);
      }
    }
  }

  /** Nothing was created and nothing is retained. */
  predicate AllExisting(made: Creation) {
    !made.root.created && made.lease == [] && forall o :: o in made.children ==> !o.created
  }

  lemma {:induction false} NothingRetained(kids: seq<Opened>)
    requires forall o :: o in kids ==> o.marker == None
    ensures Retained(kids) == []
  {
    if kids != [] {
      NothingRetained(kids[..|kids| - 1]);
    }
  }

  /** On a standing layout a successful creation only reopens. */
  lemma StandingIsOnlyReopened(pre: Fs, fs: Fs, d: Ino, components: seq<Leaf>, made: Creation, names: seq<Leaf>,
      ch: Chain, touched: set<Slot>, euid: Uid, worker: Uid)
    requires LayoutMade(pre, fs, d, components, made, names, ch, touched, euid, worker) == true
    requires LayoutStanding(pre, d, components)
    ensures AllExisting(made)
  {
    hide Steps, Linked, AllCreatedHere, NoClash, AllNew, Via, Look, StillActive;
    if made.root.created {
      FreshIsNotStanding(pre, fs, d, components, names, ch, made.children, touched, euid);
    } else {
      ViaCarries(pre, d, components, ch.start, [names[0]]);
      forall o | o in made.children
        ensures !o.created && o.marker == None
      {
        var j :| 0 <= j < |made.children| && made.children[j] == o;
        SettledMeansBegun(pre, ch.start, made.root.ino, j);
        assert OpenedAlone(pre, ChildSlot(ch.start, made.root.ino, j), made.children[j]);
        assert ChildHeld(pre, fs, ChildSlot(ch.start, made.root.ino, j), made.children[j], euid, worker);
      }
      NothingRetained(made.children);
    }
  }

  /** Retirement may stop anywhere. If the layout is then created again and that succeeds,
      every marker was retired, nothing is created, and the root and its five children are
      the ones the first creation reported. */
  lemma RerunAfterRetirement(pre: Fs, fs: Fs, d: Ino, components: seq<Leaf>, first: Creation, names: seq<Leaf>,
      ch: Chain, touched: set<Slot>, post: Fs, c: nat, again: Fs, second: Creation, names': seq<Leaf>, ch': Chain,
      touched': set<Slot>, euid: Uid, worker: Uid)
    requires LayoutMade(pre, fs, d, components, first, names, ch, touched, euid, worker) == true
    requires Hierarchical(pre) && LayoutSound(pre, d, components)
    requires RetiredTo(fs, post, first.lease, c, euid)
    requires LayoutMade(post, again, d, components, second, names', ch', touched', euid, worker) == true
    requires LayoutStanding(post, d, components) ==> again == post
    ensures c == 0 && again == post && AllExisting(second)
    ensures second.root.ino == first.root.ino && |second.children| == |first.children|
    ensures forall j :: 0 <= j < |first.children| ==> second.children[j].ino == first.children[j].ino
  {
    hide LayoutMade, RetiredTo, LayoutPending, LayoutStanding, LayoutSound, Hierarchical, Look;
    SuccessMeansNothingPending(post, again, d, components, second, names', ch', touched', euid, worker);
    if c > 0 {
      PartlyRetiredIsPending(pre, fs, post, d, components, first, names, ch, touched, c, euid, worker);
      assert false;
    }
    FullyRetiredStands(pre, fs, post, d, components, first, names, ch, touched, euid, worker);
    StandingIsOnlyReopened(post, again, d, components, second, names', ch', touched', euid, worker);
    CreationReports(pre, fs, d, components, first, names, ch, touched, euid, worker);
    CreationReports(post, again, d, components, second, names', ch', touched', euid, worker);
    RetirementKeepsPaths(fs, post, first.lease, c, euid);
    ResolveKept(fs, post, d, components);
    SameReports(fs, post, d, components, first, second);
  }

  lemma SameReports(fs: Fs, post: Fs, d: Ino, components: seq<Leaf>, first: Creation, second: Creation)
    requires Reported(fs, d, components, first.root.ino, first.children)
    requires Reported(post, d, components, second.root.ino, second.children)
    requires Resolve(post, d, components) == Resolve(fs, d, components)
    requires forall d', leaf :: Look(post, d', Plain(leaf)) == Look(fs, d', Plain(leaf))
    ensures second.root.ino == first.root.ino && |second.children| == |first.children|
    ensures forall j :: 0 <= j < |first.children| ==> second.children[j].ino == first.children[j].ino
  {
    forall j | 0 <= j < |first.children|
      ensures second.children[j].ino == first.children[j].ino
    {
      assert Look(fs, first.root.ino, Plain(CHILD_NAMES[j])) == Some(first.children[j].ino);
    }
  }
}
