/** Creating a complete worker root: the root is staged, its five children are created
    inside it, and only then is it published. */
module WorkerRoot {
  import opened Wrappers
  import opened WorkerFs
  import opened WorkerTree
  import opened WorkerDisk
  import opened WorkerNode
  import opened WorkerRetirement

  function ChildSlot(p: Ino, root: Ino, j: nat): Slot
    requires j < |CHILD_NAMES|
  {
    Slot(p, root, CHILD_NAMES[j])
  }

  function ChildSlots(p: Ino, root: Ino): set<Slot> {
    set j | 0 <= j < |CHILD_NAMES| :: ChildSlot(p, root, j)
  }

  lemma ChildSlotsComparable(p: Ino, root: Ino, i: nat, j: nat)
    requires i < |CHILD_NAMES| && j < |CHILD_NAMES| && i != j
    ensures Comparable(ChildSlot(p, root, i), ChildSlot(p, root, j))
  {
    assert CHILD_NAMES[0][0] == 'r' && CHILD_NAMES[1][0] == 'j' && CHILD_NAMES[2][0] == 'c';
    assert CHILD_NAMES[3][0] == 'a' && CHILD_NAMES[4][0] == 'l';
  }

  /** No slot of `touched` works inside directory `d`. */
  ghost predicate Apart(touched: set<Slot>, d: Ino) {
    forall t :: t in touched ==> d != t.staging && d != t.dest
  }

  lemma ContentsKept(pre: Fs, post: Fs, touched: set<Slot>, d: Ino)
    requires Frame(pre, post, touched) && IsDirectory(pre, d) && Apart(touched, d)
    ensures IsDirectory(post, d) && post[d].children == pre[d].children
  {
    forall n ensures Look(post, d, n) == Look(pre, d, n) {
      assert !Owned(touched, d, n);
    }
    forall n ensures n in post[d].children <==> n in pre[d].children {
      assert Look(post, d, n) == Look(pre, d, n);
    }
    forall n | n in post[d].children
      ensures post[d].children[n] == pre[d].children[n]
    {
      assert Look(post, d, n) == Look(pre, d, n);
    }
  }

  /** An active marker outlives changes to other slots, unless one of them works inside
      the marker directory itself. */
  lemma MarkerOutlives(pre: Fs, post: Fs, touched: set<Slot>, k: Marker, euid: Uid)
    requires Frame(pre, post, touched) && StillActive(pre, k, euid)
    requires Apart(touched, k.directory) && forall t :: t in touched ==> Comparable(t, k.slot)
    ensures StillActive(post, k, euid)
  {
    FrameKeepsPhase(pre, post, touched, k.slot);
    ContentsKept(pre, post, touched, k.directory);
  }

  /** What makes a node reopenable outlives changes to other slots, unless one of them
      works inside the directory of its retired marker. */
  lemma ReopenableKept(pre: Fs, post: Fs, touched: set<Slot>, x: Slot, euid: Uid, worker: Uid, canonical: bool)
    requires Frame(pre, post, touched) && SameNames(pre, post, x) && Reopenable(pre, x, euid, worker, canonical)
    requires RetiredMarker(pre, x).Some? ==> Apart(touched, RetiredMarker(pre, x).value)
    ensures Reopenable(post, x, euid, worker, canonical)
  {
    if RetiredMarker(pre, x).Some? {
      ContentsKept(pre, post, touched, RetiredMarker(pre, x).value);
    }
  }

  /** The directory of an exact marker holds one record, so nobody works inside it who works
      where the marker or the node is. */
  lemma MarkersStandApart(fs: Fs, touched: set<Slot>, x: Slot, euid: Uid, worker: Uid, canonical: bool)
    requires Reopenable(fs, x, euid, worker, canonical) && RetiredMarker(fs, x).Some?
    requires forall t :: t in touched ==>
      (t.staging == x.staging || t.staging == x.dest) && (t.dest == x.staging || t.dest == x.dest)
    ensures Apart(touched, RetiredMarker(fs, x).value)
  {
    assert Retired(x.dest, x.leaf) in fs[x.staging].children;
    assert Plain(x.leaf) in fs[x.dest].children;
  }

  // ---------------------------------------------------------------- the five children

  /** The marker of `o` records its creation as `t` for `worker`. */
  predicate Vouched(t: Slot, o: Opened, worker: Uid) {
    && o.marker.Some?
    && o.marker.value == MarkerFor(t, o.ino, o.marker.value.directory, o.marker.value.file, worker)
  }

  /** What the caller holds about child `t` once the loop has passed it. */
  ghost predicate ChildHeld(pre: Fs, fs: Fs, t: Slot, o: Opened, euid: Uid, worker: Uid) {
    && Destination(fs, t) == Some(o.ino)
    && (PhaseOf(pre, t) == Nothing ==>
        && o.created && Vouched(t, o, worker) && StillActive(fs, o.marker.value, euid)
        && (t.staging != t.dest ==> HandedOver(fs, o.ino, euid, worker))
        && o.marker.value.directory !in pre && o.ino !in pre)
    && (PhaseOf(pre, t) != Nothing ==>
        && PhaseOf(fs, t) == PhaseOf(pre, t) && Destination(pre, t) == Some(o.ino)
        && (o.created <==> ActiveMarker(pre, t).Some?))
    && (!o.created ==> o.marker == None && Reopenable(fs, t, euid, worker, true))
  }

  lemma HeldStaysHeld(pre: Fs, mid: Fs, post: Fs, x: Slot, o: Opened, t: Slot, euid: Uid, worker: Uid)
    requires ChildHeld(pre, mid, x, o, euid, worker) && SlotFrame(mid, post, t) && Comparable(t, x)
    requires t.staging in pre && t.dest in pre && t.staging == x.staging && t.dest == x.dest
    ensures ChildHeld(pre, post, x, o, euid, worker)
  {
    SlotFrameIsFrame(mid, post, t);
    FrameKeepsPhase(mid, post, {t}, x);
    if PhaseOf(pre, x) == Nothing {
      MarkerOutlives(mid, post, {t}, o.marker.value, euid);
    } else if !o.created {
      if RetiredMarker(mid, x).Some? {
        MarkersStandApart(mid, {t}, x, euid, worker, true);
      }
      ReopenableKept(mid, post, {t}, x, euid, worker, true);
    }
  }

  /** The loop of open_or_create_worker_children after `i` turns. */
  ghost predicate ChildrenSoFar(pre: Fs, fs: Fs, p: Ino, root: Ino, out: seq<Opened>, euid: Uid, worker: Uid) {
    && |out| <= |CHILD_NAMES|
    && (forall j :: 0 <= j < |out| ==> ChildHeld(pre, fs, ChildSlot(p, root, j), out[j], euid, worker))
    && (forall j :: |out| <= j < |CHILD_NAMES| ==> SameNames(pre, fs, ChildSlot(p, root, j)))
  }

  lemma EarlierChildrenHeld(pre: Fs, mid: Fs, post: Fs, p: Ino, root: Ino, out: seq<Opened>, euid: Uid, worker: Uid)
    requires |out| < |CHILD_NAMES| && ChildrenSoFar(pre, mid, p, root, out, euid, worker)
    requires SlotFrame(mid, post, ChildSlot(p, root, |out|)) && p in pre && root in pre
    ensures forall j :: 0 <= j < |out| ==> ChildHeld(pre, post, ChildSlot(p, root, j), out[j], euid, worker)
  {
    forall j | 0 <= j < |out|
      ensures ChildHeld(pre, post, ChildSlot(p, root, j), out[j], euid, worker)
    {
      ChildSlotsComparable(p, root, |out|, j);
      HeldStaysHeld(pre, mid, post, ChildSlot(p, root, j), out[j], ChildSlot(p, root, |out|), euid, worker);
    }
  }

  lemma LaterChildrenUntouched(pre: Fs, mid: Fs, post: Fs, p: Ino, root: Ino, out: seq<Opened>, euid: Uid, worker: Uid)
    requires |out| < |CHILD_NAMES| && ChildrenSoFar(pre, mid, p, root, out, euid, worker)
    requires SlotFrame(mid, post, ChildSlot(p, root, |out|))
    ensures forall j :: |out| < j < |CHILD_NAMES| ==> SameNames(pre, post, ChildSlot(p, root, j))
  {
    forall j | |out| < j < |CHILD_NAMES|
      ensures SameNames(pre, post, ChildSlot(p, root, j))
    {
      ChildSlotsComparable(p, root, |out|, j);
      SlotFrameIsFrame(mid, post, ChildSlot(p, root, |out|));
      FrameKeepsPhase(mid, post, {ChildSlot(p, root, |out|)}, ChildSlot(p, root, j));
    }
  }

  lemma ChildrenStep(pre: Fs, mid: Fs, post: Fs, p: Ino, root: Ino, j: nat)
    requires j < |CHILD_NAMES|
    requires Steps(pre, mid, ChildSlots(p, root)) && Steps(mid, post, {ChildSlot(p, root, j)})
    ensures Steps(pre, post, ChildSlots(p, root))
  {
    assert ChildSlot(p, root, j) in ChildSlots(p, root);
    assert ChildSlots(p, root) + {ChildSlot(p, root, j)} == ChildSlots(p, root);
    StepsTrans(pre, mid, post, ChildSlots(p, root), {ChildSlot(p, root, j)});
  }

  lemma ChildrenAdvance(pre: Fs, mid: Fs, post: Fs, p: Ino, root: Ino, out: seq<Opened>, o: Opened, euid: Uid,
      worker: Uid)
    requires |out| < |CHILD_NAMES| && ChildrenSoFar(pre, mid, p, root, out, euid, worker)
    requires SlotFrame(mid, post, ChildSlot(p, root, |out|)) && p in pre && root in pre && KeepsInodes(pre, mid)
    requires ChildHeld(mid, post, ChildSlot(p, root, |out|), o, euid, worker)
    ensures ChildrenSoFar(pre, post, p, root, out + [o], euid, worker)
  {
    hide ChildHeld, SameNames, SlotFrame, KeepsInodes;
    EarlierChildrenHeld(pre, mid, post, p, root, out, euid, worker);
    LaterChildrenUntouched(pre, mid, post, p, root, out, euid, worker);
    HeldSince(pre, mid, post, ChildSlot(p, root, |out|), o, euid, worker);
  }

  lemma HeldSince(pre: Fs, mid: Fs, post: Fs, t: Slot, o: Opened, euid: Uid, worker: Uid)
    requires SameNames(pre, mid, t) && KeepsInodes(pre, mid) && ChildHeld(mid, post, t, o, euid, worker)
    ensures ChildHeld(pre, post, t, o, euid, worker)
  {
    hide Vouched, StillActive, HandedOver, Reopenable, Look;
  }

  /** One child, seen on its own. */
  method OpenChild(disk: Disk, t: Slot, euid: Uid, worker: Uid, requireProvenance: bool, authority: Option<Authority>)
    returns (r: Io<Opened>)
    requires IsDirectory(disk.fs, t.staging) && IsDirectory(disk.fs, t.dest)
    modifies disk
    ensures KeepsTree(old(disk.fs), disk.fs)
    ensures SlotFrame(old(disk.fs), disk.fs, t) && Moves(old(disk.fs), disk.fs, t)
    ensures r.Done? ==> ChildHeld(old(disk.fs), disk.fs, t, r.value, euid, worker)
    ensures r.Done? && authority == None ==>
      !Pending(old(disk.fs), t) && (r.value.created ==> PhaseOf(old(disk.fs), t) == Nothing)
    ensures r.Done? && requireProvenance ==> r.value.created
    ensures PhaseOf(old(disk.fs), t) != Nothing ==> disk.fs == old(disk.fs)
    ensures (!r.Done? && ActiveMarker(disk.fs, t) == None) ==>
      disk.fs == old(disk.fs) || exists i :: DirectoryMade(old(disk.fs), disk.fs, t.staging, Stage(t.dest, t.leaf), i)
    ensures (disk.faultFree && !requireProvenance && Openable(old(disk.fs), t, euid, worker, true)) ==> r.Done?
  {
    hide Tree;
    var result, published := OpenOrCreate(disk, t, euid, worker, true, authority);
    var child :- result;
    if requireProvenance && !child.created {
      return Failed(Refused);
    }
    return Done(child);
  }

  /** Without recovery authority unretired evidence bars the way, and only an untouched
      slot is created. */
  ghost predicate OpenedAlone(pre: Fs, t: Slot, o: Opened) {
    !Pending(pre, t) && (o.created ==> PhaseOf(pre, t) == Nothing)
  }

  ghost predicate AllOpenedAlone(pre: Fs, p: Ino, root: Ino, out: seq<Opened>) {
    |out| <= |CHILD_NAMES| && forall j :: 0 <= j < |out| ==> OpenedAlone(pre, ChildSlot(p, root, j), out[j])
  }

  /** One turn of the loop of open_or_create_worker_children. */
  method NextChild(disk: Disk, ghost pre: Fs, p: Ino, root: Ino, out: seq<Opened>, euid: Uid, worker: Uid,
      requireProvenance: bool, authority: Option<Authority>)
    returns (r: Io<Opened>)
    requires |out| < |CHILD_NAMES| && IsDirectory(pre, p) && IsDirectory(pre, root)
    requires Steps(pre, disk.fs, ChildSlots(p, root)) && ChildrenSoFar(pre, disk.fs, p, root, out, euid, worker)
    modifies disk
    ensures KeepsTree(old(disk.fs), disk.fs)
    ensures Steps(pre, disk.fs, ChildSlots(p, root))
    ensures r.Done? ==> ChildrenSoFar(pre, disk.fs, p, root, out + [r.value], euid, worker)
    ensures r.Done? && authority == None ==> OpenedAlone(pre, ChildSlot(p, root, |out|), r.value)
    ensures r.Done? && requireProvenance ==> r.value.created
    ensures PhaseOf(pre, ChildSlot(p, root, |out|)) != Nothing ==> disk.fs == old(disk.fs)
    ensures (!r.Done? && ActiveMarker(disk.fs, ChildSlot(p, root, |out|)) == None) ==>
      disk.fs == old(disk.fs) || exists i :: DirectoryMade(old(disk.fs), disk.fs, p, Stage(root, CHILD_NAMES[|out|]), i)
    ensures (disk.faultFree && !requireProvenance && Openable(pre, ChildSlot(p, root, |out|), euid, worker, true)) ==>
      r.Done?
    ensures |out| > 0 ==>
      ActiveMarker(disk.fs, ChildSlot(p, root, 0)) == ActiveMarker(old(disk.fs), ChildSlot(p, root, 0))
    ensures |out| == 0 && r.Done? && Destination(pre, ChildSlot(p, root, 0)) == None ==>
      ActiveMarker(disk.fs, ChildSlot(p, root, 0)).Some?
  {
    hide Tree, AllOpenedAlone, ChildrenSoFar, KeepsInodes, KeepsNames, ChildSlots, Openable;
    var t := ChildSlot(p, root, |out|);
    ghost var mid := disk.fs;
    NextIsUntouched(pre, mid, p, root, out, euid, worker);
    if Openable(pre, t, euid, worker, true) {
      OpenableKept(pre, mid, p, root, |out|, euid, worker);
    }
    r := OpenChild(disk, t, euid, worker, requireProvenance, authority);
    SlotStepIsStep(mid, disk.fs, t);
    if |out| > 0 {
      ChildSlotsComparable(p, root, |out|, 0);
      FrameKeepsPhase(mid, disk.fs, {t}, ChildSlot(p, root, 0));
    }
    ChildrenStep(pre, mid, disk.fs, p, root, |out|);
    if r.Done? {
      ChildrenAdvance(pre, mid, disk.fs, p, root, out, r.value, euid, worker);
    }
  }

  lemma NextIsUntouched(pre: Fs, mid: Fs, p: Ino, root: Ino, out: seq<Opened>, euid: Uid, worker: Uid)
    requires IsDirectory(pre, p) && IsDirectory(pre, root) && KeepsInodes(pre, mid)
    requires |out| < |CHILD_NAMES| && ChildrenSoFar(pre, mid, p, root, out, euid, worker)
    ensures IsDirectory(mid, p) && IsDirectory(mid, root) && SameNames(pre, mid, ChildSlot(p, root, |out|))
  {
  }

  /** What is reopenable now and was there before was reopenable before. */
  lemma ReopenableBefore(pre: Fs, post: Fs, touched: set<Slot>, x: Slot, euid: Uid, worker: Uid, canonical: bool)
    requires Frame(pre, post, touched) && SameNames(pre, post, x) && Closed(pre)
    requires Reopenable(post, x, euid, worker, canonical)
    requires RetiredMarker(post, x).Some? ==> Apart(touched, RetiredMarker(post, x).value)
    ensures Reopenable(pre, x, euid, worker, canonical)
  {
    assert Destination(pre, x).value in pre;
    if RetiredMarker(pre, x).Some? {
      var m := RetiredMarker(pre, x).value;
      assert m in pre;
      ContentsKept(pre, post, touched, m);
      assert Look(pre, m, RecordFile).value in pre;
    }
  }

  /** Only what could be opened has been opened. */
  lemma OpenedWasOpenable(pre: Fs, fs: Fs, p: Ino, root: Ino, kids: seq<Opened>, euid: Uid, worker: Uid)
    requires |kids| == |CHILD_NAMES| && ChildrenSoFar(pre, fs, p, root, kids, euid, worker)
    requires AllOpenedAlone(pre, p, root, kids) && Steps(pre, fs, ChildSlots(p, root)) && Closed(pre) && p != root
    ensures AllOpenable(pre, p, root, euid, worker)
  {
    hide StillActive, Steps, Closed, Reopenable;
    forall j | 0 <= j < |CHILD_NAMES|
      ensures Openable(pre, ChildSlot(p, root, j), euid, worker, true)
    {
      OneOpenedWasOpenable(pre, fs, p, root, j, kids[j], euid, worker);
    }
  }

  lemma OneOpenedWasOpenable(pre: Fs, fs: Fs, p: Ino, root: Ino, j: nat, o: Opened, euid: Uid, worker: Uid)
    requires j < |CHILD_NAMES| && ChildHeld(pre, fs, ChildSlot(p, root, j), o, euid, worker)
    requires OpenedAlone(pre, ChildSlot(p, root, j), o)
    requires Steps(pre, fs, ChildSlots(p, root)) && Closed(pre) && p != root
    ensures Openable(pre, ChildSlot(p, root, j), euid, worker, true)
  {
    hide StillActive, KeepsNames, KeepsInodes, Closed;
    var x := ChildSlot(p, root, j);
    assert x in ChildSlots(p, root);
    if PhaseOf(pre, x) != Nothing {
      if RetiredMarker(fs, x).Some? {
        MarkersStandApart(fs, ChildSlots(p, root), x, euid, worker, true);
      }
      ReopenableBefore(pre, fs, ChildSlots(p, root), x, euid, worker, true);
    }
  }

  lemma SlotStepIsStep(pre: Fs, post: Fs, t: Slot)
    requires SlotFrame(pre, post, t) && Moves(pre, post, t)
    ensures Steps(pre, post, {t})
  {
    SlotFrameIsFrame(pre, post, t);
  }

  ghost predicate AllSettledOrAdopted(fs: Fs, p: Ino, root: Ino) {
    forall j :: 0 <= j < |CHILD_NAMES| ==> Standing(PhaseOf(fs, ChildSlot(p, root, j)))
  }

  ghost predicate AllOpenable(fs: Fs, p: Ino, root: Ino, euid: Uid, worker: Uid) {
    forall j :: 0 <= j < |CHILD_NAMES| ==> Openable(fs, ChildSlot(p, root, j), euid, worker, true)
  }

  lemma SettledMeansBegun(fs: Fs, p: Ino, root: Ino, j: nat)
    requires j < |CHILD_NAMES| && AllSettledOrAdopted(fs, p, root)
    ensures PhaseOf(fs, ChildSlot(p, root, j)) != Nothing
  {
  }

  /** Whatever the loop did to earlier children, the next one can be opened if it could. */
  lemma OpenableKept(pre: Fs, mid: Fs, p: Ino, root: Ino, j: nat, euid: Uid, worker: Uid)
    requires j < |CHILD_NAMES| && Frame(pre, mid, ChildSlots(p, root)) && SameNames(pre, mid, ChildSlot(p, root, j))
    requires Openable(pre, ChildSlot(p, root, j), euid, worker, true)
    ensures Openable(mid, ChildSlot(p, root, j), euid, worker, true)
  {
    hide KeepsNames, KeepsInodes;
    var x := ChildSlot(p, root, j);
    if Reopenable(pre, x, euid, worker, true) {
      if RetiredMarker(pre, x).Some? {
        MarkersStandApart(pre, ChildSlots(p, root), x, euid, worker, true);
      }
      ReopenableKept(pre, mid, ChildSlots(p, root), x, euid, worker, true);
    }
  }

  lemma ChildrenStart(pre: Fs, p: Ino, root: Ino, euid: Uid, worker: Uid)
    ensures Steps(pre, pre, ChildSlots(p, root)) && ChildrenSoFar(pre, pre, p, root, [], euid, worker)
  {
  }

  /** No child has a marker: only a candidate of the first one may have been added. */
  ghost predicate ChildrenBarelyStarted(pre: Fs, post: Fs, p: Ino, root: Ino) {
    post == pre || exists i :: DirectoryMade(pre, post, p, Stage(root, CHILD_NAMES[0]), i)
  }

  /** open_or_create_worker_children */
  method OpenOrCreateChildren(disk: Disk, p: Ino, root: Ino, euid: Uid, worker: Uid, requireProvenance: bool,
      authority: Option<Authority>)
    returns (r: Io<seq<Opened>>)
    requires IsDirectory(disk.fs, p) && IsDirectory(disk.fs, root)
    modifies disk
    ensures KeepsTree(old(disk.fs), disk.fs)
    ensures Steps(old(disk.fs), disk.fs, ChildSlots(p, root))
    ensures r.Done? ==>
      |r.value| == |CHILD_NAMES| && ChildrenSoFar(old(disk.fs), disk.fs, p, root, r.value, euid, worker)
    ensures r.Done? && authority == None ==>
      AllOpenedAlone(old(disk.fs), p, root, r.value)
    ensures AllSettledOrAdopted(old(disk.fs), p, root) ==> disk.fs == old(disk.fs)
    ensures (!r.Done? && Destination(old(disk.fs), ChildSlot(p, root, 0)) == None
      && ActiveMarker(disk.fs, ChildSlot(p, root, 0)) == None) ==>
      ChildrenBarelyStarted(old(disk.fs), disk.fs, p, root)
    ensures (disk.faultFree && !requireProvenance && AllOpenable(old(disk.fs), p, root, euid, worker)) ==> r.Done?
  {
    hide Tree, Steps, ChildrenSoFar, PhaseOf, Openable, Destination, ActiveMarker, ChildSlots, IsDirectory;
    ghost var pre := disk.fs;
    ChildrenStart(pre, p, root, euid, worker);
    ghost var settled := AllSettledOrAdopted(pre, p, root);
    var out: seq<Opened> := [];
    while |out| < |CHILD_NAMES|
      invariant |out| <= |CHILD_NAMES|
      invariant Steps(pre, disk.fs, ChildSlots(p, root)) && ChildrenSoFar(pre, disk.fs, p, root, out, euid, worker)
      invariant authority == None ==> AllOpenedAlone(pre, p, root, out)
      invariant (settled ==> disk.fs == pre) && KeepsTree(pre, disk.fs)
      invariant out == [] ==> disk.fs == pre
      invariant out != [] && Destination(pre, ChildSlot(p, root, 0)) == None ==>
        ActiveMarker(disk.fs, ChildSlot(p, root, 0)).Some?
      decreases |CHILD_NAMES| - |out|
    {
      ghost var before := disk.fs;
      ghost var begun := PhaseOf(pre, ChildSlot(p, root, |out|)) != Nothing;
      assert settled ==> begun by {
        if settled {
          SettledMeansBegun(pre, p, root, |out|);
        }
      }
      var next := NextChild(disk, pre, p, root, out, euid, worker, requireProvenance, authority);
      assert settled ==> disk.fs == pre by { assert begun ==> disk.fs == before; }
      var child :- next;
      out := out + [child];
    }
    return Done(out);
  }

  // ---------------------------------------------------------------- cleanup

  /** remove_known_empty_staging_child */
  method RemoveStagingChild(disk: Disk, d: Ino, n: Name) returns (r: Io<()>)
    modifies disk
    ensures KeepsTree(old(disk.fs), disk.fs)
    ensures Look(old(disk.fs), d, n) == None ==> disk.fs == old(disk.fs)
    ensures disk.faultFree && Look(old(disk.fs), d, n) == None ==> r.Done?
  {
    hide Tree;
    var found := disk.OpenDirectory(d, n);
    if found == Failed(NotFound) {
      return Done(());
    }
    var _ :- found;
    :- disk.Sys();
    r := disk.Rmdir(d, n);
  }

  /** The tree after the staged root `root` of `t` has been removed. */
  function WithoutStagedRoot(fs: Fs, t: Slot, root: Ino): Fs
    requires IsDirectory(fs, t.staging)
  {
    Unbind(fs, t.staging, Stage(t.dest, t.leaf)) - {root}
  }

  predicate EmptyDirectory(fs: Fs, d: Ino) {
    IsDirectory(fs, d) && fs[d].children == map[]
  }

  /** remove_known_staged_worker_tree, which only looks inside the staged root. */
  method RemoveStagedTree(disk: Disk, t: Slot, root: Ino) returns (r: Io<()>)
    requires IsDirectory(disk.fs, t.staging)
    modifies disk
    ensures KeepsTree(old(disk.fs), disk.fs)
    ensures EmptyDirectory(old(disk.fs), root) ==>
      disk.fs == if r.Done? then WithoutStagedRoot(old(disk.fs), t, root) else old(disk.fs)
    ensures (disk.faultFree && EmptyDirectory(old(disk.fs), root)
             && Staged(old(disk.fs), t) == Some(root) && root != t.staging) ==> r.Done?
  {
    hide Tree;
    ghost var pre := disk.fs;
    ghost var empty := EmptyDirectory(pre, root);
    var i := 0;
    while i < |CHILD_NAMES|
      invariant (empty ==> disk.fs == pre) && KeepsTree(pre, disk.fs)
    {
      var _ :- RemoveStagingChild(disk, root, Plain(CHILD_NAMES[i]));
      var _ :- RemoveStagingChild(disk, root, Stage(root, CHILD_NAMES[i]));
      i := i + 1;
    }
    :- disk.Sys();
    if Staged(disk.fs, t) != Some(root) {
      return Failed(Refused);
    }
    r := disk.Rmdir(t.staging, Stage(t.dest, t.leaf));
  }

  predicate IsMarkerName(n: Name) { n.Active? || n.Retired? }

  /** Some active or retired marker, of whatever node, stands in `p`. */
  predicate MarkerBeside(fs: Fs, p: Ino)
    requires IsDirectory(fs, p)
  {
    exists n :: n in fs[p].children && IsMarkerName(n)
  }

  /** fail_after_staged_tree_cleanup: the tree is removed only when no marker stands
      beside it. Reports the original error, or the error of a cleanup that failed. */
  method FailAfterCleanup(disk: Disk, t: Slot, staged: StagedDirectory, original: Error) returns (r: Io<()>)
    requires IsDirectory(disk.fs, t.staging)
    modifies disk
    ensures KeepsTree(old(disk.fs), disk.fs)
    ensures !r.Done?
    ensures !staged.created ==> r == Failed(original) && disk.fs == old(disk.fs)
    ensures MarkerBeside(old(disk.fs), t.staging) ==> disk.fs == old(disk.fs)
    ensures (staged.created && !MarkerBeside(old(disk.fs), t.staging) && EmptyDirectory(old(disk.fs), staged.ino)) ==>
      || (r == Failed(original) && disk.fs == WithoutStagedRoot(old(disk.fs), t, staged.ino))
      || disk.fs == old(disk.fs)
    ensures disk.faultFree && MarkerBeside(old(disk.fs), t.staging) ==> r == Failed(original)
    ensures (disk.faultFree && staged.created && !MarkerBeside(old(disk.fs), t.staging)
             && EmptyDirectory(old(disk.fs), staged.ino)
             && Staged(old(disk.fs), t) == Some(staged.ino) && staged.ino != t.staging) ==>
      r == Failed(original) && disk.fs == WithoutStagedRoot(old(disk.fs), t, staged.ino)
  {
    hide Tree;
    if !staged.created {
      return Failed(original);
    }
    :- disk.Sys();
    if MarkerBeside(disk.fs, t.staging) {
      return Failed(original);
    }
    var _ :- RemoveStagedTree(disk, t, staged.ino);
    return Failed(original);
  }

  /** A candidate of the first child whose destination parent is gone. */
  ghost predicate OrphanLeft(pre: Fs, post: Fs, t: Slot) {
    exists root, i :: root !in post && DirectoryMade(pre, post, t.staging, Stage(root, CHILD_NAMES[0]), i)
  }

  lemma UnbindUndoesBind(fs: Fs, d: Ino, n: Name, i: Ino)
    requires IsDirectory(fs, d) && Look(fs, d, n) == None
    ensures Unbind(Bind(fs, d, n, i), d, n) == fs
  {
    assert fs[d].children[n := i] - {n} == fs[d].children;
  }

  lemma CleanupOfBareRoot(pre: Fs, staged: Fs, t: Slot, root: Ino)
    requires DirectoryMade(pre, staged, t.staging, Stage(t.dest, t.leaf), root)
    ensures WithoutStagedRoot(staged, t, root) == pre
  {
    UnbindUndoesBind(pre, t.staging, Stage(t.dest, t.leaf), root);
    assert pre[t.staging].children[Stage(t.dest, t.leaf) := root] - {Stage(t.dest, t.leaf)} == pre[t.staging].children;
  }

  lemma CleanupLeavesOrphan(pre: Fs, staged: Fs, post: Fs, t: Slot, root: Ino, i: Ino)
    requires t.staging == t.dest && DirectoryMade(pre, staged, t.staging, Stage(t.dest, t.leaf), root)
    requires DirectoryMade(staged, post, t.staging, Stage(root, CHILD_NAMES[0]), i)
    ensures DirectoryMade(pre, WithoutStagedRoot(post, t, root), t.staging, Stage(root, CHILD_NAMES[0]), i)
    ensures root !in WithoutStagedRoot(post, t, root)
  {
    var p, n, m := t.staging, Stage(t.dest, t.leaf), Stage(root, CHILD_NAMES[0]);
    var w := WithoutStagedRoot(post, t, root);
    assert w[p].children == pre[p].children[m := i];
    assert w == Bind(pre, p, m, i)[i := w[i]];
  }

  /** Cleanup after a failure before the first marker restores the parent exactly when no
      candidate of a child was made: candidates of children stand beside the staged root,
      and cleanup only looks inside it. */
  lemma CleanupRestoresIff(pre: Fs, staged: Fs, post: Fs, t: Slot, root: Ino)
    requires t.staging == t.dest && DirectoryMade(pre, staged, t.staging, Stage(t.dest, t.leaf), root)
    requires ChildrenBarelyStarted(staged, post, t.staging, root)
    ensures WithoutStagedRoot(post, t, root) == pre <==>
      Staged(post, ChildSlot(t.staging, root, 0)) == Staged(staged, ChildSlot(t.staging, root, 0))
    ensures WithoutStagedRoot(post, t, root) == pre || OrphanLeft(pre, WithoutStagedRoot(post, t, root), t)
  {
    CleanupOfBareRoot(pre, staged, t, root);
    if post != staged {
      var i :| DirectoryMade(staged, post, t.staging, Stage(root, CHILD_NAMES[0]), i);
      CleanupLeavesOrphan(pre, staged, post, t, root, i);
      assert i in WithoutStagedRoot(post, t, root) && i !in pre;
    }
  }

  /** A root staged in directory 1 as inode 2, the candidate of its first child as inode 3. */
  function OrphanBefore(attr: Attr, leaf: Leaf): Fs {
    map[1 := Directory(attr, map[Stage(1, leaf) := 2, Stage(2, CHILD_NAMES[0]) := 3]),
        2 := Directory(attr, map[]), 3 := Directory(attr, map[])]
  }

  function OrphanAfter(attr: Attr): Fs {
    map[1 := Directory(attr, map[Stage(2, CHILD_NAMES[0]) := 3]), 3 := Directory(attr, map[])]
  }

  lemma OrphanExampleIsReached(attr: Attr, leaf: Leaf, pre: Fs, staged: Fs)
    requires pre == map[1 := Directory(attr, map[])]
    requires staged == map[1 := Directory(attr, map[Stage(1, leaf) := 2]), 2 := Directory(attr, map[])]
    ensures DirectoryMade(pre, staged, 1, Stage(1, leaf), 2)
    ensures DirectoryMade(staged, OrphanBefore(attr, leaf), 1, Stage(2, CHILD_NAMES[0]), 3)
  {
  }

  /** Where cleanup does not restore: without any further fault it removes inode 2 and
      leaves inode 3, under a name that only the inode number of the removed root explains. */
  method OrphanExample(attr: Attr, leaf: Leaf) returns (left: Fs)
    ensures left == OrphanAfter(attr)
  {
    var disk := new Disk(OrphanBefore(attr, leaf), true, true);
    var _ := FailAfterCleanup(disk, Slot(1, 1, leaf), StagedDirectory(2, true), OsFailure);
    assert OrphanBefore(attr, leaf)[1].children - {Stage(1, leaf)} == map[Stage(2, CHILD_NAMES[0]) := 3];
    return disk.fs;
  }

  // ---------------------------------------------------------------- the complete root

  datatype CompleteRoot = CompleteRoot(root: Opened, children: Option<seq<Opened>>)

  /** A node this call created, with its live marker. */
  ghost predicate CreatedHere(fs: Fs, t: Slot, o: Opened, euid: Uid) {
    && o.created && o.marker.Some? && o.marker.value.slot == t
    && Destination(fs, t) == Some(o.ino) && StillActive(fs, o.marker.value, euid)
  }

  ghost predicate AllCreatedHere(fs: Fs, p: Ino, root: Ino, kids: seq<Opened>, euid: Uid) {
    |kids| == |CHILD_NAMES| && forall j :: 0 <= j < |kids| ==> CreatedHere(fs, ChildSlot(p, root, j), kids[j], euid)
  }

  ghost predicate ChildrenWereNothing(pre: Fs, p: Ino, root: Ino) {
    forall j :: 0 <= j < |CHILD_NAMES| ==> PhaseOf(pre, ChildSlot(p, root, j)) == Nothing
  }

  /** The children of a fresh root had left no trace before it was staged. */
  lemma NewChildrenWereNothing(pre: Fs, staging: Fs, fs: Fs, t: Slot, root: Ino, kids: seq<Opened>, euid: Uid,
      worker: Uid)
    requires t.staging == t.dest && DirectoryMade(pre, staging, t.staging, Stage(t.dest, t.leaf), root)
    requires |kids| == |CHILD_NAMES| && ChildrenSoFar(staging, fs, t.staging, root, kids, euid, worker)
    ensures ChildrenWereNothing(pre, t.staging, root)
  {
    hide ChildHeld;
    forall j | 0 <= j < |CHILD_NAMES|
      ensures PhaseOf(pre, ChildSlot(t.staging, root, j)) == Nothing
    {
      HeldInNewRootWasNothing(pre, staging, fs, t, root, ChildSlot(t.staging, root, j), kids[j], euid, worker);
    }
  }

  lemma HeldInNewRootWasNothing(pre: Fs, staging: Fs, fs: Fs, t: Slot, root: Ino, x: Slot, o: Opened, euid: Uid,
      worker: Uid)
    requires t.staging == t.dest && DirectoryMade(pre, staging, t.staging, Stage(t.dest, t.leaf), root)
    requires ChildHeld(staging, fs, x, o, euid, worker) && x.dest == root && x.staging == t.staging
    ensures PhaseOf(pre, x) == Nothing
  {
    hide StillActive, Vouched, Reopenable;
    assert Destination(staging, x) == None;
    assert PhaseOf(staging, x) == Nothing;
  }

  function Family(t: Slot, root: Ino): set<Slot> {
    {t} + ChildSlots(t.staging, root)
  }

  lemma FamilyDoesNotClash(t: Slot, root: Ino)
    ensures NoClash(Family(t, root))
  {
  }

  /** Publishing the staged root keeps every child and its marker. */
  lemma ChildSurvivesPublication(pre: Fs, mid: Fs, post: Fs, t: Slot, root: Ino, x: Slot, o: Opened, handle: Opened,
      euid: Uid, worker: Uid)
    requires ChildHeld(pre, mid, x, o, euid, worker) && PhaseOf(pre, x) == Nothing
    requires HandedBack(mid, post, t, root, handle, euid, worker) && Comparable(t, x)
    requires root in pre && t.staging in pre && t.dest in pre
    ensures CreatedHere(post, x, o, euid)
  {
    PublicationSparesOthers(mid, post, t, root, x);
    PublicationSparesContents(mid, post, t, root, o.marker.value.directory);
  }

  lemma PublicationSparesContents(pre: Fs, post: Fs, t: Slot, root: Ino, d: Ino)
    requires SlotFrameBut(pre, post, t, root) && IsDirectory(pre, d) && d != root && d != t.staging && d != t.dest
    ensures IsDirectory(post, d) && post[d].children == pre[d].children
  {
    forall n ensures Look(post, d, n) == Look(pre, d, n) {
      assert !OwnsName(t, d, n);
    }
    forall n ensures n in post[d].children <==> n in pre[d].children {
      assert Look(post, d, n) == Look(pre, d, n);
    }
    forall n | n in post[d].children
      ensures post[d].children[n] == pre[d].children[n]
    {
      assert Look(post, d, n) == Look(pre, d, n);
    }
  }

  lemma PublicationFrame(a: Fs, b: Fs, c: Fs, t: Slot, root: Ino, touched: set<Slot>)
    requires Frame(a, b, touched) && t in touched && SlotFrameBut(b, c, t, root) && root !in a
    ensures Frame(a, c, touched)
  {
    forall d, n | !Owned(touched, d, n) && (n.RecordFile? ==> d in a)
      ensures Look(c, d, n) == Look(a, d, n)
    {
      assert !OwnsName(t, d, n);
      assert Look(b, d, n) == Look(a, d, n);
    }
  }

  lemma PublicationSparesOthers(b: Fs, c: Fs, t: Slot, root: Ino, x: Slot)
    requires SlotFrameBut(b, c, t, root) && Comparable(t, x)
    ensures SameNames(b, c, x)
  {
    assert !OwnsName(t, x.dest, Plain(x.leaf));
    assert !OwnsName(t, x.staging, Stage(x.dest, x.leaf));
    assert !OwnsName(t, x.staging, Active(x.dest, x.leaf));
    assert !OwnsName(t, x.staging, Retired(x.dest, x.leaf));
  }

  /** A slot on its way from nothing may go on, while the others stay. */
  lemma GoingOnMoves(a: Fs, b: Fs, c: Fs, t: Slot, touched: set<Slot>)
    requires (forall x :: x in touched ==> Moves(a, b, x))
      && (forall x :: x in touched && x != t ==> SameNames(b, c, x))
    requires PhaseOf(a, t) == Nothing && Advances(Nothing, PhaseOf(c, t))
    ensures forall x :: x in touched ==> Moves(a, c, x)
  {
    hide PhaseOf, Look;
    forall x | x in touched && x != t
      ensures Moves(a, c, x)
    {
      MovesTrans(a, b, c, x);
    }
  }

  lemma HandedBackSteps(a: Fs, b: Fs, c: Fs, t: Slot, root: Ino, touched: set<Slot>)
    requires Steps(a, b, touched) && NoClash(touched) && t in touched && root !in a && PhaseOf(a, t) == Nothing
    requires SlotFrameBut(b, c, t, root) && PhaseOf(c, t) == Published
    ensures Steps(a, c, touched)
  {
    hide PhaseOf, SameNames, KeepsNames, KeepsInodes;
    PublicationFrame(a, b, c, t, root, touched);
    forall x | x in touched && x != t
      ensures SameNames(b, c, x)
    {
      PublicationSparesOthers(b, c, t, root, x);
    }
    GoingOnMoves(a, b, c, t, touched);
  }

  lemma MarkingKeepsOthers(b: Fs, c: Fs, t: Slot, x: Slot)
    requires SlotFrame(b, c, t) && Comparable(t, x)
    ensures SameNames(b, c, x)
  {
    SlotFrameIsFrame(b, c, t);
    FrameKeepsPhase(b, c, {t}, x);
  }

  lemma BeforePublicationSteps(a: Fs, b: Fs, c: Fs, t: Slot, touched: set<Slot>)
    requires Steps(a, b, touched) && NoClash(touched) && t in touched
    requires PhaseOf(a, t) == Nothing && PhaseOf(b, t) == StagedOnly && BeforePublication(b, c, t)
    ensures Steps(a, c, touched) && Unpublished(PhaseOf(c, t))
  {
    hide KeepsNames, KeepsInodes, SameNames;
    if c != b {
      var m :| EntryAdded(b, c, t.staging, Active(t.dest, t.leaf), m);
      EntryAddedFrame(b, c, t, Active(t.dest, t.leaf), m);
      SlotFrameIsFrame(b, c, t);
      assert touched + {t} == touched;
      FrameTrans(a, b, c, touched, {t});
      forall x | x in touched && x != t
        ensures SameNames(b, c, x)
      {
        MarkingKeepsOthers(b, c, t, x);
      }
      GoingOnMoves(a, b, c, t, touched);
    }
  }

  /** Whatever happens while the staged root is published is a step of its family. */
  lemma PublicationSteps(a: Fs, b: Fs, c: Fs, t: Slot, root: Ino, r: Io<Opened>, published: Option<Opened>,
      touched: set<Slot>, euid: Uid, worker: Uid)
    requires Steps(a, b, touched) && NoClash(touched) && t in touched && root !in a && PhaseOf(a, t) == Nothing
    requires PhaseOf(b, t) == StagedOnly && PublicationOutcome(b, c, t, root, r, published, euid, worker)
    ensures Steps(a, c, touched) && PhaseOf(c, t) != Nothing
  {
    if BeforePublication(b, c, t) {
      BeforePublicationSteps(a, b, c, t, touched);
    } else {
      HandedBackSteps(a, b, c, t, root, touched);
    }
  }

  lemma RootStagedSteps(a: Fs, b: Fs, t: Slot, root: Ino)
    requires PhaseOf(a, t) == Nothing && DirectoryMade(a, b, t.staging, Stage(t.dest, t.leaf), root)
    ensures Steps(a, b, {t}) && PhaseOf(b, t) == StagedOnly && Staged(b, t) == Some(root)
  {
    StagedIsStagedOnly(a, b, t, root);
    SlotStepIsStep(a, b, t);
  }

  lemma FamilyStepsTrans(a: Fs, b: Fs, c: Fs, t: Slot, root: Ino)
    requires Steps(a, b, {t}) && Steps(b, c, ChildSlots(t.staging, root))
    ensures Steps(a, c, Family(t, root))
  {
    FamilyDoesNotClash(t, root);
    StepsTrans(a, b, c, {t}, ChildSlots(t.staging, root));
  }

  lemma ChildrenSpareRoot(b: Fs, c: Fs, t: Slot, root: Ino)
    requires t.staging == t.dest && root != t.dest && Frame(b, c, ChildSlots(t.staging, root)) && IsDirectory(b, root)
    ensures PhaseOf(c, t) == PhaseOf(b, t) && Staged(c, t) == Staged(b, t) && IsDirectory(c, root)
  {
    FrameKeepsPhase(b, c, ChildSlots(t.staging, root), t);
  }

  lemma NoMarkersNoPhase(fs: Fs, p: Ino, x: Slot)
    requires IsDirectory(fs, p) && !MarkerBeside(fs, p) && x.staging == p
    ensures ActiveMarker(fs, x) == None && RetiredMarker(fs, x) == None
  {
  }

  lemma OrphanSteps(a: Fs, w: Fs, t: Slot, root: Ino, i: Ino)
    requires root !in a && DirectoryMade(a, w, t.staging, Stage(root, CHILD_NAMES[0]), i)
    requires ActiveMarker(a, ChildSlot(t.staging, root, 0)) == None
      && RetiredMarker(a, ChildSlot(t.staging, root, 0)) == None
    ensures Steps(a, w, Family(t, root))
  {
    var x := ChildSlot(t.staging, root, 0);
    StagedIsStagedOnly(a, w, x, i);
    SlotStepIsStep(a, w, x);
    FamilyDoesNotClash(t, root);
    assert {x} + Family(t, root) == Family(t, root);
    StepsWiden(a, w, {x}, Family(t, root));
  }

  /** What cleanup leaves when the children failed before any marker was made. */
  lemma CleanedUp(a: Fs, b: Fs, c: Fs, t: Slot, root: Ino)
    requires t.staging == t.dest && DirectoryMade(a, b, t.staging, Stage(t.dest, t.leaf), root)
    requires ChildrenBarelyStarted(b, c, t.staging, root) && !MarkerBeside(c, t.staging)
    ensures EmptyDirectory(c, root)
    ensures var w := WithoutStagedRoot(c, t, root);
      Steps(a, w, Family(t, root)) && (w == a || OrphanLeft(a, w, t))
  {
    hide Steps, EmptyDirectory;
    StagedRootIsEmpty(a, b, c, t, root);
    CleanupOfBareRoot(a, b, t, root);
    StepsRefl(a, Family(t, root));
    if c != b {
      var i :| DirectoryMade(b, c, t.staging, Stage(root, CHILD_NAMES[0]), i);
      CleanupLeavesOrphan(a, b, c, t, root, i);
      NoMarkersNoPhase(c, t.staging, ChildSlot(t.staging, root, 0));
      StagingMakesNoMarker(a, b, t.staging, Stage(t.dest, t.leaf), root, ChildSlot(t.staging, root, 0));
      StagingMakesNoMarker(b, c, t.staging, Stage(root, CHILD_NAMES[0]), i, ChildSlot(t.staging, root, 0));
      OrphanSteps(a, WithoutStagedRoot(c, t, root), t, root, i);
    }
  }

  lemma StagedRootIsEmpty(a: Fs, b: Fs, c: Fs, t: Slot, root: Ino)
    requires DirectoryMade(a, b, t.staging, Stage(t.dest, t.leaf), root) && ChildrenBarelyStarted(b, c, t.staging, root)
    ensures EmptyDirectory(c, root)
  {
    assert root != t.staging && b[root].children == map[];
  }

  lemma StagingMakesNoMarker(a: Fs, b: Fs, d: Ino, n: Name, i: Ino, x: Slot)
    requires DirectoryMade(a, b, d, n, i) && n.Stage? && x.staging == d
    ensures ActiveMarker(a, x) == ActiveMarker(b, x) && RetiredMarker(a, x) == RetiredMarker(b, x)
  {
  }

  /** What building a fresh root may leave behind. */
  ghost predicate RootBuilt(pre: Fs, post: Fs, t: Slot, root: Ino, r: Io<CompleteRoot>, euid: Uid) {
    && root !in pre && Steps(pre, post, Family(t, root))
    && (r.Done? ==>
        && r.value.root.ino == root && IsDirectory(post, root) && Look(post, root, RecordFile) == None
        && CreatedHere(post, t, r.value.root, euid)
        && r.value.children.Some? && AllCreatedHere(post, t.staging, root, r.value.children.value, euid)
        && ChildrenWereNothing(pre, t.staging, root))
    && (r.Failed? && PhaseOf(post, t) == Nothing ==> post == pre || OrphanLeft(pre, post, t))
  }

  ghost predicate RootOutcome(pre: Fs, post: Fs, t: Slot, r: Io<CompleteRoot>, euid: Uid) {
    (post == pre && !r.Done?) || exists root :: RootBuilt(pre, post, t, root, r, euid)
  }

  /** The failing branch: the children of a fresh root could not all be created. */
  method AbandonFreshRoot(disk: Disk, ghost pre: Fs, ghost staging: Fs, t: Slot, staged: StagedDirectory, error: Error)
    returns (r: Io<CompleteRoot>)
    requires t.staging == t.dest && IsDirectory(disk.fs, t.staging) && staged.created
    requires DirectoryMade(pre, staging, t.staging, Stage(t.dest, t.leaf), staged.ino)
    requires Steps(pre, disk.fs, Family(t, staged.ino)) && PhaseOf(disk.fs, t) == StagedOnly
    requires ActiveMarker(disk.fs, ChildSlot(t.staging, staged.ino, 0)) == None ==>
      ChildrenBarelyStarted(staging, disk.fs, t.staging, staged.ino)
    modifies disk
    ensures KeepsTree(old(disk.fs), disk.fs)
    ensures !r.Done? && Steps(pre, disk.fs, Family(t, staged.ino))
    ensures r.Failed? && PhaseOf(disk.fs, t) == Nothing ==> disk.fs == pre || OrphanLeft(pre, disk.fs, t)
  {
    hide Tree;
    ghost var before := disk.fs;
    ghost var clean := !MarkerBeside(before, t.staging);
    if clean {
      NoMarkersNoPhase(before, t.staging, ChildSlot(t.staging, staged.ino, 0));
      CleanedUp(pre, staging, before, t, staged.ino);
    }
    var failure := FailAfterCleanup(disk, t, staged, error);
    assert !clean ==> disk.fs == before;
    r := failure.PropagateFailure();
  }

  lemma RootHandedBackIsHere(a: Fs, b: Fs, c: Fs, t: Slot, root: Ino, o: Opened, euid: Uid, worker: Uid)
    requires HandedBack(b, c, t, root, o, euid, worker)
    requires IsDirectory(a, root) && a[root].children == map[] && Frame(a, b, ChildSlots(t.staging, root))
    ensures CreatedHere(c, t, o, euid) && o.ino == root && IsDirectory(c, root) && Look(c, root, RecordFile) == None
  {
    assert !Owned(ChildSlots(t.staging, root), root, RecordFile);
    assert Look(b, root, RecordFile) == Look(a, root, RecordFile);
  }

  lemma ChildrenAreHere(a: Fs, b: Fs, c: Fs, t: Slot, root: Ino, kids: seq<Opened>, handle: Opened, euid: Uid,
      worker: Uid)
    requires |kids| == |CHILD_NAMES| && ChildrenSoFar(a, b, t.staging, root, kids, euid, worker)
    requires IsDirectory(a, root) && a[root].children == map[] && root != t.dest && t.staging in a && t.dest in a
    requires HandedBack(b, c, t, root, handle, euid, worker)
    ensures AllCreatedHere(c, t.staging, root, kids, euid)
  {
    forall j | 0 <= j < |kids|
      ensures CreatedHere(c, ChildSlot(t.staging, root, j), kids[j], euid)
    {
      var x := ChildSlot(t.staging, root, j);
      assert Destination(a, x) == None;
      assert ChildHeld(a, b, x, kids[j], euid, worker);
      ChildSurvivesPublication(a, b, c, t, root, x, kids[j], handle, euid, worker);
    }
  }

  /** The markers of a new root and of its children record their creation for `worker`, and
      the directories are handed over, the root's only in part. */
  ghost predicate RootVouched(fs: Fs, t: Slot, made: CompleteRoot, euid: Uid, worker: Uid) {
    && Vouched(t, made.root, worker) && StagedSecure(fs, made.root.ino, euid, worker)
    && made.children.Some? && KidsVouched(fs, t.staging, made.root.ino, made.children.value, worker)
  }

  ghost predicate KidsVouched(fs: Fs, p: Ino, root: Ino, kids: seq<Opened>, worker: Uid) {
    && |kids| == |CHILD_NAMES|
    && forall j :: 0 <= j < |kids| ==>
         Vouched(ChildSlot(p, root, j), kids[j], worker) && SecureDirectory(fs, kids[j].ino, worker)
  }

  lemma NewKidsVouched(a: Fs, b: Fs, c: Fs, t: Slot, root: Ino, kids: seq<Opened>, euid: Uid, worker: Uid)
    requires |kids| == |CHILD_NAMES| && ChildrenSoFar(a, b, t.staging, root, kids, euid, worker)
    requires EmptyDirectory(a, root) && root != t.staging && SlotFrameBut(b, c, t, root)
    ensures KidsVouched(c, t.staging, root, kids, worker)
  {
    hide StillActive;
    forall j | 0 <= j < |kids|
      ensures Vouched(ChildSlot(t.staging, root, j), kids[j], worker) && SecureDirectory(c, kids[j].ino, worker)
    {
      assert ChildHeld(a, b, ChildSlot(t.staging, root, j), kids[j], euid, worker);
    }
  }

  /** Every reserved name in `p` belongs to a directory that exists. */
  predicate NoOrphansIn(fs: Fs, p: Ino)
    requires IsDirectory(fs, p)
  {
    forall n :: n in fs[p].children && (n.Stage? || n.Active? || n.Retired?) ==> n.parent in fs
  }

  /** Beside a fresh root nothing stands for its children, unless an earlier directory of
      the same inode number left it. */
  lemma FreshRootIsClear(pre: Fs, staging: Fs, t: Slot, root: Ino)
    requires t.staging == t.dest && DirectoryMade(pre, staging, t.staging, Stage(t.dest, t.leaf), root)
    requires NoOrphansIn(pre, t.staging)
    ensures ChildrenWereNothing(staging, t.staging, root)
  {
    var p := t.staging;
    forall n | n in staging[p].children && (n.Stage? || n.Active? || n.Retired?)
      ensures n.parent != root
    {
      assert n in pre[p].children || n == Stage(t.dest, t.leaf);
    }
    forall j | 0 <= j < |CHILD_NAMES|
      ensures PhaseOf(staging, ChildSlot(p, root, j)) == Nothing
    {
    }
  }

  lemma NothingIsOpenable(fs: Fs, p: Ino, root: Ino, euid: Uid, worker: Uid)
    requires ChildrenWereNothing(fs, p, root) && Permitted(euid, worker)
    ensures AllOpenable(fs, p, root, euid, worker)
  {
    hide PhaseOf, Reopenable;
  }

  /** A call that dies or fails after staging the root, and before anything else. */
  lemma StagedRootIsOutcome(pre: Fs, post: Fs, t: Slot, i: Ino, r: Io<CompleteRoot>, euid: Uid)
    requires PhaseOf(pre, t) == Nothing && DirectoryMade(pre, post, t.staging, Stage(t.dest, t.leaf), i) && !r.Done?
    ensures RootBuilt(pre, post, t, i, r, euid)
  {
    hide Steps;
    RootStagedSteps(pre, post, t, i);
    StepsRefl(post, ChildSlots(t.staging, i));
    FamilyStepsTrans(pre, post, post, t, i);
  }

  /** create_or_open_complete_worker_root after a fresh root was staged. */
  method BuildFreshRoot(disk: Disk, ghost pre: Fs, t: Slot, staged: StagedDirectory, euid: Uid, worker: Uid)
    returns (r: Io<CompleteRoot>)
    requires t.staging == t.dest && IsDirectory(disk.fs, t.staging) && IsDirectory(disk.fs, staged.ino)
      && staged.created
    requires PhaseOf(pre, t) == Nothing && DirectoryMade(pre, disk.fs, t.staging, Stage(t.dest, t.leaf), staged.ino)
    requires SecureDirectory(disk.fs, staged.ino, euid)
    modifies disk
    ensures KeepsTree(old(disk.fs), disk.fs)
    ensures RootBuilt(pre, disk.fs, t, staged.ino, r, euid)
    ensures r.Done? ==> RootVouched(disk.fs, t, r.value, euid, worker)
    ensures (disk.faultFree && Permitted(euid, worker) && ChildrenWereNothing(old(disk.fs), t.staging, staged.ino)) ==>
      r.Done?
  {
    hide Tree, ChildrenSoFar, AllOpenable, ChildrenWereNothing, RootVouched, AllCreatedHere, CreatedHere,
      AllOpenedAlone, PhaseOf, OrphanLeft, NoClash, KeepsNames;
    ghost var staging := disk.fs;
    var p, root := t.staging, staged.ino;
    if Permitted(euid, worker) && ChildrenWereNothing(staging, p, root) {
      NothingIsOpenable(staging, p, root, euid, worker);
    }
    RootStagedSteps(pre, staging, t, root);
    var found := RecoveryAuthority(disk, t, staged, euid, worker);
    if found.IsFailure() {
      StagedRootIsOutcome(pre, staging, t, root, found.PropagateFailure(), euid);
    }
    var authority :- found;
    var children := OpenOrCreateChildren(disk, p, root, euid, worker, !staged.created, authority);
    FamilyStepsTrans(pre, staging, disk.fs, t, root);
    ChildrenSpareRoot(staging, disk.fs, t, root);
    match children {
      case Crashed =>
        return Crashed;
      case Failed(error) =>
        r := AbandonFreshRoot(disk, pre, staging, t, staged, error);
      case Done(kids) =>
        r := PublishFreshRoot(disk, pre, staging, t, staged, kids, euid, worker);
    }
  }

  /** Its last step, once every child exists. */
  method PublishFreshRoot(disk: Disk, ghost pre: Fs, ghost staging: Fs, t: Slot, staged: StagedDirectory,
      kids: seq<Opened>, euid: Uid, worker: Uid)
    returns (r: Io<CompleteRoot>)
    requires t.staging == t.dest && IsDirectory(disk.fs, t.staging) && IsDirectory(disk.fs, staged.ino)
      && staged.created
    requires PhaseOf(pre, t) == Nothing && staged.ino !in pre && staged.ino != t.dest
    requires Steps(pre, disk.fs, Family(t, staged.ino)) && PhaseOf(disk.fs, t) == StagedOnly
      && Staged(disk.fs, t) == Some(staged.ino)
    requires Steps(staging, disk.fs, ChildSlots(t.staging, staged.ino))
    requires DirectoryMade(pre, staging, t.staging, Stage(t.dest, t.leaf), staged.ino)
    requires |kids| == |CHILD_NAMES| && ChildrenSoFar(staging, disk.fs, t.staging, staged.ino, kids, euid, worker)
    modifies disk
    ensures KeepsTree(old(disk.fs), disk.fs)
    ensures RootBuilt(pre, disk.fs, t, staged.ino, r, euid)
    ensures r.Done? ==> RootVouched(disk.fs, t, r.value, euid, worker)
    ensures (disk.faultFree && Permitted(euid, worker) && SecureDirectory(old(disk.fs), staged.ino, euid)) ==> r.Done?
  {
    hide Tree;
    ghost var before := disk.fs;
    var result, published := Publish(disk, t, staged, euid, worker, true);
    FamilyDoesNotClash(t, staged.ino);
    PublicationSteps(pre, before, disk.fs, t, staged.ino, result, published, Family(t, staged.ino), euid, worker);
    var handle :- result;
    NewChildrenWereNothing(pre, staging, before, t, staged.ino, kids, euid, worker);
    RootHandedBackIsHere(staging, before, disk.fs, t, staged.ino, handle, euid, worker);
    ChildrenAreHere(staging, before, disk.fs, t, staged.ino, kids, handle, euid, worker);
    NewKidsVouched(staging, before, disk.fs, t, staged.ino, kids, euid, worker);
    return Done(CompleteRoot(handle, Some(kids)));
  }

  /** create_or_open_complete_worker_root on a root that an interrupted run left staged:
      it is refused, for every pair of uids, though a creator distinct from the worker may
      first create children inside it. */
  method ResumeStagedRoot(disk: Disk, t: Slot, staged: StagedDirectory, euid: Uid, worker: Uid)
    returns (r: Io<CompleteRoot>)
    requires t.staging == t.dest && IsDirectory(disk.fs, t.staging) && IsDirectory(disk.fs, staged.ino)
      && staged.ino != t.dest
    requires !staged.created && PhaseOf(disk.fs, t) == StagedOnly && Staged(disk.fs, t) == Some(staged.ino)
    modifies disk
    ensures KeepsTree(old(disk.fs), disk.fs)
    ensures !r.Done? && Steps(old(disk.fs), disk.fs, ChildSlots(t.staging, staged.ino))
      && PhaseOf(disk.fs, t) == StagedOnly
    ensures euid == worker ==> disk.fs == old(disk.fs)
  {
    hide Tree;
    ghost var before := disk.fs;
    var authority :- RecoveryAuthority(disk, t, staged, euid, worker);
    var children := OpenOrCreateChildren(disk, t.staging, staged.ino, euid, worker, !staged.created, authority);
    ChildrenSpareRoot(before, disk.fs, t, staged.ino);
    var _ :- children;
    var result, published := Publish(disk, t, staged, euid, worker, true);
    return result.PropagateFailure();
  }

  /** create_or_open_complete_worker_root. A directory is never an entry of itself. */
  method CompleteRootAt(disk: Disk, t: Slot, euid: Uid, worker: Uid) returns (r: Io<CompleteRoot>)
    requires t.staging == t.dest && IsDirectory(disk.fs, t.dest) && Staged(disk.fs, t) != Some(t.dest)
    modifies disk
    ensures KeepsTree(old(disk.fs), disk.fs)
    ensures Destination(old(disk.fs), t).Some? ==>
      && disk.fs == old(disk.fs)
      && (r.Done? ==>
          && r.value == CompleteRoot(Opened(Destination(disk.fs, t).value, false, None), None)
          && ActiveMarker(disk.fs, t) == None && SecureDirectory(disk.fs, r.value.root.ino, worker)
          && Reopenable(disk.fs, t, euid, worker, true))
    ensures PhaseOf(old(disk.fs), t) == Nothing ==> RootOutcome(old(disk.fs), disk.fs, t, r, euid)
    ensures PhaseOf(old(disk.fs), t) == StagedOnly ==>
      !r.Done? && Steps(old(disk.fs), disk.fs, ChildSlots(t.staging, Staged(old(disk.fs), t).value))
    ensures (Pending(old(disk.fs), t) ==> !r.Done?)
      && (r.Done? ==> PhaseOf(old(disk.fs), t) == Nothing || Destination(old(disk.fs), t).Some?)
    ensures PhaseOf(old(disk.fs), t) != Nothing && (PhaseOf(old(disk.fs), t) != StagedOnly || euid == worker) ==>
      disk.fs == old(disk.fs)
    ensures r.Done? && PhaseOf(old(disk.fs), t) == Nothing ==> RootVouched(disk.fs, t, r.value, euid, worker)
    ensures disk.faultFree && Reopenable(old(disk.fs), t, euid, worker, true) ==> r.Done?
    ensures (disk.faultFree && PhaseOf(old(disk.fs), t) == Nothing && Permitted(euid, worker)
             && NoOrphansIn(old(disk.fs), t.staging)) ==> r.Done?
  {
    hide Tree;
    ghost var pre := disk.fs;
    var found := disk.OpenDirectory(t.dest, Plain(t.leaf));
    match found {
      case Crashed => return Crashed;
      case Done(d) =>
        var o :- OpenPublished(disk, t, d, euid, worker, true, None);
        return Done(CompleteRoot(o, None));
      case Failed(error) =>
        if error != NotFound {
          return Failed(error);
        }
        r := CreateAbsentRoot(disk, t, euid, worker);
    }
  }

  /** Its branch for a root that is absent. */
  method CreateAbsentRoot(disk: Disk, t: Slot, euid: Uid, worker: Uid) returns (r: Io<CompleteRoot>)
    requires t.staging == t.dest && IsDirectory(disk.fs, t.dest) && Staged(disk.fs, t) != Some(t.dest)
    requires Destination(disk.fs, t) == None
    modifies disk
    ensures KeepsTree(old(disk.fs), disk.fs)
    ensures PhaseOf(old(disk.fs), t) == Nothing ==> RootOutcome(old(disk.fs), disk.fs, t, r, euid)
    ensures PhaseOf(old(disk.fs), t) == StagedOnly ==>
      && !r.Done? && Steps(old(disk.fs), disk.fs, ChildSlots(t.staging, Staged(old(disk.fs), t).value))
      && (euid == worker ==> disk.fs == old(disk.fs))
    ensures PhaseOf(old(disk.fs), t) != Nothing && PhaseOf(old(disk.fs), t) != StagedOnly ==>
      disk.fs == old(disk.fs) && !r.Done?
    ensures r.Done? ==> RootVouched(disk.fs, t, r.value, euid, worker)
    ensures (disk.faultFree && PhaseOf(old(disk.fs), t) == Nothing && Permitted(euid, worker)
             && NoOrphansIn(old(disk.fs), t.staging)) ==> r.Done?
  {
    hide Tree, RootBuilt, RootVouched, NoOrphansIn, ChildrenWereNothing, Steps;
    ghost var pre := disk.fs;
    if Staged(pre, t).Some? {
      StepsRefl(pre, ChildSlots(t.staging, Staged(pre, t).value));
    }
    :- disk.Sys();
    if ActiveMarker(disk.fs, t).Some? || RetiredMarker(disk.fs, t).Some? {
      return Failed(Refused);
    }
    var candidate := CreateUnpublished(disk, t, euid, worker, true);
    if disk.fs != pre {
      ghost var i :| DirectoryMade(pre, disk.fs, t.staging, Stage(t.dest, t.leaf), i);
      if candidate.IsFailure() {
        StagedRootIsOutcome(pre, disk.fs, t, i, candidate.PropagateFailure(), euid);
      }
    }
    var staged :- candidate;
    if staged.created {
      if NoOrphansIn(pre, t.staging) {
        FreshRootIsClear(pre, disk.fs, t, staged.ino);
      }
      r := BuildFreshRoot(disk, pre, t, staged, euid, worker);
    } else {
      r := ResumeStagedRoot(disk, t, staged, euid, worker);
    }
  }
}
