/** The three entry points that work on one node of a layout: inspect, create, retire. */
module WorkerAction {
  import opened Wrappers
  import opened WorkerFs
  import opened WorkerTree
  import opened WorkerDisk
  import opened WorkerNode
  import opened WorkerRetirement
  import opened WorkerEvidence
  import opened Permissions

  /** A worker layout: the components of the root's absolute path, walked from `top`, the
      directory "/". Components before `firstCreatable` must exist; the others but the last
      are support directories; the last one is the worker root. */
  datatype Layout = Layout(top: Ino, components: seq<Leaf>, firstCreatable: nat)

  predicate ValidLayout(l: Layout) {
    l.firstCreatable < |l.components|
  }

  datatype Node = Support(ordinal: nat) | Root | Child(index: nat)

  datatype Location = Location(slot: Slot, canonical: bool)

  // ---------------------------------------------------------------- locating a node

  /** Opening `components` one below the other from `d`, every directory on the way,
      `d` included, being an acceptable ancestor. */
  function WalkFrom(fs: Fs, d: Ino, components: seq<Leaf>, euid: Uid, worker: Uid): Io<Ino>
    decreases |components|
  {
    if !AncestorAcceptable(fs, d, euid, worker) then Failed(Refused)
    else if components == [] then Done(d)
    else
      match Look(fs, d, Plain(components[0]))
      case None => Failed(NotFound)
      case Some(i) =>
        if IsDirectory(fs, i) then WalkFrom(fs, i, components[1..], euid, worker) else Failed(Refused)
  }

  // ---------------------------------------------------------------- trusted paths

  ghost predicate TrustedAt(fs: Fs, at: Option<Ino>, euid: Uid, worker: Uid) {
    at.Some? && IsDirectory(fs, at.value) && Trustworthy(fs[at.value].attr, euid, worker)
  }

  /** Every directory on the way from `d`, both ends included, is one below which `euid` may
      create something for `worker`. */
  ghost predicate TrustedPath(fs: Fs, d: Ino, components: seq<Leaf>, euid: Uid, worker: Uid) {
    forall i :: 0 <= i <= |components| ==> TrustedAfter(fs, d, components, i, euid, worker)
  }

  ghost predicate TrustedAfter(fs: Fs, d: Ino, components: seq<Leaf>, i: nat, euid: Uid, worker: Uid)
    requires i <= |components|
  {
    TrustedAt(fs, Resolve(fs, d, components[..i]), euid, worker)
  }

  /** The test on an ancestor refuses exactly the directories that are not trustworthy. */
  lemma AcceptableIff(fs: Fs, d: Ino, euid: Uid, worker: Uid)
    ensures AncestorAcceptable(fs, d, euid, worker) <==> TrustedAt(fs, Some(d), euid, worker)
  {
    if IsDirectory(fs, d) {
      var a := fs[d].attr;
      OthersMayWriteMeans(a.mode);
      if !a.accessAcl && (a.owner == ROOT_UID || a.owner == worker) && (a.owner == worker ==> worker == euid) {
        TrustedUnlessWritable(a, euid, worker);
      }
    }
  }

  lemma TrustedUnlessWritable(a: Attr, euid: Uid, worker: Uid)
    requires !a.accessAcl && (a.owner == ROOT_UID || a.owner == worker) && (a.owner == worker ==> worker == euid)
    ensures Trustworthy(a, euid, worker) <==>
      (Grants(a.mode, Group, Writing) || Grants(a.mode, Others, Writing) ==> a.owner == ROOT_UID && a.mode.sticky)
  {
  }

  /** A walk succeeds exactly along a trusted path, and ends where the path leads. */
  lemma {:induction false} WalkDoneIff(fs: Fs, d: Ino, components: seq<Leaf>, euid: Uid, worker: Uid)
    ensures WalkFrom(fs, d, components, euid, worker).Done? <==> TrustedPath(fs, d, components, euid, worker)
    ensures WalkFrom(fs, d, components, euid, worker).Done? ==>
      Resolve(fs, d, components) == Some(WalkFrom(fs, d, components, euid, worker).value)
    decreases |components|
  {
    hide AncestorAcceptable, Trustworthy, TrustedPath;
    AcceptableIff(fs, d, euid, worker);
    TrustedPathUnfolds(fs, d, components, euid, worker);
    if components != [] && Look(fs, d, Plain(components[0])).Some? {
      WalkDoneIff(fs, Look(fs, d, Plain(components[0])).value, components[1..], euid, worker);
      TrustedPathUnfolds(fs, Look(fs, d, Plain(components[0])).value, components[1..], euid, worker);
    }
  }

  lemma TrustedPathUnfolds(fs: Fs, d: Ino, components: seq<Leaf>, euid: Uid, worker: Uid)
    ensures TrustedPath(fs, d, components, euid, worker) <==>
      && TrustedAt(fs, Some(d), euid, worker)
      && (components != [] ==>
          && Look(fs, d, Plain(components[0])).Some?
          && TrustedPath(fs, Look(fs, d, Plain(components[0])).value, components[1..], euid, worker))
  {
    hide Trustworthy;
    assert TrustedAfter(fs, d, components, 0, euid, worker) <==> TrustedAt(fs, Some(d), euid, worker);
    if components != [] {
      var next, rest := Look(fs, d, Plain(components[0])), components[1..];
      forall i | 0 < i <= |components|
        ensures TrustedAfter(fs, d, components, i, euid, worker) <==>
          next.Some? && TrustedAfter(fs, next.value, rest, i - 1, euid, worker)
      {
        assert components[..i][1..] == rest[..i - 1];
      }
      if next.Some? && TrustedPath(fs, d, components, euid, worker) {
        forall i | 0 <= i <= |rest|
          ensures TrustedAfter(fs, next.value, rest, i, euid, worker)
        {
          assert TrustedAfter(fs, d, components, i + 1, euid, worker);
        }
      }
      assert TrustedPath(fs, d, components, euid, worker) ==> TrustedAfter(fs, d, components, 1, euid, worker);
    }
  }

  /** Trusted directories lead up to the component `k`, which does not exist. */
  ghost predicate MissingAfter(fs: Fs, d: Ino, components: seq<Leaf>, k: nat, euid: Uid, worker: Uid)
    requires k < |components|
  {
    TrustedPath(fs, d, components[..k], euid, worker) && Resolve(fs, d, components[..k + 1]) == None
  }

  ghost predicate PathMissing(fs: Fs, d: Ino, components: seq<Leaf>, euid: Uid, worker: Uid) {
    exists k :: 0 <= k < |components| && MissingAfter(fs, d, components, k, euid, worker)
  }

  /** A walk reports a missing path exactly if everything before the gap is trusted, and
      refuses every other path that is not trusted. */
  lemma {:induction false} WalkMissingIff(fs: Fs, d: Ino, components: seq<Leaf>, euid: Uid, worker: Uid)
    ensures WalkFrom(fs, d, components, euid, worker) == Failed(NotFound) <==>
      PathMissing(fs, d, components, euid, worker)
    ensures !TrustedPath(fs, d, components, euid, worker) && !PathMissing(fs, d, components, euid, worker) <==>
      WalkFrom(fs, d, components, euid, worker) == Failed(Refused)
    decreases |components|
  {
    hide AncestorAcceptable, Trustworthy, TrustedPath, PathMissing;
    WalkDoneIff(fs, d, components, euid, worker);
    AcceptableIff(fs, d, euid, worker);
    PathMissingUnfolds(fs, d, components, euid, worker);
    if components != [] && Look(fs, d, Plain(components[0])).Some? {
      var next := Look(fs, d, Plain(components[0])).value;
      AcceptableIff(fs, next, euid, worker);
      WalkDoneIff(fs, next, components[1..], euid, worker);
      WalkMissingIff(fs, next, components[1..], euid, worker);
      PathMissingUnfolds(fs, next, components[1..], euid, worker);
    }
  }

  lemma PathMissingUnfolds(fs: Fs, d: Ino, components: seq<Leaf>, euid: Uid, worker: Uid)
    ensures PathMissing(fs, d, components, euid, worker) <==>
      && TrustedAt(fs, Some(d), euid, worker) && components != []
      && var next := Look(fs, d, Plain(components[0]));
         next == None || PathMissing(fs, next.value, components[1..], euid, worker)
  {
    hide Trustworthy, TrustedPath;
    if components != [] {
      var next, rest := Look(fs, d, Plain(components[0])), components[1..];
      forall k | 0 <= k < |components|
        ensures MissingAfter(fs, d, components, k, euid, worker) <==>
          && TrustedAt(fs, Some(d), euid, worker)
          && if k == 0 then next == None
             else next.Some? && MissingAfter(fs, next.value, rest, k - 1, euid, worker)
      {
        MissingAfterUnfolds(fs, d, components, k, euid, worker);
      }
      if TrustedAt(fs, Some(d), euid, worker) {
        assert next == None ==> MissingAfter(fs, d, components, 0, euid, worker);
        if next.Some? && PathMissing(fs, next.value, rest, euid, worker) {
          var k :| 0 <= k < |rest| && MissingAfter(fs, next.value, rest, k, euid, worker);
          assert MissingAfter(fs, d, components, k + 1, euid, worker);
        }
      }
    }
  }

  lemma MissingAfterUnfolds(fs: Fs, d: Ino, components: seq<Leaf>, k: nat, euid: Uid, worker: Uid)
    requires k < |components|
    ensures MissingAfter(fs, d, components, k, euid, worker) <==>
      && TrustedAt(fs, Some(d), euid, worker)
      && var next := Look(fs, d, Plain(components[0]));
         if k == 0 then next == None
         else next.Some? && MissingAfter(fs, next.value, components[1..], k - 1, euid, worker)
  {
    hide TrustedAt, TrustedPath;
    TrustedPathUnfolds(fs, d, components[..k], euid, worker);
    assert components[..k + 1][1..] == components[1..][..k];
    var next := Look(fs, d, Plain(components[0]));
    if k == 0 {
      assert Resolve(fs, d, components[..1]) ==
        if next.Some? then Resolve(fs, next.value, components[1..][..0]) else None;
    } else {
      assert components[..k][1..] == components[1..][..k - 1];
    }
  }

  /** worker_node_location */
  function LocationOf(fs: Fs, l: Layout, node: Node, euid: Uid, worker: Uid): Io<Location>
    requires ValidLayout(l)
  {
    var last := |l.components| - 1;
    match node
    case Support(ordinal) =>
      var at := l.firstCreatable + ordinal;
      if at >= last then Failed(Refused)
      else
        var parent :- WalkFrom(fs, l.top, l.components[..at], euid, worker);
        Done(Location(Slot(parent, parent, l.components[at]), false))
    case Root =>
      var parent :- WalkFrom(fs, l.top, l.components[..last], euid, worker);
      Done(Location(Slot(parent, parent, l.components[last]), true))
    case Child(index) =>
      if index >= |CHILD_NAMES| then Failed(Refused)
      else
        var parent :- WalkFrom(fs, l.top, l.components[..last], euid, worker);
        match Look(fs, parent, Plain(l.components[last]))
        case None => Failed(NotFound)
        case Some(root) =>
          if SecureDirectory(fs, root, worker) then Done(Location(Slot(parent, root, CHILD_NAMES[index]), true))
          else Failed(Refused)
  }

  /** Where the walk to a node's parent ends. */
  function Cut(l: Layout, node: Node): nat
    requires ValidLayout(l)
  {
    if node.Support? then l.firstCreatable + node.ordinal else |l.components| - 1
  }

  predicate IsNode(l: Layout, node: Node)
    requires ValidLayout(l)
  {
    match node
    case Support(ordinal) => l.firstCreatable + ordinal < |l.components| - 1
    case Root => true
    case Child(index) => index < |CHILD_NAMES|
  }

  /** A node is located exactly if the path to its parent is trusted and, for a child, the
      root is private to the worker; nothing else but a missing directory on the way, or a
      missing root, is reported as missing. */
  lemma LocationMeans(fs: Fs, l: Layout, node: Node, euid: Uid, worker: Uid)
    requires ValidLayout(l)
    ensures var r := LocationOf(fs, l, node, euid, worker);
      && (r.Done? || r == Failed(NotFound) || r == Failed(Refused))
      && (IsNode(l, node) ==>
          var way := l.components[..Cut(l, node)];
          && (!TrustedPath(fs, l.top, way, euid, worker) ==>
              r == Failed(if PathMissing(fs, l.top, way, euid, worker) then NotFound else Refused))
          && (TrustedPath(fs, l.top, way, euid, worker) ==>
              && Resolve(fs, l.top, way).Some?
              && LocatedBelow(fs, l, node, Resolve(fs, l.top, way).value, worker, r)))
  {
    hide TrustedPath, PathMissing, Resolve, WalkFrom, SecureDirectory, PrivateTo;
    if IsNode(l, node) {
      var way := l.components[..Cut(l, node)];
      WalkDoneIff(fs, l.top, way, euid, worker);
      WalkMissingIff(fs, l.top, way, euid, worker);
      if TrustedPath(fs, l.top, way, euid, worker) && node.Child? {
        var root := Look(fs, Resolve(fs, l.top, way).value, Plain(l.components[|l.components| - 1]));
        if root.Some? {
          SecureDirectoryIff(fs, root.value, worker);
        }
      }
    }
  }

  ghost predicate LocatedBelow(fs: Fs, l: Layout, node: Node, parent: Ino, worker: Uid, r: Io<Location>)
    requires ValidLayout(l) && IsNode(l, node)
  {
    match node
    case Support(_) => r == Done(Location(Slot(parent, parent, l.components[Cut(l, node)]), false))
    case Root => r == Done(Location(Slot(parent, parent, l.components[Cut(l, node)]), true))
    case Child(index) =>
      match Look(fs, parent, Plain(l.components[Cut(l, node)]))
      case None => r == Failed(NotFound)
      case Some(root) =>
        if IsDirectory(fs, root) && PrivateTo(fs[root].attr, worker) then
          r == Done(Location(Slot(parent, root, CHILD_NAMES[index]), true))
        else r == Failed(Refused)
  }

  /** A located node names live directories. */
  lemma LocationIsLive(fs: Fs, l: Layout, node: Node, euid: Uid, worker: Uid)
    requires ValidLayout(l) && LocationOf(fs, l, node, euid, worker).Done?
    ensures var t := LocationOf(fs, l, node, euid, worker).value.slot;
      IsDirectory(fs, t.staging) && IsDirectory(fs, t.dest)
  {
    var last := |l.components| - 1;
    var cut := if node.Support? then l.firstCreatable + node.ordinal else last;
    WalkEndsAcceptably(fs, l.top, l.components[..cut], euid, worker);
  }

  lemma {:induction false} WalkEndsAcceptably(fs: Fs, d: Ino, components: seq<Leaf>, euid: Uid, worker: Uid)
    requires WalkFrom(fs, d, components, euid, worker).Done?
    ensures AncestorAcceptable(fs, WalkFrom(fs, d, components, euid, worker).value, euid, worker)
    decreases |components|
  {
    if components != [] {
      WalkEndsAcceptably(fs, Look(fs, d, Plain(components[0])).value, components[1..], euid, worker);
    }
  }

  /** Nothing on a path is lost or replaced, and no inode changes its attributes. */
  ghost predicate KeepsPaths(pre: Fs, post: Fs) {
    && KeepsInodes(pre, post)
    && forall d, leaf :: Look(pre, d, Plain(leaf)).Some? ==> Look(post, d, Plain(leaf)) == Look(pre, d, Plain(leaf))
  }

  lemma {:induction false} WalkKept(pre: Fs, post: Fs, d: Ino, components: seq<Leaf>, euid: Uid, worker: Uid)
    requires KeepsPaths(pre, post) && WalkFrom(pre, d, components, euid, worker).Done?
    ensures WalkFrom(post, d, components, euid, worker) == WalkFrom(pre, d, components, euid, worker)
    decreases |components|
  {
    if components != [] {
      WalkKept(pre, post, Look(pre, d, Plain(components[0])).value, components[1..], euid, worker);
    }
  }

  /** A node is located again at the same slot. */
  lemma LocationKept(pre: Fs, post: Fs, l: Layout, node: Node, euid: Uid, worker: Uid)
    requires ValidLayout(l) && KeepsPaths(pre, post) && LocationOf(pre, l, node, euid, worker).Done?
    ensures LocationOf(post, l, node, euid, worker) == LocationOf(pre, l, node, euid, worker)
  {
    var last := |l.components| - 1;
    var cut := if node.Support? then l.firstCreatable + node.ordinal else last;
    WalkKept(pre, post, l.top, l.components[..cut], euid, worker);
  }

  /** Creating a node, or retiring its evidence, loses no path. */
  lemma SlotKeepsPaths(pre: Fs, post: Fs, t: Slot)
    requires SlotFrame(pre, post, t)
    requires Destination(pre, t) == None || Destination(post, t) == Destination(pre, t)
    ensures KeepsPaths(pre, post)
  {
  }

  /** The walk itself, one open and one check per component. */
  method Walk(disk: Disk, d: Ino, components: seq<Leaf>, euid: Uid, worker: Uid) returns (r: Io<Ino>)
    ensures r.Done? ==> WalkFrom(disk.fs, d, components, euid, worker) == r
    ensures disk.faultFree ==> r == WalkFrom(disk.fs, d, components, euid, worker)
    ensures r == Failed(NotFound) ==> WalkFrom(disk.fs, d, components, euid, worker) == r
    ensures r.Done? ==> TrustedPath(disk.fs, d, components, euid, worker)
    ensures r.Done? ==> Resolve(disk.fs, d, components) == Some(r.value)
    ensures r == Failed(NotFound) ==> PathMissing(disk.fs, d, components, euid, worker)
    ensures disk.steady && r == Failed(Refused) ==> WalkFrom(disk.fs, d, components, euid, worker) == r
    ensures disk.faultFree ==>
      && (r.Done? <==> TrustedPath(disk.fs, d, components, euid, worker))
      && (r == Failed(NotFound) <==> PathMissing(disk.fs, d, components, euid, worker))
      && (r.Done? || r == Failed(NotFound) || r == Failed(Refused))
    decreases |components|
  {
    hide TrustedPath, PathMissing, AncestorAcceptable, Resolve;
    WalkDoneIff(disk.fs, d, components, euid, worker);
    WalkMissingIff(disk.fs, d, components, euid, worker);
    var at := d;
    var i := 0;
    :- disk.Sys();
    if !AncestorAcceptable(disk.fs, at, euid, worker) {
      return Failed(Refused);
    }
    while i < |components|
      invariant 0 <= i <= |components| && AncestorAcceptable(disk.fs, at, euid, worker)
      invariant WalkFrom(disk.fs, d, components, euid, worker) == WalkFrom(disk.fs, at, components[i..], euid, worker)
    {
      var found := disk.OpenDirectory(at, Plain(components[i]));
      assert components[i..][1..] == components[i + 1..];
      at :- found;
      :- disk.Sys();
      if !AncestorAcceptable(disk.fs, at, euid, worker) {
        return Failed(Refused);
      }
      i := i + 1;
    }
    return Done(at);
  }

  method Locate(disk: Disk, l: Layout, node: Node, euid: Uid, worker: Uid) returns (r: Io<Location>)
    requires ValidLayout(l)
    ensures r.Done? ==> LocationOf(disk.fs, l, node, euid, worker) == r
    ensures r.Done? ==> IsDirectory(disk.fs, r.value.slot.staging) && IsDirectory(disk.fs, r.value.slot.dest)
    ensures disk.faultFree ==> r == LocationOf(disk.fs, l, node, euid, worker)
    ensures r == Failed(NotFound) ==> LocationOf(disk.fs, l, node, euid, worker) == r
    ensures disk.steady && r == Failed(Refused) ==> LocationOf(disk.fs, l, node, euid, worker) == r
  {
    var last := |l.components| - 1;
    var at := if node.Support? then l.firstCreatable + node.ordinal else last;
    if (node.Support? && at >= last) || (node.Child? && node.index >= |CHILD_NAMES|) {
      return Failed(Refused);
    }
    var parent :- Walk(disk, l.top, l.components[..at], euid, worker);
    WalkEndsAcceptably(disk.fs, l.top, l.components[..at], euid, worker);
    if !node.Child? {
      return Done(Location(Slot(parent, parent, l.components[at]), node.Root?));
    }
    var root :- disk.OpenDirectory(parent, Plain(l.components[last]));
    :- disk.Sys();
    if !SecureDirectory(disk.fs, root, worker) {
      return Failed(Refused);
    }
    return Done(Location(Slot(parent, root, CHILD_NAMES[node.index]), true));
  }

  // ---------------------------------------------------------------- inspection

  datatype Inspection = Absent | Healthy | Conflict | Unknowable

  /** classify_worker_directory_inspection_error */
  function Classify(error: Error): Inspection {
    match error
    case NotFound => Absent
    case Refused => Conflict
    case OsFailure => Unknowable
  }

  /** A retired marker stands, and nothing unretired. */
  predicate OnlyRetired(fs: Fs, t: Slot) {
    RetiredMarker(fs, t).Some? && Staged(fs, t) == None && ActiveMarker(fs, t) == None
  }

  /** What an undisturbed inspection of a located node reports. */
  function InspectionOf(fs: Fs, t: Slot, euid: Uid, worker: Uid, canonical: bool): Inspection {
    if Staged(fs, t).Some? || ActiveMarker(fs, t).Some? then Conflict
    else
      match (Destination(fs, t), RetiredMarker(fs, t))
      case (None, None) => Absent
      case (None, Some(_)) => Conflict
      case (Some(d), retired) =>
        if retired.Some? && ExactMarker(fs, t, Retired(t.dest, t.leaf), d, euid, worker) == None then Conflict
        else if ExistingAcceptable(fs, d, euid, worker, canonical) then Healthy
        else Conflict
  }

  /** inspect_worker_directory_node on a located node. Only reads. A failing call makes a
      node unknowable, and not a conflict, unless a retired marker stands: then a directory
      that cannot be opened counts as one that is not there. */
  method InspectLocated(disk: Disk, t: Slot, euid: Uid, worker: Uid, canonical: bool) returns (r: Io<Inspection>)
    ensures disk.faultFree ==> r == Done(InspectionOf(disk.fs, t, euid, worker, canonical))
    ensures r == Done(Healthy) ==> InspectionOf(disk.fs, t, euid, worker, canonical) == Healthy
    ensures r == Done(Absent) ==> InspectionOf(disk.fs, t, euid, worker, canonical) == Absent
    ensures disk.steady && r == Done(Conflict) ==>
      InspectionOf(disk.fs, t, euid, worker, canonical) == Conflict || OnlyRetired(disk.fs, t)
  {
    var evidence := ReservedEvidence(disk, t, euid, worker);
    if evidence.Failed? {
      return Done(Classify(evidence.error));
    }
    var reserved :- evidence;
    if reserved {
      return Done(Conflict);
    }
    var found := disk.OpenDirectory(t.dest, Plain(t.leaf));
    if found.Failed? {
      return Done(Classify(found.error));
    }
    var d :- found;
    var fate := disk.Sys();
    if fate.Dies? {
      return Crashed;
    }
    if fate.Errs? {
      return Done(Classify(fate.error));
    }
    return Done(if ExistingAcceptable(disk.fs, d, euid, worker, canonical) then Healthy else Conflict);
  }

  /** worker_node_has_reserved_evidence */
  method ReservedEvidence(disk: Disk, t: Slot, euid: Uid, worker: Uid) returns (r: Io<bool>)
    ensures r == Done(true) ==> Staged(disk.fs, t).Some? || ActiveMarker(disk.fs, t).Some?
    ensures r == Done(false) ==> Staged(disk.fs, t) == None && ActiveMarker(disk.fs, t) == None
    ensures r == Done(false) && RetiredMarker(disk.fs, t).Some? ==>
      Destination(disk.fs, t).Some?
      && ExactMarker(disk.fs, t, Retired(t.dest, t.leaf), Destination(disk.fs, t).value, euid, worker).Some?
    ensures r != Failed(NotFound)
    ensures disk.steady && r == Failed(Refused) ==> OnlyRetired(disk.fs, t)
    ensures disk.faultFree && (Staged(disk.fs, t).Some? || ActiveMarker(disk.fs, t).Some?) ==> r == Done(true)
    ensures (disk.faultFree && Staged(disk.fs, t) == None && ActiveMarker(disk.fs, t) == None
             && (RetiredMarker(disk.fs, t).Some? ==>
                 && Destination(disk.fs, t).Some?
                 && ExactMarker(disk.fs, t, Retired(t.dest, t.leaf), Destination(disk.fs, t).value, euid,
                   worker).Some?))
      ==> r == Done(false) || (Destination(disk.fs, t).Some? && !IsDirectory(disk.fs, Destination(disk.fs, t).value))
    ensures disk.faultFree ==> r.Done? || r == Failed(Refused)
  {
    var fate := disk.Sys();
    :- fate;
    if Staged(disk.fs, t).Some? || ActiveMarker(disk.fs, t).Some? {
      return Done(true);
    }
    :- disk.Sys();
    if RetiredMarker(disk.fs, t) == None {
      return Done(false);
    }
    var found := disk.OpenDirectory(t.dest, Plain(t.leaf));
    if found.Failed? {
      return Failed(Refused);
    }
    var d :- found;
    var marker := OpenRetired(disk, t, d, euid, worker);
    if marker == Done(None) {
      return Failed(Refused);
    }
    var _ :- marker;
    return Done(false);
  }

  /** inspect_worker_directory_node: a node whose parents are missing is absent. */
  method InspectNode(disk: Disk, l: Layout, node: Node, euid: Uid, worker: Uid) returns (r: Io<Inspection>)
    requires ValidLayout(l)
    ensures r == Done(Healthy) ==>
      && LocationOf(disk.fs, l, node, euid, worker).Done?
      && var at := LocationOf(disk.fs, l, node, euid, worker).value;
         InspectionOf(disk.fs, at.slot, euid, worker, at.canonical) == Healthy
    ensures r == Done(Absent) ==>
      match LocationOf(disk.fs, l, node, euid, worker)
      case Done(at) => InspectionOf(disk.fs, at.slot, euid, worker, at.canonical) == Absent
      case Failed(error) => error == NotFound
      case Crashed => false
    ensures disk.steady && r == Done(Conflict) ==>
      match LocationOf(disk.fs, l, node, euid, worker)
      case Done(at) =>
        InspectionOf(disk.fs, at.slot, euid, worker, at.canonical) == Conflict || OnlyRetired(disk.fs, at.slot)
      case Failed(error) => error == Refused
      case Crashed => false
    ensures disk.faultFree ==>
      match LocationOf(disk.fs, l, node, euid, worker)
      case Done(at) => r == Done(InspectionOf(disk.fs, at.slot, euid, worker, at.canonical))
      case Failed(error) => r == Done(if error == NotFound then Absent else Conflict)
      case Crashed => false
  {
    hide LocationOf, InspectionOf, TrustedPath, PathMissing;
    LocationMeans(disk.fs, l, node, euid, worker);
    var located := Locate(disk, l, node, euid, worker);
    if located.Failed? {
      return Done(Classify(located.error));
    }
    var at :- located;
    r := InspectLocated(disk, at.slot, euid, worker, at.canonical);
  }

  // ---------------------------------------------------------------- creation

  /** What create_worker_directory_node hands to its caller. */
  datatype NodeOutcome =
    | NodeCreated(handle: Opened)
    | NodeExisting
    | NodeFailed(error: Error, evidence: Option<Opened>)
    | NodeCrashed

  /** The outcomes that hand the caller the one right to claim the creation. */
  predicate ClaimsCreation(o: NodeOutcome) {
    o.NodeCreated? || (o.NodeFailed? && o.evidence.Some?)
  }

  /** Everything one call on the slot `t` may do, seen from outside. */
  ghost predicate NodeStep(pre: Fs, post: Fs, t: Slot, o: NodeOutcome) {
    && SlotFrame(pre, post, t)
    && (PhaseOf(pre, t) != Nothing ==> post == pre && !ClaimsCreation(o))
    && (PhaseOf(pre, t) == Nothing ==>
        && (PhaseOf(post, t).Nothing? || Pending(post, t))
        && (ClaimsCreation(o) ==> PhaseOf(post, t) == Published)
        && (o.NodeFailed? && o.evidence == None ==> PhaseOf(post, t) != Published)
        && o != NodeExisting)
    && (Pending(pre, t) ==> o.NodeFailed? || o.NodeCrashed?)
  }

  /** create_worker_directory_node, from the point where the node is located. */
  method CreateLocated(disk: Disk, t: Slot, canonical: bool, euid: Uid, worker: Uid) returns (o: NodeOutcome)
    requires IsDirectory(disk.fs, t.staging) && IsDirectory(disk.fs, t.dest)
    modifies disk
    ensures KeepsTree(old(disk.fs), disk.fs)
    ensures NodeStep(old(disk.fs), disk.fs, t, o)
    ensures o.NodeCreated? ==>
      && SecureDirectory(disk.fs, o.handle.ino, worker)
      && NewlyPublished(old(disk.fs), disk.fs, t, o.handle, euid, worker)
    ensures (disk.faultFree && PhaseOf(old(disk.fs), t) == Nothing && Permitted(euid, worker)) ==> o.NodeCreated?
    ensures o.NodeCreated? ==> Permitted(euid, worker)
    ensures o == NodeExisting ==> Reopenable(old(disk.fs), t, euid, worker, canonical)
    ensures disk.faultFree && Reopenable(old(disk.fs), t, euid, worker, canonical) ==> o == NodeExisting
  {
    hide Tree;
    ghost var pre := disk.fs;
    var r, published := OpenOrCreate(disk, t, euid, worker, canonical, None);
    match r {
      case Crashed => return NodeCrashed;
      case Failed(error) => return NodeFailed(error, published);
      case Done(handle) =>
        if !handle.created {
          return NodeExisting;
        }
        ghost var mid := disk.fs;
        var hardened := disk.Harden(handle.ino, euid, worker);
        HardeningKeepsCreation(pre, mid, disk.fs, t, handle, euid, worker);
        var fate := disk.Sys();
        if hardened.Crashed? || fate.Dies? {
          return NodeCrashed;
        }
        if hardened.Failed? || fate.Errs? {
          return NodeFailed(if hardened.Failed? then hardened.error else fate.error, Some(handle));
        }
        return NodeCreated(handle);
    }
  }

  lemma HardeningKeepsCreation(pre: Fs, mid: Fs, post: Fs, t: Slot, o: Opened, euid: Uid, worker: Uid)
    requires NewlyPublished(pre, mid, t, o, euid, worker)
    requires o.ino in post && post[o.ino].Directory? && post[o.ino].children == mid[o.ino].children
      && post == mid[o.ino := post[o.ino]]
    ensures NewlyPublished(pre, post, t, o, euid, worker) && PhaseOf(post, t) == Published
  {
    assert RecordFile in mid[o.marker.value.directory].children;
    assert forall d, n :: Look(post, d, n) == Look(mid, d, n);
  }

  /** create_worker_directory_node */
  method CreateNode(disk: Disk, l: Layout, node: Node, euid: Uid, worker: Uid) returns (o: NodeOutcome)
    requires ValidLayout(l)
    modifies disk
    ensures KeepsTree(old(disk.fs), disk.fs)
    ensures !LocationOf(old(disk.fs), l, node, euid, worker).Done? ==>
      disk.fs == old(disk.fs) && !ClaimsCreation(o) && o != NodeExisting
    ensures LocationOf(old(disk.fs), l, node, euid, worker).Done? ==>
      var t := LocationOf(old(disk.fs), l, node, euid, worker).value.slot;
      && NodeStep(old(disk.fs), disk.fs, t, o)
      && (o.NodeCreated? ==>
          SecureDirectory(disk.fs, o.handle.ino, worker)
            && NewlyPublished(old(disk.fs), disk.fs, t, o.handle, euid, worker))
    ensures LocationOf(old(disk.fs), l, node, euid, worker).Done? ==>
      var at := LocationOf(old(disk.fs), l, node, euid, worker).value;
      && (o.NodeCreated? ==>
          && PhaseOf(old(disk.fs), at.slot) == Nothing && Permitted(euid, worker)
          && Destination(disk.fs, at.slot) == Some(o.handle.ino)
          && Stands(disk.fs, at.slot, Active(at.slot.dest, at.slot.leaf), o.handle.ino, euid, worker))
      && (o.NodeExisting? ==> Reopenable(old(disk.fs), at.slot, euid, worker, at.canonical))
      && (disk.faultFree && PhaseOf(old(disk.fs), at.slot) == Nothing && Permitted(euid, worker) ==> o.NodeCreated?)
      && (disk.faultFree && Reopenable(old(disk.fs), at.slot, euid, worker, at.canonical) ==>
          o.NodeExisting? && disk.fs == old(disk.fs))
  {
    hide Tree;
    var located := Locate(disk, l, node, euid, worker);
    match located {
      case Crashed => return NodeCrashed;
      case Failed(error) => return NodeFailed(error, None);
      case Done(at) =>
        o := CreateLocated(disk, at.slot, at.canonical, euid, worker);
        if o.NodeCreated? {
          PublishedStands(disk.fs, at.slot, o.handle.ino, o.handle.marker.value, euid, worker);
        }
    }
  }

  /** retire_succeeded_worker_directory_evidence */
  method RetireNode(disk: Disk, l: Layout, node: Node, euid: Uid, worker: Uid) returns (r: Io<()>)
    requires ValidLayout(l)
    modifies disk
    ensures KeepsTree(old(disk.fs), disk.fs)
    ensures !LocationOf(old(disk.fs), l, node, euid, worker).Done? ==> disk.fs == old(disk.fs) && !r.Done?
    ensures LocationOf(old(disk.fs), l, node, euid, worker).Done? ==>
      var t := LocationOf(old(disk.fs), l, node, euid, worker).value.slot;
      && (disk.fs == old(disk.fs) || (PhaseOf(old(disk.fs), t) == Published && MarkerRetired(old(disk.fs), disk.fs, t)))
      && (r.Done? ==> PhaseOf(disk.fs, t) == Settled)
    ensures LocationOf(old(disk.fs), l, node, euid, worker).Done? ==>
      var at := LocationOf(old(disk.fs), l, node, euid, worker).value;
      var active, retired := Active(at.slot.dest, at.slot.leaf), Retired(at.slot.dest, at.slot.leaf);
      && (disk.fs != old(disk.fs) ==> Settleable(old(disk.fs), at.slot, active, euid, worker, at.canonical))
      && (r.Done? || disk.fs != old(disk.fs) ==> Settleable(disk.fs, at.slot, retired, euid, worker, at.canonical))
      && (disk.faultFree && PhaseOf(old(disk.fs), at.slot) == Published ==>
          (r.Done? <==> Settleable(old(disk.fs), at.slot, active, euid, worker, at.canonical)))
      && (disk.faultFree && PhaseOf(old(disk.fs), at.slot) == Settled ==>
          (Settleable(old(disk.fs), at.slot, retired, euid, worker, at.canonical) ==>
            r.Done? && disk.fs == old(disk.fs)))
  {
    hide Tree;
    var at :- Locate(disk, l, node, euid, worker);
    r := RetireSucceeded(disk, at.slot, euid, worker, at.canonical);
  }

  // ---------------------------------------------------------------- what inspection predicts

  /** A healthy report and an undisturbed reopening rest on the same checks. */
  lemma HealthyIffReopens(fs: Fs, t: Slot, euid: Uid, worker: Uid, canonical: bool)
    ensures InspectionOf(fs, t, euid, worker, canonical) == Healthy <==> ReadyToReopen(fs, t, euid, worker, canonical)
  {
  }

  /** Unretired evidence is always a conflict, and only an untouched slot is absent. */
  lemma InspectionOfPhases(fs: Fs, t: Slot, euid: Uid, worker: Uid, canonical: bool)
    ensures Pending(fs, t) ==> InspectionOf(fs, t, euid, worker, canonical) == Conflict
    ensures PhaseOf(fs, t) == Nothing <==> InspectionOf(fs, t, euid, worker, canonical) == Absent
  {
  }

  lemma PublishedStands(fs: Fs, t: Slot, i: Ino, k: Marker, euid: Uid, worker: Uid)
    requires PublishedAs(fs, t, i, k, euid, worker)
    ensures Destination(fs, t) == Some(i) && Stands(fs, t, Active(t.dest, t.leaf), i, euid, worker)
  {
    HeldMarkerStands(fs, k, Active(t.dest, t.leaf), i, euid, worker);
  }

  /** A directory that already stood may be used as the root or a child if it is private to
      the worker, and as a support if it is trustworthy. */
  ghost predicate Usable(fs: Fs, d: Ino, euid: Uid, worker: Uid, canonical: bool) {
    if canonical then IsDirectory(fs, d) && PrivateTo(fs[d].attr, worker) else TrustedAt(fs, Some(d), euid, worker)
  }

  lemma UsableIff(fs: Fs, d: Ino, euid: Uid, worker: Uid, canonical: bool)
    ensures ExistingAcceptable(fs, d, euid, worker, canonical) <==> Usable(fs, d, euid, worker, canonical)
  {
    hide AncestorAcceptable, SecureDirectory, Trustworthy, PrivateTo;
    SecureDirectoryIff(fs, d, worker);
    AcceptableIff(fs, d, euid, worker);
  }

  /** When a directory is reopened, read off the files that are stored. */
  lemma ReopenableIff(fs: Fs, t: Slot, euid: Uid, worker: Uid, canonical: bool)
    ensures Reopenable(fs, t, euid, worker, canonical) <==>
      && Destination(fs, t).Some? && ActiveMarker(fs, t) == None
      && Usable(fs, Destination(fs, t).value, euid, worker, canonical)
      && (RetiredMarker(fs, t).Some? ==>
          Stands(fs, t, Retired(t.dest, t.leaf), Destination(fs, t).value, euid, worker))
  {
    hide ExistingAcceptable, Usable, ExactMarker, Stands;
    if Destination(fs, t).Some? {
      UsableIff(fs, Destination(fs, t).value, euid, worker, canonical);
      ExactMarkerIff(fs, t, Retired(t.dest, t.leaf), Destination(fs, t).value, euid, worker);
    }
  }

  /** When evidence is retired, read off the files that are stored. */
  lemma SettleableIff(fs: Fs, t: Slot, name: Name, euid: Uid, worker: Uid, canonical: bool)
    ensures Settleable(fs, t, name, euid, worker, canonical) <==>
      && Destination(fs, t).Some? && Usable(fs, Destination(fs, t).value, euid, worker, canonical)
      && Stands(fs, t, name, Destination(fs, t).value, euid, worker)
  {
    hide ExistingAcceptable, Usable, ExactMarker, Stands;
    if Destination(fs, t).Some? {
      UsableIff(fs, Destination(fs, t).value, euid, worker, canonical);
      ExactMarkerIff(fs, t, name, Destination(fs, t).value, euid, worker);
    }
  }

  /** What the report on a located node means: absent if none of its four names is bound,
      healthy if the directory can be reopened and no candidate stands, and otherwise a
      conflict. */
  lemma InspectionMeans(fs: Fs, t: Slot, euid: Uid, worker: Uid, canonical: bool)
    ensures InspectionOf(fs, t, euid, worker, canonical) == Absent <==>
      Destination(fs, t) == Staged(fs, t) == ActiveMarker(fs, t) == RetiredMarker(fs, t) == None
    ensures InspectionOf(fs, t, euid, worker, canonical) == Healthy <==>
      Staged(fs, t) == None && Reopenable(fs, t, euid, worker, canonical)
    ensures InspectionOf(fs, t, euid, worker, canonical) != Unknowable
  {
    hide ExistingAcceptable, ExactMarker;
  }

  /** A retired marker vouches for one directory only: if another one takes its place, or
      its inode number is another, the node is a conflict and is not reopened. */
  lemma ReplacedDirectoryIsConflict(fs: Fs, t: Slot, i: Ino, j: Ino, euid: Uid, worker: Uid, canonical: bool)
    requires IsDirectory(fs, t.dest) && Destination(fs, t) == Some(i) && j != i
    requires Stands(fs, t, Retired(t.dest, t.leaf), i, euid, worker)
    ensures var post := Bind(fs, t.dest, Plain(t.leaf), j);
      && !Reopenable(post, t, euid, worker, canonical)
      && InspectionOf(post, t, euid, worker, canonical) == Conflict
  {
    var post := Bind(fs, t.dest, Plain(t.leaf), j);
    var m := Look(fs, t.staging, Retired(t.dest, t.leaf)).value;
    assert m != t.dest && post[m] == fs[m];
    var f := fs[m].children[RecordFile];
    assert post[f] == fs[f];
    assert !Stands(post, t, Retired(t.dest, t.leaf), j, euid, worker);
    ReopenableIff(post, t, euid, worker, canonical);
    InspectionMeans(post, t, euid, worker, canonical);
  }

  /** A created node can be retired, unless it is a directory of the worker where another
      creator needs one of its own. */
  lemma CreatedIsSettleable(pre: Fs, fs: Fs, t: Slot, o: Opened, euid: Uid, worker: Uid, canonical: bool)
    requires NewlyPublished(pre, fs, t, o, euid, worker) && SecureDirectory(fs, o.ino, worker)
    ensures PhaseOf(fs, t) == Published && InspectionOf(fs, t, euid, worker, canonical) == Conflict
    ensures Settleable(fs, t, Active(t.dest, t.leaf), euid, worker, canonical) <==> canonical || euid == worker
  {
  }

  lemma SettledIsHealthy(fs: Fs, t: Slot, euid: Uid, worker: Uid, canonical: bool)
    requires PhaseOf(fs, t) == Settled && Settleable(fs, t, Retired(t.dest, t.leaf), euid, worker, canonical)
    ensures InspectionOf(fs, t, euid, worker, canonical) == Healthy
  {
  }

  lemma CanonicalIffNotSupport(fs: Fs, l: Layout, node: Node, euid: Uid, worker: Uid)
    requires ValidLayout(l) && LocationOf(fs, l, node, euid, worker).Done?
    ensures LocationOf(fs, l, node, euid, worker).value.canonical <==> !node.Support?
  {
  }

  lemma LocationKeptAt(pre: Fs, post: Fs, l: Layout, node: Node, euid: Uid, worker: Uid)
    requires ValidLayout(l) && LocationOf(pre, l, node, euid, worker).Done?
    requires var t := LocationOf(pre, l, node, euid, worker).value.slot;
      SlotFrame(pre, post, t) && (PhaseOf(pre, t) == Nothing || Destination(post, t) == Destination(pre, t))
    ensures LocationOf(post, l, node, euid, worker) == LocationOf(pre, l, node, euid, worker)
  {
    SlotKeepsPaths(pre, post, LocationOf(pre, l, node, euid, worker).value.slot);
    LocationKept(pre, post, l, node, euid, worker);
  }

  /** The six calls of an undisturbed node: absent, created, a conflict while its evidence
      is active, retired, healthy, and from then on only reopened. The one exception is a
      support directory that the superuser creates for another user: it belongs to that
      user afterwards, so it is no acceptable ancestor for the superuser and its evidence
      is never retired. */
  method UndisturbedLifecycle(disk: Disk, l: Layout, node: Node, euid: Uid, worker: Uid)
    returns (before: Io<Inspection>, creation: NodeOutcome, begun: Io<Inspection>, retirement: Io<()>,
             after: Io<Inspection>, again: NodeOutcome)
    requires disk.faultFree && ValidLayout(l) && Permitted(euid, worker)
    requires LocationOf(disk.fs, l, node, euid, worker).Done?
    requires PhaseOf(disk.fs, LocationOf(disk.fs, l, node, euid, worker).value.slot) == Nothing
    modifies disk
    ensures KeepsTree(old(disk.fs), disk.fs)
    ensures before == Done(Absent) && creation.NodeCreated? && begun == Done(Conflict)
    ensures !node.Support? || euid == worker ==> retirement.Done? && after == Done(Healthy) && again == NodeExisting
    ensures node.Support? && euid != worker ==>
      !retirement.Done? && after == Done(Conflict) && (again.NodeFailed? || again.NodeCrashed?)
  {
    hide Tree, LocationOf, PhaseOf, InspectionOf, Settleable, Reopenable, Stands, KeepsNames, KeepsInodes, Look;
    ghost var start := disk.fs;
    ghost var at := LocationOf(start, l, node, euid, worker).value;
    CanonicalIffNotSupport(start, l, node, euid, worker);
    InspectionOfPhases(start, at.slot, euid, worker, at.canonical);
    before := InspectNode(disk, l, node, euid, worker);
    creation := CreateNode(disk, l, node, euid, worker);
    ghost var made := disk.fs;
    LocationKeptAt(start, made, l, node, euid, worker);
    CreatedIsSettleable(start, made, at.slot, creation.handle, euid, worker, at.canonical);
    begun := InspectNode(disk, l, node, euid, worker);
    retirement := RetireNode(disk, l, node, euid, worker);
    if disk.fs != made {
      LocationKeptAt(made, disk.fs, l, node, euid, worker);
      SettledIsHealthy(disk.fs, at.slot, euid, worker, at.canonical);
      InspectionMeans(disk.fs, at.slot, euid, worker, at.canonical);
    }
    after := InspectNode(disk, l, node, euid, worker);
    again := CreateNode(disk, l, node, euid, worker);
  }
}
