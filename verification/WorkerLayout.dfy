/** Creating a whole layout: support directories, the worker root and its children.

    A precondition written `P(x) == true` is `P(x)`: the comparison keeps the verifier from
    unfolding a large predicate where one predicate follows from the same predicate. */
module WorkerLayout {
  import opened Wrappers
  import opened WorkerFs
  import opened WorkerTree
  import opened WorkerDisk
  import opened WorkerNode
  import opened WorkerRetirement
  import opened WorkerAction
  import opened WorkerRoot

  // ---------------------------------------------------------------- the nodes of a layout

  function OwnSlot(d: Ino, leaf: Leaf): Slot { Slot(d, d, leaf) }

  /** A directory stands at `t` and no active marker bars the way. */
  predicate Passable(fs: Fs, t: Slot) {
    Destination(fs, t).Some? && ActiveMarker(fs, t) == None
  }

  function Below(fs: Fs, d: Ino, components: seq<Leaf>): Ino
    requires components != [] && Passable(fs, OwnSlot(d, components[0]))
  {
    Destination(fs, OwnSlot(d, components[0])).value
  }

  /** Some node of the layout that can be reached carries unretired evidence. The layout
      is `components` below `d`, the last of them the root, and the five children. */
  ghost predicate LayoutPending(fs: Fs, d: Ino, components: seq<Leaf>)
    decreases |components|
  {
    && components != []
    && (|| Pending(fs, OwnSlot(d, components[0]))
        || (Passable(fs, OwnSlot(d, components[0])) &&
            if |components| == 1 then ChildPending(fs, d, Below(fs, d, components))
            else LayoutPending(fs, Below(fs, d, components), components[1..])))
  }

  ghost predicate ChildPending(fs: Fs, p: Ino, root: Ino) {
    exists j :: 0 <= j < |CHILD_NAMES| && Pending(fs, ChildSlot(p, root, j))
  }

  /** Every node of the layout stands: settled by this protocol or adopted. */
  ghost predicate LayoutStanding(fs: Fs, d: Ino, components: seq<Leaf>)
    decreases |components|
  {
    && components != []
    && Standing(PhaseOf(fs, OwnSlot(d, components[0])))
    && if |components| == 1 then AllSettledOrAdopted(fs, d, Below(fs, d, components))
       else LayoutStanding(fs, Below(fs, d, components), components[1..])
  }

  /** No node of the layout that can be reached is corrupt. */
  ghost predicate LayoutSound(fs: Fs, d: Ino, components: seq<Leaf>)
    decreases |components|
  {
    && components != []
    && PhaseOf(fs, OwnSlot(d, components[0])) != Corrupt
    && (Passable(fs, OwnSlot(d, components[0])) ==>
          if |components| == 1 then NoneCorrupt(fs, d, Below(fs, d, components))
          else LayoutSound(fs, Below(fs, d, components), components[1..]))
  }

  ghost predicate NoneCorrupt(fs: Fs, p: Ino, root: Ino) {
    forall j :: 0 <= j < |CHILD_NAMES| ==> PhaseOf(fs, ChildSlot(p, root, j)) != Corrupt
  }

  /** Every node from `d` down to the first missing one can be opened; what is missing may
      be created. */
  ghost predicate LayoutOpen(fs: Fs, d: Ino, components: seq<Leaf>, euid: Uid, worker: Uid)
    decreases |components|
  {
    && components != []
    && if PhaseOf(fs, OwnSlot(d, components[0])) == Nothing then Permitted(euid, worker)
       else
         && Reopenable(fs, OwnSlot(d, components[0]), euid, worker, |components| == 1)
         && if |components| == 1 then AllOpenable(fs, d, Below(fs, d, components), euid, worker)
            else LayoutOpen(fs, Below(fs, d, components), components[1..], euid, worker)
  }

  /** Passable directories lead from `d` to `at`, where `rest` remains to be walked. */
  ghost predicate Via(fs: Fs, d: Ino, components: seq<Leaf>, at: Ino, rest: seq<Leaf>)
    decreases |components|
  {
    || (at == d && rest == components)
    || (|components| > 1 && Passable(fs, OwnSlot(d, components[0]))
        && Via(fs, Below(fs, d, components), components[1..], at, rest))
  }

  lemma {:induction false} ViaExtends(fs: Fs, d: Ino, components: seq<Leaf>, at: Ino, rest: seq<Leaf>)
    requires Via(fs, d, components, at, rest) && |rest| > 1 && Passable(fs, OwnSlot(at, rest[0]))
    ensures Via(fs, d, components, Below(fs, at, rest), rest[1..])
    decreases |components|
  {
    if at == d && rest == components {
      assert Via(fs, Below(fs, at, rest), rest[1..], Below(fs, at, rest), rest[1..]);
    } else {
      ViaExtends(fs, Below(fs, d, components), components[1..], at, rest);
    }
  }

  /** What holds of a layout from `d` and from a point on the way. */
  lemma {:induction false} ViaCarries(fs: Fs, d: Ino, components: seq<Leaf>, at: Ino, rest: seq<Leaf>)
    requires Via(fs, d, components, at, rest)
    ensures LayoutPending(fs, d, components) <==> LayoutPending(fs, at, rest)
    ensures LayoutStanding(fs, d, components) ==> LayoutStanding(fs, at, rest)
    ensures LayoutSound(fs, d, components) ==> LayoutSound(fs, at, rest)
    ensures Resolve(fs, d, components) == Resolve(fs, at, rest)
    decreases |components|
  {
    if !(at == d && rest == components) {
      ViaCarries(fs, Below(fs, d, components), components[1..], at, rest);
    }
  }

  // ---------------------------------------------------------------- off the way

  /** The slots of `touched` are off the way to `at`. */
  ghost predicate Aside(pre: Fs, touched: set<Slot>, depth: Ino -> nat, at: Ino) {
    forall t :: t in touched ==>
      || (t.staging == t.dest && Destination(pre, t) == None)
      || t.dest !in pre
      || depth(t.dest) > depth(at)
  }

  lemma {:induction false} ViaDeeper(fs: Fs, d: Ino, components: seq<Leaf>, at: Ino, rest: seq<Leaf>, depth: Ino -> nat)
    requires Via(fs, d, components, at, rest) && Deeper(fs, depth) && IsDirectory(fs, at)
    ensures depth(d) <= depth(at) && IsDirectory(fs, d)
    decreases |components|
  {
    if !(at == d && rest == components) {
      ViaDeeper(fs, Below(fs, d, components), components[1..], at, rest, depth);
      assert Look(fs, d, Plain(components[0])).Some?;
    }
  }

  lemma AsideKeepsNode(pre: Fs, post: Fs, touched: set<Slot>, x: Slot, at: Ino, depth: Ino -> nat)
    requires Frame(pre, post, touched) && Aside(pre, touched, depth, at)
    requires x.staging == x.dest && Passable(pre, x) && depth(x.dest) <= depth(at)
    ensures SameNames(pre, post, x) && PhaseOf(post, x) == PhaseOf(pre, x)
  {
    forall t | t in touched
      ensures t != x && !Clash(t, x)
    {
    }
    FrameKeepsPhase(pre, post, touched, x);
  }

  /** The way to `at` stays open, and a sound way to a standing end is a standing layout. */
  lemma {:induction false} ViaKept(pre: Fs, post: Fs, touched: set<Slot>, d: Ino, components: seq<Leaf>, at: Ino,
      rest: seq<Leaf>, depth: Ino -> nat)
    requires Via(pre, d, components, at, rest) && Deeper(pre, depth) && IsDirectory(pre, at)
    requires Frame(pre, post, touched) && Aside(pre, touched, depth, at)
    ensures Via(post, d, components, at, rest)
    ensures LayoutSound(pre, d, components) && LayoutStanding(post, at, rest) ==> LayoutStanding(post, d, components)
    decreases |components|
  {
    if !(at == d && rest == components) {
      ViaDeeper(pre, d, components, at, rest, depth);
      AsideKeepsNode(pre, post, touched, OwnSlot(d, components[0]), at, depth);
      ViaKept(pre, post, touched, Below(pre, d, components), components[1..], at, rest, depth);
    }
  }

  // ---------------------------------------------------------------- chains of new directories

  /** New directories, each created in the one before, and their markers. */
  datatype Chain = Chain(start: Ino, made: seq<Ino>, markers: seq<Marker>) {
    function Holder(k: nat): Ino
      requires k <= |made|
    {
      if k == 0 then start else made[k - 1]
    }

    function Tail(): Ino { Holder(|made|) }

    function Grown(o: Opened): Chain
      requires o.marker.Some?
    {
      Chain(start, made + [o.ino], markers + [o.marker.value])
    }
  }

  /** Directory `k` of the chain is live, new, and bound below directory `k - 1`. */
  ghost predicate Link(pre: Fs, fs: Fs, names: seq<Leaf>, ch: Chain, k: nat, euid: Uid)
    requires k < |ch.made| == |ch.markers| <= |names|
  {
    && ch.markers[k].slot == OwnSlot(ch.Holder(k), names[k])
    && StillActive(fs, ch.markers[k], euid)
    && Destination(fs, ch.markers[k].slot) == Some(ch.made[k])
    && ch.made[k] !in pre && IsDirectory(fs, ch.made[k]) && Look(fs, ch.made[k], RecordFile) == None
  }

  ghost predicate Linked(pre: Fs, fs: Fs, names: seq<Leaf>, ch: Chain, euid: Uid) {
    && |ch.made| == |ch.markers| <= |names| && IsDirectory(pre, ch.start)
    && (forall k :: 0 <= k < |ch.made| ==> Link(pre, fs, names, ch, k, euid))
    && (forall k, l :: 0 <= k < l < |ch.made| ==> ch.made[k] != ch.made[l])
  }

  /** Slots staged in `tail`, for a destination in `tail` or in a directory not yet made. */
  ghost predicate HangsFrom(b: Fs, touched: set<Slot>, tail: Ino) {
    forall t :: t in touched ==> t.staging == tail && (t.dest == tail || t.dest !in b)
  }

  lemma HoldersDiffer(pre: Fs, b: Fs, names: seq<Leaf>, ch: Chain, k: nat, l: nat, euid: Uid)
    requires Linked(pre, b, names, ch, euid) == true && k < l <= |ch.made| && KeepsInodes(pre, b)
    ensures ch.Holder(k) != ch.Holder(l) && ch.Holder(k) in b && ch.Holder(l) in b
  {
    assert Link(pre, b, names, ch, l - 1, euid);
    assert k > 0 ==> Link(pre, b, names, ch, k - 1, euid);
  }

  lemma LinkStays(pre: Fs, b: Fs, c: Fs, names: seq<Leaf>, ch: Chain, k: nat, touched: set<Slot>, euid: Uid)
    requires Linked(pre, b, names, ch, euid) == true && k < |ch.made| && KeepsInodes(pre, b)
    requires Frame(b, c, touched) && HangsFrom(b, touched, ch.Tail())
    ensures Link(pre, c, names, ch, k, euid)
  {
    hide PhaseOf, StillActive;
    assert Link(pre, b, names, ch, k, euid) && Link(pre, b, names, ch, |ch.made| - 1, euid);
    HoldersDiffer(pre, b, names, ch, k, |ch.made|, euid);
    MarkerHoldsRecord(b, ch.markers[k], euid);
    MarkerOutlives(b, c, touched, ch.markers[k], euid);
    FrameKeepsPhase(b, c, touched, ch.markers[k].slot);
    assert !Owned(touched, ch.made[k], RecordFile);
  }

  lemma MarkerHoldsRecord(fs: Fs, k: Marker, euid: Uid)
    requires StillActive(fs, k, euid)
    ensures k.directory in fs && Look(fs, k.directory, RecordFile).Some? && IsDirectory(fs, k.slot.staging)
    ensures forall n :: n != RecordFile ==> Look(fs, k.directory, n) == None
  {
    assert RecordFile in fs[k.directory].children;
  }

  lemma LinkAdded(pre: Fs, b: Fs, c: Fs, names: seq<Leaf>, ch: Chain, o: Opened, euid: Uid)
    requires |ch.made| == |ch.markers| < |names| && KeepsInodes(pre, b)
    requires CreatedHere(c, OwnSlot(ch.Tail(), names[|ch.made|]), o, euid)
    requires o.ino !in b && IsDirectory(c, o.ino) && Look(c, o.ino, RecordFile) == None
    ensures Link(pre, c, names, ch.Grown(o), |ch.made|, euid)
  {
  }

  lemma LinkOfGrown(pre: Fs, c: Fs, names: seq<Leaf>, ch: Chain, o: Opened, k: nat, euid: Uid)
    requires k < |ch.made| == |ch.markers| < |names| && o.marker.Some? && Link(pre, c, names, ch, k, euid)
    ensures Link(pre, c, names, ch.Grown(o), k, euid)
  {
  }

  /** A new directory below the last one lengthens the chain. */
  lemma ChainGrows(pre: Fs, b: Fs, c: Fs, names: seq<Leaf>, ch: Chain, o: Opened, touched: set<Slot>, euid: Uid)
    requires Linked(pre, b, names, ch, euid) == true && |ch.made| == |ch.markers| < |names| && KeepsInodes(pre, b)
    requires Frame(b, c, touched) == true && HangsFrom(b, touched, ch.Tail()) == true
    requires CreatedHere(c, OwnSlot(ch.Tail(), names[|ch.made|]), o, euid) == true && o.marker.Some?
    requires o.ino !in b && IsDirectory(c, o.ino) && Look(c, o.ino, RecordFile) == None
    ensures Linked(pre, c, names, ch.Grown(o), euid)
  {
    var g := ch.Grown(o);
    forall k | 0 <= k < |g.made|
      ensures Link(pre, c, names, g, k, euid) == true
    {
      if k < |ch.made| {
        LinkStays(pre, b, c, names, ch, k, touched, euid);
        LinkOfGrown(pre, c, names, ch, o, k, euid);
      } else {
        LinkAdded(pre, b, c, names, ch, o, euid);
      }
    }
    NewIsDistinct(pre, b, names, ch, o.ino, euid);
  }

  lemma NewIsDistinct(pre: Fs, b: Fs, names: seq<Leaf>, ch: Chain, i: Ino, euid: Uid)
    requires Linked(pre, b, names, ch, euid) && i !in b
    ensures forall k, l :: 0 <= k < l < |ch.made| + 1 ==> (ch.made + [i])[k] != (ch.made + [i])[l]
  {
    forall k | 0 <= k < |ch.made|
      ensures ch.made[k] != i
    {
      assert Link(pre, b, names, ch, k, euid);
    }
  }

  lemma ChainSlotsComparable(pre: Fs, fs: Fs, names: seq<Leaf>, ch: Chain, i: nat, j: nat, euid: Uid)
    requires Linked(pre, fs, names, ch, euid) == true && i < j < |ch.markers| == |ch.made| && KeepsInodes(pre, fs)
    ensures Comparable(ch.markers[i].slot, ch.markers[j].slot)
  {
    assert Link(pre, fs, names, ch, i, euid) && Link(pre, fs, names, ch, j, euid);
    HoldersDiffer(pre, fs, names, ch, i, j, euid);
  }

  // ---------------------------------------------------------------- the loop over supports

  /** What the loop has changed: own slots whose destination was absent. */
  ghost predicate Touches(pre: Fs, fs: Fs, touched: set<Slot>) {
    Steps(pre, fs, touched) && forall t :: t in touched ==>
      t.staging == t.dest && Destination(pre, t) == None && t.dest in fs
  }

  lemma TouchedDoNotClash(pre: Fs, fs: Fs, touched: set<Slot>)
    requires Touches(pre, fs, touched)
    ensures NoClash(touched)
  {
  }

  lemma OneMoreTouched(pre: Fs, b: Fs, c: Fs, touched: set<Slot>, t: Slot)
    requires Touches(pre, b, touched) && t.staging == t.dest && t.dest in c
    requires SlotFrame(b, c, t) && Moves(b, c, t)
    requires Destination(pre, t) == None
    ensures Touches(pre, c, touched + {t})
  {
    SlotStepIsStep(b, c, t);
    StepsTrans(pre, b, c, touched, {t});
  }

  lemma SlotsOfAppend(ms: seq<Marker>, k: Marker)
    ensures SlotsOf(ms + [k]) == SlotsOf(ms) + {k.slot}
  {
    forall t ensures t in SlotsOf(ms + [k]) <==> t in SlotsOf(ms) + {k.slot} {
      if t in SlotsOf(ms) {
        var q :| q in ms && q.slot == t;
        assert q in ms + [k];
      }
      assert k in ms + [k];
    }
  }

  /** Of the directories that existed the slots of `touched` work in `start` only. */
  ghost predicate WorksFrom(pre: Fs, touched: set<Slot>, start: Ino) {
    forall t :: t in touched ==> (t.staging == start || t.staging !in pre) && (t.dest == start || t.dest !in pre)
  }

  /** The loop while `names` remain from the chain on: either every support so far existed
      and nothing changed, or the chain starts at the first missing one. */
  ghost predicate SupportsSoFar(pre: Fs, fs: Fs, d: Ino, components: seq<Leaf>, names: seq<Leaf>, ch: Chain,
      touched: set<Slot>, euid: Uid) {
    && |ch.made| < |names| && IsDirectory(fs, ch.Tail())
    && Linked(pre, fs, names, ch, euid) && Via(pre, d, components, ch.start, names)
    && Touches(pre, fs, touched) && SlotsOf(ch.markers) <= touched && WorksFrom(pre, touched, ch.start)
    && (ch.made == [] ==> fs == pre && touched == {})
    && (ch.made != [] ==> fs[ch.Tail()].children == map[] && PhaseOf(pre, OwnSlot(ch.start, names[0])) == Nothing)
  }

  lemma SupportWalked(pre: Fs, d: Ino, components: seq<Leaf>, names: seq<Leaf>, ch: Chain, touched: set<Slot>,
      next: Ino, euid: Uid)
    requires SupportsSoFar(pre, pre, d, components, names, ch, touched, euid) == true && ch.made == [] && 1 < |names|
    requires Passable(pre, OwnSlot(ch.start, names[0])) && Below(pre, ch.start, names) == next && IsDirectory(pre, next)
    ensures SupportsSoFar(pre, pre, d, components, names[1..], Chain(next, [], []), touched, euid) == true
  {
    ViaExtends(pre, d, components, ch.start, names);
  }

  lemma ChainGrowsByOne(pre: Fs, b: Fs, c: Fs, names: seq<Leaf>, ch: Chain, touched: set<Slot>, o: Opened, euid: Uid,
      worker: Uid)
    requires Linked(pre, b, names, ch, euid) == true && |ch.made| == |ch.markers| < |names|
      && Touches(pre, b, touched) == true
    requires NewlyPublished(b, c, OwnSlot(ch.Tail(), names[|ch.made|]), o, euid, worker)
    ensures Linked(pre, c, names, ch.Grown(o), euid)
  {
    var t := OwnSlot(ch.Tail(), names[|ch.made|]);
    SlotFrameIsFrame(b, c, t);
    ChainGrows(pre, b, c, names, ch, o, {t}, euid);
  }

  lemma SupportMade(pre: Fs, b: Fs, c: Fs, d: Ino, components: seq<Leaf>, names: seq<Leaf>, ch: Chain,
      touched: set<Slot>, o: Opened, euid: Uid, worker: Uid)
    requires SupportsSoFar(pre, b, d, components, names, ch, touched, euid) == true && |ch.made| + 1 < |names|
    requires PhaseOf(b, OwnSlot(ch.Tail(), names[|ch.made|])) == Nothing
    requires NewlyPublished(b, c, OwnSlot(ch.Tail(), names[|ch.made|]), o, euid, worker)
    requires Touches(pre, c, touched + {OwnSlot(ch.Tail(), names[|ch.made|])}) == true
    ensures SupportsSoFar(pre, c, d, components, names, ch.Grown(o), touched + {OwnSlot(ch.Tail(), names[|ch.made|])},
      euid) == true
  {
    hide Linked, Via, Touches, PhaseOf, StillActive, NoClash;
    SlotsOfAppend(ch.markers, o.marker.value);
    ChainHasMarkers(pre, b, names, ch, euid);
    TailIsStartOrNew(pre, b, names, ch, euid);
    ChainGrowsByOne(pre, b, c, names, ch, touched, o, euid, worker);
  }

  lemma TailIsStartOrNew(pre: Fs, fs: Fs, names: seq<Leaf>, ch: Chain, euid: Uid)
    requires Linked(pre, fs, names, ch, euid)
    ensures ch.Tail() == ch.start || ch.Tail() !in pre
  {
    if ch.made != [] {
      assert Link(pre, fs, names, ch, |ch.made| - 1, euid);
    }
  }

  lemma ChainHasMarkers(pre: Fs, fs: Fs, names: seq<Leaf>, ch: Chain, euid: Uid)
    requires Linked(pre, fs, names, ch, euid)
    ensures |ch.markers| == |ch.made|
  {
  }

  // ---------------------------------------------------------------- what the loop needs

  /** Directory `k` of the chain belongs to the creator or the worker, and its marker
      records its creation for `worker`. */
  ghost predicate LinkVouched(fs: Fs, names: seq<Leaf>, ch: Chain, k: nat, euid: Uid, worker: Uid)
    requires k < |ch.made| == |ch.markers| <= |names|
  {
    && ch.markers[k] == MarkerFor(OwnSlot(ch.Holder(k), names[k]), ch.made[k], ch.markers[k].directory,
      ch.markers[k].file, worker)
    && StagedSecure(fs, ch.made[k], euid, worker)
  }

  ghost predicate ChainVouched(fs: Fs, names: seq<Leaf>, ch: Chain, euid: Uid, worker: Uid) {
    && |ch.made| == |ch.markers| <= |names|
    && forall k :: 0 <= k < |ch.made| ==> LinkVouched(fs, names, ch, k, euid, worker)
  }

  lemma VouchedGrows(b: Fs, c: Fs, names: seq<Leaf>, ch: Chain, o: Opened, euid: Uid, worker: Uid)
    requires ChainVouched(b, names, ch, euid, worker) && |ch.made| < |names| && KeepsInodes(b, c)
    requires Vouched(OwnSlot(ch.Tail(), names[|ch.made|]), o, worker) && StagedSecure(c, o.ino, euid, worker)
    ensures ChainVouched(c, names, ch.Grown(o), euid, worker)
  {
    forall k | 0 <= k < |ch.made| + 1
      ensures LinkVouched(c, names, ch.Grown(o), k, euid, worker)
    {
      assert k < |ch.made| ==> LinkVouched(b, names, ch, k, euid, worker);
    }
  }

  /** The layout is open from `d` exactly if it is open from the start of the chain. */
  ghost predicate OpenSoFar(pre: Fs, d: Ino, components: seq<Leaf>, names: seq<Leaf>, start: Ino, euid: Uid,
      worker: Uid) {
    LayoutOpen(pre, d, components, euid, worker) <==> LayoutOpen(pre, start, names, euid, worker)
  }

  lemma WalkedStaysOpen(pre: Fs, d: Ino, components: seq<Leaf>, names: seq<Leaf>, start: Ino, euid: Uid, worker: Uid)
    requires OpenSoFar(pre, d, components, names, start, euid, worker) && 1 < |names|
    requires Reopenable(pre, OwnSlot(start, names[0]), euid, worker, false)
    ensures OpenSoFar(pre, d, components, names[1..], Below(pre, start, names), euid, worker)
  {
  }

  /** On an open layout the next node can be opened. */
  lemma NextIsOpenable(pre: Fs, b: Fs, d: Ino, components: seq<Leaf>, names: seq<Leaf>, ch: Chain, touched: set<Slot>,
      euid: Uid, worker: Uid)
    requires SupportsSoFar(pre, b, d, components, names, ch, touched, euid)
    requires OpenSoFar(pre, d, components, names, ch.start, euid, worker)
      && LayoutOpen(pre, d, components, euid, worker)
    ensures Openable(b, OwnSlot(ch.Tail(), names[|ch.made|]), euid, worker, |names| == |ch.made| + 1)
  {
    hide Via, Touches, Reopenable;
    if ch.made != [] {
      EmptyIsUntouched(pre, b, names, ch, euid);
    }
  }

  /** One support, seen on its own. */
  method OpenSupport(disk: Disk, t: Slot, euid: Uid, worker: Uid) returns (r: Io<Opened>)
    requires t.staging == t.dest && IsDirectory(disk.fs, t.dest)
    modifies disk
    ensures KeepsTree(old(disk.fs), disk.fs)
    ensures SlotFrame(old(disk.fs), disk.fs, t) && Moves(old(disk.fs), disk.fs, t)
    ensures PhaseOf(old(disk.fs), t) != Nothing ==> disk.fs == old(disk.fs)
    ensures r.Done? && r.value.created ==>
      PhaseOf(old(disk.fs), t) == Nothing && NewlyPublished(old(disk.fs), disk.fs, t, r.value, euid, worker)
    ensures r.Done? && !r.value.created ==>
      && disk.fs == old(disk.fs) && Reopenable(disk.fs, t, euid, worker, false)
      && Destination(disk.fs, t) == Some(r.value.ino) && IsDirectory(disk.fs, r.value.ino)
    ensures r.Done? && r.value.created ==> StagedSecure(disk.fs, r.value.ino, euid, worker)
    ensures disk.faultFree && Openable(old(disk.fs), t, euid, worker, false) ==> r.Done?
  {
    hide Tree;
    var result, published := OpenOrCreate(disk, t, euid, worker, false, None);
    r := result;
  }

  /** One turn of the loop over supports. */
  method NextSupport(disk: Disk, ghost pre: Fs, ghost d: Ino, ghost components: seq<Leaf>, ghost names: seq<Leaf>,
      ch: Chain, leaf: Leaf, ghost touched: set<Slot>, euid: Uid, worker: Uid)
    returns (r: Io<Chain>, ghost names': seq<Leaf>, ghost touched': set<Slot>)
    requires SupportsSoFar(pre, disk.fs, d, components, names, ch, touched, euid) && |ch.made| + 1 < |names|
      && leaf == names[|ch.made|]
    requires ChainVouched(disk.fs, names, ch, euid, worker)
      && OpenSoFar(pre, d, components, names, ch.start, euid, worker)
    modifies disk
    ensures KeepsTree(old(disk.fs), disk.fs)
    ensures Touches(pre, disk.fs, touched')
    ensures r.Done? ==>
      ChainVouched(disk.fs, names', r.value, euid, worker)
        && OpenSoFar(pre, d, components, names', r.value.start, euid, worker)
    ensures disk.faultFree && LayoutOpen(pre, d, components, euid, worker) ==> r.Done?
    ensures r.Done? ==> SupportsSoFar(pre, disk.fs, d, components, names', r.value, touched', euid) == true
    ensures r.Done? ==>
      |names'| - |r.value.made| == |names| - |ch.made| - 1 && names'[|r.value.made|..] == names[|ch.made| + 1..]
    ensures PhaseOf(old(disk.fs), OwnSlot(ch.Tail(), leaf)) != Nothing ==> disk.fs == old(disk.fs)
  {
    hide Tree, Via, NoClash, StillActive, Linked, LayoutOpen, Openable, Reopenable, LinkVouched;
    ghost var b := disk.fs;
    var t := OwnSlot(ch.Tail(), leaf);
    names', touched' := names, touched;
    assert names[|ch.made|..][1..] == names[|ch.made| + 1..];
    if ch.made != [] {
      EmptyIsUntouched(pre, b, names, ch, euid);
    }
    if LayoutOpen(pre, d, components, euid, worker) {
      NextIsOpenable(pre, b, d, components, names, ch, touched, euid, worker);
    }
    var opening := OpenSupport(disk, t, euid, worker);
    if PhaseOf(b, t) == Nothing {
      OneMoreTouched(pre, b, disk.fs, touched, t);
      touched' := touched + {t};
    }
    var o :- opening;
    if o.created {
      SupportMade(pre, b, disk.fs, d, components, names, ch, touched, o, euid, worker);
      VouchedGrows(b, disk.fs, names, ch, o, euid, worker);
      return Done(ch.Grown(o)), names, touched';
    }
    ReopenableIsPassable(pre, t, euid, worker, false);
    SupportWalked(pre, d, components, names, ch, touched, o.ino, euid);
    WalkedStaysOpen(pre, d, components, names, ch.start, euid, worker);
    return Done(Chain(o.ino, [], [])), names[1..], touched;
  }

  lemma ReopenableIsPassable(fs: Fs, t: Slot, euid: Uid, worker: Uid, canonical: bool)
    requires Reopenable(fs, t, euid, worker, canonical)
    ensures Passable(fs, t) && PhaseOf(fs, t) != Nothing
  {
  }

  /** Below an empty directory made in this run nothing exists, now or before. */
  lemma EmptyIsUntouched(pre: Fs, b: Fs, names: seq<Leaf>, ch: Chain, euid: Uid)
    requires Linked(pre, b, names, ch, euid) && 0 < |ch.made| < |names|
    requires IsDirectory(b, ch.Tail()) && b[ch.Tail()].children == map[]
    ensures PhaseOf(b, OwnSlot(ch.Tail(), names[|ch.made|])) == Nothing
    ensures Destination(pre, OwnSlot(ch.Tail(), names[|ch.made|])) == None
  {
    assert Link(pre, b, names, ch, |ch.made| - 1, euid);
  }

  /** A standing layout is walked to its end without creating anything. */
  lemma StandingIsWalked(pre: Fs, b: Fs, d: Ino, components: seq<Leaf>, names: seq<Leaf>, ch: Chain, touched: set<Slot>,
      euid: Uid)
    requires LayoutStanding(pre, d, components)
      && SupportsSoFar(pre, b, d, components, names, ch, touched, euid) == true
    ensures ch.made == [] && b == pre && names != [] && Standing(PhaseOf(b, OwnSlot(ch.Tail(), names[0])))
  {
    ViaCarries(pre, d, components, ch.start, names);
  }

  /** The loop of create_worker_directory_layout over the components before the root. */
  method OpenSupports(disk: Disk, d: Ino, components: seq<Leaf>, euid: Uid, worker: Uid)
    returns (r: Io<Chain>, ghost names: seq<Leaf>, ghost touched: set<Slot>)
    requires IsDirectory(disk.fs, d) && components != []
    modifies disk
    ensures KeepsTree(old(disk.fs), disk.fs)
    ensures Touches(old(disk.fs), disk.fs, touched)
    ensures r.Done? ==> SupportsSoFar(old(disk.fs), disk.fs, d, components, names, r.value, touched, euid) == true
    ensures r.Done? ==> |names| == |r.value.made| + 1 && names[|r.value.made|] == components[|components| - 1]
    ensures r.Done? ==>
      ChainVouched(disk.fs, names, r.value, euid, worker)
        && OpenSoFar(old(disk.fs), d, components, names, r.value.start, euid, worker)
    ensures disk.faultFree && LayoutOpen(old(disk.fs), d, components, euid, worker) ==> r.Done?
    ensures LayoutStanding(old(disk.fs), d, components) ==> disk.fs == old(disk.fs)
  {
    hide Tree, LayoutStanding, LayoutOpen, PhaseOf, Passable, NoClash, LinkVouched;
    ghost var pre := disk.fs;
    ghost var standing := LayoutStanding(pre, d, components);
    var ch := Chain(d, [], []);
    names, touched := components, {};
    var i := 0;
    while i < |components| - 1
      invariant 0 <= i < |components|
      invariant SupportsSoFar(pre, disk.fs, d, components, names, ch, touched, euid) == true
      invariant |ch.made| < |names| && names[|ch.made|..] == components[i..]
      invariant Touches(pre, disk.fs, touched) == true && KeepsTree(pre, disk.fs)
      invariant ChainVouched(disk.fs, names, ch, euid, worker)
        && OpenSoFar(pre, d, components, names, ch.start, euid, worker)
      invariant standing ==> disk.fs == pre
    {
      if standing {
        StandingIsWalked(pre, disk.fs, d, components, names, ch, touched, euid);
      }
      assert names[|ch.made|] == names[|ch.made|..][0] == components[i];
      assert names[|ch.made| + 1..] == names[|ch.made|..][1..] == components[i..][1..] == components[i + 1..];
      var next;
      next, names, touched := NextSupport(disk, pre, d, components, names, ch, components[i], touched, euid, worker);
      ch :- next;
      i := i + 1;
    }
    return Done(ch), names, touched;
  }

  // ---------------------------------------------------------------- the root

  /** What the creation of a layout returns: the root, its children and the lease, the
      markers of every node it created, in creation order. */
  datatype Creation = Creation(root: Opened, children: seq<Opened>, lease: seq<Marker>)

  /** Slots whose destination was absent. */
  ghost predicate AllNew(pre: Fs, touched: set<Slot>) {
    forall t :: t in touched ==> (t.staging == t.dest && Destination(pre, t) == None) || t.dest !in pre
  }

  /** The chain starts at the first missing component, and `touched` names new nodes only. */
  ghost predicate FreshPlan(pre: Fs, d: Ino, components: seq<Leaf>, names: seq<Leaf>, ch: Chain, touched: set<Slot>) {
    && 0 < |ch.made| == |names|
    && Via(pre, d, components, ch.start, names) && PhaseOf(pre, OwnSlot(ch.start, names[0])) == Nothing
    && NoClash(touched) && AllNew(pre, touched) && ChildrenWereNothing(pre, ch.Holder(|ch.made| - 1), ch.Tail())
    && SlotsOf(ch.markers) <= touched && ChildSlots(ch.Holder(|ch.made| - 1), ch.Tail()) <= touched
    && WorksFrom(pre, touched, ch.start)
  }

  /** The chain ends in a new root with five new children. */
  ghost predicate Fresh(pre: Fs, fs: Fs, d: Ino, components: seq<Leaf>, names: seq<Leaf>, ch: Chain, kids: seq<Opened>,
      touched: set<Slot>, euid: Uid)
  {
    && FreshPlan(pre, d, components, names, ch, touched) && Steps(pre, fs, touched)
    && Linked(pre, fs, names, ch, euid) && AllCreatedHere(fs, ch.Holder(|ch.made| - 1), ch.Tail(), kids, euid)
  }

  lemma FamilyIsNew(pre: Fs, b: Fs, touched: set<Slot>, t: Slot, root: Ino)
    requires forall x :: x in touched ==> x.staging == x.dest && Destination(pre, x) == None && x.dest in b
    requires t.staging == t.dest && t.dest in b && Destination(pre, t) == None && root !in b && root !in pre
    ensures NoClash(touched + Family(t, root)) && AllNew(pre, touched + Family(t, root))
  {
    forall x | x in touched + Family(t, root)
      ensures (x.staging == x.dest && Destination(pre, x) == None && x.dest in b)
        || (x.dest == root && x.staging == t.staging)
    {
    }
  }

  lemma RootSteps(pre: Fs, b: Fs, c: Fs, touched: set<Slot>, t: Slot, root: Ino)
    requires Touches(pre, b, touched) == true && Steps(b, c, Family(t, root)) == true && root !in b
    requires t.staging == t.dest && t.dest in b && Destination(pre, t) == None
    ensures Steps(pre, c, touched + Family(t, root)) && NoClash(touched + Family(t, root))
      && AllNew(pre, touched + Family(t, root))
  {
    FamilyIsNew(pre, b, touched, t, root);
    StepsTrans(pre, b, c, touched, Family(t, root));
  }

  lemma FamilyHangs(b: Fs, t: Slot, root: Ino)
    requires t.staging == t.dest && root !in b
    ensures HangsFrom(b, Family(t, root), t.dest)
  {
  }

  /** The root of a chain of supports was created: the chain is complete. */
  lemma RootCompletesChain(pre: Fs, b: Fs, c: Fs, names: seq<Leaf>, ch: Chain, touched: set<Slot>, root: Opened,
      kids: seq<Opened>, euid: Uid)
    requires Linked(pre, b, names, ch, euid) == true && |ch.made| == |ch.markers| < |names|
      && Touches(pre, b, touched) == true
    requires RootBuilt(b, c, OwnSlot(ch.Tail(), names[|ch.made|]), root.ino, Done(CompleteRoot(root, Some(kids))), euid)
    ensures Linked(pre, c, names, ch.Grown(root), euid)
  {
    hide Linked, AllCreatedHere, Moves, ChildSlots, KeepsNames;
    FamilyHangs(b, OwnSlot(ch.Tail(), names[|ch.made|]), root.ino);
    ChainGrows(pre, b, c, names, ch, root, Family(OwnSlot(ch.Tail(), names[|ch.made|]), root.ino), euid);
  }

  lemma FamilyWorksFrom(pre: Fs, touched: set<Slot>, t: Slot, root: Ino, start: Ino)
    requires WorksFrom(pre, touched, start) && t.staging == t.dest && (t.dest == start || t.dest !in pre)
      && root !in pre
    ensures WorksFrom(pre, touched + Family(t, root), start)
  {
  }

  lemma RootMade(pre: Fs, b: Fs, c: Fs, d: Ino, components: seq<Leaf>, names: seq<Leaf>, ch: Chain, touched: set<Slot>,
      root: Opened, kids: seq<Opened>, euid: Uid)
    requires SupportsSoFar(pre, b, d, components, names, ch, touched, euid) == true
      && |names| == |ch.made| + 1 == |ch.markers| + 1
    requires var t := OwnSlot(ch.Tail(), names[|ch.made|]);
      && PhaseOf(b, t) == Nothing && Destination(pre, t) == None && ch.Tail() in b
      && RootBuilt(b, c, t, root.ino, Done(CompleteRoot(root, Some(kids))), euid)
    ensures Fresh(pre, c, d, components, names, ch.Grown(root), kids,
                  touched + Family(OwnSlot(ch.Tail(), names[|ch.made|]), root.ino), euid) == true
  {
    hide Steps, Linked, AllCreatedHere, NoClash, AllNew, Via, Touches, ChildrenWereNothing, WorksFrom;
    RootIsNew(pre, b, c, touched, OwnSlot(ch.Tail(), names[|ch.made|]), root, kids, euid);
    if ch.made != [] {
      NothingInNewDirectories(pre, b, names, ch, touched, root.ino, euid);
    }
    RootCompletesChain(pre, b, c, names, ch, touched, root, kids, euid);
    TailIsStartOrNew(pre, b, names, ch, euid);
    FamilyWorksFrom(pre, touched, OwnSlot(ch.Tail(), names[|ch.made|]), root.ino, ch.start);
    RootSteps(pre, b, c, touched, OwnSlot(ch.Tail(), names[|ch.made|]), root.ino);
    SlotsOfAppend(ch.markers, root.marker.value);
  }

  lemma RootIsNew(pre: Fs, b: Fs, c: Fs, touched: set<Slot>, t: Slot, root: Opened, kids: seq<Opened>, euid: Uid)
    requires Touches(pre, b, touched) && RootBuilt(b, c, t, root.ino, Done(CompleteRoot(root, Some(kids))), euid)
    ensures root.ino !in b && root.ino !in pre
  {
  }

  /** In directories that did not exist nothing had left a trace. */
  lemma NothingInNewDirectories(pre: Fs, b: Fs, names: seq<Leaf>, ch: Chain, touched: set<Slot>, root: Ino, euid: Uid)
    requires Linked(pre, b, names, ch, euid) && ch.made != [] && Touches(pre, b, touched) && root !in b
    ensures ChildrenWereNothing(pre, ch.Tail(), root)
  {
    hide Linked, Steps, PhaseOf;
    MadeHoldsNoRecord(pre, b, names, ch, |ch.made| - 1, euid);
    TouchedStay(pre, b, touched, root);
    forall j | 0 <= j < |CHILD_NAMES|
      ensures PhaseOf(pre, ChildSlot(ch.Tail(), root, j)) == Nothing
    {
      NothingWhereNothingWas(pre, ChildSlot(ch.Tail(), root, j));
    }
  }

  lemma TouchedStay(pre: Fs, fs: Fs, touched: set<Slot>, i: Ino)
    requires Touches(pre, fs, touched)
    ensures i in pre ==> i in fs
  {
  }

  lemma NothingWhereNothingWas(fs: Fs, x: Slot)
    requires x.staging !in fs && x.dest !in fs
    ensures PhaseOf(fs, x) == Nothing
  {
  }

  /** The root of a layout, seen from the first missing component on. */
  method OpenRoot(disk: Disk, ghost pre: Fs, ghost d: Ino, ghost components: seq<Leaf>, ghost names: seq<Leaf>,
      ch: Chain, leaf: Leaf, ghost touched: set<Slot>, euid: Uid, worker: Uid)
    returns (r: Io<CompleteRoot>, ghost touched': set<Slot>)
    requires SupportsSoFar(pre, disk.fs, d, components, names, ch, touched, euid)
    requires |names| == |ch.made| + 1 && leaf == names[|ch.made|] && Hierarchical(pre)
    modifies disk
    ensures KeepsTree(old(disk.fs), disk.fs)
    ensures Steps(pre, disk.fs, touched') && NoClash(touched')
    ensures r.Done? && r.value.root.created ==>
      && r.value.children.Some? && r.value.root.marker.Some?
      && Fresh(pre, disk.fs, d, components, names, ch.Grown(r.value.root), r.value.children.value, touched',
        euid) == true
    ensures r.Done? && !r.value.root.created ==>
      && r.value.children == None && ch.made == [] && disk.fs == pre && Passable(pre, OwnSlot(ch.start, leaf))
      && r.value.root == Opened(Below(pre, ch.start, [leaf]), false, None) && IsDirectory(pre, r.value.root.ino)
      && Reopenable(pre, OwnSlot(ch.start, leaf), euid, worker, true)
    ensures KeepsInodes(old(disk.fs), disk.fs)
    ensures r.Done? && r.value.root.created ==>
      RootVouched(disk.fs, OwnSlot(ch.Tail(), leaf), r.value, euid, worker)
    ensures (disk.faultFree && Openable(old(disk.fs), OwnSlot(ch.Tail(), leaf), euid, worker, true)
             && (PhaseOf(old(disk.fs), OwnSlot(ch.Tail(), leaf)) == Nothing ==>
               NoOrphansIn(old(disk.fs), ch.Tail()))) ==> r.Done?
    ensures Standing(PhaseOf(old(disk.fs), OwnSlot(ch.Tail(), leaf))) ==> disk.fs == old(disk.fs)
  {
    hide Tree, Linked, Via, Fresh, RootBuilt, RootVouched, LayoutOpen, StillActive, NoOrphansIn, KeepsNames, NoClash;
    ghost var b := disk.fs;
    var t := OwnSlot(ch.Tail(), leaf);
    if ch.made != [] {
      EmptyIsUntouched(pre, b, names, ch, euid);
    } else {
      NoDirectoryInItself(pre, ch.Tail(), Stage(ch.Tail(), leaf));
    }
    r := CompleteRootAt(disk, t, euid, worker);
    touched' := RootTouched(pre, b, disk.fs, d, components, names, ch, touched, r, euid);
  }

  lemma RootTouched(pre: Fs, b: Fs, c: Fs, d: Ino, components: seq<Leaf>, names: seq<Leaf>, ch: Chain,
      touched: set<Slot>, r: Io<CompleteRoot>, euid: Uid)
    returns (touched': set<Slot>)
    requires SupportsSoFar(pre, b, d, components, names, ch, touched, euid) == true && |names| == |ch.made| + 1
    requires var t := OwnSlot(ch.Tail(), names[|ch.made|]);
      && (PhaseOf(b, t) != Nothing ==> ch.made == [])
      && (PhaseOf(b, t) == Nothing ==> Destination(pre, t) == None && RootOutcome(b, c, t, r, euid))
      && (PhaseOf(b, t) == StagedOnly ==> !r.Done? && Steps(b, c, ChildSlots(t.staging, Staged(b, t).value)))
      && (PhaseOf(b, t) != Nothing && PhaseOf(b, t) != StagedOnly ==> b == c && (r.Done? ==> !r.value.root.created))
    ensures PhaseOf(b, OwnSlot(ch.Tail(), names[|ch.made|])) == Nothing && r.Done? ==> r.value.root.created
    ensures KeepsInodes(b, c)
    ensures Steps(pre, c, touched') && NoClash(touched')
    ensures r.Done? && r.value.root.created ==>
      && r.value.children.Some? && r.value.root.marker.Some?
      && Fresh(pre, c, d, components, names, ch.Grown(r.value.root), r.value.children.value, touched', euid) == true
  {
    var t := OwnSlot(ch.Tail(), names[|ch.made|]);
    if PhaseOf(b, t) == Nothing && !(c == b && !r.Done?) {
      var root :| RootBuilt(b, c, t, root, r, euid);
      touched' := touched + Family(t, root);
      RootSteps(pre, b, c, touched, t, root);
      if r.Done? {
        RootMade(pre, b, c, d, components, names, ch, touched, r.value.root, r.value.children.value, euid);
      }
    } else if PhaseOf(b, t) == StagedOnly {
      touched' := ChildSlots(t.staging, Staged(b, t).value);
    } else {
      touched' := touched;
    }
  }

  // ---------------------------------------------------------------- final ownership

  /** `c` is `b` with the owner, mode or ACLs of directory `h` changed. */
  ghost predicate Hardened(b: Fs, c: Fs, h: Ino) {
    h in b && b[h].Directory? && h in c && c[h].Directory? && c[h].children == b[h].children && c == b[h := c[h]]
  }

  lemma HardeningMovesNothing(b: Fs, c: Fs, h: Ino)
    requires Hardened(b, c, h)
    ensures forall d, n :: Look(c, d, n) == Look(b, d, n)
    ensures forall t :: PhaseOf(c, t) == PhaseOf(b, t)
  {
    assert forall d, n :: Look(c, d, n) == Look(b, d, n);
  }

  lemma HardeningKeepsActive(b: Fs, c: Fs, h: Ino, k: Marker, euid: Uid)
    requires Hardened(b, c, h) && Look(b, h, RecordFile) == None && StillActive(b, k, euid)
    ensures StillActive(c, k, euid)
  {
    HardeningMovesNothing(b, c, h);
    assert RecordFile in b[k.directory].children;
  }

  lemma HardeningKeepsSteps(pre: Fs, b: Fs, c: Fs, h: Ino, touched: set<Slot>)
    requires Hardened(b, c, h) == true && h !in pre && Steps(pre, b, touched) == true
    ensures Steps(pre, c, touched)
  {
    HardeningMovesNothing(b, c, h);
  }

  lemma HardeningKeepsLinked(pre: Fs, b: Fs, c: Fs, h: Ino, names: seq<Leaf>, ch: Chain, euid: Uid)
    requires Hardened(b, c, h) == true && Look(b, h, RecordFile) == None && Linked(pre, b, names, ch, euid) == true
    ensures Linked(pre, c, names, ch, euid)
  {
    HardeningMovesNothing(b, c, h);
    forall k | 0 <= k < |ch.made|
      ensures Link(pre, c, names, ch, k, euid)
    {
      assert Link(pre, b, names, ch, k, euid);
      HardeningKeepsActive(b, c, h, ch.markers[k], euid);
    }
  }

  lemma HardeningKeepsChildren(b: Fs, c: Fs, h: Ino, p: Ino, root: Ino, kids: seq<Opened>, euid: Uid)
    requires Hardened(b, c, h) == true && Look(b, h, RecordFile) == None
      && AllCreatedHere(b, p, root, kids, euid) == true
    ensures AllCreatedHere(c, p, root, kids, euid)
  {
    HardeningMovesNothing(b, c, h);
    forall j | 0 <= j < |kids|
      ensures CreatedHere(c, ChildSlot(p, root, j), kids[j], euid)
    {
      assert CreatedHere(b, ChildSlot(p, root, j), kids[j], euid);
      HardeningKeepsActive(b, c, h, kids[j].marker.value, euid);
    }
  }

  lemma MadeHoldsNoRecord(pre: Fs, b: Fs, names: seq<Leaf>, ch: Chain, k: nat, euid: Uid)
    requires Linked(pre, b, names, ch, euid) == true && k < |ch.made|
    ensures ch.made[k] !in pre && IsDirectory(b, ch.made[k]) && Look(b, ch.made[k], RecordFile) == None
  {
    assert Link(pre, b, names, ch, k, euid);
  }

  lemma HardeningKeepsFresh(pre: Fs, b: Fs, c: Fs, k: nat, d: Ino, components: seq<Leaf>, names: seq<Leaf>, ch: Chain,
      kids: seq<Opened>, touched: set<Slot>, euid: Uid)
    requires Fresh(pre, b, d, components, names, ch, kids, touched, euid) == true && k < |ch.made|
      && Hardened(b, c, ch.made[k]) == true
    ensures Fresh(pre, c, d, components, names, ch, kids, touched, euid) == true
  {
    hide Steps, Linked, AllCreatedHere, FreshPlan;
    MadeHoldsNoRecord(pre, b, names, ch, k, euid);
    HardeningKeepsSteps(pre, b, c, ch.made[k], touched);
    HardeningKeepsLinked(pre, b, c, ch.made[k], names, ch, euid);
    HardeningKeepsChildren(b, c, ch.made[k], ch.Holder(|ch.made| - 1), ch.Tail(), kids, euid);
  }

  ghost predicate HandedUpTo(fs: Fs, ch: Chain, n: nat, worker: Uid) {
    n <= |ch.made| && forall k :: 0 <= k < n ==> SecureDirectory(fs, ch.made[k], worker)
  }

  /** Every marker of a new chain and of its children tells the truth, and every directory
      but the chain's from `n` on is the worker's. */
  ghost predicate SealedUpTo(fs: Fs, names: seq<Leaf>, ch: Chain, kids: seq<Opened>, n: nat, euid: Uid, worker: Uid) {
    && 0 < |ch.made| && ChainVouched(fs, names, ch, euid, worker) && HandedUpTo(fs, ch, n, worker)
    && KidsVouched(fs, ch.Holder(|ch.made| - 1), ch.Tail(), kids, worker)
  }

  ghost predicate Sealed(fs: Fs, names: seq<Leaf>, ch: Chain, kids: seq<Opened>, euid: Uid, worker: Uid) {
    SealedUpTo(fs, names, ch, kids, |ch.made|, euid, worker)
  }

  lemma HandingSeals(b: Fs, c: Fs, names: seq<Leaf>, ch: Chain, kids: seq<Opened>, n: nat, euid: Uid, worker: Uid)
    requires SealedUpTo(b, names, ch, kids, n, euid, worker) && n < |ch.made|
    requires Hardened(b, c, ch.made[n]) && SecureDirectory(c, ch.made[n], worker)
    ensures SealedUpTo(c, names, ch, kids, n + 1, euid, worker)
  {
    forall k | 0 <= k < |ch.made|
      ensures LinkVouched(c, names, ch, k, euid, worker)
    {
      assert LinkVouched(b, names, ch, k, euid, worker);
    }
  }

  lemma DirectoryIsGiven(fs: Fs, names: seq<Leaf>, ch: Chain, k: nat, euid: Uid, worker: Uid)
    requires ChainVouched(fs, names, ch, euid, worker) && k < |ch.made|
    ensures StagedSecure(fs, ch.made[k], euid, worker)
  {
    assert LinkVouched(fs, names, ch, k, euid, worker);
  }

  /** The loop over pending_ownership and the hardening of the root: every directory of the
      chain goes to the worker. */
  method HardenChain(disk: Disk, ghost pre: Fs, ghost d: Ino, ghost components: seq<Leaf>, ghost names: seq<Leaf>,
      ch: Chain, ghost kids: seq<Opened>, ghost touched: set<Slot>, euid: Uid, worker: Uid)
    returns (r: Io<()>)
    requires Fresh(pre, disk.fs, d, components, names, ch, kids, touched, euid) == true
    requires SealedUpTo(disk.fs, names, ch, kids, 0, euid, worker)
    modifies disk
    ensures KeepsTree(old(disk.fs), disk.fs)
    ensures Fresh(pre, disk.fs, d, components, names, ch, kids, touched, euid) == true
    ensures r.Done? ==> Sealed(disk.fs, names, ch, kids, euid, worker) && Permitted(euid, worker)
    ensures disk.faultFree && Permitted(euid, worker) ==> r.Done?
  {
    hide Tree, KidsVouched, LinkVouched, FreshPlan, Steps, AllCreatedHere;
    var i := 0;
    while i < |ch.made|
      invariant 0 <= i <= |ch.made| && SealedUpTo(disk.fs, names, ch, kids, i, euid, worker)
      invariant (i > 0 ==> Permitted(euid, worker)) && KeepsTree(old(disk.fs), disk.fs)
      invariant Fresh(pre, disk.fs, d, components, names, ch, kids, touched, euid) == true
    {
      ghost var b := disk.fs;
      MadeHoldsNoRecord(pre, b, names, ch, i, euid);
      var hardened := disk.Harden(ch.made[i], euid, worker);
      HardeningKeepsFresh(pre, b, disk.fs, i, d, components, names, ch, kids, touched, euid);
      DirectoryIsGiven(b, names, ch, i, euid, worker);
      if hardened.Done? {
        HandingSeals(b, disk.fs, names, ch, kids, i, euid, worker);
      }
      var _ :- hardened;
      :- disk.Sys();
      i := i + 1;
    }
    return Done(());
  }

  // ---------------------------------------------------------------- the layout

  /** The markers among opened nodes, in order. */
  function Retained(nodes: seq<Opened>): seq<Marker> {
    if nodes == [] then []
    else
      var last := nodes[|nodes| - 1];
      Retained(nodes[..|nodes| - 1]) + if last.marker.Some? then [last.marker.value] else []
  }

  /** The root existed, and its children were opened or created below it. */
  ghost predicate Extended(pre: Fs, fs: Fs, d: Ino, components: seq<Leaf>, at: Ino, leaf: Leaf, root: Ino,
      kids: seq<Opened>, touched: set<Slot>, euid: Uid, worker: Uid)
  {
    && Via(pre, d, components, at, [leaf]) && Passable(pre, OwnSlot(at, leaf)) && Below(pre, at, [leaf]) == root
    && IsDirectory(pre, at) && IsDirectory(pre, root)
    && |kids| == |CHILD_NAMES| && ChildrenSoFar(pre, fs, at, root, kids, euid, worker)
    && AllOpenedAlone(pre, at, root, kids)
    && touched == ChildSlots(at, root) && Steps(pre, fs, touched)
  }

  /** What a successful creation has done. */
  ghost predicate LayoutMade(pre: Fs, fs: Fs, d: Ino, components: seq<Leaf>, made: Creation, names: seq<Leaf>,
      ch: Chain, touched: set<Slot>, euid: Uid, worker: Uid)
  {
    && made.lease == ch.markers + Retained(made.children)
    && if made.root.created then
         Fresh(pre, fs, d, components, names, ch, made.children, touched, euid) && made.root.ino == ch.Tail()
       else
         && ch.made == [] && ch.markers == [] && |names| == 1
         && Extended(pre, fs, d, components, ch.start, names[0], made.root.ino, made.children, touched, euid, worker)
  }

  /** The last loop of create_worker_directory_layout: reopen each child, keep its marker. */
  method CollectMarkers(disk: Disk, first: seq<Marker>, children: seq<Opened>) returns (r: Io<seq<Marker>>)
    ensures r.Done? ==> r.value == first + Retained(children)
    ensures disk.faultFree ==> r.Done?
  {
    var lease := first;
    var i := 0;
    while i < |children|
      invariant 0 <= i <= |children|
      invariant lease == first + Retained(children[..i])
    {
      :- disk.Sys();
      assert children[..i + 1][..i] == children[..i];
      if children[i].marker.Some? {
        lease := lease + [children[i].marker.value];
      }
      i := i + 1;
    }
    assert children[..i] == children;
    return Done(lease);
  }

  /** Its end when the root was created: final ownership, then the lease. */
  method FinishFresh(disk: Disk, ghost pre: Fs, ghost d: Ino, ghost components: seq<Leaf>, ghost names: seq<Leaf>,
      ch: Chain, root: Opened, kids: seq<Opened>, ghost touched: set<Slot>, euid: Uid, worker: Uid)
    returns (r: Io<Creation>)
    requires Fresh(pre, disk.fs, d, components, names, ch, kids, touched, euid) == true && root.created
      && root.ino == ch.Tail()
    requires SealedUpTo(disk.fs, names, ch, kids, 0, euid, worker)
    modifies disk
    ensures KeepsTree(old(disk.fs), disk.fs)
    ensures Fresh(pre, disk.fs, d, components, names, ch, kids, touched, euid) == true
    ensures r.Done? ==> r.value.root == root && r.value.children == kids
    ensures r.Done? ==> Sealed(disk.fs, names, ch, kids, euid, worker) && Permitted(euid, worker)
    ensures disk.faultFree && Permitted(euid, worker) ==> r.Done?
    ensures r.Done? ==> LayoutMade(pre, disk.fs, d, components, r.value, names, ch, touched, euid, worker) == true
  {
    hide Tree, Fresh, SealedUpTo;
    var _ :- HardenChain(disk, pre, d, components, names, ch, kids, touched, euid, worker);
    :- disk.Sys();
    var lease :- CollectMarkers(disk, ch.markers, kids);
    return Done(Creation(root, kids, lease));
  }

  /** Its end when the root existed: open or create each child, then the lease. */
  method FinishExisting(disk: Disk, ghost d: Ino, ghost components: seq<Leaf>, at: Ino, leaf: Leaf, root: Opened,
      euid: Uid, worker: Uid)
    returns (r: Io<Creation>)
    requires IsDirectory(disk.fs, at) && IsDirectory(disk.fs, root.ino) && !root.created
    requires Via(disk.fs, d, components, at, [leaf]) && Passable(disk.fs, OwnSlot(at, leaf))
      && Below(disk.fs, at, [leaf]) == root.ino
    modifies disk
    ensures KeepsTree(old(disk.fs), disk.fs)
    ensures Steps(old(disk.fs), disk.fs, ChildSlots(at, root.ino))
    ensures r.Done? ==> LayoutMade(old(disk.fs), disk.fs, d, components, r.value, [leaf], Chain(at, [], []),
                                   ChildSlots(at, root.ino), euid, worker)
    ensures LayoutStanding(old(disk.fs), d, components) ==> disk.fs == old(disk.fs)
    ensures r.Done? ==> r.value.root == root
    ensures r.Done? && Closed(old(disk.fs)) && at != root.ino ==>
      AllOpenable(old(disk.fs), at, root.ino, euid, worker)
    ensures disk.faultFree && AllOpenable(old(disk.fs), at, root.ino, euid, worker) ==> r.Done?
  {
    hide Tree, Via, LayoutStanding, LayoutPending, LayoutSound, ChildrenSoFar, AllOpenedAlone, Steps, AllOpenable,
      Closed, PhaseOf;
    ghost var pre := disk.fs;
    ViaCarries(disk.fs, d, components, at, [leaf]);
    var kids :- OpenOrCreateChildren(disk, at, root.ino, euid, worker, false, None);
    if Closed(pre) && at != root.ino {
      OpenedWasOpenable(pre, disk.fs, at, root.ino, kids, euid, worker);
    }
    :- disk.Sys();
    var lease :- CollectMarkers(disk, [], kids);
    return Done(Creation(root, kids, lease));
  }

  lemma FreshIsNotStanding(pre: Fs, fs: Fs, d: Ino, components: seq<Leaf>, names: seq<Leaf>, ch: Chain,
      kids: seq<Opened>, touched: set<Slot>, euid: Uid)
    requires Fresh(pre, fs, d, components, names, ch, kids, touched, euid)
    ensures !LayoutStanding(pre, d, components) && !LayoutPending(pre, d, components)
  {
    hide Steps, Linked, AllCreatedHere, NoClash, AllNew;
    ViaCarries(pre, d, components, ch.start, names);
  }

  lemma RootSealsChain(b: Fs, c: Fs, names: seq<Leaf>, ch: Chain, made: CompleteRoot, euid: Uid, worker: Uid)
    requires ChainVouched(b, names, ch, euid, worker) && |names| == |ch.made| + 1 && KeepsInodes(b, c)
    requires RootVouched(c, OwnSlot(ch.Tail(), names[|ch.made|]), made, euid, worker)
    ensures SealedUpTo(c, names, ch.Grown(made.root), made.children.value, 0, euid, worker)
  {
    VouchedGrows(b, c, names, ch, made.root, euid, worker);
  }

  /** Every reserved name in any directory belongs to a directory that exists. */
  ghost predicate NoOrphans(fs: Fs) {
    forall p :: IsDirectory(fs, p) ==> NoOrphansIn(fs, p)
  }

  lemma ClearForRoot(pre: Fs, b: Fs, d: Ino, components: seq<Leaf>, names: seq<Leaf>, ch: Chain, touched: set<Slot>,
      euid: Uid)
    requires SupportsSoFar(pre, b, d, components, names, ch, touched, euid)
    requires LayoutStanding(pre, d, components) || NoOrphans(pre)
    ensures PhaseOf(b, OwnSlot(ch.Tail(), names[|ch.made|])) == Nothing ==> NoOrphansIn(b, ch.Tail())
  {
    if LayoutStanding(pre, d, components) {
      StandingIsWalked(pre, b, d, components, names, ch, touched, euid);
    }
  }

  lemma EndIsOpenIff(pre: Fs, at: Ino, leaf: Leaf, euid: Uid, worker: Uid)
    requires Reopenable(pre, OwnSlot(at, leaf), euid, worker, true)
    ensures LayoutOpen(pre, at, [leaf], euid, worker) <==> AllOpenable(pre, at, Below(pre, at, [leaf]), euid, worker)
  {
    ReopenableIsPassable(pre, OwnSlot(at, leaf), euid, worker, true);
  }

  /** What starts with a missing node is open to those who may hand directories over. */
  lemma FreshWasOpenIff(pre: Fs, fs: Fs, d: Ino, components: seq<Leaf>, names: seq<Leaf>, ch: Chain, kids: seq<Opened>,
      touched: set<Slot>, euid: Uid, worker: Uid)
    requires Fresh(pre, fs, d, components, names, ch, kids, touched, euid)
    requires OpenSoFar(pre, d, components, names, ch.start, euid, worker)
    ensures LayoutOpen(pre, d, components, euid, worker) <==> Permitted(euid, worker)
  {
  }

  lemma FreshSteps(pre: Fs, fs: Fs, d: Ino, components: seq<Leaf>, names: seq<Leaf>, ch: Chain, kids: seq<Opened>,
      touched: set<Slot>, euid: Uid)
    requires Fresh(pre, fs, d, components, names, ch, kids, touched, euid)
    ensures Steps(pre, fs, touched) && NoClash(touched)
  {
    hide Steps, Linked, AllCreatedHere, NoClash;
  }

  /** The loop over supports has led to a root that exists. */
  lemma ExistingRootIsReached(pre: Fs, b: Fs, d: Ino, components: seq<Leaf>, names: seq<Leaf>, ch: Chain,
      touched: set<Slot>, root: Ino, euid: Uid, worker: Uid)
    requires SupportsSoFar(pre, b, d, components, names, ch, touched, euid) && ch.made == [] && |names| == 1
    requires OpenSoFar(pre, d, components, names, ch.start, euid, worker) && Hierarchical(pre)
    requires Reopenable(pre, OwnSlot(ch.start, names[0]), euid, worker, true) && IsDirectory(pre, root)
    requires Destination(pre, OwnSlot(ch.start, names[0])) == Some(root)
    ensures ch == Chain(ch.start, [], []) && Via(pre, d, components, ch.start, [names[0]])
    ensures ch.start != root && NoClash(ChildSlots(ch.start, root))
    ensures LayoutOpen(pre, d, components, euid, worker) <==> AllOpenable(pre, ch.start, root, euid, worker)
  {
    hide Via, Linked, Touches, Reopenable, AllOpenable;
    assert names == [names[0]];
    ChainHasMarkers(pre, b, names, ch, euid);
    ReopenableIsPassable(pre, OwnSlot(ch.start, names[0]), euid, worker, true);
    NoDirectoryInItself(pre, ch.start, Plain(names[0]));
    EndIsOpenIff(pre, ch.start, names[0], euid, worker);
  }

  /** create_worker_directory_layout below the locked anchor `d`. */
  method CreateBelow(disk: Disk, d: Ino, components: seq<Leaf>, euid: Uid, worker: Uid)
    returns (r: Io<Creation>, ghost names: seq<Leaf>, ghost ch: Chain, ghost touched: set<Slot>)
    requires IsDirectory(disk.fs, d) && components != [] && Tree(disk.fs)
    modifies disk
    ensures KeepsTree(old(disk.fs), disk.fs)
    ensures Steps(old(disk.fs), disk.fs, touched) && NoClash(touched)
    ensures r.Done? ==>
      LayoutMade(old(disk.fs), disk.fs, d, components, r.value, names, ch, touched, euid, worker) == true
    ensures LayoutStanding(old(disk.fs), d, components) ==> disk.fs == old(disk.fs)
    ensures r.Done? ==> LayoutOpen(old(disk.fs), d, components, euid, worker)
    ensures r.Done? && r.value.root.created ==> Sealed(disk.fs, names, ch, r.value.children, euid, worker)
    ensures (disk.faultFree && LayoutOpen(old(disk.fs), d, components, euid, worker)
             && (LayoutStanding(old(disk.fs), d, components) || NoOrphans(old(disk.fs)))) ==> r.Done?
  {
    hide Tree, Hierarchical, LayoutStanding, LayoutOpen, NoOrphans, NoOrphansIn, Closed, Openable, Reopenable,
      SupportsSoFar, Fresh, SealedUpTo, RootVouched, ChainVouched, PhaseOf, AllCreatedHere, StillActive, KeepsInodes,
      OpenSoFar, LayoutMade, Via, NoClash, Steps;
    ghost var pre := disk.fs;
    TreeMeans(pre);
    ghost var standing, open := LayoutStanding(pre, d, components), LayoutOpen(pre, d, components, euid, worker);
    ch := Chain(d, [], []);
    var supports;
    supports, names, touched := OpenSupports(disk, d, components, euid, worker);
    TouchedDoNotClash(pre, disk.fs, touched);
    var chain :- supports;
    ghost var b, walked := disk.fs, touched;
    ch := chain;
    if standing {
      StandingIsWalked(pre, b, d, components, names, ch, touched, euid);
    }
    if open && (standing || NoOrphans(pre)) {
      NextIsOpenable(pre, b, d, components, names, ch, touched, euid, worker);
      ClearForRoot(pre, b, d, components, names, ch, touched, euid);
    }
    var complete;
    var leaf := components[|components| - 1];
    complete, touched := OpenRoot(disk, pre, d, components, names, chain, leaf, touched, euid, worker);
    var root :- complete;
    if root.root.created {
      RootSealsChain(b, disk.fs, names, ch, root, euid, worker);
      ch := ch.Grown(root.root);
      FreshIsNotStanding(pre, disk.fs, d, components, names, ch, root.children.value, touched, euid);
      FreshWasOpenIff(pre, disk.fs, d, components, names, ch, root.children.value, touched, euid, worker);
      r := FinishFresh(disk, pre, d, components, names, chain.Grown(root.root), root.root, root.children.value,
        touched, euid, worker);
      FreshSteps(pre, disk.fs, d, components, names, ch, root.children.value, touched, euid);
    } else {
      assert names == [components[|components| - 1]];
      ExistingRootIsReached(pre, b, d, components, names, chain, walked, root.root.ino, euid, worker);
      touched := ChildSlots(chain.start, root.root.ino);
      r := FinishExisting(disk, d, components, chain.start, components[|components| - 1], root.root, euid, worker);
    }
  }

  /** The existing directory below which everything is created, and which is locked. */
  function AnchorOf(fs: Fs, l: Layout, euid: Uid, worker: Uid): Io<Ino>
    requires ValidLayout(l)
  {
    WalkFrom(fs, l.top, l.components[..l.firstCreatable], euid, worker)
  }

  function BelowAnchor(l: Layout): seq<Leaf>
    requires ValidLayout(l)
  {
    l.components[l.firstCreatable..]
  }

  /** create_worker_directory_layout. Directories form a tree, and nothing happens unless
      the anchor is found. A creation that succeeds found the layout open, and without faults
      an open layout is created unless the name of a vanished directory is in the way. */
  method CreateLayout(disk: Disk, l: Layout, euid: Uid, worker: Uid)
    returns (r: Io<Creation>, ghost names: seq<Leaf>, ghost ch: Chain, ghost touched: set<Slot>)
    requires ValidLayout(l) && Tree(disk.fs)
    modifies disk
    ensures KeepsTree(old(disk.fs), disk.fs)
    ensures Steps(old(disk.fs), disk.fs, touched) && NoClash(touched)
    ensures !TrustedPath(old(disk.fs), l.top, l.components[..l.firstCreatable], euid, worker) ==>
      disk.fs == old(disk.fs) && !r.Done?
    ensures !AnchorOf(old(disk.fs), l, euid, worker).Done? ==> disk.fs == old(disk.fs) && !r.Done?
    ensures AnchorOf(old(disk.fs), l, euid, worker).Done? ==>
      var d, rest := AnchorOf(old(disk.fs), l, euid, worker).value, BelowAnchor(l);
      && (r.Done? ==> LayoutMade(old(disk.fs), disk.fs, d, rest, r.value, names, ch, touched, euid, worker))
      && (r.Done? && r.value.root.created ==> Sealed(disk.fs, names, ch, r.value.children, euid, worker))
      && (LayoutStanding(old(disk.fs), d, rest) ==> disk.fs == old(disk.fs))
      && (r.Done? ==> LayoutOpen(old(disk.fs), d, rest, euid, worker))
      && (disk.faultFree && LayoutOpen(old(disk.fs), d, rest, euid, worker) ==>
          (LayoutStanding(old(disk.fs), d, rest) || NoOrphans(old(disk.fs)) ==> r.Done?))
  {
    hide Tree, LayoutStanding, LayoutOpen, LayoutMade, Sealed, NoOrphans, Closed, TrustedPath, PathMissing;
    names, ch, touched := [], Chain(l.top, [], []), {};
    WalkDoneIff(disk.fs, l.top, l.components[..l.firstCreatable], euid, worker);
    var anchor :- Walk(disk, l.top, l.components[..l.firstCreatable], euid, worker);
    WalkEndsAcceptably(disk.fs, l.top, l.components[..l.firstCreatable], euid, worker);
    :- disk.Sys();
    r, names, ch, touched := CreateBelow(disk, anchor, l.components[l.firstCreatable..], euid, worker);
  }

  // ---------------------------------------------------------------- the lease

  /** Every marker among the children is the live marker of its child. */
  ghost predicate KidsLive(fs: Fs, p: Ino, root: Ino, kids: seq<Opened>, euid: Uid) {
    && |kids| == |CHILD_NAMES|
    && forall j :: 0 <= j < |kids| && kids[j].marker.Some? ==>
         kids[j].marker.value.slot == ChildSlot(p, root, j) && StillActive(fs, kids[j].marker.value, euid)
  }

  ghost predicate ApartFromChildren(first: seq<Marker>, p: Ino, root: Ino) {
    forall i, j :: 0 <= i < |first| && 0 <= j < |CHILD_NAMES| ==> Comparable(first[i].slot, ChildSlot(p, root, j))
  }

  lemma LeaseGrows(fs: Fs, lease: seq<Marker>, k: Marker, euid: Uid)
    requires LiveLease(fs, lease, euid) && StillActive(fs, k, euid)
    requires forall i :: 0 <= i < |lease| ==> Comparable(lease[i].slot, k.slot)
    ensures LiveLease(fs, lease + [k], euid)
  {
    hide StillActive, Comparable;
  }

  ghost predicate IsChildSlot(t: Slot, p: Ino, root: Ino, n: nat)
    requires n <= |CHILD_NAMES|
  {
    exists j :: 0 <= j < n && t == ChildSlot(p, root, j)
  }

  /** The markers kept of the first `n` children prolong a live lease. */
  lemma {:induction false} RetainedLive(fs: Fs, first: seq<Marker>, p: Ino, root: Ino, kids: seq<Opened>, n: nat,
      euid: Uid)
    requires LiveLease(fs, first, euid) && ApartFromChildren(first, p, root) && KidsLive(fs, p, root, kids, euid)
      && n <= |kids|
    ensures LiveLease(fs, first + Retained(kids[..n]), euid)
    ensures forall i :: |first| <= i < |first + Retained(kids[..n])| ==>
      IsChildSlot((first + Retained(kids[..n]))[i].slot, p, root, n)
  {
    hide StillActive, Comparable, IsChildSlot;
    if n == 0 {
      assert first + Retained(kids[..n]) == first;
    } else {
      RetainedLive(fs, first, p, root, kids, n - 1, euid);
      assert kids[..n][..n - 1] == kids[..n - 1];
      var lease := first + Retained(kids[..n - 1]);
      forall i | |first| <= i < |lease|
        ensures IsChildSlot(lease[i].slot, p, root, n) && Comparable(lease[i].slot, ChildSlot(p, root, n - 1))
      {
        EarlierChildSlot(lease[i].slot, p, root, n);
      }
      if kids[n - 1].marker.Some? {
        var k := kids[n - 1].marker.value;
        assert first + Retained(kids[..n]) == lease + [k];
        LastChildSlot(k.slot, p, root, n);
        forall i | 0 <= i < |first|
          ensures Comparable(lease[i].slot, k.slot)
        {
          assert Comparable(first[i].slot, ChildSlot(p, root, n - 1));
        }
        LeaseGrows(fs, lease, k, euid);
      } else {
        assert first + Retained(kids[..n]) == lease;
      }
    }
  }

  lemma EarlierChildSlot(t: Slot, p: Ino, root: Ino, n: nat)
    requires 0 < n <= |CHILD_NAMES| && IsChildSlot(t, p, root, n - 1)
    ensures IsChildSlot(t, p, root, n) && Comparable(t, ChildSlot(p, root, n - 1))
  {
    var j :| 0 <= j < n - 1 && t == ChildSlot(p, root, j);
    ChildSlotsComparable(p, root, j, n - 1);
  }

  lemma LastChildSlot(t: Slot, p: Ino, root: Ino, n: nat)
    requires 0 < n <= |CHILD_NAMES| && t == ChildSlot(p, root, n - 1)
    ensures IsChildSlot(t, p, root, n)
  {
  }
}
