/** Whole runs: any number of calls by any processes, each of which may fail or crash
    after any system call. The lock on the anchor directory orders the calls. */
module WorkerRuns {
  import opened Wrappers
  import opened WorkerFs
  import opened WorkerTree
  import opened WorkerRetirement
  import opened WorkerAction
  import opened WorkerLayout
  import opened WorkerRerun

  /** One call, as the contracts of modules WorkerAction, WorkerRetirement, WorkerRoot and
      WorkerLayout describe it: creating or retiring one node, creating a layout and claiming
      the nodes whose markers its lease holds, or retiring a lease. */
  datatype Call =
    | Creating(t: Slot, outcome: NodeOutcome)
    | Retiring(t: Slot)
    | Building(touched: set<Slot>, claimed: set<Slot>)
    | Releasing(slots: set<Slot>)

  ghost predicate CallStep(pre: Fs, post: Fs, call: Call) {
    KeepsTree(pre, post) && Does(pre, post, call)
  }

  ghost predicate Does(pre: Fs, post: Fs, call: Call) {
    match call
    case Creating(t, o) => NodeStep(pre, post, t, o)
    case Retiring(t) => post == pre || (PhaseOf(pre, t) == Published && MarkerRetired(pre, post, t))
    case Building(touched, claimed) =>
      && Steps(pre, post, touched)
      && forall t :: t in claimed ==> t in touched && PhaseOf(pre, t) == Nothing && PhaseOf(post, t) == Published
    case Releasing(slots) =>
      Frame(pre, post, slots) && forall t :: t in slots ==> Advances(PhaseOf(pre, t), PhaseOf(post, t))
  }

  /** A successful creation of a layout is such a call. */
  lemma LayoutIsCall(pre: Fs, fs: Fs, d: Ino, components: seq<Leaf>, made: Creation, names: seq<Leaf>, ch: Chain,
      touched: set<Slot>, euid: Uid, worker: Uid)
    requires LayoutMade(pre, fs, d, components, made, names, ch, touched, euid, worker)
      && Steps(pre, fs, touched) && KeepsTree(pre, fs)
    ensures CallStep(pre, fs, Building(touched, SlotsOf(made.lease)))
  {
    hide LayoutMade, Steps, PhaseOf, Tree;
    forall t | t in SlotsOf(made.lease)
      ensures t in touched && PhaseOf(pre, t) == Nothing && PhaseOf(fs, t) == Published
    {
      var k :| k in made.lease && k.slot == t;
      LeaseWasNothing(pre, fs, d, components, made, names, ch, touched, euid, worker, k);
    }
  }

  /** A creation of a layout that fails or is interrupted claims nothing, and leaves every
      node as it was or begun. */
  lemma FailedLayoutIsCall(pre: Fs, fs: Fs, touched: set<Slot>)
    requires Steps(pre, fs, touched) && KeepsTree(pre, fs)
    ensures CallStep(pre, fs, Building(touched, {}))
  {
    hide KeepsTree;
  }

  /** A retirement of a lease, finished or not. */
  lemma RetirementIsCall(pre: Fs, post: Fs, lease: seq<Marker>, c: nat, euid: Uid)
    requires LiveLease(pre, lease, euid) && RetiredTo(pre, post, lease, c, euid) && KeepsTree(pre, post)
    ensures CallStep(pre, post, Releasing(SlotsOf(lease)))
  {
    hide HoldsMarker, Frame, PhaseOf, Look, DistinctSlots, SameDestinations, Tree;
    forall t | t in SlotsOf(lease)
      ensures Advances(PhaseOf(pre, t), PhaseOf(post, t))
    {
      var k :| k in lease && k.slot == t;
      var j :| 0 <= j < |lease| && lease[j] == k;
      assert StillActive(pre, lease[j], euid);
      assert j < c ==> StillActive(post, lease[j], euid);
      assert j >= c ==> NowRetired(post, lease[j]);
    }
  }

  /** No call names the destination of `x` under another staging directory. */
  predicate Respects(call: Call, x: Slot) {
    match call
    case Creating(t, _) => !Clash(t, x)
    case Retiring(t) => !Clash(t, x)
    case Building(touched, _) => forall t :: t in touched ==> !Clash(t, x)
    case Releasing(slots) => forall t :: t in slots ==> !Clash(t, x)
  }

  ghost predicate IsRun(states: seq<Fs>, calls: seq<Call>, x: Slot) {
    && |states| == |calls| + 1
    && forall i :: 0 <= i < |calls| ==> CallStep(states[i], states[i + 1], calls[i]) && Respects(calls[i], x)
  }

  predicate Claims(call: Call, x: Slot) {
    || (call.Creating? && call.t == x && ClaimsCreation(call.outcome))
    || (call.Building? && x in call.claimed)
  }

  // ---------------------------------------------------------------- one call

  predicate About(call: Call, x: Slot) {
    match call
    case Creating(t, _) => t == x
    case Retiring(t) => t == x
    case Building(touched, _) => x in touched
    case Releasing(slots) => x in slots
  }

  /** The calls that retire evidence. */
  predicate Retires(call: Call) {
    call.Retiring? || call.Releasing?
  }

  lemma CallsElsewhere(pre: Fs, post: Fs, call: Call, x: Slot)
    requires CallStep(pre, post, call) && Respects(call, x) && !About(call, x)
    ensures SameNames(pre, post, x)
  {
    hide KeepsTree;
    match call
    case Building(touched, _) =>
      FrameKeepsPhase(pre, post, touched, x);
    case Releasing(slots) =>
      FrameKeepsPhase(pre, post, slots, x);
    case _ =>
      if post != pre {
        SlotFrameIsFrame(pre, post, call.t);
        FrameKeepsPhase(pre, post, {call.t}, x);
      }
  }

  /** A call moves a node forward or not at all, and a claim is the first move of all. */
  lemma CallAdvances(pre: Fs, post: Fs, call: Call, x: Slot)
    requires CallStep(pre, post, call) && Respects(call, x)
    ensures Advances(PhaseOf(pre, x), PhaseOf(post, x))
    ensures Claims(call, x) ==> PhaseOf(pre, x) == Nothing && PhaseOf(post, x) == Published
  {
    hide KeepsTree;
    if !About(call, x) {
      CallsElsewhere(pre, post, call, x);
    }
  }

  // ---------------------------------------------------------------- whole runs

  /** Phases only move forward, over any stretch of any run. */
  lemma {:induction false} PhasesAdvance(states: seq<Fs>, calls: seq<Call>, x: Slot, i: nat, j: nat)
    requires IsRun(states, calls, x) && i <= j < |states|
    ensures Advances(PhaseOf(states[i], x), PhaseOf(states[j], x))
    decreases j - i
  {
    hide PhaseOf, CallStep, Respects;
    if i < j {
      PhasesAdvance(states, calls, x, i, j - 1);
      CallAdvances(states[j - 1], states[j], calls[j - 1], x);
    }
  }

  /** From a tree every state is a tree. */
  lemma {:induction false} RunsStayTrees(states: seq<Fs>, calls: seq<Call>, x: Slot, j: nat)
    requires IsRun(states, calls, x) && j < |states| && Tree(states[0])
    ensures Tree(states[j])
  {
    hide Tree, Does, Respects;
    if j > 0 {
      RunsStayTrees(states, calls, x, j - 1);
      assert CallStep(states[j - 1], states[j], calls[j - 1]);
    }
  }

  /** What must hold of the four names of a node in every state of every run. */
  predicate Coherent(fs: Fs, x: Slot) {
    && (RetiredMarker(fs, x).Some? ==> ActiveMarker(fs, x) == None && Staged(fs, x) == None && Destination(fs, x).Some?)
    && (ActiveMarker(fs, x).Some? ==> (Staged(fs, x).Some? <==> Destination(fs, x) == None))
    && (Staged(fs, x).Some? ==> Destination(fs, x) == None)
  }

  lemma CoherentIffNotCorrupt(fs: Fs, x: Slot)
    ensures Coherent(fs, x) <==> PhaseOf(fs, x) != Corrupt
  {
  }

  /** From a coherent start every state is coherent: active and retired markers never
      coexist, and a retired marker rules out a candidate. */
  lemma RunsStayCoherent(states: seq<Fs>, calls: seq<Call>, x: Slot, j: nat)
    requires IsRun(states, calls, x) && j < |states| && Coherent(states[0], x)
    ensures Coherent(states[j], x)
  {
    PhasesAdvance(states, calls, x, 0, j);
    CoherentIffNotCorrupt(states[0], x);
    CoherentIffNotCorrupt(states[j], x);
  }

  /** At most one call of a run ever hands out the right to claim the creation of `x`, as a
      success or as evidence kept by a failure. */
  lemma CreatedAtMostOnce(states: seq<Fs>, calls: seq<Call>, x: Slot, i: nat, j: nat)
    requires IsRun(states, calls, x) && i < |calls| && j < |calls| && Claims(calls[i], x) && Claims(calls[j], x)
    ensures i == j
  {
    hide PhaseOf, CallStep, Respects, Claims;
    var a, b := if i <= j then i else j, if i <= j then j else i;
    CallAdvances(states[a], states[a + 1], calls[a], x);
    CallAdvances(states[b], states[b + 1], calls[b], x);
    if a < b {
      PhasesAdvance(states, calls, x, a + 1, b);
      assert false;
    }
  }

  predicate Refused(call: Call) {
    call.Creating? && (call.outcome.NodeFailed? || call.outcome.NodeCrashed?)
  }

  /** Interrupted creation stays refused: once evidence of `x` is pending, and as long as
      nothing about `x` is retired, its four names stay put whatever else runs. Every
      creation of the node fails and changes nothing at all, and no call claims it: a
      layout that contains it is not created either. */
  lemma {:induction false} InterruptedCreationStaysRefused(states: seq<Fs>, calls: seq<Call>, x: Slot, i: nat, j: nat)
    requires IsRun(states, calls, x) && i <= j < |states| && Pending(states[i], x)
    requires forall k :: i <= k < j && About(calls[k], x) ==> !Retires(calls[k])
    ensures SameNames(states[i], states[j], x) && Pending(states[j], x)
    ensures forall k :: i <= k < j ==> !Claims(calls[k], x)
    ensures forall k :: i <= k < j && About(calls[k], x) && calls[k].Creating? ==>
      states[k + 1] == states[k] && Refused(calls[k])
    decreases j - i
  {
    hide CallStep, Respects, Claims, Pending, Look, Refused;
    if i < j {
      InterruptedCreationStaysRefused(states, calls, x, i, j - 1);
      RefusedOnce(states[i], states[j - 1], states[j], calls[j - 1], x);
    }
  }

  lemma RefusedOnce(first: Fs, pre: Fs, post: Fs, call: Call, x: Slot)
    requires CallStep(pre, post, call) && Respects(call, x) && (About(call, x) ==> !Retires(call))
    requires SameNames(first, pre, x) && Pending(pre, x)
    ensures SameNames(first, post, x) && Pending(post, x) && !Claims(call, x)
    ensures About(call, x) && call.Creating? ==> post == pre && Refused(call)
  {
    hide KeepsTree;
    if !About(call, x) {
      CallsElsewhere(pre, post, call, x);
    }
  }
}
