/** The part of a Unix filesystem that the worker-directory protocol reads and changes:
    inodes with an owner, a mode and contents, and directories that bind names to inodes.

    A directory identity (device, inode number) is one `Ino`. Inode numbers may be reused
    once freed. The names that the protocol derives from a SHA-256 digest of the destination
    parent's identity and the destination name are constructors of `Name`, which makes the
    digest injective and keeps reserved names apart from ordinary ones. */
module WorkerFs {
  import opened Wrappers

  type Ino = nat
  type Uid = nat
  type Leaf = string

  const ROOT_UID: Uid := 0

  /** The directories inside a worker root. */
  const CHILD_NAMES: seq<Leaf> := ["repos", "jobs", "cache", "artifacts", "logs"]

  /** Why a call failed: the kinds that some branch of the protocol tells apart. */
  datatype Error = NotFound | Refused | OsFailure

  /** The result of a call: a value, an error, or the death of the calling process. */
  datatype Io<+T> = Done(value: T) | Failed(error: Error) | Crashed {
    predicate IsFailure() { !Done? }

    function PropagateFailure<U>(): Io<U>
      requires IsFailure()
    {
      if Failed? then Failed(error) else Crashed
    }

    function Extract(): T
      requires Done?
    {
      value
    }
  }

  /** What happens before a system call takes effect: nothing, an error, or a crash. */
  datatype Fate = Proceeds | Errs(error: Error) | Dies {
    predicate IsFailure() { !Proceeds? }

    function PropagateFailure<U>(): Io<U>
      requires IsFailure()
    {
      if Errs? then Failed(error) else Crashed
    }
  }

  type Digit = d: int | 0 <= d < 8

  /** Permission bits as octal digits, and the sticky bit. */
  datatype Mode = Mode(user: Digit, group: Digit, other: Digit, sticky: bool)

  const PRIVATE_DIRECTORY := Mode(7, 0, 0, false)
  const PRIVATE_FILE := Mode(6, 0, 0, false)

  predicate HasDigits(m: Mode, user: nat, group: nat, other: nat) {
    m.user == user && m.group == group && m.other == other
  }

  predicate WriteDigit(d: nat) {
    d / 2 % 2 == 1
  }

  /** `mode & 0o022 != 0` */
  predicate OthersMayWrite(m: Mode) {
    WriteDigit(m.group) || WriteDigit(m.other)
  }

  datatype Attr = Attr(owner: Uid, mode: Mode, accessAcl: bool, defaultAcl: bool)

  datatype Name =
    | Plain(leaf: Leaf)
    | Stage(parent: Ino, target: Leaf)
    | Active(parent: Ino, target: Leaf)
    | Retired(parent: Ino, target: Leaf)
    | RecordFile

  /** The facts one provenance record states. Module `ProvenanceRecord` proves that its
      byte encoding is injective, so records are compared here as values. */
  datatype Record = Record(
    staging: Ino, destination: Ino, created: Ino, marker: Ino, file: Ino, worker: Uid, leaf: Leaf)

  datatype Content = Torn | Whole(record: Record)

  datatype Node =
    | Directory(attr: Attr, children: map<Name, Ino>)
    | Regular(attr: Attr, content: Content)

  type Fs = map<Ino, Node>

  predicate IsDirectory(fs: Fs, d: Ino) {
    d in fs && fs[d].Directory?
  }

  function Look(fs: Fs, d: Ino, n: Name): Option<Ino> {
    if d in fs && fs[d].Directory? && n in fs[d].children then Some(fs[d].children[n]) else None
  }

  /** The directory a path leads to. */
  function Resolve(fs: Fs, d: Ino, components: seq<Leaf>): Option<Ino>
    decreases |components|
  {
    if components == [] then Some(d)
    else
      match Look(fs, d, Plain(components[0]))
      case None => None
      case Some(i) => Resolve(fs, i, components[1..])
  }

  function Bind(fs: Fs, d: Ino, n: Name, i: Ino): (r: Fs)
    requires IsDirectory(fs, d)
    ensures r.Keys == fs.Keys
    ensures forall k :: k in fs ==> r[k].attr == fs[k].attr && r[k].Directory? == fs[k].Directory?
    ensures forall d', n' :: Look(r, d', n') == if d' == d && n' == n then Some(i) else Look(fs, d', n')
    ensures forall k :: k in fs && k != d ==> r[k] == fs[k]
  {
    fs[d := fs[d].(children := fs[d].children[n := i])]
  }

  function Unbind(fs: Fs, d: Ino, n: Name): (r: Fs)
    requires IsDirectory(fs, d)
    ensures r.Keys == fs.Keys
    ensures forall k :: k in fs ==> r[k].attr == fs[k].attr && r[k].Directory? == fs[k].Directory?
    ensures forall d', n' :: Look(r, d', n') == if d' == d && n' == n then None else Look(fs, d', n')
    ensures forall k :: k in fs && k != d ==> r[k] == fs[k]
  {
    fs[d := fs[d].(children := fs[d].children - {n})]
  }

  // ---------------------------------------------------------------- slots and phases

  /** One worker node: its destination is `leaf` in `dest`, its candidate and its markers
      live under reserved names in `staging`. */
  datatype Slot = Slot(staging: Ino, dest: Ino, leaf: Leaf)

  predicate OwnsName(t: Slot, d: Ino, n: Name) {
    || (d == t.dest && n == Plain(t.leaf))
    || (d == t.staging && (n == Stage(t.dest, t.leaf) || n == Active(t.dest, t.leaf) || n == Retired(t.dest, t.leaf)))
  }

  function Destination(fs: Fs, t: Slot): Option<Ino> { Look(fs, t.dest, Plain(t.leaf)) }
  function Staged(fs: Fs, t: Slot): Option<Ino> { Look(fs, t.staging, Stage(t.dest, t.leaf)) }
  function ActiveMarker(fs: Fs, t: Slot): Option<Ino> { Look(fs, t.staging, Active(t.dest, t.leaf)) }
  function RetiredMarker(fs: Fs, t: Slot): Option<Ino> { Look(fs, t.staging, Retired(t.dest, t.leaf)) }

  /** What the four names of a slot say. `Adopted` is a directory this protocol did not
      create; `Corrupt` is every combination the protocol must never produce. */
  datatype Phase = Nothing | StagedOnly | StagedMarked | Published | Settled | Adopted | Corrupt

  function PhaseOf(fs: Fs, t: Slot): Phase {
    match (Destination(fs, t), Staged(fs, t), ActiveMarker(fs, t), RetiredMarker(fs, t))
    case (None, None, None, None) => Nothing
    case (None, Some(_), None, None) => StagedOnly
    case (None, Some(_), Some(_), None) => StagedMarked
    case (Some(_), None, Some(_), None) => Published
    case (Some(_), None, None, Some(_)) => Settled
    case (Some(_), None, None, None) => Adopted
    case _ => Corrupt
  }

  function Rank(p: Phase): nat {
    match p
    case Nothing => 0
    case StagedOnly => 1
    case StagedMarked => 2
    case Published => 3
    case Settled => 4
    case Adopted => 5
    case Corrupt => 6
  }

  /** The order in which one slot may move. An adopted directory stays adopted. */
  predicate Advances(p: Phase, q: Phase) {
    p == q || (Rank(p) < Rank(q) <= Rank(Settled))
  }

  /** The reserved evidence that a creation has begun and has not been retired. */
  predicate Pending(fs: Fs, t: Slot) {
    Unfinished(PhaseOf(fs, t))
  }

  predicate Unfinished(p: Phase) { p.StagedOnly? || p.StagedMarked? || p.Published? }
  predicate Unpublished(p: Phase) { p.StagedOnly? || p.StagedMarked? }
  predicate Standing(p: Phase) { p.Settled? || p.Adopted? }

  // ---------------------------------------------------------------- frames

  /** No inode that existed changed its kind, owner or mode, and no file changed its content. */
  ghost predicate KeepsInodes(pre: Fs, post: Fs) {
    forall i :: i in pre ==> i in post && SameInode(pre[i], post[i])
  }

  predicate SameInode(a: Node, b: Node) {
    a.attr == b.attr && a.Directory? == b.Directory? && (a.Regular? ==> a == b)
  }

  /** Every name that no slot of `touched` owns means what it meant. A fresh directory may
      hold a record file: only marker directories do. */
  ghost predicate KeepsNames(pre: Fs, post: Fs, touched: set<Slot>) {
    forall d, n :: !Owned(touched, d, n) && (n.RecordFile? ==> d in pre) ==> Look(post, d, n) == Look(pre, d, n)
  }

  ghost predicate Owned(touched: set<Slot>, d: Ino, n: Name) {
    exists t :: t in touched && OwnsName(t, d, n)
  }

  ghost predicate Frame(pre: Fs, post: Fs, touched: set<Slot>) {
    KeepsInodes(pre, post) && KeepsNames(pre, post, touched)
  }

  /** `Frame` for the one slot `t`. */
  ghost predicate SlotFrame(pre: Fs, post: Fs, t: Slot) {
    && KeepsInodes(pre, post)
    && forall d, n :: !OwnsName(t, d, n) && (n.RecordFile? ==> d in pre) ==> Look(post, d, n) == Look(pre, d, n)
  }

  lemma SlotFrameIsFrame(pre: Fs, post: Fs, t: Slot)
    requires SlotFrame(pre, post, t)
    ensures Frame(pre, post, {t})
  {
    forall d, n | !Owned({t}, d, n) && (n.RecordFile? ==> d in pre)
      ensures Look(post, d, n) == Look(pre, d, n)
    {
      assert t in {t};
    }
  }

  lemma FrameTrans(a: Fs, b: Fs, c: Fs, s: set<Slot>, t: set<Slot>)
    requires Frame(a, b, s) && Frame(b, c, t)
    ensures Frame(a, c, s + t)
  {
    forall d, n | !Owned(s + t, d, n) && (n.RecordFile? ==> d in a)
      ensures Look(c, d, n) == Look(a, d, n)
    {
      assert !Owned(s, d, n) && !Owned(t, d, n);
    }
  }

  /** Two slots that share a destination must share a staging directory to be comparable. */
  predicate Clash(t: Slot, x: Slot) {
    t.dest == x.dest && t.leaf == x.leaf && t.staging != x.staging
  }

  /** A slot sees nothing of what happens to other slots. */
  lemma FrameKeepsPhase(a: Fs, b: Fs, touched: set<Slot>, x: Slot)
    requires Frame(a, b, touched) && x !in touched
    requires forall t :: t in touched ==> !Clash(t, x)
    ensures Destination(b, x) == Destination(a, x) && Staged(b, x) == Staged(a, x)
    ensures ActiveMarker(b, x) == ActiveMarker(a, x) && RetiredMarker(b, x) == RetiredMarker(a, x)
    ensures PhaseOf(b, x) == PhaseOf(a, x)
  {
    assert !Owned(touched, x.dest, Plain(x.leaf));
    assert !Owned(touched, x.staging, Stage(x.dest, x.leaf));
    assert !Owned(touched, x.staging, Active(x.dest, x.leaf));
    assert !Owned(touched, x.staging, Retired(x.dest, x.leaf));
  }

  predicate Comparable(t: Slot, x: Slot) {
    t != x && !Clash(t, x)
  }

  ghost predicate NoClash(slots: set<Slot>) {
    forall t, x :: t in slots && x in slots ==> !Clash(t, x)
  }

  predicate SameNames(a: Fs, b: Fs, x: Slot) {
    && Destination(a, x) == Destination(b, x) && Staged(a, x) == Staged(b, x)
    && ActiveMarker(a, x) == ActiveMarker(b, x) && RetiredMarker(a, x) == RetiredMarker(b, x)
  }

  /** A creation leaves a slot as it is, unless nothing had happened to it: then it may
      take it forward. */
  predicate Moves(pre: Fs, post: Fs, t: Slot) {
    SameNames(pre, post, t) || (PhaseOf(pre, t) == Nothing && Advances(Nothing, PhaseOf(post, t)))
  }

  /** Between `pre` and `post` only slots of `touched` moved, as creations move them. */
  ghost predicate Steps(pre: Fs, post: Fs, touched: set<Slot>) {
    Frame(pre, post, touched) && forall t :: t in touched ==> Moves(pre, post, t)
  }

  lemma MovesAdvances(pre: Fs, post: Fs, t: Slot)
    requires Moves(pre, post, t)
    ensures Advances(PhaseOf(pre, t), PhaseOf(post, t))
  {
  }

  lemma MovesTrans(a: Fs, b: Fs, c: Fs, t: Slot)
    requires Moves(a, b, t) && Moves(b, c, t)
    ensures Moves(a, c, t)
  {
  }

  lemma StepsTrans(a: Fs, b: Fs, c: Fs, s: set<Slot>, t: set<Slot>)
    requires Steps(a, b, s) && Steps(b, c, t) && NoClash(s + t)
    ensures Steps(a, c, s + t)
  {
    FrameTrans(a, b, c, s, t);
    hide PhaseOf, KeepsNames, KeepsInodes, Look;
    forall x | x in s + t
      ensures Moves(a, c, x)
    {
      if x !in s {
        FrameKeepsPhase(a, b, s, x);
      }
      if x !in t {
        FrameKeepsPhase(b, c, t, x);
      }
      MovesTrans(a, b, c, x);
    }
  }

  lemma StepsRefl(a: Fs, s: set<Slot>)
    ensures Steps(a, a, s)
  {
  }

  lemma StepsWiden(a: Fs, b: Fs, s: set<Slot>, t: set<Slot>)
    requires Steps(a, b, s) && NoClash(s + t)
    ensures Steps(a, b, s + t)
  {
    StepsRefl(a, t);
    StepsTrans(a, a, b, t, s);
    assert t + s == s + t;
  }

  // ---------------------------------------------------------------- exact markers

  /** Owner and mode of a private directory, without an access or default ACL. */
  predicate SecureDirectory(fs: Fs, d: Ino, owner: Uid) {
    IsDirectory(fs, d) && fs[d].attr.owner == owner && HasDigits(fs[d].attr.mode, 7, 0, 0)
    && !fs[d].attr.accessAcl && !fs[d].attr.defaultAcl
  }

  predicate SecureFile(fs: Fs, f: Ino, owner: Uid) {
    f in fs && fs[f].Regular? && fs[f].attr.owner == owner && HasDigits(fs[f].attr.mode, 6, 0, 0)
    && !fs[f].attr.accessAcl
  }

  /** What a process retains about a marker it created or opened. */
  datatype Marker = Marker(slot: Slot, directory: Ino, file: Ino, record: Record)

  /** `name` still holds exactly this marker: the same private directory with the same
      single private file and the expected record. */
  predicate HoldsMarker(fs: Fs, k: Marker, name: Name, euid: Uid) {
    && Look(fs, k.slot.staging, name) == Some(k.directory)
    && SecureDirectory(fs, k.directory, euid)
    && fs[k.directory].children == map[RecordFile := k.file]
    && SecureFile(fs, k.file, euid)
    && fs[k.file].content == Whole(k.record)
  }

  function MarkerFor(t: Slot, created: Ino, m: Ino, f: Ino, worker: Uid): Marker {
    Marker(t, m, f, Record(t.staging, t.dest, created, m, f, worker, t.leaf))
  }

  /** The marker under `name` that vouches for `created`, if there is an exact one. */
  function ExactMarker(fs: Fs, t: Slot, name: Name, created: Ino, euid: Uid, worker: Uid): Option<Marker> {
    match Look(fs, t.staging, name)
    case None => None
    case Some(m) =>
      if m in fs && fs[m].Directory? && RecordFile in fs[m].children then
        var k := MarkerFor(t, created, m, fs[m].children[RecordFile], worker);
        if HoldsMarker(fs, k, name, euid) then Some(k) else None
      else None
  }
}
