/** What may stand in a staged directory that a later run finds. */
module WorkerEntries {
  import opened WorkerFs
  import opened WorkerDisk

  /** `n` is the `j`-th child of a staged root `d`, or its candidate. */
  predicate IsEntryOf(n: Name, d: Ino, children: seq<Leaf>, j: nat)
    requires j < |children|
  {
    n == Plain(children[j]) || n == Stage(d, children[j])
  }

  ghost predicate IsChildEntry(n: Name, d: Ino, children: seq<Leaf>) {
    exists j :: 0 <= j < |children| && IsEntryOf(n, d, children, j)
  }

  lemma EntryIsChild(n: Name, d: Ino, children: seq<Leaf>, j: nat)
    requires j < |children| && IsEntryOf(n, d, children, j)
    ensures IsChildEntry(n, d, children)
  {
  }

  lemma StrangerIsNoChild(n: Name, d: Ino, children: seq<Leaf>)
    requires (n.Plain? && n.leaf !in children) || (n.Stage? && (n.parent != d || n.target !in children))
      || (!n.Plain? && !n.Stage?)
    ensures !IsChildEntry(n, d, children)
  {
  }

  /** Only children of a worker root and their candidates, never both for one child, and
      nothing at all unless children are allowed. */
  ghost predicate StagedEntriesAllowed(fs: Fs, d: Ino, children: seq<Leaf>, allowChildren: bool)
    requires IsDirectory(fs, d)
  {
    && (forall n :: n in fs[d].children ==> allowChildren && IsChildEntry(n, d, children))
    && forall j :: 0 <= j < |children| ==>
         !(Plain(children[j]) in fs[d].children && Stage(d, children[j]) in fs[d].children)
  }

  ghost predicate NoneTwice(children: seq<Leaf>) {
    forall i, j :: 0 <= i < j < |children| ==> children[i] != children[j]
  }

  lemma ChildNamesDiffer()
    ensures NoneTwice(CHILD_NAMES)
  {
    assert CHILD_NAMES[0][0] == 'r' && CHILD_NAMES[1][0] == 'j' && CHILD_NAMES[2][0] == 'c'
      && CHILD_NAMES[3][0] == 'a' && CHILD_NAMES[4][0] == 'l';
  }

  /** The position of `leaf` among the children, or their number. */
  method FindChild(children: seq<Leaf>, leaf: Leaf) returns (j: nat)
    ensures j <= |children|
    ensures if j < |children| then children[j] == leaf else leaf !in children
  {
    j := 0;
    while j < |children| && children[j] != leaf
      invariant 0 <= j <= |children| && leaf !in children[..j]
    {
      j := j + 1;
    }
    assert children[..|children|] == children;
  }

  // ---------------------------------------------------------------- what has been seen

  function EntryOf(d: Ino, children: seq<Leaf>, j: nat, staged: bool): Name
    requires j < |children|
  {
    if staged then Stage(d, children[j]) else Plain(children[j])
  }

  /** `seen[j]` tells whether the `j`-th child, or its candidate, is among `entries`. */
  ghost predicate Marks(seen: seq<bool>, d: Ino, children: seq<Leaf>, staged: bool, entries: seq<Name>) {
    && |seen| == |children|
    && forall j :: 0 <= j < |children| ==> (seen[j] <==> EntryOf(d, children, j, staged) in entries)
  }

  lemma MarkOne(seen: seq<bool>, d: Ino, children: seq<Leaf>, staged: bool, entries: seq<Name>, j: nat)
    requires Marks(seen, d, children, staged, entries) && j < |children| && NoneTwice(children)
    ensures Marks(seen[j := true], d, children, staged, entries + [EntryOf(d, children, j, staged)])
  {
    forall k | 0 <= k < |children|
      ensures EntryOf(d, children, k, staged) == EntryOf(d, children, j, staged) <==> k == j
    {
      assert k != j ==> children[k] != children[j];
    }
  }

  lemma MarkOther(seen: seq<bool>, d: Ino, children: seq<Leaf>, staged: bool, entries: seq<Name>, j: nat)
    requires Marks(seen, d, children, staged, entries) && j < |children|
    ensures Marks(seen, d, children, staged, entries + [EntryOf(d, children, j, !staged)])
  {
  }

  ghost predicate Apart(canonical: seq<bool>, internal: seq<bool>) {
    |canonical| == |internal| && forall j :: 0 <= j < |canonical| ==> !(canonical[j] && internal[j])
  }

  lemma NothingMarked(canonical: seq<bool>, internal: seq<bool>, d: Ino, children: seq<Leaf>)
    requires |canonical| == |internal| == |children|
    requires forall j :: 0 <= j < |children| ==> !canonical[j] && !internal[j]
    ensures Marks(canonical, d, children, false, []) && Marks(internal, d, children, true, [])
    ensures Apart(canonical, internal)
  {
  }

  /** An entry is listed once, so that a mark at its child is the mark of the other entry. */
  lemma SeenBefore(canonical: seq<bool>, internal: seq<bool>, d: Ino, children: seq<Leaf>, entries: seq<Name>, i: nat,
      j: nat)
    requires i < |entries| && j < |children| && forall k :: 0 <= k < i ==> entries[k] != entries[i]
    requires Marks(canonical, d, children, false, entries[..i]) && Marks(internal, d, children, true, entries[..i])
    requires entries[i] == EntryOf(d, children, j, entries[i].Stage?)
    ensures canonical[j] || internal[j] ==> EntryOf(d, children, j, !entries[i].Stage?) in entries[..i]
  {
    assert entries[i] !in entries[..i];
  }

  ghost predicate Passed(entries: seq<Name>, d: Ino, children: seq<Leaf>, allowChildren: bool) {
    forall n :: n in entries ==> allowChildren && IsChildEntry(n, d, children)
  }

  /** When every entry has passed, the directory is as it may be. */
  lemma AllPassed(fs: Fs, d: Ino, children: seq<Leaf>, allowChildren: bool, entries: seq<Name>, canonical: seq<bool>,
      internal: seq<bool>)
    requires IsDirectory(fs, d) && Lists(entries, fs[d].children.Keys)
    requires Marks(canonical, d, children, false, entries) && Marks(internal, d, children, true, entries)
    requires Apart(canonical, internal)
    requires Passed(entries, d, children, allowChildren)
    ensures StagedEntriesAllowed(fs, d, children, allowChildren)
  {
    hide IsChildEntry;
    forall j | 0 <= j < |children|
      ensures Plain(children[j]) == EntryOf(d, children, j, false)
      ensures Stage(d, children[j]) == EntryOf(d, children, j, true)
      ensures !(Plain(children[j]) in fs[d].children && Stage(d, children[j]) in fs[d].children)
    {
      assert !(canonical[j] && internal[j]);
    }
  }

  /** Why an entry that was listed ends the check. */
  lemma RefusedEntry(fs: Fs, d: Ino, children: seq<Leaf>, allowChildren: bool, entries: seq<Name>, i: nat)
    requires IsDirectory(fs, d) && Lists(entries, fs[d].children.Keys) && i < |entries|
    requires (!allowChildren || !IsChildEntry(entries[i], d, children)
      || exists j, staged: bool :: 0 <= j < |children|
           && entries[i] == EntryOf(d, children, j, staged) && EntryOf(d, children, j, !staged) in entries[..i])
    ensures !StagedEntriesAllowed(fs, d, children, allowChildren)
  {
    hide IsChildEntry;
    assert entries[i] in entries && forall n :: n in entries[..i] ==> n in entries;
  }

  /** verify_staged_worker_directory_entries, on the entries of `d` in any order. */
  method VerifyStagedEntries(ghost fs: Fs, d: Ino, entries: seq<Name>, children: seq<Leaf>, allowChildren: bool)
    returns (ok: bool)
    requires IsDirectory(fs, d) && Lists(entries, fs[d].children.Keys) && NoneTwice(children)
    ensures ok <==> StagedEntriesAllowed(fs, d, children, allowChildren)
  {
    hide Marks, StagedEntriesAllowed, IsChildEntry;
    var canonicalSeen := new bool[|children|](_ => false);
    var internalSeen := new bool[|children|](_ => false);
    NothingMarked(canonicalSeen[..], internalSeen[..], d, children);
    var i := 0;
    while i < |entries|
      invariant 0 <= i <= |entries|
      invariant Passed(entries[..i], d, children, allowChildren)
      invariant Marks(canonicalSeen[..], d, children, false, entries[..i])
      invariant Marks(internalSeen[..], d, children, true, entries[..i])
      invariant Apart(canonicalSeen[..], internalSeen[..])
    {
      var n := entries[i];
      if !n.Plain? && !(n.Stage? && n.parent == d) {
        StrangerIsNoChild(n, d, children);
        RefusedEntry(fs, d, children, allowChildren, entries, i);
        return false;
      }
      var j := FindChild(children, if n.Plain? then n.leaf else n.target);
      if j == |children| {
        StrangerIsNoChild(n, d, children);
        RefusedEntry(fs, d, children, allowChildren, entries, i);
        return false;
      }
      assert n == EntryOf(d, children, j, n.Stage?);
      EntryIsChild(n, d, children, j);
      if !allowChildren || canonicalSeen[j] || internalSeen[j] {
        SeenBefore(canonicalSeen[..], internalSeen[..], d, children, entries, i, j);
        RefusedEntry(fs, d, children, allowChildren, entries, i);
        return false;
      }
      assert entries[..i + 1] == entries[..i] + [n];
      MarkOther(if n.Stage? then canonicalSeen[..] else internalSeen[..], d, children, !n.Stage?, entries[..i], j);
      MarkOne(if n.Stage? then internalSeen[..] else canonicalSeen[..], d, children, n.Stage?, entries[..i], j);
      if n.Stage? {
        internalSeen[j] := true;
      } else {
        canonicalSeen[j] := true;
      }
      i := i + 1;
    }
    assert entries[..i] == entries;
    AllPassed(fs, d, children, allowChildren, entries, canonicalSeen[..], internalSeen[..]);
    return true;
  }
}
