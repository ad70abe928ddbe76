/** Directories form a tree: no cycle, one name for each directory, and no entry without an
    inode. Every system call of the protocol keeps it that way. */
module WorkerTree {
  import opened Wrappers
  import opened WorkerFs

  /** Every entry of a directory names an inode that exists. */
  ghost predicate Closed(fs: Fs) {
    forall d, n :: Look(fs, d, n).Some? ==> Look(fs, d, n).value in fs
  }

  /** A directory is an entry of one directory, under one name. */
  ghost predicate OneName(fs: Fs) {
    forall d, n, d', n' ::
      Look(fs, d, n).Some? && IsDirectory(fs, Look(fs, d, n).value) && Look(fs, d', n') == Look(fs, d, n) ==>
        d' == d && n' == n
  }

  ghost predicate Deeper(fs: Fs, depth: Ino -> nat) {
    forall d, n :: Look(fs, d, n).Some? && IsDirectory(fs, Look(fs, d, n).value) ==>
      depth(d) < depth(Look(fs, d, n).value)
  }

  /** No directory is an entry of itself or of a directory below it. */
  ghost predicate Hierarchical(fs: Fs) {
    exists depth: Ino -> nat :: Deeper(fs, depth)
  }

  ghost predicate Tree(fs: Fs) {
    Closed(fs) && OneName(fs) && Hierarchical(fs)
  }

  ghost predicate KeepsTree(pre: Fs, post: Fs) {
    Tree(pre) ==> Tree(post)
  }

  lemma TreeMeans(fs: Fs)
    requires Tree(fs)
    ensures Closed(fs) && OneName(fs) && Hierarchical(fs)
  {
  }

  lemma NoDirectoryInItself(fs: Fs, d: Ino, n: Name)
    requires Hierarchical(fs) && IsDirectory(fs, d)
    ensures Look(fs, d, n) != Some(d)
  {
    var depth :| Deeper(fs, depth);
  }

  // ---------------------------------------------------------------- one entry more

  ghost predicate EntryMade(pre: Fs, post: Fs, d: Ino, n: Name, i: Ino) {
    && IsDirectory(pre, d) && Look(pre, d, n) == None && i !in pre && i in post
    && (post[i].Directory? ==> post[i].children == map[]) && post == Bind(pre, d, n, i)[i := post[i]]
  }

  lemma EntryLooks(pre: Fs, post: Fs, d: Ino, n: Name, i: Ino)
    requires EntryMade(pre, post, d, n, i)
    ensures forall d', n' :: Look(post, d', n') == if d' == d && n' == n then Some(i) else Look(pre, d', n')
  {
    var b := Bind(pre, d, n, i);
    assert forall d', n' :: d' != i ==> Look(post, d', n') == Look(b, d', n');
  }

  lemma EntryKeepsTree(pre: Fs, post: Fs, d: Ino, n: Name, i: Ino)
    requires EntryMade(pre, post, d, n, i)
    ensures KeepsTree(pre, post)
  {
    if Tree(pre) {
      EntryLooks(pre, post, d, n, i);
      EntryKeepsClosed(pre, post, d, n, i);
      EntryKeepsOneName(pre, post, d, n, i);
      EntryKeepsHierarchy(pre, post, d, n, i);
    }
  }

  lemma EntryKeepsClosed(pre: Fs, post: Fs, d: Ino, n: Name, i: Ino)
    requires EntryMade(pre, post, d, n, i) && Closed(pre)
    requires forall d', n' :: Look(post, d', n') == if d' == d && n' == n then Some(i) else Look(pre, d', n')
    ensures Closed(post)
  {
  }

  lemma EntryKeepsOneName(pre: Fs, post: Fs, d: Ino, n: Name, i: Ino)
    requires EntryMade(pre, post, d, n, i) && Closed(pre) && OneName(pre)
    requires forall d', n' :: Look(post, d', n') == if d' == d && n' == n then Some(i) else Look(pre, d', n')
    ensures OneName(post)
  {
    forall a, x, b, y | Look(post, a, x).Some? && IsDirectory(post, Look(post, a, x).value)
      && Look(post, b, y) == Look(post, a, x)
      ensures b == a && y == x
    {
      if Look(post, a, x) != Some(i) {
        assert Look(pre, a, x) == Look(post, a, x) && Look(pre, b, y) == Look(post, b, y);
      }
    }
  }

  lemma EntryKeepsHierarchy(pre: Fs, post: Fs, d: Ino, n: Name, i: Ino)
    requires EntryMade(pre, post, d, n, i) && Closed(pre) && Hierarchical(pre)
    requires forall d', n' :: Look(post, d', n') == if d' == d && n' == n then Some(i) else Look(pre, d', n')
    ensures Hierarchical(post)
  {
    var depth :| Deeper(pre, depth);
    var deeper: Ino -> nat := x => if x == i then depth(d) + 1 else depth(x);
    forall a, x | Look(post, a, x).Some? && IsDirectory(post, Look(post, a, x).value)
      ensures deeper(a) < deeper(Look(post, a, x).value)
    {
      if Look(post, a, x) != Some(i) {
        assert Look(pre, a, x) == Look(post, a, x);
      }
    }
    assert Deeper(post, deeper);
  }

  // ---------------------------------------------------------------- the same entries

  /** No entry changed, no inode came or went, and none changed its kind. */
  ghost predicate SameEntries(pre: Fs, post: Fs) {
    && (forall d, n :: Look(post, d, n) == Look(pre, d, n))
    && (forall i :: i in pre <==> i in post) && (forall i :: i in pre ==> post[i].Directory? == pre[i].Directory?)
  }

  lemma SameEntriesKeepTree(pre: Fs, post: Fs)
    requires SameEntries(pre, post)
    ensures KeepsTree(pre, post)
  {
    if Tree(pre) {
      var depth :| Deeper(pre, depth);
      assert Deeper(post, depth);
    }
  }

  /** One inode changed, a directory but for its entries or a file. */
  lemma ChangeKeepsTree(pre: Fs, post: Fs, k: Ino)
    requires k in pre && k in post && post == pre[k := post[k]] && post[k].Directory? == pre[k].Directory?
    requires pre[k].Directory? ==> post[k].children == pre[k].children
    ensures KeepsTree(pre, post)
  {
    hide KeepsTree;
    assert forall d, n :: Look(post, d, n) == Look(pre, d, n);
    SameEntriesKeepTree(pre, post);
  }

  // ---------------------------------------------------------------- one entry renamed or removed

  function AfterRename(fs: Fs, d: Ino, n: Name, d': Ino, n': Name, i: Ino, a: Ino, x: Name): Option<Ino> {
    if a == d' && x == n' then Some(i) else if a == d && x == n then None else Look(fs, a, x)
  }

  lemma RenameKeepsTree(pre: Fs, post: Fs, d: Ino, n: Name, d': Ino, n': Name, i: Ino)
    requires Look(pre, d, n) == Some(i) && Look(pre, d', n') == None && IsDirectory(pre, d')
    requires post == Bind(Unbind(pre, d, n), d', n', i)
    requires d == d' || (IsDirectory(pre, i) && pre[i].children == map[] && i != d')
    ensures KeepsTree(pre, post)
  {
    if Tree(pre) {
      var u := Unbind(pre, d, n);
      assert i in pre;
      forall a, x
        ensures Look(post, a, x) == AfterRename(pre, d, n, d', n', i, a, x)
      {
        assert Look(post, a, x) == if a == d' && x == n' then Some(i) else Look(u, a, x);
      }
      RenameKeepsOneName(pre, post, d, n, d', n', i);
      RenameKeepsHierarchy(pre, post, d, n, d', n', i);
    }
  }

  lemma RenameKeepsOneName(pre: Fs, post: Fs, d: Ino, n: Name, d': Ino, n': Name, i: Ino)
    requires OneName(pre) && Look(pre, d, n) == Some(i) && Look(pre, d', n') == None && i in pre
    requires forall a, x :: Look(post, a, x) == AfterRename(pre, d, n, d', n', i, a, x)
    requires forall k :: IsDirectory(post, k) <==> IsDirectory(pre, k)
    ensures OneName(post)
  {
    forall a, x, b, y | Look(post, a, x).Some? && IsDirectory(post, Look(post, a, x).value)
      && Look(post, b, y) == Look(post, a, x)
      ensures b == a && y == x
    {
      var a', x' := if a == d' && x == n' then d else a, if a == d' && x == n' then n else x;
      var b', y' := if b == d' && y == n' then d else b, if b == d' && y == n' then n else y;
      assert Look(pre, a', x') == Look(post, a, x) && Look(pre, b', y') == Look(post, b, y);
    }
  }

  lemma RenameKeepsHierarchy(pre: Fs, post: Fs, d: Ino, n: Name, d': Ino, n': Name, i: Ino)
    requires Tree(pre) && Look(pre, d, n) == Some(i) && Look(pre, d', n') == None && i in pre
    requires forall a, x :: Look(post, a, x) == AfterRename(pre, d, n, d', n', i, a, x)
    requires forall k :: IsDirectory(post, k) <==> IsDirectory(pre, k)
    requires d == d' || (IsDirectory(pre, i) && pre[i].children == map[] && i != d')
    ensures Hierarchical(post)
  {
    var depth :| Deeper(pre, depth);
    var deeper: Ino -> nat := x => if x == i && d != d' then depth(d') + 1 else depth(x);
    forall a, x | Look(post, a, x).Some? && IsDirectory(post, Look(post, a, x).value)
      ensures deeper(a) < deeper(Look(post, a, x).value)
    {
      if !(a == d' && x == n') {
        assert Look(pre, a, x) == Look(post, a, x) != Look(pre, d, n);
      }
    }
    assert Deeper(post, deeper);
  }

  lemma RemovalKeepsTree(pre: Fs, post: Fs, d: Ino, n: Name, i: Ino)
    requires Look(pre, d, n) == Some(i) && i != d && IsDirectory(pre, i) && pre[i].children == map[]
    requires post == Unbind(pre, d, n) - {i}
    ensures KeepsTree(pre, post)
  {
    if Tree(pre) {
      forall a, x
        ensures Look(post, a, x) == if a == d && x == n then None else Look(pre, a, x)
      {
        if a != i {
          assert Look(post, a, x) == Look(Unbind(pre, d, n), a, x);
        }
      }
      forall a, x | Look(post, a, x).Some?
        ensures Look(post, a, x).value in post && Look(pre, a, x) == Look(post, a, x)
      {
        assert Look(pre, a, x) != Look(pre, d, n);
      }
      assert OneName(post);
      var depth :| Deeper(pre, depth);
      assert Deeper(post, depth);
    }
  }
}
