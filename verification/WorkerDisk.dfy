/** The system calls of the worker-directory protocol on a mutable filesystem.

    Every call may fail, and the calling process may die before it: `Sys` decides. A crash
    therefore leaves exactly the state that some prefix of the calls produced. Checks that
    compare two observations made under the creation lock (directory listings before and
    after a mkdir, a pathname walked twice) can only fail through an error or through an
    outside change, so they are one more `Sys`. */
module WorkerDisk {
  import opened Wrappers
  import opened WorkerFs
  import opened WorkerTree

  /** `post` is `pre` with a new file `i` under `n` in `d`. */
  ghost predicate FileMade(pre: Fs, post: Fs, d: Ino, n: Name, i: Ino) {
    && IsDirectory(pre, d) && Look(pre, d, n) == None && i !in pre
    && i in post && post[i].Regular? && post == Bind(pre, d, n, i)[i := post[i]]
  }

  /** The entry is an empty directory, and not the one it is moved to. */
  ghost predicate MovesEmpty(fs: Fs, d: Ino, n: Name, d': Ino) {
    && Look(fs, d, n).Some? && Look(fs, d, n) != Some(d')
    && IsDirectory(fs, Look(fs, d, n).value) && fs[Look(fs, d, n).value].children == map[]
  }

  /** `names` lists the set `all` without repetition. */
  ghost predicate Lists(names: seq<Name>, all: set<Name>) {
    && (forall n :: n in names <==> n in all)
    && forall i, j :: 0 <= i < j < |names| ==> names[i] != names[j]
  }

  class Disk {
    var fs: Fs
    const faultFree: bool
    const steady: bool

    /** On a steady disk calls may fail, but no check finds an outside change. */
    constructor (fs: Fs, faultFree: bool, steady: bool)
      ensures this.fs == fs && this.faultFree == faultFree && this.steady == steady
    {
      this.fs := fs;
      this.faultFree := faultFree;
      this.steady := steady;
    }

    method Sys() returns (f: Fate)
      ensures faultFree ==> f.Proceeds?
      ensures f.Errs? ==> f.error == OsFailure || (f.error == Refused && !steady)
    {
      var choice: int := *;
      f := if faultFree then Proceeds
           else if choice == 0 then Proceeds
           else if choice == 1 then Errs(OsFailure)
           else if choice == 2 && !steady then Errs(Refused)
           else Dies;
    }

    /** Any inode number not in use, possibly one used before. */
    method FreshInode() returns (i: Ino)
      ensures i !in fs
    {
      i := *;
      while i in fs
        decreases set k | k in fs && i <= k
      {
        ghost var above := set k | k in fs && i <= k;
        ghost var next := set k | k in fs && i + 1 <= k;
        assert i in above && i !in next && next <= above;
        i := i + 1;
      }
    }

    /** mkdirat with mode 0o700; `None` when the name exists. An inherited ACL may be present. */
    method Mkdir(d: Ino, n: Name, euid: Uid) returns (r: Io<Option<Ino>>)
      modifies this
      ensures KeepsTree(old(fs), fs)
      ensures !r.Done? || r.value == None ==> fs == old(fs)
      ensures r == Done(None) ==> Look(old(fs), d, n).Some?
      ensures r.Done? && r.value.Some? ==>
        var i := r.value.value;
        && i !in old(fs) && IsDirectory(old(fs), d) && Look(old(fs), d, n) == None
        && i in fs && fs[i].Directory? && fs[i].attr.owner == euid && fs[i].children == map[]
        && fs == Bind(old(fs), d, n, i)[i := fs[i]]
      ensures faultFree && IsDirectory(old(fs), d) ==> r.Done?
      ensures r.Failed? ==> r.error != NotFound || !IsDirectory(old(fs), d)
    {
      hide Tree;
      var fate := Sys();
      :- fate;
      if !IsDirectory(fs, d) {
        return Failed(NotFound);
      }
      if Look(fs, d, n).Some? {
        return Done(None);
      }
      var i := FreshInode();
      var inherited: bool := *;
      ghost var pre := fs;
      fs := Bind(fs, d, n, i)[i := Directory(Attr(euid, PRIVATE_DIRECTORY, inherited, inherited), map[])];
      EntryKeepsTree(pre, fs, d, n, i);
      return Done(Some(i));
    }

    /** readdir, in any order. */
    method Entries(d: Ino) returns (names: seq<Name>)
      requires IsDirectory(fs, d)
      ensures Lists(names, fs[d].children.Keys)
    {
      names := [];
      var rest := fs[d].children.Keys;
      while rest != {}
        invariant Lists(names, fs[d].children.Keys - rest) && rest <= fs[d].children.Keys
      {
        var n :| n in rest;
        names := names + [n];
        rest := rest - {n};
      }
    }

    /** harden_new_worker_directory: clear both ACLs, give the directory to `target`, set 0o700. */
    method Harden(d: Ino, euid: Uid, target: Uid) returns (r: Io<()>)
      requires IsDirectory(fs, d)
      modifies this
      ensures KeepsTree(old(fs), fs)
      ensures IsDirectory(fs, d) && fs == old(fs)[d := fs[d]] && fs[d].children == old(fs)[d].children
      ensures r.Done? ==> SecureDirectory(fs, d, target) && (euid == ROOT_UID || euid == target)
      ensures faultFree && (euid == ROOT_UID || (euid == target && old(fs)[d].attr.owner == euid)) ==> r.Done?
      ensures r.Failed? ==> r.error != NotFound
    {
      hide Tree;
      ghost var pre := fs;
      var fate := Sys();
      :- fate;
      fs := fs[d := Directory(fs[d].attr.(accessAcl := false), fs[d].children)];
      ChangeKeepsTree(pre, fs, d);
      :- Sys();
      fs := fs[d := Directory(fs[d].attr.(defaultAcl := false), fs[d].children)];
      assert fs == pre[d := fs[d]];
      ChangeKeepsTree(pre, fs, d);
      :- Sys();
      if euid != ROOT_UID && !(euid == target && fs[d].attr.owner == euid) {
        return Failed(OsFailure);
      }
      fs := fs[d := Directory(fs[d].attr.(owner := target), fs[d].children)];
      assert fs == pre[d := fs[d]];
      ChangeKeepsTree(pre, fs, d);
      :- Sys();
      fs := fs[d := Directory(fs[d].attr.(mode := PRIVATE_DIRECTORY), fs[d].children)];
      assert fs == pre[d := fs[d]];
      ChangeKeepsTree(pre, fs, d);
      :- Sys();
      return Done(());
    }

    /** openat with O_CREAT and O_EXCL, mode 0o600, then clear the ACL and set 0o600. */
    method CreateFile(d: Ino, n: Name, euid: Uid) returns (r: Io<Ino>)
      requires IsDirectory(fs, d)
      modifies this
      ensures KeepsTree(old(fs), fs)
      ensures fs == old(fs) || exists i :: FileMade(old(fs), fs, d, n, i)
      ensures r.Done? ==> FileMade(old(fs), fs, d, n, r.value) && SecureFile(fs, r.value, euid)
      ensures faultFree && Look(old(fs), d, n) == None ==> r.Done?
    {
      hide Tree;
      var fate := Sys();
      :- fate;
      if Look(fs, d, n).Some? {
        return Failed(OsFailure);
      }
      var i := FreshInode();
      var inherited: bool := *;
      ghost var pre := fs;
      fs := Bind(fs, d, n, i)[i := Regular(Attr(euid, PRIVATE_FILE, inherited, false), Torn)];
      assert FileMade(pre, fs, d, n, i);
      EntryKeepsTree(pre, fs, d, n, i);
      :- Sys();
      fs := fs[i := Regular(Attr(euid, PRIVATE_FILE, false, false), Torn)];
      assert FileMade(pre, fs, d, n, i);
      EntryKeepsTree(pre, fs, d, n, i);
      :- Sys();
      return Done(i);
    }

    /** write_all and sync_all of one record: a crash may leave a torn file. */
    method WriteRecord(f: Ino, record: Record) returns (r: Io<()>)
      requires f in fs && fs[f].Regular?
      modifies this
      ensures KeepsTree(old(fs), fs)
      ensures f in fs && fs[f].Regular? && fs == old(fs)[f := fs[f]] && fs[f].attr == old(fs)[f].attr
      ensures r.Done? ==> fs[f].content == Whole(record)
      ensures faultFree ==> r.Done?
    {
      hide Tree;
      var fate := Sys();
      :- fate;
      ghost var pre := fs;
      fs := fs[f := Regular(fs[f].attr, Torn)];
      ChangeKeepsTree(pre, fs, f);
      :- Sys();
      fs := fs[f := Regular(fs[f].attr, Whole(record))];
      ChangeKeepsTree(pre, fs, f);
      :- Sys();
      return Done(());
    }

    /** renameat2 with RENAME_NOREPLACE; `false` when the new name exists. */
    method RenameNoReplace(d: Ino, n: Name, d': Ino, n': Name) returns (r: Io<bool>)
      modifies this
      ensures d == d' || MovesEmpty(old(fs), d, n, d') ==> KeepsTree(old(fs), fs)
      ensures !(r == Done(true)) ==> fs == old(fs)
      ensures r == Done(false) ==> Look(old(fs), d', n').Some?
      ensures r == Done(true) ==>
        && Look(old(fs), d, n).Some? && Look(old(fs), d', n') == None
        && IsDirectory(old(fs), d) && IsDirectory(old(fs), d')
        && fs == Bind(Unbind(old(fs), d, n), d', n', Look(old(fs), d, n).value)
      ensures (faultFree && IsDirectory(old(fs), d) && IsDirectory(old(fs), d')
               && Look(old(fs), d, n).Some? && Look(old(fs), d', n') == None) ==> r == Done(true)
      ensures r.Failed? ==> r.error != NotFound || Look(old(fs), d, n) == None || !IsDirectory(old(fs), d')
    {
      hide Tree;
      var fate := Sys();
      :- fate;
      if Look(fs, d, n) == None || !IsDirectory(fs, d') {
        return Failed(NotFound);
      }
      if Look(fs, d', n').Some? {
        return Done(false);
      }
      ghost var pre := fs;
      fs := Bind(Unbind(fs, d, n), d', n', Look(fs, d, n).value);
      if d == d' || MovesEmpty(pre, d, n, d') {
        RenameKeepsTree(pre, fs, d, n, d', n', Look(pre, d, n).value);
      }
      return Done(true);
    }

    /** unlinkat with AT_REMOVEDIR: only an empty directory can go. */
    method Rmdir(d: Ino, n: Name) returns (r: Io<()>)
      modifies this
      ensures KeepsTree(old(fs), fs)
      ensures !r.Done? ==> fs == old(fs)
      ensures r.Done? ==>
        && Look(old(fs), d, n).Some?
        && var i := Look(old(fs), d, n).value;
           && i != d && IsDirectory(old(fs), i) && old(fs)[i].children == map[]
           && fs == Unbind(old(fs), d, n) - {i}
      ensures (faultFree && Look(old(fs), d, n).Some? && Look(old(fs), d, n) != Some(d)
               && IsDirectory(old(fs), Look(old(fs), d, n).value)
               && old(fs)[Look(old(fs), d, n).value].children == map[]) ==> r.Done?
      ensures r.Failed? ==> r.error != NotFound || Look(old(fs), d, n) == None
    {
      hide Tree;
      var fate := Sys();
      :- fate;
      if Look(fs, d, n) == None {
        return Failed(NotFound);
      }
      var i := Look(fs, d, n).value;
      if i == d || !IsDirectory(fs, i) || fs[i].children != map[] {
        return Failed(OsFailure);
      }
      ghost var pre := fs;
      fs := Unbind(fs, d, n) - {i};
      RemovalKeepsTree(pre, fs, d, n, i);
      return Done(());
    }

    /** open_worker_directory_at: a link or a file in the way is refused. */
    method OpenDirectory(d: Ino, n: Name) returns (r: Io<Ino>)
      ensures r.Done? ==> Look(fs, d, n) == Some(r.value) && IsDirectory(fs, r.value)
      ensures r == Failed(NotFound) ==> Look(fs, d, n) == None
      ensures steady && r == Failed(Refused) ==> Look(fs, d, n).Some? && !IsDirectory(fs, Look(fs, d, n).value)
      ensures faultFree && Look(fs, d, n) == None ==> r == Failed(NotFound)
      ensures faultFree && Look(fs, d, n).Some? ==>
        r == if IsDirectory(fs, Look(fs, d, n).value) then Done(Look(fs, d, n).value) else Failed(Refused)
    {
      var fate := Sys();
      :- fate;
      match Look(fs, d, n)
      case None => return Failed(NotFound);
      case Some(i) =>
        if !IsDirectory(fs, i) {
          return Failed(Refused);
        }
        return Done(i);
    }
  }
}
