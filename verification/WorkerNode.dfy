/** Creation, publication and retirement of one worker directory, call by call. */
module WorkerNode {
  import opened Wrappers
  import opened WorkerFs
  import opened WorkerTree
  import opened WorkerDisk
  import opened WorkerEntries
  import opened WorkerEvidence
  import opened Permissions

  datatype StagedDirectory = StagedDirectory(ino: Ino, created: bool)

  /** fchown lets the superuser give a directory away, and others keep one of their own. */
  predicate Permitted(euid: Uid, worker: Uid) {
    euid == ROOT_UID || euid == worker
  }

  predicate HandedOver(fs: Fs, d: Ino, euid: Uid, worker: Uid) {
    SecureDirectory(fs, d, worker) && Permitted(euid, worker)
  }

  /** verify_staged_worker_directory_security */
  predicate StagedSecure(fs: Fs, d: Ino, euid: Uid, worker: Uid) {
    SecureDirectory(fs, d, euid) || SecureDirectory(fs, d, worker)
  }

  /** A staged directory is private to its creator or already to its worker. */
  lemma StagedSecureIff(fs: Fs, d: Ino, euid: Uid, worker: Uid)
    ensures StagedSecure(fs, d, euid, worker) <==>
      IsDirectory(fs, d) && (PrivateTo(fs[d].attr, euid) || PrivateTo(fs[d].attr, worker))
  {
    hide SecureDirectory, PrivateTo;
    SecureDirectoryIff(fs, d, euid);
    SecureDirectoryIff(fs, d, worker);
  }

  // ---------------------------------------------------------------- one fresh entry

  /** Only the directory `m` and files new since `pre` differ. */
  ghost predicate ChangesOnlyInside(pre: Fs, post: Fs, m: Ino) {
    && m in pre && m in post && pre[m].Directory? && post[m].Directory?
    && (forall i :: i in pre && i != m ==> i in post && post[i] == pre[i])
    && (forall i :: i in post && i !in pre ==> post[i].Regular?)
    && (forall n :: n != RecordFile ==> Look(post, m, n) == Look(pre, m, n))
  }

  /** `post` is `pre` with a fresh directory `i` under `n` in `d`. */
  ghost predicate EntryAdded(pre: Fs, post: Fs, d: Ino, n: Name, i: Ino) {
    && KeepsInodes(pre, post)
    && Look(pre, d, n) == None && Look(post, d, n) == Some(i) && i !in pre && IsDirectory(post, i)
    && (forall d', n' :: (d' != d || n' != n) && (n'.RecordFile? ==> d' in pre) ==>
          Look(post, d', n') == Look(pre, d', n'))
    && (forall k :: k in pre && k != d ==> post[k] == pre[k])
  }

  /** `post` is exactly `pre` plus one empty directory `i` under `n` in `d`. */
  ghost predicate DirectoryMade(pre: Fs, post: Fs, d: Ino, n: Name, i: Ino) {
    && IsDirectory(pre, d) && Look(pre, d, n) == None && i !in pre
    && i in post && post[i].Directory? && post[i].children == map[] && post == Bind(pre, d, n, i)[i := post[i]]
  }

  /** A mkdir followed by work inside the new directory adds one entry. */
  lemma EntryIsAdded(pre: Fs, mid: Fs, post: Fs, d: Ino, n: Name, i: Ino)
    requires n != RecordFile
    requires DirectoryMade(pre, mid, d, n, i) && ChangesOnlyInside(mid, post, i)
    ensures EntryAdded(pre, post, d, n, i)
  {
    forall d', n' | (d' != d || n' != n) && (n'.RecordFile? ==> d' in pre)
      ensures Look(post, d', n') == Look(pre, d', n')
    {
      assert Look(Bind(pre, d, n, i), d', n') == Look(pre, d', n');
    }
  }

  lemma EntryAddedFrame(pre: Fs, post: Fs, t: Slot, n: Name, i: Ino)
    requires EntryAdded(pre, post, t.staging, n, i) && OwnsName(t, t.staging, n) && !n.Plain?
    ensures SlotFrame(pre, post, t)
    ensures Destination(post, t) == Destination(pre, t)
    ensures !n.Stage? ==> Staged(post, t) == Staged(pre, t)
    ensures !n.Active? ==> ActiveMarker(post, t) == ActiveMarker(pre, t)
    ensures RetiredMarker(post, t) == RetiredMarker(pre, t) || n.Retired?
  {
  }

  /** create_unpublished_worker_directory */
  method CreateUnpublished(disk: Disk, t: Slot, euid: Uid, worker: Uid, allowChildren: bool)
    returns (r: Io<StagedDirectory>)
    requires IsDirectory(disk.fs, t.staging)
    modifies disk
    ensures KeepsTree(old(disk.fs), disk.fs)
    ensures disk.fs == old(disk.fs)
      || exists i :: DirectoryMade(old(disk.fs), disk.fs, t.staging, Stage(t.dest, t.leaf), i)
    ensures r.Done? && !r.value.created ==>
      && disk.fs == old(disk.fs) && Staged(disk.fs, t) == Some(r.value.ino) && IsDirectory(disk.fs, r.value.ino)
      && StagedSecure(disk.fs, r.value.ino, euid, worker)
      && StagedEntriesAllowed(disk.fs, r.value.ino, CHILD_NAMES, allowChildren)
    ensures r.Done? && r.value.created ==>
      && DirectoryMade(old(disk.fs), disk.fs, t.staging, Stage(t.dest, t.leaf), r.value.ino)
      && SecureDirectory(disk.fs, r.value.ino, euid)
    ensures disk.faultFree && Staged(old(disk.fs), t) == None ==> r.Done?
  {
    hide Tree;
    ghost var pre := disk.fs;
    var name := Stage(t.dest, t.leaf);
    :- disk.Sys();
    var made :- disk.Mkdir(t.staging, name, euid);
    assert made.Some? ==> DirectoryMade(pre, disk.fs, t.staging, name, made.value);
    var ino :- disk.OpenDirectory(t.staging, name);
    :- disk.Sys();
    if made == None {
      if !StagedSecure(disk.fs, ino, euid, worker) {
        return Failed(Refused);
      }
      var entries := disk.Entries(ino);
      ChildNamesDiffer();
      var allowed := VerifyStagedEntries(disk.fs, ino, entries, CHILD_NAMES, allowChildren);
      if !allowed {
        return Failed(Refused);
      }
      return Done(StagedDirectory(ino, false));
    }
    var hardened := disk.Harden(ino, euid, euid);
    assert DirectoryMade(pre, disk.fs, t.staging, name, ino);
    var _ :- hardened;
    return Done(StagedDirectory(ino, true));
  }

  lemma HardeningIsInside(pre: Fs, post: Fs, m: Ino)
    requires IsDirectory(pre, m) && IsDirectory(post, m)
    requires post == pre[m := post[m]] && post[m].children == pre[m].children
    ensures ChangesOnlyInside(pre, post, m)
  {
  }

  lemma FileIsInside(pre: Fs, mid: Fs, post: Fs, m: Ino)
    requires ChangesOnlyInside(pre, mid, m) && (post == mid || exists i :: FileMade(mid, post, m, RecordFile, i))
    ensures ChangesOnlyInside(pre, post, m)
  {
    if post != mid {
      var i :| FileMade(mid, post, m, RecordFile, i);
      assert forall n :: n != RecordFile ==> Look(post, m, n) == Look(Bind(mid, m, RecordFile, i), m, n);
    }
  }

  lemma RecordIsInside(pre: Fs, mid: Fs, post: Fs, m: Ino, f: Ino)
    requires ChangesOnlyInside(pre, mid, m) && f !in pre && f in mid && f in post && post[f].Regular?
    requires post == mid[f := post[f]]
    ensures ChangesOnlyInside(pre, post, m)
  {
  }

  /** The part of create_worker_creation_provenance inside the fresh marker directory. */
  method FillMarker(disk: Disk, t: Slot, created: Ino, m: Ino, euid: Uid, worker: Uid) returns (r: Io<Marker>)
    requires IsDirectory(disk.fs, m) && disk.fs[m].children == map[] && disk.fs[m].attr.owner == euid
    modifies disk
    ensures KeepsTree(old(disk.fs), disk.fs)
    ensures ChangesOnlyInside(old(disk.fs), disk.fs, m)
    ensures r.Done? ==>
      && r.value == MarkerFor(t, created, m, r.value.file, worker)
      && SecureDirectory(disk.fs, m, euid) && disk.fs[m].children == map[RecordFile := r.value.file]
      && SecureFile(disk.fs, r.value.file, euid) && disk.fs[r.value.file].content == Whole(r.value.record)
    ensures disk.faultFree ==> r.Done?
  {
    hide Tree, ChangesOnlyInside;
    ghost var pre := disk.fs;
    var hardened := disk.Harden(m, euid, euid);
    ghost var private := disk.fs;
    HardeningIsInside(pre, private, m);
    var _ :- hardened;
    var made := disk.CreateFile(m, RecordFile, euid);
    ghost var filed := disk.fs;
    FileIsInside(pre, private, filed, m);
    var f :- made;
    var k := MarkerFor(t, created, m, f, worker);
    var written := disk.WriteRecord(f, k.record);
    RecordIsInside(pre, filed, disk.fs, m, f);
    var _ :- written;
    return Done(k);
  }

  /** create_worker_creation_provenance */
  method CreateProvenance(disk: Disk, t: Slot, created: Ino, euid: Uid, worker: Uid) returns (r: Io<Marker>)
    requires IsDirectory(disk.fs, t.staging)
    modifies disk
    ensures KeepsTree(old(disk.fs), disk.fs)
    ensures disk.fs == old(disk.fs)
      || exists i :: EntryAdded(old(disk.fs), disk.fs, t.staging, Active(t.dest, t.leaf), i)
    ensures ActiveMarker(old(disk.fs), t).Some? || RetiredMarker(old(disk.fs), t).Some? ==>
      disk.fs == old(disk.fs) && !r.Done?
    ensures r.Done? ==>
      && EntryAdded(old(disk.fs), disk.fs, t.staging, Active(t.dest, t.leaf), r.value.directory)
      && r.value == MarkerFor(t, created, r.value.directory, r.value.file, worker)
      && HoldsMarker(disk.fs, r.value, Active(t.dest, t.leaf), euid)
    ensures r.Done? ==>
      && Look(disk.fs, t.staging, Active(t.dest, t.leaf)) == Some(r.value.directory)
      && Look(disk.fs, r.value.directory, RecordFile) == Some(r.value.file)
      && Recorded(disk.fs, t, created, r.value.directory, r.value.file, worker)
      && Stands(disk.fs, t, Active(t.dest, t.leaf), created, euid, worker)
    ensures (disk.faultFree && ActiveMarker(old(disk.fs), t) == None && RetiredMarker(old(disk.fs), t) == None) ==>
      r.Done?
  {
    hide Tree;
    ghost var pre := disk.fs;
    var name := Active(t.dest, t.leaf);
    :- disk.Sys();
    if RetiredMarker(disk.fs, t).Some? {
      return Failed(Refused);
    }
    var made :- disk.Mkdir(t.staging, name, euid);
    if made == None {
      return Failed(Refused);
    }
    ghost var mid := disk.fs;
    EntryIsAdded(pre, mid, mid, t.staging, name, made.value);
    var m :- disk.OpenDirectory(t.staging, name);
    :- disk.Sys();
    var filled := FillMarker(disk, t, created, m, euid, worker);
    EntryIsAdded(pre, mid, disk.fs, t.staging, name, m);
    var k :- filled;
    :- disk.Sys();
    HeldMarkerStands(disk.fs, k, name, created, euid, worker);
    return Done(k);
  }

  // ---------------------------------------------------------------- reading markers

  /** open_worker_creation_provenance_at_name: absent, exact, or refused. */
  method OpenMarker(disk: Disk, t: Slot, name: Name, created: Ino, euid: Uid, worker: Uid)
    returns (r: Io<Option<Marker>>)
    ensures r == Done(None) ==> Look(disk.fs, t.staging, name) == None
    ensures r.Done? && r.value.Some? ==> ExactMarker(disk.fs, t, name, created, euid, worker) == r.value
    ensures r.Done? && r.value.Some? ==> Stands(disk.fs, t, name, created, euid, worker)
    ensures disk.faultFree && Stands(disk.fs, t, name, created, euid, worker) ==> r.Done? && r.value.Some?
    ensures (disk.faultFree
      && (Look(disk.fs, t.staging, name) == None || ExactMarker(disk.fs, t, name, created, euid, worker).Some?))
      ==> r == Done(ExactMarker(disk.fs, t, name, created, euid, worker))
    ensures r != Failed(NotFound)
    ensures disk.steady && r == Failed(Refused) ==>
      Look(disk.fs, t.staging, name).Some? && ExactMarker(disk.fs, t, name, created, euid, worker) == None
    ensures disk.faultFree ==> r.Done? || r == Failed(Refused)
  {
    ExactMarkerIff(disk.fs, t, name, created, euid, worker);
    var found := disk.OpenDirectory(t.staging, name);
    if found == Failed(NotFound) {
      return Done(None);
    }
    var m :- found;
    :- disk.Sys();
    if !SecureDirectory(disk.fs, m, euid) {
      return Failed(Refused);
    }
    :- disk.Sys();
    if RecordFile !in disk.fs[m].children {
      return Failed(Refused);
    }
    var k := MarkerFor(t, created, m, disk.fs[m].children[RecordFile], worker);
    if !HoldsMarker(disk.fs, k, name, euid) {
      return Failed(Refused);
    }
    return Done(Some(k));
  }

  /** open_retired_worker_creation_provenance: an exact retired marker must stand alone. */
  method OpenRetired(disk: Disk, t: Slot, created: Ino, euid: Uid, worker: Uid) returns (r: Io<Option<Marker>>)
    ensures r == Done(None) ==> RetiredMarker(disk.fs, t) == None
    ensures r.Done? && r.value.Some? ==>
      && ExactMarker(disk.fs, t, Retired(t.dest, t.leaf), created, euid, worker) == r.value
      && ActiveMarker(disk.fs, t) == None
    ensures disk.faultFree && RetiredMarker(disk.fs, t) == None ==> r == Done(None)
    ensures (disk.faultFree && ExactMarker(disk.fs, t, Retired(t.dest, t.leaf), created, euid, worker).Some?
      && ActiveMarker(disk.fs, t) == None)
      ==> r == Done(ExactMarker(disk.fs, t, Retired(t.dest, t.leaf), created, euid, worker))
    ensures r != Failed(NotFound)
    ensures disk.steady && r == Failed(Refused) ==>
      && RetiredMarker(disk.fs, t).Some?
      && (ActiveMarker(disk.fs, t).Some?
          || ExactMarker(disk.fs, t, Retired(t.dest, t.leaf), created, euid, worker) == None)
    ensures disk.faultFree ==> r.Done? || r == Failed(Refused)
  {
    var marker :- OpenMarker(disk, t, Retired(t.dest, t.leaf), created, euid, worker);
    if marker.Some? {
      :- disk.Sys();
      if ActiveMarker(disk.fs, t).Some? {
        return Failed(Refused);
      }
    }
    return Done(marker);
  }

  // ---------------------------------------------------------------- recovery authority

  /** CreatorOnlyUnpublishedParent: the right to go on inside a staged root that only its
      creator, distinct from the worker, can enter. */
  datatype Authority = Authority(parent: Ino, root: Slot, creator: Uid, worker: Uid)

  /** reverify_parent */
  predicate AuthorityHolds(fs: Fs, a: Authority, destinationParent: Ino, euid: Uid) {
    && a.creator != a.worker && euid == a.creator && destinationParent == a.parent
    && Staged(fs, a.root) == Some(a.parent) && Destination(fs, a.root) != Some(a.parent)
    && SecureDirectory(fs, a.parent, a.creator)
  }

  /** verify_unpublished_worker_recovery_authority */
  method RecoveryAuthority(disk: Disk, t: Slot, staged: StagedDirectory, euid: Uid, worker: Uid)
    returns (r: Io<Option<Authority>>)
    ensures r.Done? ==> (r.value.Some? <==> !staged.created)
    ensures r.Done? && r.value.Some? ==>
      && r.value.value == Authority(staged.ino, t, euid, worker)
      && AuthorityHolds(disk.fs, r.value.value, staged.ino, euid)
    ensures r.Done? && !staged.created ==>
      && euid != worker && Staged(disk.fs, t) == Some(staged.ino) && Destination(disk.fs, t) != Some(staged.ino)
      && IsDirectory(disk.fs, staged.ino) && PrivateTo(disk.fs[staged.ino].attr, euid)
    ensures disk.faultFree && staged.created ==> r.Done?
    ensures disk.faultFree && !r.Done? ==>
      || euid == worker || Staged(disk.fs, t) != Some(staged.ino) || Destination(disk.fs, t) == Some(staged.ino)
      || !IsDirectory(disk.fs, staged.ino) || !PrivateTo(disk.fs[staged.ino].attr, euid)
  {
    hide SecureDirectory, PrivateTo;
    SecureDirectoryIff(disk.fs, staged.ino, euid);
    if staged.created {
      return Done(None);
    }
    :- disk.Sys();
    var authority := Authority(staged.ino, t, euid, worker);
    if euid == worker || !AuthorityHolds(disk.fs, authority, staged.ino, euid) {
      return Failed(Refused);
    }
    return Done(Some(authority));
  }

  // ---------------------------------------------------------------- publication

  /** A directory handed to the caller, with the marker that proves its creation. */
  datatype Opened = Opened(ino: Ino, created: bool, marker: Option<Marker>)

  /** Outside `t` nothing changed, except the attributes of the candidate `i`. */
  ghost predicate SlotFrameBut(pre: Fs, post: Fs, t: Slot, i: Ino) {
    && IsDirectory(pre, i) && IsDirectory(post, i)
    && (forall k :: k in pre && k != i ==> k in post && SameInode(pre[k], post[k]))
    && (forall d, n :: !OwnsName(t, d, n) && (n.RecordFile? ==> d in pre) ==> Look(post, d, n) == Look(pre, d, n))
  }

  /** `t` is published with directory `i` and the exact active marker `k`. */
  ghost predicate PublishedAs(fs: Fs, t: Slot, i: Ino, k: Marker, euid: Uid, worker: Uid) {
    && Destination(fs, t) == Some(i) && Staged(fs, t) == None && RetiredMarker(fs, t) == None
    && IsDirectory(fs, i)
    && k == MarkerFor(t, i, k.directory, k.file, worker)
    && HoldsMarker(fs, k, Active(t.dest, t.leaf), euid)
  }

  lemma RenamePublishes(a: Fs, b: Fs, c: Fs, t: Slot, i: Ino, k: Marker, euid: Uid, worker: Uid)
    requires EntryAdded(a, b, t.staging, Active(t.dest, t.leaf), k.directory)
    requires k == MarkerFor(t, i, k.directory, k.file, worker) && HoldsMarker(b, k, Active(t.dest, t.leaf), euid)
    requires Staged(b, t) == Some(i) && IsDirectory(a, i) && RetiredMarker(a, t) == None && Destination(b, t) == None
    requires IsDirectory(a, t.staging) && IsDirectory(a, t.dest)
    requires c == Bind(Unbind(b, t.staging, Stage(t.dest, t.leaf)), t.dest, Plain(t.leaf), i)
    ensures SlotFrameBut(a, c, t, i) && PublishedAs(c, t, i, k, euid, worker)
  {
    var u := Unbind(b, t.staging, Stage(t.dest, t.leaf));
    forall d, n | !OwnsName(t, d, n) && (n.RecordFile? ==> d in a)
      ensures Look(c, d, n) == Look(a, d, n)
    {
      assert Look(c, d, n) == Look(u, d, n) == Look(b, d, n);
    }
    assert Look(c, t.staging, Active(t.dest, t.leaf)) == Look(u, t.staging, Active(t.dest, t.leaf));
    assert c[k.directory] == u[k.directory] == b[k.directory];
    assert c[k.file] == u[k.file] == b[k.file];
  }

  lemma HardeningKeepsPublication(a: Fs, b: Fs, c: Fs, t: Slot, i: Ino, k: Marker, euid: Uid, worker: Uid)
    requires SlotFrameBut(a, b, t, i) && PublishedAs(b, t, i, k, euid, worker)
    requires i in c && c[i].Directory? && c[i].children == b[i].children && c == b[i := c[i]]
    requires i != k.directory
    ensures SlotFrameBut(a, c, t, i) && PublishedAs(c, t, i, k, euid, worker)
  {
    assert forall d, n :: Look(c, d, n) == Look(b, d, n);
  }

  /** What publish_staged_worker_directory does to its candidate after the rename. */
  method FinishPublication(disk: Disk, t: Slot, i: Ino, harden: bool, euid: Uid, worker: Uid) returns (r: Io<()>)
    requires Destination(disk.fs, t) == Some(i) && IsDirectory(disk.fs, i)
    modifies disk
    ensures KeepsTree(old(disk.fs), disk.fs)
    ensures i in disk.fs && disk.fs[i].Directory? && disk.fs[i].children == old(disk.fs)[i].children
    ensures disk.fs == old(disk.fs)[i := disk.fs[i]]
    ensures r.Done? ==> StagedSecure(disk.fs, i, euid, worker) && (harden ==> HandedOver(disk.fs, i, euid, worker))
    ensures (disk.faultFree && SecureDirectory(old(disk.fs), i, euid) && Permitted(euid, worker)) ==> r.Done?
  {
    hide Tree;
    var reopened :- disk.OpenDirectory(t.dest, Plain(t.leaf));
    :- disk.Sys();
    if harden {
      var _ :- disk.Harden(i, euid, worker);
      :- disk.Sys();
      return Done(());
    }
    if !StagedSecure(disk.fs, reopened, euid, worker) {
      return Failed(Refused);
    }
    return Done(());
  }

  /** What publication may leave behind when it starts from a fresh candidate `i`. */
  ghost predicate PublicationOutcome(pre: Fs, post: Fs, t: Slot, i: Ino, r: Io<Opened>, published: Option<Opened>,
      euid: Uid, worker: Uid)
  {
    && (r.Done? ==> HandedBack(pre, post, t, i, r.value, euid, worker))
    && (published.Some? ==> r.Failed? && HandedBack(pre, post, t, i, published.value, euid, worker))
    && (r.Failed? && published == None ==> BeforePublication(pre, post, t))
    && (r.Crashed? ==>
        || BeforePublication(pre, post, t)
        || exists o :: HandedBack(pre, post, t, i, o, euid, worker))
  }

  ghost predicate HandedBack(pre: Fs, post: Fs, t: Slot, i: Ino, o: Opened, euid: Uid, worker: Uid) {
    && o.ino == i && o.created && o.marker.Some? && o.marker.value.directory !in pre
    && SlotFrameBut(pre, post, t, i) && PublishedAs(post, t, i, o.marker.value, euid, worker)
  }

  ghost predicate BeforePublication(pre: Fs, post: Fs, t: Slot) {
    post == pre || exists m :: EntryAdded(pre, post, t.staging, Active(t.dest, t.leaf), m)
  }

  /** The end of publish_staged_worker_directory when the destination name is taken. */
  method RecognisePublished(disk: Disk, t: Slot, staged: StagedDirectory, k: Marker, canonical: bool, euid: Uid,
      worker: Uid)
    returns (r: Io<Opened>)
    modifies disk
    ensures KeepsTree(old(disk.fs), disk.fs)
    ensures r.Done? ==> Destination(old(disk.fs), t) == Some(staged.ino) && r.value == Opened(staged.ino, true, Some(k))
    ensures !r.Done? && Destination(old(disk.fs), t) != Some(staged.ino) ==> disk.fs == old(disk.fs)
  {
    hide Tree;
    var existing :- disk.OpenDirectory(t.dest, Plain(t.leaf));
    if existing != staged.ino {
      return Failed(Refused);
    }
    :- disk.Sys();
    if !StagedSecure(disk.fs, existing, euid, worker) {
      return Failed(Refused);
    }
    if canonical {
      var _ :- disk.Harden(existing, euid, worker);
      :- disk.Sys();
    }
    return Done(Opened(existing, true, Some(k)));
  }

  /** `marked` is `pre` plus an exact marker for the fresh candidate of `t`. */
  ghost predicate ReadyToRename(pre: Fs, marked: Fs, t: Slot, i: Ino, k: Marker, euid: Uid, worker: Uid) {
    && PhaseOf(pre, t) == StagedOnly && Staged(pre, t) == Some(i)
    && IsDirectory(pre, i) && IsDirectory(pre, t.staging) && IsDirectory(pre, t.dest)
    && EntryAdded(pre, marked, t.staging, Active(t.dest, t.leaf), k.directory)
    && k == MarkerFor(t, i, k.directory, k.file, worker) && HoldsMarker(marked, k, Active(t.dest, t.leaf), euid)
  }

  lemma CandidateHandedBack(pre: Fs, marked: Fs, renamed: Fs, post: Fs, t: Slot, i: Ino, k: Marker, euid: Uid,
      worker: Uid)
    requires ReadyToRename(pre, marked, t, i, k, euid, worker) && Destination(marked, t) == None
    requires IsDirectory(marked, t.staging) && IsDirectory(marked, t.dest)
    requires renamed == Bind(Unbind(marked, t.staging, Stage(t.dest, t.leaf)), t.dest, Plain(t.leaf), i)
    requires i in post && post[i].Directory? && i in renamed && renamed[i].Directory?
    requires post[i].children == renamed[i].children && post == renamed[i := post[i]]
    ensures HandedBack(pre, post, t, i, Opened(i, true, Some(k)), euid, worker)
  {
    RenamePublishes(pre, marked, renamed, t, i, k, euid, worker);
    HardeningKeepsPublication(pre, renamed, post, t, i, k, euid, worker);
  }

  lemma ReadyMeansUnpublished(pre: Fs, marked: Fs, t: Slot, i: Ino, k: Marker, euid: Uid, worker: Uid)
    requires ReadyToRename(pre, marked, t, i, k, euid, worker)
    ensures Destination(marked, t) == None && BeforePublication(pre, marked, t)
  {
  }

  /** The no-replace rename of publish_staged_worker_directory and what follows it. */
  method RenameCandidate(disk: Disk, ghost pre: Fs, t: Slot, staged: StagedDirectory, k: Marker, harden: bool,
      euid: Uid, worker: Uid)
    returns (r: Io<Opened>, published: Option<Opened>)
    requires IsDirectory(disk.fs, t.staging) && IsDirectory(disk.fs, t.dest)
    requires Staged(disk.fs, t) == Some(staged.ino) && IsDirectory(disk.fs, staged.ino)
    modifies disk
    ensures t.staging == t.dest || MovesEmpty(old(disk.fs), t.staging, Stage(t.dest, t.leaf), t.dest) ==>
      KeepsTree(old(disk.fs), disk.fs)
    ensures ReadyToRename(pre, old(disk.fs), t, staged.ino, k, euid, worker) ==>
      && PublicationOutcome(pre, disk.fs, t, staged.ino, r, published, euid, worker)
      && (r.Done? ==>
        StagedSecure(disk.fs, staged.ino, euid, worker) && (harden ==> HandedOver(disk.fs, staged.ino, euid, worker)))
    ensures (disk.faultFree && Destination(old(disk.fs), t) == None
             && SecureDirectory(old(disk.fs), staged.ino, euid) && Permitted(euid, worker)) ==> r.Done?
  {
    hide Tree, MovesEmpty, ReadyToRename, HandedBack, BeforePublication;
    published := None;
    ghost var marked := disk.fs;
    ghost var ready := ReadyToRename(pre, marked, t, staged.ino, k, euid, worker);
    if ready {
      ReadyMeansUnpublished(pre, marked, t, staged.ino, k, euid, worker);
    }
    :- disk.Sys();
    var moved :- disk.RenameNoReplace(t.staging, Stage(t.dest, t.leaf), t.dest, Plain(t.leaf));
    if !moved {
      r := RecognisePublished(disk, t, staged, k, harden, euid, worker);
      return;
    }
    var handle := Opened(staged.ino, true, Some(k));
    ghost var renamed := disk.fs;
    var finished := FinishPublication(disk, t, staged.ino, harden, euid, worker);
    if ready {
      CandidateHandedBack(pre, marked, renamed, disk.fs, t, staged.ino, k, euid, worker);
    }
    match finished {
      case Done(_) => return Done(handle), None;
      case Failed(error) => return Failed(error), Some(handle);
      case Crashed => return Crashed, None;
    }
  }

  /** Making a marker beside an empty candidate leaves it empty. */
  lemma CandidateStaysEmpty(pre: Fs, marked: Fs, t: Slot)
    requires exists m :: EntryAdded(pre, marked, t.staging, Active(t.dest, t.leaf), m)
    ensures Tree(pre) && MovesEmpty(pre, t.staging, Stage(t.dest, t.leaf), t.dest) ==>
      MovesEmpty(marked, t.staging, Stage(t.dest, t.leaf), t.dest)
  {
    if Tree(pre) && MovesEmpty(pre, t.staging, Stage(t.dest, t.leaf), t.dest) {
      NoDirectoryInItself(pre, t.staging, Stage(t.dest, t.leaf));
    }
  }

  /** publish_staged_worker_directory. `published` carries the evidence kept by an error
      after the rename. */
  method Publish(disk: Disk, t: Slot, staged: StagedDirectory, euid: Uid, worker: Uid, canonical: bool)
    returns (r: Io<Opened>, published: Option<Opened>)
    requires IsDirectory(disk.fs, t.staging) && IsDirectory(disk.fs, t.dest)
    requires Staged(disk.fs, t) == Some(staged.ino) && IsDirectory(disk.fs, staged.ino)
    modifies disk
    ensures t.staging == t.dest || MovesEmpty(old(disk.fs), t.staging, Stage(t.dest, t.leaf), t.dest) ==>
      KeepsTree(old(disk.fs), disk.fs)
    ensures (staged.created && PhaseOf(old(disk.fs), t) == StagedOnly) ==>
      PublicationOutcome(old(disk.fs), disk.fs, t, staged.ino, r, published, euid, worker)
    ensures !staged.created && ActiveMarker(old(disk.fs), t) == None ==>
      disk.fs == old(disk.fs) && !r.Done? && published == None
    ensures (staged.created && PhaseOf(old(disk.fs), t) == StagedOnly && r.Done?) ==>
      && StagedSecure(disk.fs, staged.ino, euid, worker)
      && (canonical && t.staging != t.dest ==> HandedOver(disk.fs, staged.ino, euid, worker))
    ensures (disk.faultFree && staged.created && PhaseOf(old(disk.fs), t) == StagedOnly
             && SecureDirectory(old(disk.fs), staged.ino, euid) && Permitted(euid, worker)) ==> r.Done?
  {
    hide Tree;
    published := None;
    ghost var pre := disk.fs;
    var completeRoot := canonical && t.staging == t.dest;
    :- disk.Sys();
    if !StagedSecure(disk.fs, staged.ino, euid, worker) {
      return Failed(Refused), None;
    }
    var _ :- RecoveryAuthority(disk, t, staged, euid, worker);
    var active :- OpenMarker(disk, t, Active(t.dest, t.leaf), staged.ino, euid, worker);
    var retired :- OpenRetired(disk, t, staged.ino, euid, worker);
    if retired.Some? || (active == None && !staged.created) {
      return Failed(Refused), None;
    }
    var k: Marker;
    if active.Some? {
      k := active.value;
    } else {
      var marked := CreateProvenance(disk, t, staged.ino, euid, worker);
      if disk.fs != pre {
        CandidateStaysEmpty(pre, disk.fs, t);
      }
      k :- marked;
    }
    r, published := RenameCandidate(disk, pre, t, staged, k, canonical && !completeRoot, euid, worker);
  }

  // ---------------------------------------------------------------- open or create

  /** verify_worker_creation_ancestor */
  predicate AncestorAcceptable(fs: Fs, d: Ino, euid: Uid, worker: Uid) {
    && IsDirectory(fs, d)
    && var a := fs[d].attr;
       && (worker != euid ==> a.owner != worker)
       && (a.owner == ROOT_UID || a.owner == worker)
       && (OthersMayWrite(a.mode) ==> a.owner == ROOT_UID && a.mode.sticky)
       && !a.accessAcl
  }

  /** verify_existing_worker_directory */
  predicate ExistingAcceptable(fs: Fs, d: Ino, euid: Uid, worker: Uid, canonical: bool) {
    if canonical then SecureDirectory(fs, d, worker) else AncestorAcceptable(fs, d, euid, worker)
  }

  /** `t` passes every check of a reopening. */
  predicate Reopenable(fs: Fs, t: Slot, euid: Uid, worker: Uid, canonical: bool) {
    && Destination(fs, t).Some? && ActiveMarker(fs, t) == None
    && var d := Destination(fs, t).value;
       && ExistingAcceptable(fs, d, euid, worker, canonical)
       && (RetiredMarker(fs, t).Some? ==> ExactMarker(fs, t, Retired(t.dest, t.leaf), d, euid, worker).Some?)
  }

  /** `t` can be reopened, or nothing is in the way of its creation. */
  predicate Openable(fs: Fs, t: Slot, euid: Uid, worker: Uid, canonical: bool) {
    Reopenable(fs, t, euid, worker, canonical) || (PhaseOf(fs, t) == Nothing && Permitted(euid, worker))
  }

  /** The branch of open_or_create_worker_directory_at for a destination that exists. */
  method OpenPublished(disk: Disk, t: Slot, d: Ino, euid: Uid, worker: Uid, canonical: bool,
      authority: Option<Authority>)
    returns (r: Io<Opened>)
    requires Destination(disk.fs, t) == Some(d)
    ensures r.Done? ==> r.value.ino == d && ExistingAcceptable(disk.fs, d, euid, worker, canonical)
    ensures r.Done? && !r.value.created ==> r.value.marker == None && Reopenable(disk.fs, t, euid, worker, canonical)
    ensures r.Done? && r.value.created ==>
      && authority.Some? && canonical && r.value.marker.Some?
      && euid == authority.value.creator != authority.value.worker == worker && t.dest == authority.value.parent
      && Staged(disk.fs, authority.value.root) == Some(t.dest)
      && Destination(disk.fs, authority.value.root) != Some(t.dest) && SecureDirectory(disk.fs, t.dest, euid)
      && ExactMarker(disk.fs, t, Active(t.dest, t.leaf), d, euid, worker) == r.value.marker
    ensures disk.faultFree && Reopenable(disk.fs, t, euid, worker, canonical) ==> r == Done(Opened(d, false, None))
    ensures r != Failed(NotFound)
  {
    var fate := disk.Sys();
    :- fate;
    var active :- OpenMarker(disk, t, Active(t.dest, t.leaf), d, euid, worker);
    var retired :- OpenRetired(disk, t, d, euid, worker);
    if active.Some? && (authority == None || retired.Some?) {
      return Failed(Refused);
    }
    if active.Some? {
      var a := authority.value;
      if !AuthorityHolds(disk.fs, a, t.dest, euid) || a.worker != worker || !canonical {
        return Failed(Refused);
      }
    }
    :- disk.Sys();
    if !ExistingAcceptable(disk.fs, d, euid, worker, canonical) {
      return Failed(Refused);
    }
    return Done(Opened(d, active.Some?, active));
  }

  /** `o` is a directory that did not exist in `pre`, published with its exact marker. */
  ghost predicate NewlyPublished(pre: Fs, post: Fs, t: Slot, o: Opened, euid: Uid, worker: Uid) {
    && SlotFrame(pre, post, t) && o.created && o.ino !in pre
    && o.marker.Some? && o.marker.value.directory !in pre && PublishedAs(post, t, o.ino, o.marker.value, euid, worker)
    && o.ino in post && post[o.ino].children == map[]
  }

  /** What an attempt to create `t` from `Nothing` may leave behind. */
  ghost predicate CreationOutcome(pre: Fs, post: Fs, t: Slot, r: Io<Opened>, published: Option<Opened>, euid: Uid,
      worker: Uid) {
    && SlotFrame(pre, post, t)
    && (PhaseOf(post, t) == Nothing ==> post == pre)
    && (PhaseOf(post, t) == StagedOnly ==> exists i :: DirectoryMade(pre, post, t.staging, Stage(t.dest, t.leaf), i))
    && (PhaseOf(post, t).Nothing? || Pending(post, t))
    && (r.Done? ==> NewlyPublished(pre, post, t, r.value, euid, worker))
    && (published.Some? ==> r.Failed? && NewlyPublished(pre, post, t, published.value, euid, worker))
    && (r.Failed? && published == None ==> PhaseOf(post, t) != Published)
  }

  lemma StagedIsStagedOnly(pre: Fs, mid: Fs, t: Slot, i: Ino)
    requires PhaseOf(pre, t) == Nothing && DirectoryMade(pre, mid, t.staging, Stage(t.dest, t.leaf), i)
    ensures EntryAdded(pre, mid, t.staging, Stage(t.dest, t.leaf), i)
    ensures SlotFrame(pre, mid, t) && PhaseOf(mid, t) == StagedOnly && Staged(mid, t) == Some(i)
  {
    EntryIsAdded(pre, mid, mid, t.staging, Stage(t.dest, t.leaf), i);
    EntryAddedFrame(pre, mid, t, Stage(t.dest, t.leaf), i);
  }

  lemma SlotFrameTrans(a: Fs, b: Fs, c: Fs, t: Slot)
    requires SlotFrame(a, b, t) && SlotFrame(b, c, t)
    ensures SlotFrame(a, c, t)
  {
    forall d, n | !OwnsName(t, d, n) && (n.RecordFile? ==> d in a)
      ensures Look(c, d, n) == Look(a, d, n)
    {
      assert Look(b, d, n) == Look(a, d, n);
    }
  }

  lemma BeforePublicationPhase(pre: Fs, mid: Fs, post: Fs, t: Slot, i: Ino)
    requires PhaseOf(pre, t) == Nothing && DirectoryMade(pre, mid, t.staging, Stage(t.dest, t.leaf), i)
    requires BeforePublication(mid, post, t)
    ensures SlotFrame(pre, post, t) && Unpublished(PhaseOf(post, t))
    ensures PhaseOf(post, t) == StagedOnly ==> post == mid
  {
    StagedIsStagedOnly(pre, mid, t, i);
    if post != mid {
      var m :| EntryAdded(mid, post, t.staging, Active(t.dest, t.leaf), m);
      EntryAddedFrame(mid, post, t, Active(t.dest, t.leaf), m);
      SlotFrameTrans(pre, mid, post, t);
    }
  }

  lemma HandedBackIsNew(pre: Fs, mid: Fs, post: Fs, t: Slot, i: Ino, o: Opened, euid: Uid, worker: Uid)
    requires PhaseOf(pre, t) == Nothing && EntryAdded(pre, mid, t.staging, Stage(t.dest, t.leaf), i)
    requires IsDirectory(pre, t.staging) && IsDirectory(pre, t.dest) && mid[i].children == map[]
    requires HandedBack(mid, post, t, i, o, euid, worker)
    ensures NewlyPublished(pre, post, t, o, euid, worker) && PhaseOf(post, t) == Published
  {
    forall d, n | !OwnsName(t, d, n) && (n.RecordFile? ==> d in pre)
      ensures Look(post, d, n) == Look(pre, d, n)
    {
      assert Look(mid, d, n) == Look(pre, d, n);
    }
    forall n ensures n !in post[i].children {
      assert Look(post, i, n) == Look(mid, i, n) == None;
    }
  }

  lemma PublicationIsCreation(pre: Fs, mid: Fs, post: Fs, t: Slot, i: Ino, r: Io<Opened>, published: Option<Opened>,
      euid: Uid, worker: Uid)
    requires PhaseOf(pre, t) == Nothing && DirectoryMade(pre, mid, t.staging, Stage(t.dest, t.leaf), i)
    requires IsDirectory(pre, t.staging) && IsDirectory(pre, t.dest)
    requires PublicationOutcome(mid, post, t, i, r, published, euid, worker)
    ensures CreationOutcome(pre, post, t, r, published, euid, worker)
  {
    StagedIsStagedOnly(pre, mid, t, i);
    if r.Done? {
      HandedBackIsNew(pre, mid, post, t, i, r.value, euid, worker);
    } else if published.Some? {
      HandedBackIsNew(pre, mid, post, t, i, published.value, euid, worker);
    } else if BeforePublication(mid, post, t) {
      BeforePublicationPhase(pre, mid, post, t, i);
    } else {
      var o :| HandedBack(mid, post, t, i, o, euid, worker);
      HandedBackIsNew(pre, mid, post, t, i, o, euid, worker);
    }
  }

  /** The branch of open_or_create_worker_directory_at for a destination that is absent. */
  method CreateAbsent(disk: Disk, t: Slot, euid: Uid, worker: Uid, canonical: bool)
    returns (r: Io<Opened>, published: Option<Opened>)
    requires IsDirectory(disk.fs, t.staging) && IsDirectory(disk.fs, t.dest) && Destination(disk.fs, t) == None
    modifies disk
    ensures KeepsTree(old(disk.fs), disk.fs)
    ensures PhaseOf(old(disk.fs), t) == Nothing ==>
      CreationOutcome(old(disk.fs), disk.fs, t, r, published, euid, worker)
    ensures PhaseOf(old(disk.fs), t) != Nothing ==> disk.fs == old(disk.fs) && !r.Done? && published == None
    ensures r.Done? ==>
      && r.value.created && StagedSecure(disk.fs, r.value.ino, euid, worker)
      && (canonical && t.staging != t.dest ==> HandedOver(disk.fs, r.value.ino, euid, worker))
    ensures (disk.faultFree && PhaseOf(old(disk.fs), t) == Nothing && Permitted(euid, worker)) ==> r.Done?
  {
    hide Tree;
    ghost var pre := disk.fs;
    published := None;
    :- disk.Sys();
    if ActiveMarker(disk.fs, t).Some? {
      return Failed(Refused), None;
    }
    :- disk.Sys();
    if RetiredMarker(disk.fs, t).Some? {
      return Failed(Refused), None;
    }
    var candidate := CreateUnpublished(disk, t, euid, worker, false);
    if disk.fs != pre {
      ghost var i :| DirectoryMade(pre, disk.fs, t.staging, Stage(t.dest, t.leaf), i);
      StagedIsStagedOnly(pre, disk.fs, t, i);
    }
    var staged :- candidate;
    ghost var mid := disk.fs;
    r, published := Publish(disk, t, staged, euid, worker, canonical);
    if staged.created {
      PublicationIsCreation(pre, mid, disk.fs, t, staged.ino, r, published, euid, worker);
    }
  }

  /** open_or_create_worker_directory_at */
  method OpenOrCreate(disk: Disk, t: Slot, euid: Uid, worker: Uid, canonical: bool, authority: Option<Authority>)
    returns (r: Io<Opened>, published: Option<Opened>)
    requires IsDirectory(disk.fs, t.staging) && IsDirectory(disk.fs, t.dest)
    modifies disk
    ensures KeepsTree(old(disk.fs), disk.fs)
    ensures PhaseOf(old(disk.fs), t) == Nothing ==>
      CreationOutcome(old(disk.fs), disk.fs, t, r, published, euid, worker)
    ensures PhaseOf(old(disk.fs), t) != Nothing ==> disk.fs == old(disk.fs) && published == None
    ensures authority == None && Pending(old(disk.fs), t) ==> !r.Done?
    ensures authority == None && r.Done? && r.value.created ==> PhaseOf(old(disk.fs), t) == Nothing
    ensures Unpublished(PhaseOf(old(disk.fs), t)) ==> !r.Done?
    ensures (r.Done? && PhaseOf(old(disk.fs), t) != Nothing) ==>
      && Destination(disk.fs, t) == Some(r.value.ino)
      && ExistingAcceptable(disk.fs, r.value.ino, euid, worker, canonical)
      && (r.value.created <==> ActiveMarker(disk.fs, t).Some?)
      && (!r.value.created ==> r.value.marker == None && Reopenable(disk.fs, t, euid, worker, canonical))
      && (r.value.created ==>
        ExactMarker(disk.fs, t, Active(t.dest, t.leaf), r.value.ino, euid, worker) == r.value.marker)
    ensures (r.Done? && PhaseOf(old(disk.fs), t) == Nothing) ==>
      && StagedSecure(disk.fs, r.value.ino, euid, worker)
      && (canonical && t.staging != t.dest ==> HandedOver(disk.fs, r.value.ino, euid, worker))
    ensures (disk.faultFree && PhaseOf(old(disk.fs), t) == Nothing && Permitted(euid, worker)) ==> r.Done?
    ensures disk.faultFree && Reopenable(old(disk.fs), t, euid, worker, canonical) ==>
      r == Done(Opened(Destination(old(disk.fs), t).value, false, None))
  {
    hide Tree;
    published := None;
    var found := disk.OpenDirectory(t.dest, Plain(t.leaf));
    match found {
      case Done(d) =>
        r := OpenPublished(disk, t, d, euid, worker, canonical, authority);
      case Failed(NotFound) =>
        r, published := CreateAbsent(disk, t, euid, worker, canonical);
      case Failed(error) =>
        r := Failed(error);
      case Crashed =>
        r := Crashed;
    }
  }

  /** `t` is settled or adopted and passes every check of an undisturbed reopening. */
  predicate ReadyToReopen(fs: Fs, t: Slot, euid: Uid, worker: Uid, canonical: bool) {
    Standing(PhaseOf(fs, t)) && Reopenable(fs, t, euid, worker, canonical)
  }
}
