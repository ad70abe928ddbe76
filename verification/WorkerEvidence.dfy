/** What an exact marker proves, read off the files that are stored. */
module WorkerEvidence {
  import opened Wrappers
  import opened WorkerFs
  import opened Permissions

  /** The record says that `created`, destined for the slot `t`, was made for `worker`, and
      names the marker directory and the file that hold it. */
  predicate Says(r: Record, t: Slot, created: Ino, marker: Ino, file: Ino, worker: Uid) {
    && r.staging == t.staging && r.destination == t.dest && r.leaf == t.leaf
    && r.created == created && r.worker == worker && r.marker == marker && r.file == file
  }

  /** The file `f` holds a whole record that says so. */
  predicate Recorded(fs: Fs, t: Slot, created: Ino, m: Ino, f: Ino, worker: Uid) {
    f in fs && fs[f].Regular? && fs[f].content.Whole? && Says(fs[f].content.record, t, created, m, f, worker)
  }

  /** Under `name` stands a private directory of `euid` with one entry, a private file of
      `euid` that records the creation of `created` for `worker`. */
  ghost predicate Stands(fs: Fs, t: Slot, name: Name, created: Ino, euid: Uid, worker: Uid) {
    var at := Look(fs, t.staging, name);
    && at.Some? && IsDirectory(fs, at.value) && PrivateTo(fs[at.value].attr, euid)
    && fs[at.value].children.Keys == {RecordFile}
    && var f := fs[at.value].children[RecordFile];
       Recorded(fs, t, created, at.value, f, worker) && PrivateFileOf(fs[f].attr, euid)
  }

  lemma OnlyRecord(fs: Fs, m: Ino, f: Ino)
    requires IsDirectory(fs, m)
    ensures fs[m].children == map[RecordFile := f] <==>
      fs[m].children.Keys == {RecordFile} && fs[m].children[RecordFile] == f
  {
    var c := fs[m].children;
    if c.Keys == {RecordFile} && c[RecordFile] == f {
      assert forall n :: n in c <==> n in map[RecordFile := f];
    } else if c == map[RecordFile := f] {
      assert c.Keys == {RecordFile};
    }
  }

  /** A marker is exact precisely when it stands. */
  lemma ExactMarkerIff(fs: Fs, t: Slot, name: Name, created: Ino, euid: Uid, worker: Uid)
    ensures ExactMarker(fs, t, name, created, euid, worker).Some? <==> Stands(fs, t, name, created, euid, worker)
  {
    var at := Look(fs, t.staging, name);
    if at.Some? && IsDirectory(fs, at.value) && RecordFile in fs[at.value].children {
      var f := fs[at.value].children[RecordFile];
      OnlyRecord(fs, at.value, f);
      SecureDirectoryIff(fs, at.value, euid);
      SecureFileIff(fs, f, euid);
    }
  }

  lemma HeldMarkerStands(fs: Fs, k: Marker, name: Name, created: Ino, euid: Uid, worker: Uid)
    requires HoldsMarker(fs, k, name, euid) && k == MarkerFor(k.slot, created, k.directory, k.file, worker)
    ensures Stands(fs, k.slot, name, created, euid, worker)
    ensures Look(fs, k.slot.staging, name) == Some(k.directory) && Look(fs, k.directory, RecordFile) == Some(k.file)
    ensures Recorded(fs, k.slot, created, k.directory, k.file, worker)
  {
    OnlyRecord(fs, k.directory, k.file);
    SecureDirectoryIff(fs, k.directory, euid);
    SecureFileIff(fs, k.file, euid);
  }

  /** Two exact markers under one name vouch for the same directory and the same worker,
      whoever looks. */
  lemma ExactMarkersAgree(fs: Fs, t: Slot, name: Name, created: Ino, euid: Uid, worker: Uid, created': Ino,
      euid': Uid, worker': Uid)
    requires ExactMarker(fs, t, name, created, euid, worker).Some?
    requires ExactMarker(fs, t, name, created', euid', worker').Some?
    ensures created == created' && euid == euid' && worker == worker'
  {
    ExactMarkerIff(fs, t, name, created, euid, worker);
    ExactMarkerIff(fs, t, name, created', euid', worker');
  }
}
