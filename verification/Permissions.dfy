/** Who may do what to a file or a directory: the rules of Unix permissions, stated apart
    from the tests that the code makes on modes and owners. */
module Permissions {
  import opened WorkerFs

  datatype Access = Reading | Writing | Searching

  /** A mode distinguishes the owner, the members of the group, and everybody else. */
  datatype Class = Owner | Group | Others

  function DigitOf(m: Mode, c: Class): Digit {
    match c
    case Owner => m.user
    case Group => m.group
    case Others => m.other
  }

  predicate Grants(m: Mode, c: Class, x: Access) {
    match x
    case Reading => DigitOf(m, c) >= 4
    case Writing => DigitOf(m, c) % 4 >= 2
    case Searching => DigitOf(m, c) % 2 == 1
  }

  function ClassOf(u: Uid, member: bool, owner: Uid): Class {
    if u == owner then Owner else if member then Group else Others
  }

  /** What `u` may do, a member of the group or not. Nothing is kept from the superuser, and
      an access ACL may grant anything to anybody. */
  predicate May(u: Uid, member: bool, a: Attr, x: Access) {
    u == ROOT_UID || a.accessAcl || Grants(a.mode, ClassOf(u, member, a.owner), x)
  }

  /** A directory's owner may change its mode, and so its entries; anyone else needs write
      permission and, under the sticky bit, must own the entry. */
  predicate MayReplace(u: Uid, member: bool, a: Attr, entryOwner: Uid) {
    u == ROOT_UID || u == a.owner || (May(u, member, a, Writing) && (!a.mode.sticky || u == entryOwner))
  }

  // ---------------------------------------------------------------- what the tests on modes mean

  /** The sticky bit and the nine permission bits as one number. */
  function Bits(m: Mode): nat {
    (if m.sticky then 0x200 else 0) + 64 * m.user + 8 * m.group + m.other
  }

  /** The mask 0o022 picks the write bits of group and others. */
  lemma OthersMayWriteMeans(m: Mode)
    ensures OthersMayWrite(m) <==> Grants(m, Group, Writing) || Grants(m, Others, Writing)
    ensures OthersMayWrite(m) <==> Bits(m) / 0x10 % 2 == 1 || Bits(m) / 0x2 % 2 == 1
  {
    WriteBitOfGroup(m);
    WriteBitOfOthers(m);
  }

  lemma WriteBitOfGroup(m: Mode)
    ensures WriteDigit(m.group) <==> m.group % 4 >= 2
    ensures Bits(m) / 0x10 % 2 == 1 <==> m.group % 4 >= 2
  {
    var sticky := if m.sticky then 32 else 0;
    assert Bits(m) == 0x10 * (sticky + 4 * m.user + m.group / 2) + (8 * (m.group % 2) + m.other);
    assert Bits(m) / 0x10 == sticky + 4 * m.user + m.group / 2;
  }

  lemma WriteBitOfOthers(m: Mode)
    ensures WriteDigit(m.other) <==> m.other % 4 >= 2
    ensures Bits(m) / 0x2 % 2 == 1 <==> m.other % 4 >= 2
  {
    var sticky := if m.sticky then 0x100 else 0;
    assert Bits(m) == 0x2 * (sticky + 32 * m.user + 4 * m.group + m.other / 2) + m.other % 2;
    assert Bits(m) / 0x2 == sticky + 32 * m.user + 4 * m.group + m.other / 2;
  }

  /** Mode 0o700 among the nine bits: everything to the owner and nothing to anybody else. */
  lemma PrivateDirectoryMode(m: Mode)
    ensures HasDigits(m, 7, 0, 0) <==> forall c, x :: Grants(m, c, x) <==> c.Owner?
    ensures HasDigits(m, 7, 0, 0) <==> Bits(m) % 0x200 == 0x1C0
  {
    if forall c, x :: Grants(m, c, x) <==> c.Owner? {
      assert Grants(m, Owner, Reading) && Grants(m, Owner, Writing) && Grants(m, Owner, Searching);
      assert !Grants(m, Group, Reading) && !Grants(m, Group, Writing) && !Grants(m, Group, Searching);
      assert !Grants(m, Others, Reading) && !Grants(m, Others, Writing) && !Grants(m, Others, Searching);
    }
    assert Bits(m) % 0x200 == 64 * m.user + 8 * m.group + m.other;
  }

  /** Mode 0o600: reading and writing to the owner. */
  lemma PrivateFileMode(m: Mode)
    ensures HasDigits(m, 6, 0, 0) <==> forall c, x :: Grants(m, c, x) <==> c.Owner? && !x.Searching?
    ensures HasDigits(m, 6, 0, 0) <==> Bits(m) % 0x200 == 0x180
  {
    if forall c, x :: Grants(m, c, x) <==> c.Owner? && !x.Searching? {
      assert Grants(m, Owner, Reading) && Grants(m, Owner, Writing) && !Grants(m, Owner, Searching);
      assert !Grants(m, Group, Reading) && !Grants(m, Group, Writing) && !Grants(m, Group, Searching);
      assert !Grants(m, Others, Reading) && !Grants(m, Others, Writing) && !Grants(m, Others, Searching);
    }
    assert Bits(m) % 0x200 == 64 * m.user + 8 * m.group + m.other;
  }

  // ---------------------------------------------------------------- private files and directories

  /** A private directory is its owner's, who alone may do anything in it, and no ACL is
      attached or inherited. */
  ghost predicate PrivateTo(a: Attr, owner: Uid) {
    a.owner == owner && !a.accessAcl && !a.defaultAcl && forall c, x :: Grants(a.mode, c, x) <==> c.Owner?
  }

  lemma SecureDirectoryIff(fs: Fs, d: Ino, owner: Uid)
    ensures SecureDirectory(fs, d, owner) <==> IsDirectory(fs, d) && PrivateTo(fs[d].attr, owner)
  {
    if d in fs {
      PrivateDirectoryMode(fs[d].attr.mode);
    }
  }

  ghost predicate PrivateFileOf(a: Attr, owner: Uid) {
    a.owner == owner && !a.accessAcl && forall c, x :: Grants(a.mode, c, x) <==> c.Owner? && !x.Searching?
  }

  lemma SecureFileIff(fs: Fs, f: Ino, owner: Uid)
    ensures SecureFile(fs, f, owner) <==> f in fs && fs[f].Regular? && PrivateFileOf(fs[f].attr, owner)
  {
    if f in fs {
      PrivateFileMode(fs[f].attr.mode);
    }
  }

  /** Nobody but its owner and the superuser may read, write or enter a private directory. */
  lemma PrivateKeepsOut(a: Attr, owner: Uid, u: Uid, member: bool, x: Access)
    requires PrivateTo(a, owner)
    ensures May(u, member, a, x) <==> u == owner || u == ROOT_UID
  {
    assert Grants(a.mode, ClassOf(u, member, owner), x) <==> ClassOf(u, member, owner).Owner?;
  }

  // ---------------------------------------------------------------- directories to create below

  /** A directory below which `euid` may create something for `worker`: it belongs to root
      or to the worker, to the worker only if that is the creator, has no access ACL, and
      lets nobody else replace what they do not own; and only root shares directories. */
  ghost predicate Trustworthy(a: Attr, euid: Uid, worker: Uid) {
    && (a.owner == ROOT_UID || a.owner == worker) && (a.owner == worker ==> worker == euid) && !a.accessAcl
    && (forall u, member, o :: u != ROOT_UID && !(u == worker == euid) && o != u ==> !MayReplace(u, member, a, o))
    && (Grants(a.mode, Group, Writing) || Grants(a.mode, Others, Writing) ==> a.owner == ROOT_UID && a.mode.sticky)
  }
}
