/** The check of a user's trusted root and all its ancestors, and what it protects. */
module AncestorChain {
  import opened WorkerFs
  import opened Permissions

  /** One directory of the chain; a chain runs from the trusted root up to "/". */
  datatype Dir = Dir(owner: Uid, mode: Mode)

  // ---------------------------------------------------------------- what is accepted

  predicate OwnerTransition(dirs: seq<Dir>) {
    forall i, j :: 0 <= i < j < |dirs| && dirs[i].owner == ROOT_UID ==> dirs[j].owner == ROOT_UID
  }

  /** A directory others may write protects its child only by the sticky bit, and only a
      child of the user. */
  predicate Shielded(dirs: seq<Dir>, i: nat, uid: Uid)
    requires 0 < i < |dirs|
  {
    OthersMayWrite(dirs[i].mode) ==> dirs[i].mode.sticky && dirs[i - 1].owner == uid
  }

  predicate Accepted(dirs: seq<Dir>, uid: Uid) {
    && dirs != [] && dirs[0].owner == uid && !OthersMayWrite(dirs[0].mode)
    && (forall i :: 0 < i < |dirs| ==> (dirs[i].owner == ROOT_UID || dirs[i].owner == uid) && Shielded(dirs, i, uid))
    && (uid != ROOT_UID ==> OwnerTransition(dirs[1..]))
  }

  /** validate_user_ancestor_access */
  method ValidateAncestor(d: Dir, childUid: Uid, uid: Uid, reachedSystemOwner: bool) returns (ok: bool, reached: bool)
    ensures ok <==>
      && (d.owner == ROOT_UID || (d.owner == uid && !reachedSystemOwner))
      && (OthersMayWrite(d.mode) ==> d.mode.sticky && childUid == uid)
    ensures reached == (reachedSystemOwner || d.owner == ROOT_UID)
  {
    reached := reachedSystemOwner;
    if d.owner == ROOT_UID {
      reached := true;
    } else if d.owner != uid || reached {
      return false, reached;
    }
    if OthersMayWrite(d.mode) {
      var trustedOwner := d.owner == ROOT_UID || d.owner == uid;
      if !(d.mode.sticky && childUid == uid && trustedOwner) {
        return false, reached;
      }
    }
    return true, reached;
  }

  /** verify_user_trusted_root_chain, on real directories */
  method VerifyChain(dirs: seq<Dir>, uid: Uid) returns (ok: bool)
    requires dirs != []
    ensures ok <==> Accepted(dirs, uid)
  {
    if dirs[0].owner != uid || OthersMayWrite(dirs[0].mode) {
      return false;
    }
    var childUid, reached := dirs[0].owner, false;
    var i := 1;
    while i < |dirs|
      invariant 1 <= i <= |dirs| && childUid == dirs[i - 1].owner
      invariant reached <==> exists j :: 1 <= j < i && dirs[j].owner == ROOT_UID
      invariant forall j :: 0 < j < i ==> (dirs[j].owner == ROOT_UID || dirs[j].owner == uid) && Shielded(dirs, j, uid)
      invariant forall j, k :: 1 <= j < k < i && dirs[j].owner == ROOT_UID ==> dirs[k].owner == ROOT_UID
    {
      var accepted, now := ValidateAncestor(dirs[i], childUid, uid, reached);
      if !accepted {
        RefusedAncestor(dirs, uid, i, reached);
        return false;
      }
      reached := now;
      childUid := dirs[i].owner;
      i := i + 1;
    }
    return true;
  }

  lemma RefusedAncestor(dirs: seq<Dir>, uid: Uid, i: nat, reached: bool)
    requires 0 < i < |dirs| && (reached <==> exists j :: 1 <= j < i && dirs[j].owner == ROOT_UID)
    requires !((dirs[i].owner == ROOT_UID || (dirs[i].owner == uid && !reached))
               && (OthersMayWrite(dirs[i].mode) ==> dirs[i].mode.sticky && dirs[i - 1].owner == uid))
    ensures !Accepted(dirs, uid)
  {
    if reached && dirs[i].owner == uid && uid != ROOT_UID {
      var j :| 1 <= j < i && dirs[j].owner == ROOT_UID;
      assert dirs[1..][j - 1] == dirs[j] && dirs[1..][i - 1] == dirs[i];
    }
  }

  // ---------------------------------------------------------------- what it protects

  /** Who can replace an entry of `d`, member of the directory's group or not. Access ACLs
      are no part of this check. */
  predicate CanReplace(u: Uid, member: bool, d: Dir, entryOwner: Uid) {
    MayReplace(u, member, Attr(d.owner, d.mode, false, false), entryOwner)
  }

  /** The owners are the user, one or more times, followed only by root. */
  lemma {:induction false} OwnersAreUserThenRoot(dirs: seq<Dir>, uid: Uid)
    requires Accepted(dirs, uid)
    ensures exists k :: 0 < k <= |dirs| && OwnersSplitAt(dirs, uid, k)
  {
    var k := 1;
    while k < |dirs| && dirs[k].owner == uid
      invariant 1 <= k <= |dirs| && forall i :: 0 <= i < k ==> dirs[i].owner == uid
    {
      k := k + 1;
    }
    if k < |dirs| {
      forall j | k <= j < |dirs|
        ensures dirs[j].owner == ROOT_UID
      {
        if j > k && uid != ROOT_UID {
          assert dirs[1..][k - 1].owner == ROOT_UID && dirs[1..][j - 1] == dirs[j];
        }
      }
    }
    assert OwnersSplitAt(dirs, uid, k);
  }

  predicate OwnersSplitAt(dirs: seq<Dir>, uid: Uid, k: nat)
    requires k <= |dirs|
  {
    (forall i :: 0 <= i < k ==> dirs[i].owner == uid) && (forall i :: k <= i < |dirs| ==> dirs[i].owner == ROOT_UID)
  }

  predicate IsThird(u: Uid, uid: Uid) { u != uid && u != ROOT_UID }

  /** No third user can replace the chain's entry in `dirs[i]`; in the trusted root itself,
      any entry. */
  ghost predicate Protected(dirs: seq<Dir>, uid: Uid, i: nat)
    requires i < |dirs|
  {
    forall u, member, o :: IsThird(u, uid) && (i > 0 ==> o == dirs[i - 1].owner) ==> !CanReplace(u, member, dirs[i], o)
  }

  /** In an accepted chain every entry is protected. */
  lemma AcceptedIsProtected(dirs: seq<Dir>, uid: Uid, i: nat)
    requires Accepted(dirs, uid) && i < |dirs|
    ensures Protected(dirs, uid, i)
  {
    OthersMayWriteMeans(dirs[i].mode);
    assert i > 0 ==> Shielded(dirs, i, uid);
  }

  predicate WritableByClass(d: Dir) {
    Grants(d.mode, Group, Writing) || Grants(d.mode, Others, Writing)
  }

  /** The directories that the group or others may write hold a directory of the user. */
  ghost predicate ShieldsOnlyUser(dirs: seq<Dir>, uid: Uid) {
    forall i :: 0 < i < |dirs| && WritableByClass(dirs[i]) ==> dirs[i - 1].owner == uid
  }

  /** A protected entry may stand in a directory that others may write only by its sticky
      bit, and not at all in the trusted root. */
  lemma ProtectedIsSticky(dirs: seq<Dir>, uid: Uid, i: nat)
    requires i < |dirs| && Protected(dirs, uid, i)
    ensures OthersMayWrite(dirs[i].mode) ==> i > 0 && dirs[i].mode.sticky
  {
    var third: Uid := uid + dirs[i].owner + 1;
    assert IsThird(third, uid);
    var entry := if i > 0 then dirs[i - 1].owner else third;
    OthersMayWriteMeans(dirs[i].mode);
    assert !CanReplace(third, true, dirs[i], entry) && !CanReplace(third, false, dirs[i], entry);
  }

  /** The check asks for more than protection, and for nothing else: a chain is accepted
      exactly when every entry is protected, the owners are the user and then root, and no
      directory that others may write shields a child of root. */
  lemma AcceptedIff(dirs: seq<Dir>, uid: Uid)
    requires dirs != []
    ensures Accepted(dirs, uid) <==>
      && (exists k :: 0 < k <= |dirs| && OwnersSplitAt(dirs, uid, k))
      && (forall i :: 0 <= i < |dirs| ==> Protected(dirs, uid, i))
      && ShieldsOnlyUser(dirs, uid)
  {
    forall i | 0 <= i < |dirs|
      ensures OthersMayWrite(dirs[i].mode) <==> WritableByClass(dirs[i])
    {
      OthersMayWriteMeans(dirs[i].mode);
    }
    if Accepted(dirs, uid) {
      OwnersAreUserThenRoot(dirs, uid);
      forall i | 0 <= i < |dirs|
        ensures Protected(dirs, uid, i) && (i > 0 ==> Shielded(dirs, i, uid))
      {
        AcceptedIsProtected(dirs, uid, i);
      }
    }
    if (exists k :: 0 < k <= |dirs| && OwnersSplitAt(dirs, uid, k))
       && (forall i :: 0 <= i < |dirs| ==> Protected(dirs, uid, i)) && ShieldsOnlyUser(dirs, uid)
    {
      forall i | 0 <= i < |dirs|
        ensures OthersMayWrite(dirs[i].mode) ==> i > 0 && dirs[i].mode.sticky
      {
        ProtectedIsSticky(dirs, uid, i);
      }
    }
  }
}
