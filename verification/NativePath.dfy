/** The worker paths of a manifest on Unix: string tests, and what they say of components. */
module NativePath {
  import opened TextSplit
  import WorkerFs

  const SLASH := '/'

  predicate IsControl(c: char) {
    c < ' ' || '\U{7f}' <= c <= '\U{9f}'
  }

  predicate PlainChars(s: string) {
    forall i :: 0 <= i < |s| ==> !IsControl(s[i]) && s[i] != '\\'
  }

  /** One component of a normalized path. */
  predicate IsName(s: string) {
    s != "" && s != "." && s != ".." && PlainChars(s)
  }

  /** validate_native_manifest_path on Linux and macOS. */
  predicate ValidUnix(s: string) {
    && PlainChars(s) && s != "" && s[0] == SLASH && s[|s| - 1] != SLASH
    && forall i :: 1 <= i < |Split(s, SLASH)| ==>
      Split(s, SLASH)[i] != "" && Split(s, SLASH)[i] != "." && Split(s, SLASH)[i] != ".."
  }

  function Components(s: string): seq<string> {
    Split(s, SLASH)[1..]
  }

  function PathOf(names: seq<string>): string
    requires names != []
  {
    [SLASH] + Join(names, SLASH)
  }

  predicate AreNames(names: seq<string>) {
    names != [] && forall i :: 0 <= i < |names| ==> IsName(names[i]) && SLASH !in names[i]
  }

  // ---------------------------------------------------------------- valid paths are lists of names

  lemma SplitOfAbsolute(s: string)
    ensures Split([SLASH] + s, SLASH) == [""] + Split(s, SLASH)
  {
    SplitAtSeparator("", s, SLASH);
    assert "" + [SLASH] + s == [SLASH] + s;
  }

  lemma {:induction false} PartsArePlain(s: string)
    requires PlainChars(s)
    ensures forall i :: 0 <= i < |Split(s, SLASH)| ==> PlainChars(Split(s, SLASH)[i])
  {
    if s != "" {
      PartsArePlain(s[1..]);
    }
  }

  lemma {:induction false} JoinIsPlain(names: seq<string>)
    requires names != [] && forall i :: 0 <= i < |names| ==> PlainChars(names[i])
    ensures PlainChars(Join(names, SLASH))
  {
    if |names| > 1 {
      JoinIsPlain(names[1..]);
    }
  }

  lemma {:induction false} JoinEndsInName(names: seq<string>)
    requires AreNames(names)
    ensures Join(names, SLASH) != "" && Join(names, SLASH)[|Join(names, SLASH)| - 1] != SLASH
  {
    if |names| == 1 {
      assert names[0][|names[0]| - 1] in names[0];
    } else {
      JoinEndsInName(names[1..]);
    }
  }

  /** Splitting a valid path and joining its components gives it back. */
  lemma ValidPathIsJoined(s: string)
    requires ValidUnix(s)
    ensures AreNames(Components(s)) && PathOf(Components(s)) == s
  {
    hide PlainChars, Split, Join;
    var rest := s[1..];
    assert s == [SLASH] + rest;
    SplitOfAbsolute(rest);
    assert Components(s) == Split(rest, SLASH);
    JoinOfSplit(rest, SLASH);
    PartsArePlain(s);
  }

  /** Joining names gives a valid path with exactly these components. */
  lemma JoinedPathIsValid(names: seq<string>)
    requires AreNames(names)
    ensures ValidUnix(PathOf(names)) && Components(PathOf(names)) == names
  {
    hide PlainChars, Split, Join;
    var s := PathOf(names);
    SplitOfAbsolute(Join(names, SLASH));
    SplitOfJoin(names, SLASH);
    JoinIsPlain(names);
    JoinEndsInName(names);
    assert PlainChars(s) by { SlashIsPlain(Join(names, SLASH)); }
  }

  lemma SlashIsPlain(s: string)
    requires PlainChars(s)
    ensures PlainChars([SLASH] + s)
  {
  }

  // ---------------------------------------------------------------- descendants

  /** unix_is_or_descendant */
  predicate IsOrDescendant(path: string, base: string) {
    path == base || (base <= path && |base| < |path| && path[|base|] == SLASH)
  }

  /** The string test says exactly that the components of the base begin the others. */
  lemma DescendantIffPrefix(path: string, base: string)
    requires ValidUnix(path) && ValidUnix(base)
    ensures IsOrDescendant(path, base) <==> Components(base) <= Components(path)
  {
    hide ValidUnix, Split, Join, AreNames;
    ValidPathIsJoined(path);
    ValidPathIsJoined(base);
    NamesAreThere(Components(path));
    NamesAreThere(Components(base));
    if base <= path && |base| < |path| && path[|base|] == SLASH {
      var rest := path[|base| + 1..];
      assert path == base + [SLASH] + rest;
      SplitAtSeparator(base, rest, SLASH);
      assert Components(path) == Components(base) + Split(rest, SLASH);
    }
    if Components(base) <= Components(path) {
      var more := Components(path)[|Components(base)|..];
      assert Components(path) == Components(base) + more;
      if more == [] {
        assert Components(path) == Components(base);
      } else {
        JoinOfConcat(Components(base), more, SLASH);
        assert path == base + [SLASH] + Join(more, SLASH);
      }
    }
  }

  lemma NamesAreThere(names: seq<string>)
    requires AreNames(names)
    ensures names != []
  {
  }

  // ---------------------------------------------------------------- consecutive components

  predicate ContainsAt(s: string, t: string, i: nat) {
    i + |t| <= |s| && s[i..i + |t|] == t
  }

  predicate Contains(s: string, t: string) {
    exists i :: 0 <= i <= |s| && ContainsAt(s, t, i)
  }

  predicate PairAt(names: seq<string>, a: string, b: string, i: nat) {
    i + 1 < |names| && names[i] == a && names[i + 1] == b
  }

  predicate HasPair(names: seq<string>, a: string, b: string) {
    exists i :: 0 <= i < |names| && PairAt(names, a, b, i)
  }

  /** `root.ends_with("/a/b") || root.contains("/a/b/")` */
  predicate PairInText(s: string, a: string, b: string) {
    EndsWith(s, PathOf([a, b])) || Contains(s, PathOf([a, b]) + [SLASH])
  }

  lemma PairIsSplit(x: string, a: string, b: string)
    requires SLASH !in a && SLASH !in b
    ensures Split(x + PathOf([a, b]), SLASH) == Split(x, SLASH) + [a, b]
  {
    SplitOfJoin([a, b], SLASH);
    SplitAtSeparator(x, Join([a, b], SLASH), SLASH);
    assert x + PathOf([a, b]) == x + [SLASH] + Join([a, b], SLASH);
  }

  lemma PairAfter(s: string, left: seq<string>, right: seq<string>, a: string, b: string)
    requires left != [] && Split(s, SLASH) == left + [a, b] + right
    ensures HasPair(Components(s), a, b)
  {
    assert PairAt(Components(s), a, b, |left| - 1);
  }

  lemma TextHasPair(s: string, a: string, b: string)
    requires SLASH !in a && SLASH !in b && PairInText(s, a, b)
    ensures HasPair(Components(s), a, b)
  {
    hide Split, Join;
    var t := PathOf([a, b]);
    if EndsWith(s, t) {
      var x := s[..|s| - |t|];
      assert s == x + t;
      PairIsSplit(x, a, b);
      assert Split(s, SLASH) == Split(x, SLASH) + [a, b] + [];
      PairAfter(s, Split(x, SLASH), [], a, b);
    } else {
      var i :| 0 <= i <= |s| && ContainsAt(s, t + [SLASH], i);
      var x, y := s[..i], s[i + |t| + 1..];
      var here := s[i..i + |t| + 1];
      assert s == x + here + y && here == t + [SLASH];
      assert x + (t + [SLASH]) + y == (x + t) + [SLASH] + y;
      PairIsSplit(x, a, b);
      SplitAtSeparator(x + t, y, SLASH);
      PairAfter(s, Split(x, SLASH), Split(y, SLASH), a, b);
    }
  }

  lemma PairIsInText(s: string, a: string, b: string)
    requires HasPair(Components(s), a, b)
    ensures PairInText(s, a, b)
  {
    hide Split, Join;
    var parts := Split(s, SLASH);
    var i :| 0 <= i < |Components(s)| && PairAt(Components(s), a, b, i);
    var left, right, t := parts[..i + 1], parts[i + 3..], PathOf([a, b]);
    assert parts == left + [a, b] + right;
    JoinOfSplit(s, SLASH);
    JoinOfConcat(left, [a, b], SLASH);
    var x := Join(left, SLASH);
    assert Join(left + [a, b], SLASH) == x + t;
    if right == [] {
      assert left + [a, b] + right == left + [a, b];
      assert s == x + t;
    } else {
      JoinOfConcat(left + [a, b], right, SLASH);
      var y := Join(right, SLASH);
      assert s == x + (t + [SLASH]) + y;
      assert ContainsAt(s, t + [SLASH], |x|);
    }
  }

  /** The two string tests together say exactly that the two components follow each other. */
  lemma PairInTextIff(s: string, a: string, b: string)
    requires SLASH !in a && SLASH !in b
    ensures PairInText(s, a, b) <==> HasPair(Components(s), a, b)
  {
    hide PairInText, HasPair;
    if PairInText(s, a, b) {
      TextHasPair(s, a, b);
    }
    if HasPair(Components(s), a, b) {
      PairIsInText(s, a, b);
    }
  }

  // ---------------------------------------------------------------- the six worker paths

  datatype Os = Linux | Macos

  datatype Scope = UserScope | SystemScope

  /** The root and its children repos, jobs, cache, artifacts and logs. */
  datatype Paths = Paths(root: string, children: seq<string>)

  /** The part of Paths::validate_for that ties the children to the root. */
  predicate ChildrenMatch(p: Paths) {
    && ValidUnix(p.root) && |p.children| == |WorkerFs.CHILD_NAMES|
    && forall j :: 0 <= j < |p.children| ==>
      ValidUnix(p.children[j]) && p.children[j] == p.root + [SLASH] + WorkerFs.CHILD_NAMES[j]
  }

  /** Its part that keeps the root out of the directories of another scope or system. */
  predicate OppositeFamily(os: Os, scope: Scope, root: string) {
    match (os, scope)
    case (Linux, UserScope) => IsOrDescendant(root, PathOf(["srv", "styrn"])) || IsOrDescendant(root, PathOf(["Users"]))
    case (Linux, SystemScope) =>
      || IsOrDescendant(root, PathOf(["home"])) || IsOrDescendant(root, PathOf(["Users"]))
        || IsOrDescendant(root, PathOf(["root"]))
      || PairInText(root, ".local", "share")
    case (Macos, UserScope) =>
      || IsOrDescendant(root, PathOf(["Users", "Shared", "Styrn"]))
      || IsOrDescendant(root, PathOf(["Library", "Application Support", "Styrn"]))
    case (Macos, SystemScope) =>
      IsOrDescendant(root, PathOf(["Users"])) && !IsOrDescendant(root, PathOf(["Users", "Shared"]))
  }

  /** The same on components. */
  predicate ForeignRoot(os: Os, scope: Scope, names: seq<string>) {
    match (os, scope)
    case (Linux, UserScope) => ["srv", "styrn"] <= names || ["Users"] <= names
    case (Linux, SystemScope) =>
      ["home"] <= names || ["Users"] <= names || ["root"] <= names || HasPair(names, ".local", "share")
    case (Macos, UserScope) =>
      ["Users", "Shared", "Styrn"] <= names || ["Library", "Application Support", "Styrn"] <= names
    case (Macos, SystemScope) => ["Users"] <= names && !(["Users", "Shared"] <= names)
  }

  lemma BelowNames(root: string, base: seq<string>)
    requires ValidUnix(root) && AreNames(base)
    ensures IsOrDescendant(root, PathOf(base)) <==> base <= Components(root)
  {
    hide ValidUnix, AreNames, PathOf, Components;
    NamesAreThere(base);
    JoinedPathIsValid(base);
    DescendantIffPrefix(root, PathOf(base));
  }

  lemma ShortNames()
    ensures AreNames(["Users"]) && AreNames(["home"]) && AreNames(["root"])
  {
  }

  lemma SrvStyrn()
    ensures AreNames(["srv", "styrn"])
  {
  }

  lemma UsersShared()
    ensures AreNames(["Users", "Shared"]) && AreNames(["Users", "Shared", "Styrn"])
  {
  }

  lemma LibraryStyrn()
    ensures AreNames(["Library", "Application Support", "Styrn"])
  {
  }

  /** The string tests of Paths::validate_for decide what they mean on components. */
  lemma OppositeFamilyIff(os: Os, scope: Scope, root: string)
    requires ValidUnix(root)
    ensures OppositeFamily(os, scope, root) <==> ForeignRoot(os, scope, Components(root))
  {
    hide ValidUnix, AreNames, PathOf, Components, IsOrDescendant, PairInText, HasPair;
    ShortNames();
    match (os, scope) {
      case (Linux, UserScope) =>
        SrvStyrn();
        BelowNames(root, ["srv", "styrn"]);
        BelowNames(root, ["Users"]);
      case (Linux, SystemScope) =>
        BelowNames(root, ["home"]);
        BelowNames(root, ["Users"]);
        BelowNames(root, ["root"]);
        PairInTextIff(root, ".local", "share");
      case (Macos, UserScope) =>
        UsersShared();
        LibraryStyrn();
        BelowNames(root, ["Users", "Shared", "Styrn"]);
        BelowNames(root, ["Library", "Application Support", "Styrn"]);
      case (Macos, SystemScope) =>
        UsersShared();
        BelowNames(root, ["Users"]);
        BelowNames(root, ["Users", "Shared"]);
    }
  }

  lemma ChildComponents(root: string, leaf: string)
    requires ValidUnix(root) && SLASH !in leaf
    ensures Components(root + [SLASH] + leaf) == Components(root) + [leaf]
  {
    hide ValidUnix;
    SplitAtSeparator(root, leaf, SLASH);
    SplitOfWord(leaf, SLASH);
  }

  lemma LeavesDiffer(i: nat, j: nat)
    requires i < j < |WorkerFs.CHILD_NAMES|
    ensures WorkerFs.CHILD_NAMES[i] != WorkerFs.CHILD_NAMES[j]
  {
    assert WorkerFs.CHILD_NAMES[0][0] == 'r' && WorkerFs.CHILD_NAMES[1][0] == 'j'
      && WorkerFs.CHILD_NAMES[2][0] == 'c';
    assert WorkerFs.CHILD_NAMES[3][0] == 'a' && WorkerFs.CHILD_NAMES[4][0] == 'l';
  }

  lemma LeavesAreWords(j: nat)
    requires j < |WorkerFs.CHILD_NAMES|
    ensures SLASH !in WorkerFs.CHILD_NAMES[j]
  {
  }

  /** Accepted paths are six different paths, five of them strict children of the root. */
  lemma SixPaths(p: Paths, i: nat, j: nat)
    requires ChildrenMatch(p) && i < j < |p.children|
    ensures p.children[i] != p.children[j] && p.children[i] != p.root && p.children[j] != p.root
    ensures Components(p.children[j]) == Components(p.root) + [WorkerFs.CHILD_NAMES[j]]
    ensures IsOrDescendant(p.children[j], p.root) && !IsOrDescendant(p.root, p.children[j])
      && !IsOrDescendant(p.children[i], p.children[j])
  {
    hide ValidUnix, Components, IsOrDescendant;
    LeavesDiffer(i, j);
    LeavesAreWords(i);
    LeavesAreWords(j);
    ChildComponents(p.root, WorkerFs.CHILD_NAMES[i]);
    ChildComponents(p.root, WorkerFs.CHILD_NAMES[j]);
    var root, a, b := Components(p.root), Components(p.children[i]), Components(p.children[j]);
    assert a[|root|] == WorkerFs.CHILD_NAMES[i] && b[|root|] == WorkerFs.CHILD_NAMES[j];
    DescendantIffPrefix(p.children[j], p.root);
    DescendantIffPrefix(p.root, p.children[j]);
    DescendantIffPrefix(p.children[i], p.children[j]);
  }
}
