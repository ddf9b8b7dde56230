/**
  Expressing "only these subtrees may be written" as a finite deny list
  (src/runtime/permission-rules.ts, src/runtime/claude-adapter.ts): the directories between
  the workspace and its write roots are read, and whatever in them leads to no root is denied.

  The file tree is a set of existing paths closed under parents. Whether a path *is* inside a
  subtree is the plain prefix order `<=`; the code tests it with `Within`, which differs on
  names that start with two dots. The theorem says exactly when that difference matters.
 */
module DenyList {
  import opened Wrappers
  import opened Paths
  import opened Assignment

  function Parent(path: Path): Path {
    if path == [] then [] else path[..|path| - 1]
  }

  predicate TreeClosed(tree: set<Path>) {
    forall path :: path in tree ==> Parent(path) in tree
  }

  function InsideWorkspace(workspace: Path, writableRoots: seq<Path>): (roots: seq<Path>)
    ensures forall root :: root in roots <==> root in writableRoots && Within(workspace, root)
  {
    if writableRoots == [] then []
    else
      (if Within(workspace, writableRoots[0]) then [writableRoots[0]] else [])
      + InsideWorkspace(workspace, writableRoots[1..])
  }

  predicate OnTheWay(roots: seq<Path>, path: Path) {
    exists i :: 0 <= i < |roots| && (Within(path, roots[i]) || Within(roots[i], path))
  }

  /** `directory` is met while climbing from `root` to the workspace. */
  predicate Climbed(workspace: Path, root: Path, directory: Path) {
    workspace <= directory <= Parent(root)
  }

  predicate Listed(workspace: Path, roots: seq<Path>, directory: Path) {
    exists i :: 0 <= i < |roots| && Climbed(workspace, roots[i], directory)
  }

  /** `path` is an entry of a listed directory. */
  predicate ListedEntry(workspace: Path, roots: seq<Path>, tree: set<Path>, path: Path) {
    path in tree && path != [] && Listed(workspace, roots, Parent(path))
  }

  predicate Denied(workspace: Path, roots: seq<Path>, tree: set<Path>, path: Path) {
    ListedEntry(workspace, roots, tree, path) && !OnTheWay(roots, path)
  }

  /** `listDirectory`: the entries of one directory, as full paths. */
  function Entries(tree: set<Path>, directory: Path): set<Path> {
    set path | path in tree && path != [] && Parent(path) == directory
  }

  // ----- The algorithm

  method Ancestors(workspace: Path, roots: seq<Path>) returns (ancestors: set<Path>)
    requires forall i :: 0 <= i < |roots| ==> Within(workspace, roots[i])
    ensures forall directory :: directory in ancestors <==> Listed(workspace, roots, directory)
  {
    ancestors := {};
    for i := 0 to |roots|
      invariant forall d :: d in ancestors <==> exists k :: 0 <= k < i && Climbed(workspace, roots[k], d)
    {
      var climbed := Climb(workspace, roots[i]);
      ancestors := ancestors + climbed;
    }
  }

  method Climb(workspace: Path, root: Path) returns (climbed: set<Path>)
    requires Within(workspace, root)
    ensures forall directory :: directory in climbed <==> Climbed(workspace, root, directory)
  {
    climbed := {};
    var directory := Parent(root);
    while Within(workspace, directory)
      invariant directory <= Parent(root)
      invariant forall d :: d in climbed <==> Climbed(workspace, root, d) && |d| > |directory|
      decreases |directory|
    {
      climbed := climbed + {directory};
      SameLength(Parent(root), directory);
      if directory == workspace || Parent(directory) == directory {
        return;
      }
      directory := Parent(directory);
    }
    WithinBelow(workspace, directory, root);
    SameLength(Parent(root), directory);
  }

  lemma SameLength(path: Path, upper: Path)
    requires upper <= path
    ensures forall d: Path :: d <= path && |d| == |upper| ==> d == upper
    ensures forall d: Path :: d <= path && |d| <= |upper| ==> d <= upper
  {
  }

  lemma WithinBelow(workspace: Path, directory: Path, root: Path)
    requires Within(workspace, root) && directory <= root
    ensures Within(workspace, directory) <==> workspace <= directory
  {
  }

  method WriteScopeDenyPaths(workspace: Path, writableRoots: seq<Path>, tree: set<Path>) returns (denied: set<Path>)
    ensures forall path :: path in denied <==> Denied(workspace, InsideWorkspace(workspace, writableRoots), tree, path)
  {
    var roots := InsideWorkspace(workspace, writableRoots);
    assert forall i :: 0 <= i < |roots| ==> roots[i] in roots;
    var ancestors := Ancestors(workspace, roots);
    denied := {};
    var pending := ancestors;
    while pending != {}
      invariant pending <= ancestors
      invariant forall path :: path in denied <==>
                  path in tree && path != [] && Parent(path) in ancestors - pending && !OnTheWay(roots, path)
      decreases |pending|
    {
      var directory :| directory in pending;
      denied := denied + set path | path in Entries(tree, directory) && !OnTheWay(roots, path);
      pending := pending - {directory};
    }
  }

  // ----- What the list means

  predicate BelowDenied(workspace: Path, roots: seq<Path>, tree: set<Path>, path: Path) {
    exists entry :: entry in tree && entry <= path && Denied(workspace, roots, tree, entry)
  }

  /** The writable roots that really lie in the workspace, by the prefix order. */
  predicate RootBelow(workspace: Path, writableRoots: seq<Path>, root: Path) {
    root in writableRoots && workspace <= root
  }

  /** Inside a writable root of the workspace, or a directory above one. */
  predicate OpenInWorkspace(workspace: Path, writableRoots: seq<Path>, path: Path) {
    exists root :: root in writableRoots && RootBelow(workspace, writableRoots, root) && (path <= root || root <= path)
  }

  /** Every listed entry above or inside a root of the workspace is plainly so for some kept root. */
  predicate EntriesPlain(workspace: Path, writableRoots: seq<Path>, tree: set<Path>) {
    var roots := InsideWorkspace(workspace, writableRoots);
    forall entry, root :: entry in tree && ListedEntry(workspace, roots, tree, entry) && root in writableRoots
                          && workspace <= root && Comparable(entry, root)
      ==> exists i :: 0 <= i < |roots| && PlainlyComparable(entry, roots[i])
  }

  predicate ExactDenyList(workspace: Path, writableRoots: seq<Path>, tree: set<Path>) {
    var roots := InsideWorkspace(workspace, writableRoots);
    forall path :: path in tree && workspace <= path ==>
      (BelowDenied(workspace, roots, tree, path) <==> !OpenInWorkspace(workspace, writableRoots, path))
  }

  /**
    With a write root in the workspace, the existing paths at or below a denied entry are
    exactly those neither inside a write root nor above one, if and only if no listed entry
    is cut off from all kept roots by names that start with two dots.
   */
  lemma DenyListExact(workspace: Path, writableRoots: seq<Path>, tree: set<Path>)
    requires TreeClosed(tree) && InsideWorkspace(workspace, writableRoots) != []
    ensures ExactDenyList(workspace, writableRoots, tree) <==> EntriesPlain(workspace, writableRoots, tree)
  {
    forall path | path in tree && workspace <= path && !OpenInWorkspace(workspace, writableRoots, path)
      ensures BelowDenied(workspace, InsideWorkspace(workspace, writableRoots), tree, path)
    {
      NothingMissed(workspace, writableRoots, tree, path);
    }
    if EntriesPlain(workspace, writableRoots, tree) {
      forall path | path in tree && BelowDenied(workspace, InsideWorkspace(workspace, writableRoots), tree, path)
        ensures !OpenInWorkspace(workspace, writableRoots, path)
      {
        OnlyClosedDenied(workspace, writableRoots, tree, path);
      }
    } else {
      CutOffEntryIsDenied(workspace, writableRoots, tree);
    }
  }

  lemma PlainIsOnTheWay(roots: seq<Path>, entry: Path)
    ensures OnTheWay(roots, entry) <==> exists i :: 0 <= i < |roots| && PlainlyComparable(entry, roots[i])
  {
    if OnTheWay(roots, entry) {
      var i :| 0 <= i < |roots| && (Within(entry, roots[i]) || Within(roots[i], entry));
      assert PlainlyComparable(entry, roots[i]);
    }
  }

  lemma CutOffEntryIsDenied(workspace: Path, writableRoots: seq<Path>, tree: set<Path>)
    requires !EntriesPlain(workspace, writableRoots, tree)
    ensures !ExactDenyList(workspace, writableRoots, tree)
  {
    var roots := InsideWorkspace(workspace, writableRoots);
    var entry, root :| entry in tree && ListedEntry(workspace, roots, tree, entry) && root in writableRoots
                       && workspace <= root && Comparable(entry, root)
                       && !exists i :: 0 <= i < |roots| && PlainlyComparable(entry, roots[i]);
    PlainIsOnTheWay(roots, entry);
    assert workspace <= Parent(entry) <= entry;
    assert RootBelow(workspace, writableRoots, root);
    assert BelowDenied(workspace, roots, tree, entry);
    assert OpenInWorkspace(workspace, writableRoots, entry);
  }

  predicate Followed(roots: seq<Path>, path: Path) {
    exists i :: 0 <= i < |roots| && path <= roots[i]
  }

  /** The longest prefix of `path` that some root still follows. */
  lemma LongestFollowed(roots: seq<Path>, path: Path, start: nat) returns (n: nat)
    requires start <= |path| && Followed(roots, path[..start])
    ensures start <= n <= |path| && Followed(roots, path[..n])
    ensures n < |path| ==> !Followed(roots, path[..n + 1])
  {
    n := start;
    while n < |path| && Followed(roots, path[..n + 1])
      invariant start <= n <= |path| && Followed(roots, path[..n])
    {
      n := n + 1;
    }
  }

  /** Whatever the names, no path outside the roots escapes the list. */
  lemma NothingMissed(workspace: Path, writableRoots: seq<Path>, tree: set<Path>, path: Path)
    requires TreeClosed(tree) && InsideWorkspace(workspace, writableRoots) != []
    requires path in tree && workspace <= path && !OpenInWorkspace(workspace, writableRoots, path)
    ensures BelowDenied(workspace, InsideWorkspace(workspace, writableRoots), tree, path)
  {
    var roots := InsideWorkspace(workspace, writableRoots);
    KeptRootsAreClosed(workspace, writableRoots, path);
    assert roots[0] in roots;
    var n, k := FirstForeign(workspace, roots, path);
    PrefixesExist(tree, path, n + 1);
    BranchIsDenied(workspace, roots, tree, path, n, k);
  }

  /** Where `path` leaves every root, and a root it followed that far. */
  lemma FirstForeign(workspace: Path, roots: seq<Path>, path: Path) returns (n: nat, k: nat)
    requires workspace <= path && roots != [] && Within(workspace, roots[0])
    requires forall i :: 0 <= i < |roots| ==> !(path <= roots[i]) && !(roots[i] <= path)
    ensures |workspace| <= n < |path| && k < |roots| && path[..n] < roots[k] && !Followed(roots, path[..n + 1])
  {
    WorkspaceIsFollowed(workspace, roots, path);
    n := LongestFollowed(roots, path, |workspace|);
    k := LeftBehind(roots, path, n);
  }

  lemma WorkspaceIsFollowed(workspace: Path, roots: seq<Path>, path: Path)
    requires workspace <= path && roots != [] && Within(workspace, roots[0])
    ensures Followed(roots, path[..|workspace|])
  {
  }

  lemma LeftBehind(roots: seq<Path>, path: Path, n: nat) returns (k: nat)
    requires n <= |path| && Followed(roots, path[..n])
    requires forall i :: 0 <= i < |roots| ==> !(path <= roots[i]) && !(roots[i] <= path)
    ensures n < |path| && k < |roots| && path[..n] < roots[k]
  {
    k :| 0 <= k < |roots| && path[..n] <= roots[k];
    assert path[..|path|] == path;
  }

  lemma KeptRootsAreClosed(workspace: Path, writableRoots: seq<Path>, path: Path)
    requires !OpenInWorkspace(workspace, writableRoots, path)
    ensures var roots := InsideWorkspace(workspace, writableRoots);
            forall i :: 0 <= i < |roots| ==> !(path <= roots[i]) && !(roots[i] <= path)
  {
    var roots := InsideWorkspace(workspace, writableRoots);
    forall i | 0 <= i < |roots| ensures !(path <= roots[i]) && !(roots[i] <= path) {
      assert roots[i] in roots && RootBelow(workspace, writableRoots, roots[i]);
    }
  }

  /** Where `path` leaves every root, its first foreign entry is denied. */
  lemma BranchIsDenied(workspace: Path, roots: seq<Path>, tree: set<Path>, path: Path, n: nat, k: nat)
    requires |workspace| <= n < |path| && workspace <= path && path[..n + 1] in tree
    requires k < |roots| && path[..n] < roots[k]
    requires !Followed(roots, path[..n + 1])
    requires forall i :: 0 <= i < |roots| ==> !(roots[i] <= path)
    ensures BelowDenied(workspace, roots, tree, path)
  {
  }

  lemma {:induction false} PrefixesExist(tree: set<Path>, path: Path, n: nat)
    requires TreeClosed(tree) && path in tree && n <= |path|
    ensures path[..n] in tree
    decreases |path|
  {
    if n == |path| {
      assert path[..n] == path;
    } else {
      PrefixesExist(tree, Parent(path), n);
      assert Parent(path)[..n] == path[..n];
    }
  }

  lemma OnlyClosedDenied(workspace: Path, writableRoots: seq<Path>, tree: set<Path>, path: Path)
    requires EntriesPlain(workspace, writableRoots, tree)
    requires path in tree && BelowDenied(workspace, InsideWorkspace(workspace, writableRoots), tree, path)
    ensures !OpenInWorkspace(workspace, writableRoots, path)
  {
    var roots := InsideWorkspace(workspace, writableRoots);
    var entry :| entry in tree && entry <= path && Denied(workspace, roots, tree, entry);
    PlainIsOnTheWay(roots, entry);
    forall root | root in writableRoots && RootBelow(workspace, writableRoots, root) ensures !Comparable(path, root) {
      assert Comparable(path, root) ==> Comparable(entry, root);
    }
  }

  predicate NoDottedNameBelow(workspace: Path, path: Path) {
    forall i :: |workspace| <= i < |path| ==> !DotDotLed(path[i])
  }

  predicate PlainBelow(workspace: Path, paths: seq<Path>) {
    forall i :: 0 <= i < |paths| && workspace <= paths[i] ==> NoDottedNameBelow(workspace, paths[i])
  }

  /** When no name below the workspace starts with two dots the list is exact for every scope. */
  lemma ExactWithoutDottedNames(workspace: Path, writableRoots: seq<Path>, tree: set<Path>)
    requires TreeClosed(tree) && InsideWorkspace(workspace, writableRoots) != []
    requires forall path :: path in tree ==> NoDottedNameBelow(workspace, path)
    requires PlainBelow(workspace, writableRoots)
    ensures ExactDenyList(workspace, writableRoots, tree)
  {
    var roots := InsideWorkspace(workspace, writableRoots);
    forall entry, root | entry in tree && ListedEntry(workspace, roots, tree, entry) && root in writableRoots
                         && workspace <= root && Comparable(entry, root)
      ensures exists i :: 0 <= i < |roots| && PlainlyComparable(entry, roots[i])
    {
      var k :| 0 <= k < |writableRoots| && writableRoots[k] == root;
      assert NoDottedNameBelow(workspace, writableRoots[k]) && NoDottedNameBelow(workspace, entry);
      assert root in roots;
      var i :| 0 <= i < |roots| && roots[i] == root;
      assert PlainlyComparable(entry, roots[i]);
    }
    DenyListExact(workspace, writableRoots, tree);
  }

  /** With such a name the list can deny the way to a write root itself: here `/w/a` for the root `/w/a/..b`. */
  lemma DottedRootIsDenied()
    ensures var tree: set<Path> := {[], ["w"], ["w", "a"], ["w", "a", "..b"]};
            && TreeClosed(tree) && InsideWorkspace(["w"], [["w", "a", "..b"]]) == [["w", "a", "..b"]]
            && Denied(["w"], [["w", "a", "..b"]], tree, ["w", "a"])
            && !ExactDenyList(["w"], [["w", "a", "..b"]], tree)
  {
    var tree: set<Path> := {[], ["w"], ["w", "a"], ["w", "a", "..b"]};
    var root: Path := ["w", "a", "..b"];
    assert "a"[0] == 'a';
    assert Within(["w"], root);
    assert InsideWorkspace(["w"], [root]) == [root];
    assert Parent(root) == ["w", "a"] && Parent(["w", "a"]) == ["w"] && Parent(["w"]) == [];
    assert root[2] == "..b" && DotDotLed("..b");
    assert [root][0] == root;
    assert Climbed(["w"], root, ["w"]);
    assert Listed(["w"], [root], ["w"]);
    assert !OnTheWay([root], ["w", "a"]);
    assert ["w", "a"] <= root;
    assert RootBelow(["w"], [root], root);
    assert OpenInWorkspace(["w"], [root], ["w", "a"]);
    assert BelowDenied(["w"], [root], tree, ["w", "a"]);
  }

  // ----- With the exclusions, as the Claude adapter hands it to the runtime

  /** What a write launch is denied: the siblings of its scope, if it has one, and its exclusions. */
  predicate ClaudeDenies(scope: Scope, privateMemory: Path, tree: set<Path>, path: Path) {
    || (scope.writeScope.Some?
        && Denied(scope.workspace, InsideWorkspace(scope.workspace, scope.writeScope.value + [privateMemory]), tree,
                  path))
    || (scope.excludeScope.Some? && path in scope.excludeScope.value)
  }

  method ClaudeDenyPaths(scope: Scope, privateMemory: Path, tree: set<Path>) returns (denied: set<Path>)
    ensures forall path :: path in denied <==> ClaudeDenies(scope, privateMemory, tree, path)
  {
    denied := {};
    if scope.writeScope.Some? {
      denied := WriteScopeDenyPaths(scope.workspace, scope.writeScope.value + [privateMemory], tree);
    }
    if scope.excludeScope.Some? {
      denied := denied + set path | path in scope.excludeScope.value;
    }
  }

  /** The runtime refuses every path at or below a denied one. */
  ghost predicate Refuses(scope: Scope, privateMemory: Path, tree: set<Path>, path: Path) {
    exists entry :: entry <= path && ClaudeDenies(scope, privateMemory, tree, entry)
  }

  /** A directory above an owned root. */
  predicate LeadsToOwned(scope: Scope, path: Path) {
    exists i :: 0 <= i < |OwnedRoots(scope)| && path < OwnedRoots(scope)[i]
  }

  predicate PlainScope(scope: Scope) {
    && PlainBelow(scope.workspace, OwnedRoots(scope))
    && (scope.excludeScope.Some? ==> PlainBelow(scope.workspace, scope.excludeScope.value))
  }

  predicate ExclusionsInside(scope: Scope) {
    scope.excludeScope.Some? ==>
      forall i :: 0 <= i < |scope.excludeScope.value| ==> Within(scope.workspace, scope.excludeScope.value[i])
  }

  /** The child should be able to write there: it owns the path, or has to pass it on the way to what it owns. */
  predicate Reachable(scope: Scope, path: Path) {
    OwnsOnDisk(scope, path) || (LeadsToOwned(scope, path) && !ExcludedOnDisk(scope, path))
  }

  /** Every listed entry at or above `path` is plainly comparable with some kept root. */
  predicate WayIsPlain(workspace: Path, writableRoots: seq<Path>, tree: set<Path>, path: Path) {
    var roots := InsideWorkspace(workspace, writableRoots);
    forall entry :: entry in tree && entry <= path && ListedEntry(workspace, roots, tree, entry) ==>
      exists i :: 0 <= i < |roots| && PlainlyComparable(entry, roots[i])
  }

  /**
    Any existing path of the workspace that private memory does not touch is refused exactly
    when the child should not reach it, if and only if it should not, or no listed entry on the
    way there is cut off from all kept roots by names that start with two dots.
   */
  lemma RefusedExactly(scope: Scope, privateMemory: Path, tree: set<Path>, path: Path)
    requires TreeClosed(tree) && RootsInside(scope) && OwnedRoots(scope) != []
    requires path in tree && scope.workspace <= path && !Comparable(path, privateMemory)
    ensures (Refuses(scope, privateMemory, tree, path) <==> !Reachable(scope, path)) <==>
              (scope.writeScope.Some? && Reachable(scope, path) ==>
                 WayIsPlain(scope.workspace, scope.writeScope.value + [privateMemory], tree, path))
  {
    RefusesEitherWay(scope, privateMemory, tree, path);
    if scope.writeScope.None? {
      assert OwnedRoots(scope)[0] <= path;
    } else if Reachable(scope, path) {
      PlainWayIsOpen(scope.workspace, scope.writeScope.value + [privateMemory], tree, path);
    } else if !ExcludedOnDisk(scope, path) {
      UnreachableIsDenied(scope, privateMemory, tree, path);
    }
  }

  lemma PlainWayIsOpen(workspace: Path, writableRoots: seq<Path>, tree: set<Path>, path: Path)
    ensures BelowDenied(workspace, InsideWorkspace(workspace, writableRoots), tree, path) <==>
              !WayIsPlain(workspace, writableRoots, tree, path)
  {
    var roots := InsideWorkspace(workspace, writableRoots);
    forall entry | entry in tree
      ensures OnTheWay(roots, entry) <==> exists i :: 0 <= i < |roots| && PlainlyComparable(entry, roots[i])
    {
      PlainIsOnTheWay(roots, entry);
    }
    if !WayIsPlain(workspace, writableRoots, tree, path) {
      var entry :| entry in tree && entry <= path && ListedEntry(workspace, roots, tree, entry)
                   && !exists i :: 0 <= i < |roots| && PlainlyComparable(entry, roots[i]);
      assert Denied(workspace, roots, tree, entry);
    }
  }

  lemma UnreachableIsDenied(scope: Scope, privateMemory: Path, tree: set<Path>, path: Path)
    requires TreeClosed(tree) && RootsInside(scope) && scope.writeScope.Some? && scope.writeScope.value != []
    requires path in tree && scope.workspace <= path && !Comparable(path, privateMemory)
    requires !Reachable(scope, path) && !ExcludedOnDisk(scope, path)
    ensures BelowDenied(scope.workspace, InsideWorkspace(scope.workspace, scope.writeScope.value + [privateMemory]),
                        tree, path)
  {
    var writable := scope.writeScope.value + [privateMemory];
    assert writable[0] == OwnedRoots(scope)[0] && writable[0] in InsideWorkspace(scope.workspace, writable);
    forall root | root in writable && RootBelow(scope.workspace, writable, root) ensures !Comparable(path, root) {
      if root != privateMemory {
        var i :| 0 <= i < |OwnedRoots(scope)| && OwnedRoots(scope)[i] == root;
      }
    }
    NothingMissed(scope.workspace, writable, tree, path);
  }

  /**
    On a tree without names that start with two dots, an existing path of the workspace that
    private memory does not touch is refused exactly when the assignment does not own it,
    except that the unexcluded directories on the way to an owned root stay open.
   */
  lemma RefusedOnPlainTrees(scope: Scope, privateMemory: Path, tree: set<Path>, path: Path)
    requires TreeClosed(tree) && RootsInside(scope) && OwnedRoots(scope) != [] && ExclusionsInside(scope)
    requires PlainScope(scope) && PlainBelow(scope.workspace, [privateMemory])
    requires forall existing :: existing in tree ==> NoDottedNameBelow(scope.workspace, existing)
    requires path in tree && scope.workspace <= path && !Comparable(path, privateMemory)
    ensures Refuses(scope, privateMemory, tree, path) <==>
              !OwnsPath(scope, path) && (LeadsToOwned(scope, path) ==> Excluded(scope.excludeScope, path))
  {
    RefusesEitherWay(scope, privateMemory, tree, path);
    CoveredInPlainTree(scope.workspace, OwnedRoots(scope), path);
    if scope.excludeScope.Some? { CoveredInPlainTree(scope.workspace, scope.excludeScope.value, path); }
    if scope.writeScope.Some? {
      SiblingsRefuse(scope, privateMemory, tree, path);
    } else {
      assert OwnedRoots(scope)[0] <= path;
    }
  }

  lemma CoveredInPlainTree(workspace: Path, roots: seq<Path>, path: Path)
    requires forall i :: 0 <= i < |roots| ==> Within(workspace, roots[i])
    requires NoDottedNameBelow(workspace, path)
    ensures Covered(roots, path) <==> exists i :: 0 <= i < |roots| && roots[i] <= path
  {
    forall i | 0 <= i < |roots| && roots[i] <= path ensures Within(roots[i], path) {}
  }

  lemma RefusesEitherWay(scope: Scope, privateMemory: Path, tree: set<Path>, path: Path)
    ensures Refuses(scope, privateMemory, tree, path) <==>
              || (scope.writeScope.Some?
                  && BelowDenied(scope.workspace,
                                 InsideWorkspace(scope.workspace, scope.writeScope.value + [privateMemory]),
                                 tree, path))
              || (scope.excludeScope.Some?
                  && exists i :: 0 <= i < |scope.excludeScope.value| && scope.excludeScope.value[i] <= path)
  {
    if scope.excludeScope.Some? {
      if i :| 0 <= i < |scope.excludeScope.value| && scope.excludeScope.value[i] <= path {
        assert ClaudeDenies(scope, privateMemory, tree, scope.excludeScope.value[i]);
      }
    }
    if scope.writeScope.Some? {
      var roots := InsideWorkspace(scope.workspace, scope.writeScope.value + [privateMemory]);
      if BelowDenied(scope.workspace, roots, tree, path) {
        var entry :| entry in tree && entry <= path && Denied(scope.workspace, roots, tree, entry);
        assert ClaudeDenies(scope, privateMemory, tree, entry);
      }
    }
  }

  lemma SiblingsRefuse(scope: Scope, privateMemory: Path, tree: set<Path>, path: Path)
    requires TreeClosed(tree) && RootsInside(scope) && scope.writeScope.Some? && scope.writeScope.value != []
    requires PlainScope(scope) && PlainBelow(scope.workspace, [privateMemory])
    requires forall existing :: existing in tree ==> NoDottedNameBelow(scope.workspace, existing)
    requires path in tree && scope.workspace <= path && !Comparable(path, privateMemory)
    ensures var roots := InsideWorkspace(scope.workspace, scope.writeScope.value + [privateMemory]);
            BelowDenied(scope.workspace, roots, tree, path) <==>
              forall i :: 0 <= i < |scope.writeScope.value| ==> !Comparable(path, scope.writeScope.value[i])
  {
    var writable := scope.writeScope.value + [privateMemory];
    assert writable[0] == OwnedRoots(scope)[0] && writable[0] in InsideWorkspace(scope.workspace, writable);
    assert forall i :: 0 <= i < |scope.writeScope.value| ==> writable[i] == OwnedRoots(scope)[i];
    assert writable[|scope.writeScope.value|] == [privateMemory][0];
    ExactWithoutDottedNames(scope.workspace, writable, tree);
    if i :| 0 <= i < |scope.writeScope.value| && Comparable(path, scope.writeScope.value[i]) {
      assert writable[i] in writable && RootBelow(scope.workspace, writable, writable[i]);
    }
  }
}
