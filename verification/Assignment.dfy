/**
  The assignment algebra (src/execution/assignment.ts): which paths a child may write, and
  where two assignments meet.
 */
module Assignment {
  import opened Wrappers
  import opened Paths

  datatype Scope = Scope(workspace: Path, writeScope: Option<seq<Path>>, excludeScope: Option<seq<Path>>)

  /** An undeclared scope stands for everything in the workspace. */
  function OwnedRoots(scope: Scope): seq<Path> {
    match scope.writeScope
    case Some(entries) => entries
    case None => [scope.workspace]
  }

  predicate Excluded(excludeScope: Option<seq<Path>>, path: Path) {
    excludeScope.Some? && Covered(excludeScope.value, path)
  }

  predicate OwnsPath(scope: Scope, path: Path) {
    Covered(OwnedRoots(scope), path) && !Excluded(scope.excludeScope, path)
  }

  /** What `PolicyEngine.decide` establishes for every scope it does not deny. */
  predicate RootsInside(scope: Scope) {
    forall i :: 0 <= i < |OwnedRoots(scope)| ==> Within(scope.workspace, OwnedRoots(scope)[i])
  }

  ghost predicate ShareAPath(left: Scope, right: Scope) {
    exists path :: OwnsPath(left, path) && OwnsPath(right, path)
  }

  predicate Nested(left: Scope, right: Scope) {
    Within(left.workspace, right.workspace) || Within(right.workspace, left.workspace)
  }

  /** The deeper of two roots when one lies within the other. */
  function Meeting(a: Path, b: Path): Option<Path> {
    if Within(a, b) then Some(b) else if Within(b, a) then Some(a) else None
  }

  /** The roots `a` and `b` meet, and neither side carved the meeting point out. */
  predicate Collide(left: Scope, right: Scope, a: Path, b: Path) {
    var shared := Meeting(a, b);
    shared.Some? && !Excluded(left.excludeScope, shared.value) && !Excluded(right.excludeScope, shared.value)
  }

  predicate Overlaps(left: Scope, right: Scope) {
    && Nested(left, right)
    && exists i, j :: 0 <= i < |OwnedRoots(left)| && 0 <= j < |OwnedRoots(right)|
                      && Collide(left, right, OwnedRoots(left)[i], OwnedRoots(right)[j])
  }

  /** `region` is where the first colliding pair of roots meets, scanning the roots of `left` first. */
  ghost predicate FirstMeeting(left: Scope, right: Scope, region: Path) {
    exists i, j :: 0 <= i < |OwnedRoots(left)| && 0 <= j < |OwnedRoots(right)|
                   && Meeting(OwnedRoots(left)[i], OwnedRoots(right)[j]) == Some(region)
                   && NoneBefore(left, right, i, j)
  }

  method SharedRegion(left: Scope, right: Scope) returns (region: Option<Path>)
    ensures region.Some? <==> Overlaps(left, right)
    ensures region.Some? ==> OwnsPath(left, region.value) && OwnsPath(right, region.value)
    // the first colliding pair in scan order decides which region is named
    ensures region.Some? ==> FirstMeeting(left, right, region.value)
  {
    if !Within(left.workspace, right.workspace) && !Within(right.workspace, left.workspace) {
      return None;
    }
    var ls, rs := OwnedRoots(left), OwnedRoots(right);
    for i := 0 to |ls|
      invariant NoneBefore(left, right, i, 0)
    {
      for j := 0 to |rs|
        invariant NoneBefore(left, right, i, j)
      {
        var shared := Meeting(ls[i], rs[j]);
        if shared.Some? && !Excluded(left.excludeScope, shared.value) && !Excluded(right.excludeScope, shared.value) {
          assert Collide(left, right, ls[i], rs[j]);
          MeetingIsBelowBoth(ls[i], rs[j]);
          return shared;
        }
      }
    }
    return None;
  }

  /** No pair scanned before position (i, j) collides. */
  ghost predicate NoneBefore(left: Scope, right: Scope, i: nat, j: nat) {
    forall k, l :: 0 <= k < |OwnedRoots(left)| && 0 <= l < |OwnedRoots(right)| && (k < i || (k == i && l < j))
      ==> !Collide(left, right, OwnedRoots(left)[k], OwnedRoots(right)[l])
  }

  lemma MeetingIsBelowBoth(a: Path, b: Path)
    requires Meeting(a, b).Some?
    ensures Within(a, Meeting(a, b).value) && Within(b, Meeting(a, b).value)
  {
  }

  /**
    The overlap test is exact: with every write root inside its workspace it finds a region
    if and only if some path is owned by both sides.
   */
  lemma OverlapExact(left: Scope, right: Scope)
    requires RootsInside(left) && RootsInside(right)
    ensures Overlaps(left, right) <==> ShareAPath(left, right)
  {
    OverlapExactWhateverTheRoots(left, right);
    if ShareAPath(left, right) {
      var path :| OwnsPath(left, path) && OwnsPath(right, path);
      CoveredInWorkspace(left, path);
      CoveredInWorkspace(right, path);
      WithinComparable(left.workspace, right.workspace, path);
    }
  }

  /** Without that discipline the only paths missed are those of unrelated workspaces. */
  lemma OverlapExactWhateverTheRoots(left: Scope, right: Scope)
    ensures Overlaps(left, right) <==> Nested(left, right) && ShareAPath(left, right)
  {
    if Overlaps(left, right) {
      var region := WitnessOfOverlap(left, right);
    }
    if Nested(left, right) && ShareAPath(left, right) {
      var path :| OwnsPath(left, path) && OwnsPath(right, path);
      var i :| 0 <= i < |OwnedRoots(left)| && Within(OwnedRoots(left)[i], path);
      var j :| 0 <= j < |OwnedRoots(right)| && Within(OwnedRoots(right)[j], path);
      var a, b := OwnedRoots(left)[i], OwnedRoots(right)[j];
      WithinComparable(a, b, path);
      NotExcludedAbove(left.excludeScope, Meeting(a, b).value, path);
      NotExcludedAbove(right.excludeScope, Meeting(a, b).value, path);
      assert Collide(left, right, a, b);
    }
  }

  lemma WitnessOfOverlap(left: Scope, right: Scope) returns (region: Path)
    requires Overlaps(left, right)
    ensures OwnsPath(left, region) && OwnsPath(right, region)
  {
    var i, j :| 0 <= i < |OwnedRoots(left)| && 0 <= j < |OwnedRoots(right)|
                && Collide(left, right, OwnedRoots(left)[i], OwnedRoots(right)[j]);
    region := Meeting(OwnedRoots(left)[i], OwnedRoots(right)[j]).value;
    MeetingIsBelowBoth(OwnedRoots(left)[i], OwnedRoots(right)[j]);
  }

  lemma NotExcludedAbove(excludeScope: Option<seq<Path>>, upper: Path, path: Path)
    requires Within(upper, path) && !Excluded(excludeScope, path)
    ensures !Excluded(excludeScope, upper)
  {
  }

  lemma CoveredInWorkspace(scope: Scope, path: Path)
    requires RootsInside(scope) && Covered(OwnedRoots(scope), path)
    ensures Within(scope.workspace, path)
  {
  }

  // ----- Ownership on disk

  predicate ExcludedOnDisk(scope: Scope, path: Path) {
    scope.excludeScope.Some? && Under(scope.excludeScope.value, path)
  }

  /** In a subtree the scope names and in none it carves out, whatever the names on the way. */
  predicate OwnsOnDisk(scope: Scope, path: Path) {
    Under(OwnedRoots(scope), path) && !ExcludedOnDisk(scope, path)
  }

  ghost predicate ShareOnDisk(left: Scope, right: Scope) {
    exists path :: OwnsOnDisk(left, path) && OwnsOnDisk(right, path)
  }

  /** One root lies inside the other, and both sides own the deeper one. */
  predicate MeetOnDisk(left: Scope, right: Scope, a: Path, b: Path) {
    Comparable(a, b) && !ExcludedOnDisk(left, Deeper(a, b)) && !ExcludedOnDisk(right, Deeper(a, b))
  }

  predicate RootsMeetOnDisk(left: Scope, right: Scope) {
    exists i, j :: 0 <= i < |OwnedRoots(left)| && 0 <= j < |OwnedRoots(right)|
                   && MeetOnDisk(left, right, OwnedRoots(left)[i], OwnedRoots(right)[j])
  }

  /** Two scopes have a path in common exactly when two of their roots meet. */
  lemma ShareOnDiskExactly(left: Scope, right: Scope)
    ensures ShareOnDisk(left, right) <==> RootsMeetOnDisk(left, right)
  {
    if ShareOnDisk(left, right) {
      var path :| OwnsOnDisk(left, path) && OwnsOnDisk(right, path);
      var i :| 0 <= i < |OwnedRoots(left)| && OwnedRoots(left)[i] <= path;
      var j :| 0 <= j < |OwnedRoots(right)| && OwnedRoots(right)[j] <= path;
      assert MeetOnDisk(left, right, OwnedRoots(left)[i], OwnedRoots(right)[j]);
    }
    if RootsMeetOnDisk(left, right) {
      var i, j :| 0 <= i < |OwnedRoots(left)| && 0 <= j < |OwnedRoots(right)|
                  && MeetOnDisk(left, right, OwnedRoots(left)[i], OwnedRoots(right)[j]);
      var region := Deeper(OwnedRoots(left)[i], OwnedRoots(right)[j]);
      assert OwnsOnDisk(left, region) && OwnsOnDisk(right, region);
    }
  }

  /**
    Roots meet, and the overlap test does not see it: the workspaces are not plainly nested, or
    every plainly comparable pair of roots has its deeper root carved out.
   */
  predicate Missed(left: Scope, right: Scope) {
    && RootsMeetOnDisk(left, right)
    && (!PlainlyComparable(left.workspace, right.workspace)
        || forall i, j :: 0 <= i < |OwnedRoots(left)| && 0 <= j < |OwnedRoots(right)|
                          && PlainlyComparable(OwnedRoots(left)[i], OwnedRoots(right)[j]) ==>
             var deeper := Deeper(OwnedRoots(left)[i], OwnedRoots(right)[j]);
             Excluded(left.excludeScope, deeper) || Excluded(right.excludeScope, deeper))
  }

  /** The overlap test passes over a shared path exactly then. */
  lemma OverlapMissesExactly(left: Scope, right: Scope)
    ensures ShareOnDisk(left, right) && !Overlaps(left, right) <==> Missed(left, right)
  {
    ShareOnDiskExactly(left, right);
    PlainlyIsWithin(left.workspace, right.workspace);
    forall i, j | 0 <= i < |OwnedRoots(left)| && 0 <= j < |OwnedRoots(right)|
      ensures var a, b := OwnedRoots(left)[i], OwnedRoots(right)[j];
              && (Meeting(a, b).Some? <==> PlainlyComparable(a, b))
              && (Meeting(a, b).Some? ==> Meeting(a, b).value == Deeper(a, b))
    {
      PlainlyIsWithin(OwnedRoots(left)[i], OwnedRoots(right)[j]);
    }
  }

  predicate PlainNames(path: Path) {
    forall i :: 0 <= i < |path| ==> !DotDotLed(path[i])
  }

  /** The roots of the scope hold no name that starts with two dots. */
  predicate PlainRoots(scope: Scope) {
    PlainNames(scope.workspace) && forall i :: 0 <= i < |OwnedRoots(scope)| ==> PlainNames(OwnedRoots(scope)[i])
  }

  /** Between scopes with plain roots nothing is missed. */
  lemma PlainRootsAreNotMissed(left: Scope, right: Scope)
    requires RootsInside(left) && RootsInside(right) && PlainRoots(left) && PlainRoots(right)
    ensures !Missed(left, right)
  {
    if RootsMeetOnDisk(left, right) {
      var i, j :| 0 <= i < |OwnedRoots(left)| && 0 <= j < |OwnedRoots(right)|
                  && MeetOnDisk(left, right, OwnedRoots(left)[i], OwnedRoots(right)[j]);
      var a, b := OwnedRoots(left)[i], OwnedRoots(right)[j];
      assert left.workspace <= a && right.workspace <= b;
      assert PlainNames(a) && PlainNames(b);
      assert PlainlyComparable(a, b);
      assert PlainlyComparable(left.workspace, right.workspace);
      assert !Excluded(left.excludeScope, Deeper(a, b)) && !Excluded(right.excludeScope, Deeper(a, b));
    }
  }

  /** Two siblings of which one lies inside the other: the test does not see it. */
  lemma DottedSiblingIsMissed()
    ensures var left, right := Scope(["w"], Some([["w", "a"]]), None), Scope(["w"], Some([["w", "a", "..x"]]), None);
            && RootsInside(left) && RootsInside(right) && !Overlaps(left, right) && ShareOnDisk(left, right)
  {
    var left, right := Scope(["w"], Some([["w", "a"]]), None), Scope(["w"], Some([["w", "a", "..x"]]), None);
    assert "a"[0] == 'a' && DotDotLed("..x");
    assert OwnedRoots(left)[0] == ["w", "a"] && OwnedRoots(right)[0] == ["w", "a", "..x"];
    assert ["w", "a"] <= ["w", "a", "..x"];
    assert MeetOnDisk(left, right, OwnedRoots(left)[0], OwnedRoots(right)[0]);
    ShareOnDiskExactly(left, right);
    assert !PlainlyComparable(OwnedRoots(left)[0], OwnedRoots(right)[0]);
    OverlapMissesExactly(left, right);
  }

  /** Every path of the list above `path` is followed by a name that starts with two dots. */
  predicate CutOff(roots: seq<Path>, path: Path) {
    Under(roots, path) && forall i :: 0 <= i < |roots| && roots[i] <= path ==> !PlainlyComparable(roots[i], path)
  }

  /**
    `ownsPath` and ownership on disk part on a path exactly when it is owned on disk but cut
    off from every owned root, or owned by the test but cut off from every exclusion above it.
   */
  lemma OwnershipPartsExactly(scope: Scope, path: Path)
    ensures (OwnsPath(scope, path) <==> OwnsOnDisk(scope, path)) <==>
              && !(OwnsOnDisk(scope, path) && CutOff(OwnedRoots(scope), path))
              && !(OwnsPath(scope, path) && scope.excludeScope.Some? && CutOff(scope.excludeScope.value, path))
  {
    CutOffExactly(OwnedRoots(scope), path);
    if scope.excludeScope.Some? { CutOffExactly(scope.excludeScope.value, path); }
  }

  /** A path behind a dotted name in an excluded subtree still counts as owned. */
  lemma DottedExclusionLeaks()
    ensures var scope := Scope(["w"], None, Some([["w", "a"]]));
            OwnsPath(scope, ["w", "a", "..b"]) && !OwnsOnDisk(scope, ["w", "a", "..b"])
  {
    var scope := Scope(["w"], None, Some([["w", "a"]]));
    assert "a"[0] == 'a' && DotDotLed("..b");
    assert OwnedRoots(scope)[0] == ["w"] && ["w"] <= ["w", "a", "..b"];
    assert scope.excludeScope.value[0] == ["w", "a"] && ["w", "a"] <= ["w", "a", "..b"];
    assert ["w", "a", "..b"][1] == "a" && ["w", "a", "..b"][2] == "..b";
  }

  lemma CutOffExactly(roots: seq<Path>, path: Path)
    ensures CutOff(roots, path) <==> Under(roots, path) && !Covered(roots, path)
    ensures Covered(roots, path) ==> Under(roots, path)
  {
    forall i | 0 <= i < |roots|
      ensures Within(roots[i], path) <==> roots[i] <= path && PlainlyComparable(roots[i], path)
    {}
    if Under(roots, path) && !CutOff(roots, path) {
      var i :| 0 <= i < |roots| && roots[i] <= path && PlainlyComparable(roots[i], path);
      assert Within(roots[i], path);
    }
  }

  // ----- Two readings

  /** Which paths lie at or below a root: as the code's test reads them, or as they lie on disk. */
  datatype Reading = ByTest | OnDisk

  predicate Above(reading: Reading, root: Path, path: Path) {
    match reading
    case ByTest => Within(root, path)
    case OnDisk => root <= path
  }

  predicate InRoots(reading: Reading, roots: seq<Path>, path: Path) {
    exists i :: 0 <= i < |roots| && Above(reading, roots[i], path)
  }

  predicate CarvedOut(reading: Reading, scope: Scope, path: Path) {
    scope.excludeScope.Some? && InRoots(reading, scope.excludeScope.value, path)
  }

  predicate Owns(reading: Reading, scope: Scope, path: Path) {
    InRoots(reading, OwnedRoots(scope), path) && !CarvedOut(reading, scope, path)
  }

  ghost predicate Share(reading: Reading, left: Scope, right: Scope) {
    match reading
    case ByTest => ShareAPath(left, right)
    case OnDisk => ShareOnDisk(left, right)
  }

  /** The readings are the two notions of ownership above. */
  lemma ReadingsAgree(scope: Scope, path: Path)
    ensures InRoots(ByTest, OwnedRoots(scope), path) <==> Covered(OwnedRoots(scope), path)
    ensures InRoots(OnDisk, OwnedRoots(scope), path) <==> Under(OwnedRoots(scope), path)
    ensures Owns(ByTest, scope, path) <==> OwnsPath(scope, path)
    ensures Owns(OnDisk, scope, path) <==> OwnsOnDisk(scope, path)
  {
    ListsAgree(OwnedRoots(scope), path);
    if scope.excludeScope.Some? { ListsAgree(scope.excludeScope.value, path); }
  }

  lemma ListsAgree(roots: seq<Path>, path: Path)
    ensures InRoots(ByTest, roots, path) <==> Covered(roots, path)
    ensures InRoots(OnDisk, roots, path) <==> Under(roots, path)
  {
    forall i | 0 <= i < |roots|
      ensures Above(ByTest, roots[i], path) <==> Within(roots[i], path)
      ensures Above(OnDisk, roots[i], path) <==> roots[i] <= path
    {}
  }

  // ----- One scope inside another

  /** Wherever a root of `child` meets something `parent` carved out, `child` carved the meeting point out too. */
  predicate KeepsExclusions(reading: Reading, parent: Scope, child: Scope) {
    parent.excludeScope.Some? ==>
      forall i, k :: 0 <= i < |OwnedRoots(child)| && 0 <= k < |parent.excludeScope.value| ==>
        KeepsExclusion(reading, child, OwnedRoots(child)[i], parent.excludeScope.value[k])
  }

  predicate KeepsExclusion(reading: Reading, child: Scope, root: Path, exclusion: Path) {
    Above(reading, root, exclusion) || Above(reading, exclusion, root) ==>
      CarvedOut(reading, child, Deeper(root, exclusion))
  }

  ghost predicate RootsWithin(reading: Reading, parent: Scope, child: Scope) {
    forall path :: InRoots(reading, OwnedRoots(child), path) ==> InRoots(reading, OwnedRoots(parent), path)
  }

  ghost predicate OwnsOnlyWhat(reading: Reading, parent: Scope, child: Scope) {
    forall path :: Owns(reading, child, path) ==> Owns(reading, parent, path)
  }

  /**
    In either reading: among scopes whose roots are nested, the child owns only what the parent
    owns exactly when it keeps the exclusions.
   */
  lemma OwnsOnlyExactly(reading: Reading, parent: Scope, child: Scope)
    requires RootsWithin(reading, parent, child)
    ensures OwnsOnlyWhat(reading, parent, child) <==> KeepsExclusions(reading, parent, child)
  {
    if OwnsOnlyWhat(reading, parent, child) && parent.excludeScope.Some? {
      forall i, k | 0 <= i < |OwnedRoots(child)| && 0 <= k < |parent.excludeScope.value|
        ensures KeepsExclusion(reading, child, OwnedRoots(child)[i], parent.excludeScope.value[k])
      {
        var root, exclusion := OwnedRoots(child)[i], parent.excludeScope.value[k];
        var deeper := Deeper(root, exclusion);
        if Above(reading, root, exclusion) || Above(reading, exclusion, root) {
          assert Above(reading, root, deeper) && Above(reading, exclusion, deeper);
          assert CarvedOut(reading, parent, deeper) && InRoots(reading, OwnedRoots(child), deeper);
          assert !Owns(reading, parent, deeper);
          assert !Owns(reading, child, deeper);
        }
      }
    }
    if KeepsExclusions(reading, parent, child) {
      forall path | Owns(reading, child, path) ensures Owns(reading, parent, path) {
        KeptExclusionsHold(reading, parent, child, path);
      }
    }
  }

  lemma KeptExclusionsHold(reading: Reading, parent: Scope, child: Scope, path: Path)
    requires KeepsExclusions(reading, parent, child) && Owns(reading, child, path)
    ensures !CarvedOut(reading, parent, path)
  {
    var i :| 0 <= i < |OwnedRoots(child)| && Above(reading, OwnedRoots(child)[i], path);
    if parent.excludeScope.Some? {
      forall k | 0 <= k < |parent.excludeScope.value| ensures !Above(reading, parent.excludeScope.value[k], path) {
        KeptExclusionHolds(reading, child, OwnedRoots(child)[i], parent.excludeScope.value[k], path);
      }
    }
  }

  lemma KeptExclusionHolds(reading: Reading, child: Scope, root: Path, exclusion: Path, path: Path)
    requires KeepsExclusion(reading, child, root, exclusion)
    requires Above(reading, root, path) && !CarvedOut(reading, child, path)
    ensures !Above(reading, exclusion, path)
  {
  }
}
