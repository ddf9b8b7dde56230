/**
  The tree order on canonical absolute paths (src/policy/workspace-policy.ts).

  A canonical path is the sequence of names below the file-system root. The program tests
  `within` on the string that Node's `relative` returns; `WithinIsTheSourceTest` shows that,
  on canonical names, that string test is the order used in every other module.
 */
module Paths {
  import opened Lists

  type Name = string
  type Path = seq<Name>

  predicate DotDotLed(name: Name) {
    ".." <= name
  }

  /** A prefix of `target`, with no two dots at the start of the name that follows it. */
  predicate Within(root: Path, target: Path) {
    root <= target && (|root| == |target| || !DotDotLed(target[|root|]))
  }

  /** Some root of the list has `path` within it. */
  predicate Covered(roots: seq<Path>, path: Path) {
    exists i :: 0 <= i < |roots| && Within(roots[i], path)
  }

  // ----- The string form the program computes

  predicate CanonicalName(name: Name) {
    name != "" && '/' !in name
  }

  predicate Canonical(path: Path) {
    forall i :: 0 <= i < |path| ==> CanonicalName(path[i])
  }

  function CommonLength(a: Path, b: Path): (k: nat)
    ensures k <= |a| && k <= |b|
    ensures a[..k] == b[..k]
    ensures k < |a| && k < |b| ==> a[k] != b[k]
  {
    if a != [] && b != [] && a[0] == b[0] then
      var k := CommonLength(a[1..], b[1..]);
      assert a[..k + 1] == [a[0]] + a[1..][..k] && b[..k + 1] == [b[0]] + b[1..][..k];
      k + 1
    else 0
  }

  /** `path.relative`: climb out of `root`, then descend to `target`. */
  function Relative(root: Path, target: Path): string {
    var k := CommonLength(root, target);
    Join(seq(|root| - k, _ => "..") + target[k..], "/")
  }

  /** Where the steps lead from `path`: up, down, or nowhere. */
  function Follow(path: Path, steps: seq<string>): Path
    decreases |steps|
  {
    if steps == [] then path
    else
      var next :=
        if steps[0] == "" then path
        else if steps[0] == ".." then (if path == [] then [] else path[..|path| - 1])
        else path + [steps[0]];
      Follow(next, steps[1..])
  }

  lemma {:induction false} ClimbsOut(path: Path, n: nat, down: seq<string>)
    requires n <= |path|
    ensures Follow(path, seq(n, _ => "..") + down) == Follow(path[..|path| - n], down)
    decreases n
  {
    if n == 0 {
      assert seq(n, _ => "..") + down == down && path[..|path|] == path;
    } else {
      var steps := seq(n, _ => "..") + down;
      assert steps[0] == ".." && steps[1..] == seq(n - 1, _ => "..") + down;
      ClimbsOut(path[..|path| - 1], n - 1, down);
      assert path[..|path| - 1][..|path| - n] == path[..|path| - n];
    }
  }

  lemma {:induction false} Descends(path: Path, down: Path)
    requires Canonical(down) && ".." !in down
    ensures Follow(path, down) == path + down
    decreases |down|
  {
    if down != [] {
      assert CanonicalName(down[0]);
      Descends(path + [down[0]], down[1..]);
      assert down[0] in down;
      assert path + down == path + [down[0]] + down[1..];
    }
  }

  /** The relation is the way from `root` to `target`. */
  lemma RelativeLeads(root: Path, target: Path)
    requires Canonical(root) && Canonical(target) && ".." !in target
    ensures Follow(root, Split(Relative(root, target), '/')) == target
  {
    var k := CommonLength(root, target);
    var down := target[k..];
    ClimbsOut(root, |root| - k, down);
    Descends(root[..k], down);
    assert root[..k] + down == target;
    StepsReadBack(|root| - k, down);
    if |root| == k && down == [] { assert Follow(root, [""]) == Follow(root, []); }
  }

  lemma StepsReadBack(n: nat, down: Path)
    requires Canonical(down)
    ensures var steps := seq(n, _ => "..") + down;
            Split(Join(steps, "/"), '/') == if steps == [] then [""] else steps
  {
    var steps := seq(n, _ => "..") + down;
    if steps != [] {
      forall i | 0 <= i < |steps| ensures '/' !in steps[i] {
        if i >= n { assert CanonicalName(down[i - n]); }
      }
      SplitJoin(steps, '/');
    }
  }

  predicate IsAbsolute(relation: string) {
    "/" <= relation
  }

  predicate SourceWithin(root: Path, target: Path) {
    var relation := Relative(root, target);
    relation == "" || (!(".." <= relation) && !IsAbsolute(relation))
  }

  lemma JoinHead(segments: seq<string>)
    requires segments != [] && CanonicalName(segments[0])
    ensures Join(segments, "/") != "" && !IsAbsolute(Join(segments, "/"))
    ensures ".." <= Join(segments, "/") <==> DotDotLed(segments[0])
  {
    var head, joined := segments[0], Join(segments, "/");
    assert joined[0] == head[0] == segments[0][0];
    if |segments| > 1 {
      assert joined == head + ("/" + Join(segments[1..], "/"));
      assert |head| == 1 ==> joined[1] == '/';
      assert |head| >= 2 ==> joined[1] == head[1];
    }
    assert ".." <= joined <==> |joined| >= 2 && joined[0] == '.' && joined[1] == '.';
    assert ".." <= head <==> |head| >= 2 && head[0] == '.' && head[1] == '.';
  }

  lemma WithinIsTheSourceTest(root: Path, target: Path)
    requires Canonical(root) && Canonical(target)
    ensures SourceWithin(root, target) <==> Within(root, target)
  {
    var k := CommonLength(root, target);
    var segments := seq(|root| - k, _ => "..") + target[k..];
    if k < |root| {
      assert segments[0] == "..";
      JoinHead(segments);
    } else {
      assert root == root[..k] == target[..k];
      assert segments == target[k..];
      if segments != [] {
        assert segments[0] == target[k];
        JoinHead(segments);
      }
    }
  }

  // ----- The order laws everything else rests on

  lemma WithinTransitive(a: Path, b: Path, c: Path)
    requires Within(a, b) && Within(b, c)
    ensures Within(a, c)
  {
  }

  /** Two roots of one path are nested one way or the other. */
  lemma WithinComparable(a: Path, b: Path, path: Path)
    requires Within(a, path) && Within(b, path)
    ensures Within(a, b) || Within(b, a)
  {
  }

  lemma CoveredBelow(roots: seq<Path>, a: Path, b: Path)
    requires Covered(roots, a) && Within(a, b)
    ensures Covered(roots, b)
  {
  }

  // ----- Subtrees on disk

  /** Some path of the list is `path`, or a directory it lies in, whatever the names. */
  predicate Under(roots: seq<Path>, path: Path) {
    exists i :: 0 <= i < |roots| && roots[i] <= path
  }

  predicate Comparable(a: Path, b: Path) {
    a <= b || b <= a
  }

  function Deeper(a: Path, b: Path): Path {
    if |a| <= |b| then b else a
  }

  /** One path lies above the other, and the name that leads down from the shorter one does not start with two dots. */
  predicate PlainlyComparable(a: Path, b: Path) {
    var (upper, lower) := if |a| <= |b| then (a, b) else (b, a);
    upper <= lower && (|upper| < |lower| ==> !DotDotLed(lower[|upper|]))
  }

  /** No path of one list is told apart from one of the other by a name that starts with two dots. */
  predicate PairsPlain(roots: seq<Path>, others: seq<Path>) {
    forall i, j :: 0 <= i < |roots| && 0 <= j < |others| && Comparable(roots[i], others[j]) ==>
      PlainlyComparable(roots[i], others[j])
  }

  /** `within` sees exactly the plainly comparable pairs. */
  lemma PlainlyIsWithin(a: Path, b: Path)
    ensures PlainlyComparable(a, b) <==> Within(a, b) || Within(b, a)
  {
  }

  /** Two lists of subtrees have no path in common exactly when no two of their roots are comparable. */
  lemma ApartExactly(roots: seq<Path>, others: seq<Path>)
    ensures (forall path :: Under(roots, path) ==> !Under(others, path)) <==>
              forall i, j :: 0 <= i < |roots| && 0 <= j < |others| ==> !Comparable(roots[i], others[j])
  {
    if i, j :| 0 <= i < |roots| && 0 <= j < |others| && Comparable(roots[i], others[j]) {
      assert Under(roots, Deeper(roots[i], others[j])) && Under(others, Deeper(roots[i], others[j]));
    }
  }
}
