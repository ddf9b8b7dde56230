/**
  Switching an installation to a new version (src/install/update.ts): the `current` pointer,
  the version roots beside it, and the roll-back when a later step fails. Any step may fail,
  and removing a stale root may stop half-way; the roll-back itself and the removal of the
  staging directory succeed.
 */
module Update {
  import opened Wrappers

  /** What a version root holds, as far as validation looks. */
  datatype Contents = Contents(version: string, target: string, smokeOutput: string)

  /** Where `current` points: a directory under `versions`, or anywhere else. */
  datatype Root = VersionDir(name: string) | Elsewhere(path: string)

  datatype Step =
    | MakeStaging | Extract | Smoked | MakeVersions | Install | Installed
    | Symlink | SwitchPointer | PointerSwitched | Bootstrap | StateReady | Prune(name: string)

  datatype Result = Updated(previous: Option<Root>) | Failed

  function FinalName(version: string): string {
    "v" + version
  }

  /** `readInstallManifest`, the target comparison and the smoke run of `--version`. */
  predicate ValidRoot(root: Contents, version: string, target: string) {
    root.version == version && root.target == target && root.smokeOutput == "alp " + version
  }

  predicate Digits(s: string) {
    s != "" && forall i :: 0 <= i < |s| ==> '0' <= s[i] <= '9'
  }

  /** The names pruning looks at: `v`, then three runs of digits separated by dots. */
  predicate IsVersionName(name: string) {
    exists i, j :: 0 < i < j < |name| && name[0] == 'v' && name[i] == '.' && name[j] == '.'
                   && Digits(name[1..i]) && Digits(name[i + 1..j]) && Digits(name[j + 1..])
  }

  /** A run of decimal digits. */
  predicate Numeral(s: string) {
    s != "" && forall c :: c in s ==> c in DIGITS
  }

  lemma DigitsExactly(s: string)
    ensures Digits(s) <==> Numeral(s)
  {
    forall i | 0 <= i < |s| && '0' <= s[i] <= '9' ensures s[i] in DIGITS {
      assert s[i] == DIGITS[s[i] as int - '0' as int];
    }
    if Numeral(s) {
      forall i | 0 <= i < |s| ensures '0' <= s[i] <= '9' { assert s[i] in s; }
    }
  }

  predicate Spells(name: string, major: string, minor: string, patch: string) {
    Numeral(major) && Numeral(minor) && Numeral(patch) && name == "v" + major + "." + minor + "." + patch
  }

  /** Those are exactly the names `v<major>.<minor>.<patch>`. */
  lemma VersionNameExactly(name: string)
    ensures IsVersionName(name) <==> exists major, minor, patch :: Spells(name, major, minor, patch)
  {
    if IsVersionName(name) {
      var major, minor, patch := VersionNameIsSpelled(name);
    }
    if major, minor, patch :| Spells(name, major, minor, patch) { SpelledIsVersionName(name, major, minor, patch); }
  }

  lemma VersionNameIsSpelled(name: string) returns (major: string, minor: string, patch: string)
    requires IsVersionName(name)
    ensures Spells(name, major, minor, patch)
  {
    var i, j :| 0 < i < j < |name| && name[0] == 'v' && name[i] == '.' && name[j] == '.'
        && Digits(name[1..i]) && Digits(name[i + 1..j]) && Digits(name[j + 1..]);
    major, minor, patch := name[1..i], name[i + 1..j], name[j + 1..];
    DigitsExactly(major);
    DigitsExactly(minor);
    DigitsExactly(patch);
    CutAtDots(name, i, j);
  }

  lemma CutAtDots(name: string, i: nat, j: nat)
    requires 0 < i < j < |name| && name[0] == 'v' && name[i] == '.' && name[j] == '.'
    ensures name == "v" + name[1..i] + "." + name[i + 1..j] + "." + name[j + 1..]
  {
    assert name == name[..1] + name[1..i] + name[i..i + 1] + name[i + 1..j] + name[j..j + 1] + name[j + 1..];
  }

  lemma SpelledIsVersionName(name: string, major: string, minor: string, patch: string)
    requires Spells(name, major, minor, patch)
    ensures IsVersionName(name)
  {
    var i, j := 1 + |major|, 2 + |major| + |minor|;
    DigitsExactly(major);
    DigitsExactly(minor);
    DigitsExactly(patch);
    assert name[0] == 'v' && name[i] == '.' && name[j] == '.';
    assert name[1..i] == major && name[i + 1..j] == minor && name[j + 1..] == patch;
  }

  lemma {:induction false} DecimalIsNumeral(n: nat)
    ensures Numeral(Decimal(n))
  {
    if n >= 10 { DecimalIsNumeral(n / 10); }
    assert DIGITS[n % 10] in DIGITS;
  }

  lemma SpelledVersion(major: string, minor: string, patch: string)
    requires Numeral(major) && Numeral(minor) && Numeral(patch)
    ensures IsVersionName(FinalName(major + "." + minor + "." + patch))
  {
    var name := FinalName(major + "." + minor + "." + patch);
    assert name == "v" + major + "." + minor + "." + patch;
    SpelledIsVersionName(name, major, minor, patch);
  }

  /** Every numbered version is installed under such a name, so a later update may prune it. */
  lemma NumberedVersionsArePrunable(major: nat, minor: nat, patch: nat)
    ensures IsVersionName(FinalName(Decimal(major) + "." + Decimal(minor) + "." + Decimal(patch)))
  {
    DecimalIsNumeral(major);
    DecimalIsNumeral(minor);
    DecimalIsNumeral(patch);
    SpelledVersion(Decimal(major), Decimal(minor), Decimal(patch));
  }

  datatype Home = Home(versions: map<string, Contents>, current: Option<Root>)

  predicate PointsAt(home: Home, name: string) {
    home.current == Some(VersionDir(name))
  }

  /** What one attempt to update may do to a home. */
  predicate Outcome(before: Home, after: Home, version: string, target: string, result: Result) {
    var final := FinalName(version);
    // success: `current` names a validated root, and exactly the stale version roots are gone
    && (result.Updated? ==>
          && result.previous == before.current && PointsAt(after, final)
          && final in after.versions && ValidRoot(after.versions[final], version, target)
          && forall name :: name in before.versions.Keys + after.versions.Keys ==>
               (name in after.versions <==>
                  name == final || (name in before.versions && (!IsVersionName(name) || PointsAt(before, name)))))
    // failure, after whichever step: `current` is what it was
    && (result.Failed? ==> after.current == before.current)
    // either way the previous root and the new one survive, and only a stale root can be left damaged
    && (forall name ::
          name in before.versions && (PointsAt(before, name) || name == final || !IsVersionName(name)) ==>
            name in after.versions)
    && RootsUnaltered(before, after.versions, version, target)
    && (result.Updated? ==> forall name :: name in before.versions && name in after.versions ==>
          after.versions[name] == before.versions[name])
  }

  /** A version root that pruning may remove. */
  predicate Stale(home: Home, name: string, final: string) {
    IsVersionName(name) && name != final && !PointsAt(home, name)
  }

  /** Roots that are kept are as they were; the only root that can appear is the validated new one. */
  predicate RootsUnaltered(before: Home, after: map<string, Contents>, version: string, target: string) {
    forall name :: name in after ==>
      if name in before.versions then Stale(before, name, FinalName(version)) || after[name] == before.versions[name]
      else name == FinalName(version) && ValidRoot(after[name], version, target)
  }

  /** The contents of a root that runs as `version` on `target`. */
  function Sound(version: string, target: string): Contents {
    Contents(version, target, "alp " + version)
  }

  /** The new root gets its place: it is sound, and so is one that is already there. */
  predicate Installs(before: Home, version: string, target: string, archive: Contents, fails: Step -> bool) {
    && archive == Sound(version, target)
    && !fails(MakeStaging) && !fails(Extract) && !fails(Smoked) && !fails(MakeVersions)
    && (if ("v" + version) in before.versions then before.versions["v" + version] == archive else !fails(Install))
  }

  /** The attempt comes as far as pruning. */
  predicate ReachesPruning(before: Home, version: string, target: string, archive: Contents, fails: Step -> bool) {
    && Installs(before, version, target, archive, fails) && !fails(Installed) && !fails(Symlink)
    && !fails(SwitchPointer) && !fails(PointerSwitched) && !fails(Bootstrap) && !fails(StateReady)
  }

  /** Every root that is to go can be removed. */
  predicate Removable(roots: map<string, Contents>, keep: set<string>, fails: Step -> bool) {
    forall name :: name in roots && IsVersionName(name) && name !in keep ==> !fails(Prune(name))
  }

  /** Pruning stopped at `name`: that root is damaged, and every other one is unaltered or was removable and is gone. */
  predicate StoppedAt(before: map<string, Contents>, after: map<string, Contents>, keep: set<string>,
                      fails: Step -> bool, damage: string -> Contents, name: string)
  {
    && name in before && IsVersionName(name) && name !in keep && fails(Prune(name))
    && name in after && after[name] == damage(name)
    && (forall other :: other in after && other != name ==> other in before && after[other] == before[other])
    && (forall other :: other in before && other !in after ==>
          IsVersionName(other) && other !in keep && !fails(Prune(other)))
  }

  /** The roots that are left when all that are to go are gone. */
  function PrunedOf(roots: map<string, Contents>, keep: set<string>): map<string, Contents> {
    map name | name in roots && (!IsVersionName(name) || name in keep) :: roots[name]
  }

  ghost predicate Stopped(before: map<string, Contents>, after: map<string, Contents>, keep: set<string>,
                          fails: Step -> bool, damage: string -> Contents)
  {
    exists name :: StoppedAt(before, after, keep, fails, damage, name)
  }

  /** What an update leaves alone while it prunes: the new root and the one `current` named. */
  function Spared(before: Home, version: string): set<string> {
    {"v" + version}
    + if before.current.Some? && before.current.value.VersionDir? then {before.current.value.name} else {}
  }

  /** Whether an attempt succeeds, and what it leaves in `versions` however far it comes. */
  ghost predicate Ends(before: Home, after: map<string, Contents>, ok: bool, version: string, target: string,
                       archive: Contents, fails: Step -> bool, damage: string -> Contents)
  {
    var installed, keep := before.versions["v" + version := archive], Spared(before, version);
    && (ok <==> ReachesPruning(before, version, target, archive, fails) && Removable(before.versions, keep, fails))
    && (if !Installs(before, version, target, archive, fails) then after == before.versions
        else if !ReachesPruning(before, version, target, archive, fails) then after == installed
        else ok || Stopped(installed, after, keep, fails, damage))
  }

  class InstallHome {
    var versions: map<string, Contents>
    var current: Option<Root>
    var staging: Option<Contents>

    function State(): Home
      reads this
    {
      Home(versions, current)
    }

    method UpdateBinary(version: string, target: string, archive: Contents, fails: Step -> bool,
                        damage: string -> Contents)
      returns (result: Result)
      modifies this
      ensures staging == None
      ensures Outcome(old(State()), State(), version, target, result)
      ensures Ends(old(State()), versions, result.Updated?, version, target, archive, fails, damage)
      ensures result.Updated? ==> ("v" + version) in versions && versions["v" + version] == Sound(version, target)
    {
      var ok, previous, pointerSwitched := Attempt(version, target, archive, fails, damage);
      if ok {
        result := Updated(previous);
      } else {
        if pointerSwitched {
          if previous.Some? { current := previous; } else { current := None; }
        }
        result := Failed;
      }
      staging := None;
    }

    /** Staging, validation and the root's place among the versions. */
    method InstallRoot(version: string, target: string, archive: Contents, fails: Step -> bool) returns (ok: bool)
      modifies this`versions, this`staging
      ensures ok <==> Installs(old(State()), version, target, archive, fails)
      ensures versions == if ok then old(versions)["v" + version := archive] else old(versions)
    {
      ok := false;
      var final := FinalName(version);
      if fails(MakeStaging) { return; }
      if fails(Extract) { return; }
      staging := Some(archive);
      if !ValidRoot(archive, version, target) { return; }
      if fails(Smoked) { return; }
      if fails(MakeVersions) { return; }
      if final in versions {
        if !ValidRoot(versions[final], version, target) { return; }
        staging := None;
      } else {
        if fails(Install) { return; }
        versions, staging := versions[final := archive], None;
      }
      ok := true;
    }

    /** The body of the `try`: it stops at the first step that fails. */
    method Attempt(version: string, target: string, archive: Contents, fails: Step -> bool,
                   damage: string -> Contents)
      returns (ok: bool, previous: Option<Root>, pointerSwitched: bool)
      modifies this
      ensures pointerSwitched ==> previous == old(current) && current == Some(VersionDir(FinalName(version)))
      ensures !pointerSwitched ==> current == old(current)
      ensures ok ==> pointerSwitched
      ensures ok ==> versions == PrunedOf(old(versions)["v" + version := archive], Spared(old(State()), version))
      ensures Ends(old(State()), versions, ok, version, target, archive, fails, damage)
    {
      previous, pointerSwitched := None, false;
      ok := InstallRoot(version, target, archive, fails);
      if !ok { return; }
      ok := false;
      if fails(Installed) { return; }
      previous := current;
      if fails(Symlink) { return; }
      if fails(SwitchPointer) { return; }
      current := Some(VersionDir(FinalName(version)));
      pointerSwitched := true;
      if fails(PointerSwitched) { return; }
      if fails(Bootstrap) { return; }
      if fails(StateReady) { return; }
      var keep := {FinalName(version)}
                  + if previous.Some? && previous.value.VersionDir? then {previous.value.name} else {};
      ok := PruneVersions(keep, fails, damage);
    }

    /** A removal that fails leaves its root in whatever state `damage` says. */
    method PruneVersions(keep: set<string>, fails: Step -> bool, damage: string -> Contents) returns (ok: bool)
      modifies this`versions
      ensures ok <==> Removable(old(versions), keep, fails)
      ensures if ok then versions == PrunedOf(old(versions), keep)
              else Stopped(old(versions), versions, keep, fails, damage)
    {
      var names := versions.Keys;
      while names != {}
        invariant names <= versions.Keys <= old(versions).Keys
        invariant forall name :: name in versions ==> versions[name] == old(versions)[name]
        invariant forall name :: name in old(versions) ==>
                    (name in names || !IsVersionName(name) || name in keep ==> name in versions)
        invariant forall name :: name in versions && name !in names ==> !IsVersionName(name) || name in keep
        invariant forall name :: name in old(versions) && name !in names && IsVersionName(name) && name !in keep ==>
                    !fails(Prune(name))
        invariant forall name :: name in old(versions) && name !in versions ==>
                    name !in names && IsVersionName(name) && name !in keep
        decreases |names|
      {
        var name :| name in names;
        names := names - {name};
        if !IsVersionName(name) || name in keep { continue; }
        if fails(Prune(name)) {
          versions := versions[name := damage(name)];
          assert StoppedAt(old(versions), versions, keep, fails, damage, name);
          return false;
        }
        versions := versions - {name};
      }
      return true;
    }
  }

  // ----- Any sequence of updates

  /** A history of update attempts, with the home before and after each. */
  predicate History(homes: seq<Home>, versions: seq<string>, target: string, results: seq<Result>) {
    && |homes| == |versions| + 1 && |results| == |versions|
    && forall i :: 0 <= i < |versions| ==> Outcome(homes[i], homes[i + 1], versions[i], target, results[i])
  }

  /**
    `current` names a directory that is named after the version in it, built for the target,
    and runs as that version, if it names a version directory at all.
   */
  predicate Usable(home: Home, target: string) {
    home.current.Some? && home.current.value.VersionDir? ==>
      var name := home.current.value.name;
      && name in home.versions
      && var root := home.versions[name];
         name == "v" + root.version && root.target == target && root.smokeOutput == "alp " + root.version
  }

  /** Where `current` should point: at the last update that succeeded, or where it always did. */
  function LastSwitch(start: Option<Root>, versions: seq<string>, results: seq<Result>): Option<Root>
    requires |results| == |versions|
  {
    if versions == [] then start
    else if results[|results| - 1].Updated? then Some(VersionDir(FinalName(versions[|versions| - 1])))
    else LastSwitch(start, versions[..|versions| - 1], results[..|results| - 1])
  }

  /** However updates succeed and fail, `current` names the last one that succeeded, and that root stays usable. */
  lemma {:induction false} CurrentIsTheLastSuccess(homes: seq<Home>, versions: seq<string>, target: string,
                                                   results: seq<Result>)
    requires History(homes, versions, target, results) && Usable(homes[0], target)
    ensures homes[|homes| - 1].current == LastSwitch(homes[0].current, versions, results)
    ensures Usable(homes[|homes| - 1], target)
    decreases |versions|
  {
    if versions != [] {
      var n := |versions| - 1;
      CurrentIsTheLastSuccess(homes[..n + 1], versions[..n], target, results[..n]);
      assert Outcome(homes[n], homes[n + 1], versions[n], target, results[n]);
    }
  }
}
