/**
  The launch decision (src/policy/policy-engine.ts, src/policy/workspace-policy.ts).

  A path argument is represented by what the canonicalizer makes of it: `Some(path)`, or
  `None` when it throws, so that every `PATH_RESOLUTION_FAILED` branch is present.
 */
module Policy {
  import opened Wrappers
  import opened Lists
  import opened Paths
  import opened Assignment

  type Resolution = Option<Path>

  datatype Code =
    | UNKNOWN_ACTOR | WORKSPACE_READ_ONLY | WORKSPACE_NOT_GRANTED | WORKSPACE_SCOPE_MISMATCH
    | PATH_RESOLUTION_FAILED
    | WRITE_SCOPE_ON_READ_ONLY | WRITE_SCOPE_OUTSIDE_WORKSPACE | WRITE_SCOPE_PROTECTED_ROOT | WRITE_SCOPE_EXCEEDS_PARENT
    | EXCLUDE_SCOPE_ON_READ_ONLY | EXCLUDE_SCOPE_OUTSIDE_WRITE_SCOPE | EXCLUDE_SCOPE_COVERS_WRITE_SCOPE

  datatype Decision = Allow | Deny(code: Code) | RequireApproval(subject: Path)

  /** A declared root: relative to the active workspace, or absolute. */
  datatype Root = InWorkspace(below: Path) | AbsoluteRoot(path: Path)
  datatype Grants = Grants(readRoots: seq<Root>, writeRoots: seq<Root>)
  datatype Execution = Execution(activeWorkspace: Resolution, readOnly: bool, delegated: bool)
  datatype Launch = Launch(root: Resolution, project: Resolution, writeScope: Option<seq<Resolution>>)
  datatype Request = Request(
    actor: string, write: bool, path: Resolution, execution: Execution, launch: Option<Launch>,
    writeScope: Option<seq<Resolution>>, excludeScope: Option<seq<Resolution>>)

  datatype Engine = Engine(definitions: map<string, Grants>, protectedRoots: seq<Path>)

  // ----- Identity

  function RootsAt(roots: seq<Root>, workspace: Path): seq<Path> {
    seq(|roots|, i requires 0 <= i < |roots| =>
      match roots[i] case InWorkspace(below) => workspace + below case AbsoluteRoot(path) => path)
  }

  /** `WorkspacePolicy.authorize`, after the registry knew the actor: the denial, if any. */
  function IdentityDenial(engine: Engine, request: Request): Option<Code> {
    if request.actor !in engine.definitions then Some(UNKNOWN_ACTOR)
    else if request.write && request.execution.readOnly then Some(WORKSPACE_READ_ONLY)
    else if request.path.None? || request.execution.activeWorkspace.None? then Some(PATH_RESOLUTION_FAILED)
    else
      var target, active := request.path.value, request.execution.activeWorkspace.value;
      var grants := engine.definitions[request.actor];
      if request.execution.delegated && !Within(active, target) then Some(WORKSPACE_SCOPE_MISMATCH)
      else if !Covered(RootsAt(grants.readRoots, active), target) then Some(WORKSPACE_NOT_GRANTED)
      else if request.write && !Covered(RootsAt(grants.writeRoots, active), target) then Some(WORKSPACE_NOT_GRANTED)
      else None
  }

  /** `path` lies in the root a role declared, which is relative to the active workspace unless it is absolute. */
  predicate DeclaredOver(root: Root, active: Path, path: Path) {
    match root
    case InWorkspace(below) => Within(active + below, path)
    case AbsoluteRoot(absolute) => Within(absolute, path)
  }

  lemma RootsAtExactly(roots: seq<Root>, active: Path, path: Path)
    ensures Covered(RootsAt(roots, active), path) <==>
              exists i :: 0 <= i < |roots| && DeclaredOver(roots[i], active, path)
  {
    forall i | 0 <= i < |roots|
      ensures DeclaredOver(roots[i], active, path) <==> Within(RootsAt(roots, active)[i], path)
    {}
  }

  /** The role may work at the requested path, for reading or for writing. */
  predicate IdentityHolds(engine: Engine, request: Request) {
    && request.actor in engine.definitions && request.path.Some? && request.execution.activeWorkspace.Some?
    && var active, target := request.execution.activeWorkspace.value, request.path.value;
       var grants := engine.definitions[request.actor];
       && (request.execution.delegated ==> Within(active, target))
       && (exists i :: 0 <= i < |grants.readRoots| && DeclaredOver(grants.readRoots[i], active, target))
       && (request.write ==>
             !request.execution.readOnly
             && exists i :: 0 <= i < |grants.writeRoots| && DeclaredOver(grants.writeRoots[i], active, target))
  }

  /** Identity alone denies exactly the requests the role may not make, and says why. */
  lemma IdentityDecidesExactly(engine: Engine, request: Request)
    ensures IdentityDenial(engine, request).None? <==> IdentityHolds(engine, request)
    ensures IdentityDenial(engine, request) == Some(UNKNOWN_ACTOR) <==> request.actor !in engine.definitions
    ensures IdentityDenial(engine, request) == Some(WORKSPACE_READ_ONLY) <==>
              request.actor in engine.definitions && request.write && request.execution.readOnly
    ensures IdentityDenial(engine, request) == Some(PATH_RESOLUTION_FAILED) <==>
              request.actor in engine.definitions && !(request.write && request.execution.readOnly)
              && (request.path.None? || request.execution.activeWorkspace.None?)
    ensures IdentityDenial(engine, request) == Some(WORKSPACE_SCOPE_MISMATCH) <==>
              && request.actor in engine.definitions && !(request.write && request.execution.readOnly)
              && request.path.Some? && request.execution.activeWorkspace.Some?
              && request.execution.delegated && !Within(request.execution.activeWorkspace.value, request.path.value)
    ensures !IdentityHolds(engine, request) ==> Decide(engine, request) == Deny(IdentityDenial(engine, request).value)
  {
    if request.actor in engine.definitions && request.path.Some? && request.execution.activeWorkspace.Some? {
      var active, grants := request.execution.activeWorkspace.value, engine.definitions[request.actor];
      RootsAtExactly(grants.readRoots, active, request.path.value);
      RootsAtExactly(grants.writeRoots, active, request.path.value);
    }
  }

  // ----- The scope checks

  predicate AllResolve(raw: seq<Resolution>) {
    forall i :: 0 <= i < |raw| ==> raw[i].Some?
  }

  function Values(raw: seq<Resolution>): (paths: seq<Path>)
    requires AllResolve(raw)
  {
    seq(|raw|, i requires 0 <= i < |raw| => raw[i].value)
  }

  predicate Touching(engine: Engine, path: Path) {
    exists i :: 0 <= i < |engine.protectedRoots|
                && (Within(engine.protectedRoots[i], path) || Within(path, engine.protectedRoots[i]))
  }

  /** The first failing entry decides; within one entry, the workspace is asked first. */
  function EntriesDenial(engine: Engine, workspace: Path, entries: seq<Path>): Option<Code> {
    if entries == [] then None
    else if !Within(workspace, entries[0]) then Some(WRITE_SCOPE_OUTSIDE_WORKSPACE)
    else if Touching(engine, entries[0]) then Some(WRITE_SCOPE_PROTECTED_ROOT)
    else EntriesDenial(engine, workspace, entries[1..])
  }

  function ParentDenial(request: Request, entries: seq<Path>): Option<Code> {
    if request.launch.None? || request.launch.value.writeScope.None? then None
    else if !AllResolve(request.launch.value.writeScope.value) then Some(PATH_RESOLUTION_FAILED)
    else if forall i :: 0 <= i < |entries| ==>
        Covered(Values(request.launch.value.writeScope.value), entries[i]) then None
    else Some(WRITE_SCOPE_EXCEEDS_PARENT)
  }

  function WriteScopeDenial(engine: Engine, request: Request, writeScope: seq<Resolution>): Option<Code> {
    if !request.write then Some(WRITE_SCOPE_ON_READ_ONLY)
    else if request.path.None? || !AllResolve(writeScope) then Some(PATH_RESOLUTION_FAILED)
    else
      var entries := Values(writeScope);
      var denial := EntriesDenial(engine, request.path.value, entries);
      if denial.Some? then denial else ParentDenial(request, entries)
  }

  function FirstContaining(owned: seq<Path>, entry: Path): (root: Option<Path>)
    ensures root.Some? <==> Covered(owned, entry)
    ensures root.Some? ==> root.value in owned && Within(root.value, entry)
  {
    if owned == [] then None
    else if Within(owned[0], entry) then
      Some(owned[0])
    else
      assert Covered(owned, entry) ==> Covered(owned[1..], entry) by {
        if Covered(owned, entry) {
          var i :| 0 <= i < |owned| && Within(owned[i], entry);
          assert owned[1..][i - 1] == owned[i];
        }
      }
      assert forall i :: 0 <= i < |owned[1..]| ==> owned[1..][i] == owned[i + 1];
      FirstContaining(owned[1..], entry)
  }

  function ExcludesDenial(owned: seq<Path>, entries: seq<Path>): Option<Code> {
    if entries == [] then None
    else
      var root := FirstContaining(owned, entries[0]);
      if root.None? then Some(EXCLUDE_SCOPE_OUTSIDE_WRITE_SCOPE)
      else if root.value == entries[0] then Some(EXCLUDE_SCOPE_COVERS_WRITE_SCOPE)
      else ExcludesDenial(owned, entries[1..])
  }

  function OwnedBy(request: Request): seq<Resolution> {
    if request.writeScope.Some? then request.writeScope.value else [request.path]
  }

  function ExcludeScopeDenial(request: Request, excludeScope: seq<Resolution>): Option<Code> {
    if !request.write then Some(EXCLUDE_SCOPE_ON_READ_ONLY)
    else if !AllResolve(OwnedBy(request)) || !AllResolve(excludeScope) then Some(PATH_RESOLUTION_FAILED)
    else ExcludesDenial(Values(OwnedBy(request)), Values(excludeScope))
  }

  /** `decide` on a workspace request. */
  function Decide(engine: Engine, request: Request): Decision {
    var identity := IdentityDenial(engine, request);
    if identity.Some? then Deny(identity.value)
    else
      var scope :=
        if request.writeScope.Some? then WriteScopeDenial(engine, request, request.writeScope.value) else None;
      if scope.Some? then Deny(scope.value)
      else
        var excluded :=
          if request.excludeScope.Some? then ExcludeScopeDenial(request, request.excludeScope.value) else None;
        if excluded.Some? then Deny(excluded.value)
        else if request.launch.None? then Allow
        else DecideLaunch(engine, request)
  }

  function DecideLaunch(engine: Engine, request: Request): Decision
    requires request.launch.Some?
  {
    var launch := request.launch.value;
    if request.path.None? || launch.root.None? || launch.project.None? then Deny(PATH_RESOLUTION_FAILED)
    else
      var target := request.path.value;
      var unscoped := request.write && request.writeScope.None?;
      if unscoped && Touching(engine, target) then Deny(WRITE_SCOPE_PROTECTED_ROOT)
      else
        var parent := if unscoped then ParentDenial(request, [target]) else None;
        if parent.Some? then Deny(parent.value)
        else if Within(launch.root.value, target) then Allow
        else if !Within(launch.project.value, target) then Deny(WORKSPACE_SCOPE_MISMATCH)
        else RequireApproval(target)
  }

  /**
    A read launch without scopes: allowed exactly when the role may read there and the target
    lies in the launcher's root, put to approval exactly when it lies in the project but not in
    the root, and denied otherwise.
   */
  lemma ReadLaunchDecidedExactly(engine: Engine, request: Request)
    requires !request.write && request.launch.Some? && request.writeScope.None? && request.excludeScope.None?
    ensures Decide(engine, request) == Allow <==>
              && IdentityHolds(engine, request)
              && request.launch.value.root.Some? && request.launch.value.project.Some?
              && Within(request.launch.value.root.value, request.path.value)
    ensures Decide(engine, request).RequireApproval? <==>
              && IdentityHolds(engine, request)
              && request.launch.value.root.Some? && request.launch.value.project.Some?
              && !Within(request.launch.value.root.value, request.path.value)
              && Within(request.launch.value.project.value, request.path.value)
    ensures Decide(engine, request).RequireApproval? ==> Decide(engine, request) == RequireApproval(request.path.value)
    ensures IdentityHolds(engine, request) && Decide(engine, request).Deny? ==>
              Decide(engine, request) == Deny(
                if request.launch.value.root.None? || request.launch.value.project.None? then PATH_RESOLUTION_FAILED
                else WORKSPACE_SCOPE_MISMATCH)
  {
    IdentityDecidesExactly(engine, request);
  }

  /** A scope on a read request is never accepted. */
  lemma ReadScopeDenied(engine: Engine, request: Request)
    requires !request.write && (request.writeScope.Some? || request.excludeScope.Some?)
    ensures IdentityHolds(engine, request) ==>
              Decide(engine, request) ==
              Deny(if request.writeScope.Some? then WRITE_SCOPE_ON_READ_ONLY else EXCLUDE_SCOPE_ON_READ_ONLY)
    ensures Decide(engine, request).Deny?
  {
    IdentityDecidesExactly(engine, request);
  }

  // ----- The loops behind the scope checks

  method ResolveAll(raw: seq<Resolution>) returns (entries: Option<seq<Path>>)
    ensures entries.Some? <==> AllResolve(raw)
    ensures entries.Some? ==> entries.value == Values(raw)
  {
    var pushed: seq<Path> := [];
    for i := 0 to |raw|
      invariant |pushed| == i
      invariant forall k :: 0 <= k < i ==> raw[k] == Some(pushed[k])
    {
      if raw[i].None? { return None; }
      pushed := pushed + [raw[i].value];
    }
    return Some(pushed);
  }

  method DecideWriteScope(engine: Engine, request: Request, writeScope: seq<Resolution>) returns (denial: Option<Code>)
    ensures denial == WriteScopeDenial(engine, request, writeScope)
  {
    if !request.write { return Some(WRITE_SCOPE_ON_READ_ONLY); }
    var entries := ResolveAll(writeScope);
    if request.path.None? || entries.None? { return Some(PATH_RESOLUTION_FAILED); }
    for i := 0 to |entries.value|
      invariant EntriesDenial(engine, request.path.value, entries.value)
             == EntriesDenial(engine, request.path.value, entries.value[i..])
    {
      if !Within(request.path.value, entries.value[i]) { return Some(WRITE_SCOPE_OUTSIDE_WORKSPACE); }
      if Touching(engine, entries.value[i]) { return Some(WRITE_SCOPE_PROTECTED_ROOT); }
      assert entries.value[i..][1..] == entries.value[i + 1..];
    }
    denial := DecideParentScope(request, entries.value);
  }

  method DecideParentScope(request: Request, entries: seq<Path>) returns (denial: Option<Code>)
    ensures denial == ParentDenial(request, entries)
  {
    if request.launch.None? || request.launch.value.writeScope.None? { return None; }
    var parents := ResolveAll(request.launch.value.writeScope.value);
    if parents.None? { return Some(PATH_RESOLUTION_FAILED); }
    for i := 0 to |entries|
      invariant forall k :: 0 <= k < i ==> Covered(parents.value, entries[k])
    {
      if !Covered(parents.value, entries[i]) { return Some(WRITE_SCOPE_EXCEEDS_PARENT); }
    }
    return None;
  }

  method DecideExcludeScope(request: Request, excludeScope: seq<Resolution>) returns (denial: Option<Code>)
    ensures denial == ExcludeScopeDenial(request, excludeScope)
  {
    if !request.write { return Some(EXCLUDE_SCOPE_ON_READ_ONLY); }
    var owned := ResolveAll(OwnedBy(request));
    var entries := ResolveAll(excludeScope);
    if owned.None? || entries.None? { return Some(PATH_RESOLUTION_FAILED); }
    for i := 0 to |entries.value|
      invariant ExcludesDenial(owned.value, entries.value) == ExcludesDenial(owned.value, entries.value[i..])
    {
      var root := FirstContaining(owned.value, entries.value[i]);
      if root.None? { return Some(EXCLUDE_SCOPE_OUTSIDE_WRITE_SCOPE); }
      if root.value == entries.value[i] { return Some(EXCLUDE_SCOPE_COVERS_WRITE_SCOPE); }
      assert entries.value[i..][1..] == entries.value[i + 1..];
    }
    return None;
  }

  // ----- What an accepted write scope means, path by path

  /** `path` may be handed to the child: in its workspace, unprotected, and the launcher's to give. */
  predicate Grantable(engine: Engine, request: Request, path: Path)
    requires request.path.Some?
    requires request.launch.Some? && request.launch.value.writeScope.Some? ==>
               AllResolve(request.launch.value.writeScope.value)
  {
    && Within(request.path.value, path)
    && !Covered(engine.protectedRoots, path)
    && (request.launch.Some? && request.launch.value.writeScope.Some? ==>
          Covered(Values(request.launch.value.writeScope.value), path))
  }

  predicate PathsResolve(request: Request, writeScope: seq<Resolution>) {
    && request.path.Some? && AllResolve(writeScope)
    && (request.launch.Some? && request.launch.value.writeScope.Some? ==>
            AllResolve(request.launch.value.writeScope.value))
  }

  /**
    The entry-by-entry checks accept a list of roots exactly when every single path under it is
    grantable: nothing ungrantable slips through below an entry, and nothing is refused early.
   */
  lemma RegionAcceptedExactly(engine: Engine, request: Request, entries: seq<Path>)
    requires PathsResolve(request, [])
    ensures EntriesDenial(engine, request.path.value, entries).None? && ParentDenial(request, entries).None?
       <==> forall path :: Covered(entries, path) ==> Grantable(engine, request, path)
  {
    EntriesAccepted(engine, request.path.value, entries);
    if EntriesDenial(engine, request.path.value, entries).None? && ParentDenial(request, entries).None? {
      forall path | Covered(entries, path)
        ensures Grantable(engine, request, path)
      {
        var i :| 0 <= i < |entries| && Within(entries[i], path);
        AcceptedEntryCoversGrantable(engine, request, entries[i], path);
      }
    }
    if forall path :: Covered(entries, path) ==> Grantable(engine, request, path) {
      forall i | 0 <= i < |entries|
        ensures Within(request.path.value, entries[i]) && !Touching(engine, entries[i])
        ensures Grantable(engine, request, entries[i])
      {
        assert Within(entries[i], entries[i]);
        assert Grantable(engine, request, entries[i]);
        if Touching(engine, entries[i]) {
          var k :| 0 <= k < |engine.protectedRoots|
                   && (Within(engine.protectedRoots[k], entries[i]) || Within(entries[i], engine.protectedRoots[k]));
          var root := engine.protectedRoots[k];
          assert Within(root, root);
          assert Within(entries[i], root) ==> Covered(entries, root);
          assert false;
        }
      }
    }
  }

  /** So the scope checks mean what they say path by path, not entry by entry. */
  lemma WriteScopeAcceptedExactly(engine: Engine, request: Request, writeScope: seq<Resolution>)
    requires request.write && PathsResolve(request, writeScope)
    ensures WriteScopeDenial(engine, request, writeScope).None?
       <==> forall path :: Covered(Values(writeScope), path) ==> Grantable(engine, request, path)
  {
    RegionAcceptedExactly(engine, request, Values(writeScope));
  }

  lemma {:induction false} EntriesAccepted(engine: Engine, workspace: Path, entries: seq<Path>)
    ensures EntriesDenial(engine, workspace, entries).None?
       <==> forall i :: 0 <= i < |entries| ==> Within(workspace, entries[i]) && !Touching(engine, entries[i])
  {
    if entries != [] {
      EntriesAccepted(engine, workspace, entries[1..]);
      assert forall i :: 0 < i < |entries| ==> entries[i] == entries[1..][i - 1];
      assert forall i :: 0 <= i < |entries[1..]| ==> entries[1..][i] == entries[i + 1];
    }
  }

  lemma AcceptedEntryCoversGrantable(engine: Engine, request: Request, entry: Path, path: Path)
    requires PathsResolve(request, [])
    requires Within(request.path.value, entry) && !Touching(engine, entry)
    requires request.launch.Some? && request.launch.value.writeScope.Some? ==>
               Covered(Values(request.launch.value.writeScope.value), entry)
    requires Within(entry, path)
    ensures Grantable(engine, request, path)
  {
  }

  // ----- What a launch that is not denied may write

  predicate WriteLaunch(engine: Engine, request: Request) {
    request.write && request.launch.Some? && !Decide(engine, request).Deny?
  }

  predicate ScopeResolves(request: Request) {
    && PathsResolve(request, OwnedBy(request))
    && (request.excludeScope.Some? ==> AllResolve(request.excludeScope.value))
  }

  /** The assignment the child is launched with. */
  function AssignedScope(request: Request): Scope
    requires ScopeResolves(request)
  {
    Scope(request.path.value,
          if request.writeScope.Some? then Some(Values(request.writeScope.value)) else None,
          if request.excludeScope.Some? then Some(Values(request.excludeScope.value)) else None)
  }

  /** The role may work there: known, writable, inside the active workspace when delegated, and granted both ways. */
  predicate RoleGranted(engine: Engine, request: Request, path: Path) {
    && request.actor in engine.definitions && !request.execution.readOnly && request.execution.activeWorkspace.Some?
    && (request.execution.delegated ==> Within(request.execution.activeWorkspace.value, path))
    && Covered(RootsAt(engine.definitions[request.actor].readRoots, request.execution.activeWorkspace.value), path)
    && Covered(RootsAt(engine.definitions[request.actor].writeRoots, request.execution.activeWorkspace.value), path)
  }

  /** Every exclusion lies strictly below the first owned root that contains it. */
  predicate ExclusionsFit(owned: seq<Path>, entries: seq<Path>) {
    forall i :: 0 <= i < |entries| ==>
      FirstContaining(owned, entries[i]).Some? && |FirstContaining(owned, entries[i]).value| < |entries[i]|
  }

  lemma {:induction false} ExclusionsAccepted(owned: seq<Path>, entries: seq<Path>)
    ensures ExcludesDenial(owned, entries).None? <==> ExclusionsFit(owned, entries)
  {
    if entries != [] {
      ExclusionsAccepted(owned, entries[1..]);
      var root := FirstContaining(owned, entries[0]);
      if root.Some? { assert root.value == entries[0][..|root.value|]; }
      assert forall i :: 0 < i < |entries| ==> entries[i] == entries[1..][i - 1];
      assert forall i :: 0 <= i < |entries[1..]| ==> entries[1..][i] == entries[i + 1];
    }
  }

  /**
    A write launch whose paths resolve escapes denial if and only if the role may work at its
    workspace, every path under the asked-for roots is grantable, every exclusion fits, and the
    workspace is in the launcher's root or project; it needs no approval exactly in the root.
   */
  lemma LaunchAcceptedExactly(engine: Engine, request: Request)
    requires request.write && request.launch.Some? && ScopeResolves(request)
    requires request.launch.value.root.Some? && request.launch.value.project.Some?
               && request.execution.activeWorkspace.Some?
    ensures var roots, launch, target := OwnedRoots(AssignedScope(request)), request.launch.value, request.path.value;
            && (WriteLaunch(engine, request) <==>
                  && RoleGranted(engine, request, target)
                  && (forall path :: Covered(roots, path) ==> Grantable(engine, request, path))
                  && (request.excludeScope.Some? ==> ExclusionsFit(roots, Values(request.excludeScope.value)))
                  && (Within(launch.root.value, target) || Within(launch.project.value, target)))
            && (Decide(engine, request) == Allow <==> WriteLaunch(engine, request) && Within(launch.root.value, target))
  {
    var roots := OwnedRoots(AssignedScope(request));
    RegionAcceptedExactly(engine, request, roots);
    EntriesAccepted(engine, request.path.value, roots);
    assert roots == Values(OwnedBy(request));
    if request.excludeScope.Some? { ExclusionsAccepted(roots, Values(request.excludeScope.value)); }
    assert request.writeScope.None? ==> roots[0] == request.path.value;
  }

  /**
    Scoped or not, a write launch that is not denied owns only paths of its workspace, of the
    role's own roots, of the launcher's root or project, outside every protected subtree, and
    inside the launcher's scope.
   */
  lemma LaunchIsConfined(engine: Engine, request: Request)
    requires WriteLaunch(engine, request)
    ensures ScopeResolves(request) && RootsInside(AssignedScope(request))
    ensures request.launch.value.root.Some? && request.launch.value.project.Some?
    ensures forall path :: OwnsPath(AssignedScope(request), path) ==>
              && Grantable(engine, request, path) && RoleGranted(engine, request, path)
              && (Within(request.launch.value.root.value, path) || Within(request.launch.value.project.value, path))
  {
    var scope := AssignedScope(request);
    LaunchAcceptedExactly(engine, request);
    forall i | 0 <= i < |OwnedRoots(scope)| ensures Within(scope.workspace, OwnedRoots(scope)[i]) {
      assert Within(OwnedRoots(scope)[i], OwnedRoots(scope)[i]);
      assert Grantable(engine, request, OwnedRoots(scope)[i]);
    }
    forall path | OwnsPath(scope, path)
      ensures Grantable(engine, request, path) && RoleGranted(engine, request, path)
      ensures Within(request.launch.value.root.value, path) || Within(request.launch.value.project.value, path)
    {
      BelowWorkspace(engine, request, path);
    }
  }

  lemma BelowWorkspace(engine: Engine, request: Request, path: Path)
    requires request.path.Some? && RoleGranted(engine, request, request.path.value) && Within(request.path.value, path)
    requires request.launch.Some? && request.launch.value.root.Some? && request.launch.value.project.Some?
    requires Within(request.launch.value.root.value, request.path.value)
               || Within(request.launch.value.project.value, request.path.value)
    ensures RoleGranted(engine, request, path)
    ensures Within(request.launch.value.root.value, path) || Within(request.launch.value.project.value, path)
  {
    var target, active, grants :=
        request.path.value, request.execution.activeWorkspace.value, engine.definitions[request.actor];
    if request.execution.delegated { WithinTransitive(active, target, path); }
    CoveredBelow(RootsAt(grants.readRoots, active), target, path);
    CoveredBelow(RootsAt(grants.writeRoots, active), target, path);
    if Within(request.launch.value.root.value, target) {
      WithinTransitive(request.launch.value.root.value, target, path);
    } else {
      WithinTransitive(request.launch.value.project.value, target, path);
    }
  }

  // ----- Protected subtrees on disk

  /** Nothing at or below a root of the child lies at or below a protected root. */
  ghost predicate SparesProtected(engine: Engine, scope: Scope) {
    forall path :: Under(OwnedRoots(scope), path) ==> !Under(engine.protectedRoots, path)
  }

  /**
    A write launch that is not denied keeps out of the protected subtrees if and only if every
    protected root that is comparable with a root of the child is plainly so.
   */
  lemma ProtectedExactly(engine: Engine, request: Request)
    requires WriteLaunch(engine, request)
    ensures ScopeResolves(request)
    ensures SparesProtected(engine, AssignedScope(request)) <==>
              PairsPlain(engine.protectedRoots, OwnedRoots(AssignedScope(request)))
  {
    LaunchIsConfined(engine, request);
    var roots := OwnedRoots(AssignedScope(request));
    NothingTouched(engine, request);
    ApartExactly(roots, engine.protectedRoots);
    forall i, k | 0 <= i < |roots| && 0 <= k < |engine.protectedRoots|
      ensures !PlainlyComparable(engine.protectedRoots[k], roots[i])
      ensures Comparable(roots[i], engine.protectedRoots[k]) <==> Comparable(engine.protectedRoots[k], roots[i])
    {
      assert !Touching(engine, roots[i]);
      PlainlyIsWithin(engine.protectedRoots[k], roots[i]);
    }
  }

  /**
    With its exclusions taken off, the child owns nothing protected if and only if wherever one
    of its roots is comparable with a protected root it excluded the deeper of the two.
   */
  lemma OwnsNothingProtectedExactly(engine: Engine, request: Request)
    requires WriteLaunch(engine, request)
    ensures ScopeResolves(request)
    ensures var scope := AssignedScope(request);
            (forall path :: OwnsOnDisk(scope, path) ==> !Under(engine.protectedRoots, path)) <==>
              forall i, k :: 0 <= i < |OwnedRoots(scope)| && 0 <= k < |engine.protectedRoots|
                             && Comparable(OwnedRoots(scope)[i], engine.protectedRoots[k]) ==>
                ExcludedOnDisk(scope, Deeper(OwnedRoots(scope)[i], engine.protectedRoots[k]))
  {
    LaunchIsConfined(engine, request);
    var scope, protected := AssignedScope(request), Scope([], Some(engine.protectedRoots), None);
    ShareOnDiskExactly(scope, protected);
    assert OwnedRoots(protected) == engine.protectedRoots;
    forall path ensures OwnsOnDisk(protected, path) <==> Under(engine.protectedRoots, path) {}
    forall i, k | 0 <= i < |OwnedRoots(scope)| && 0 <= k < |engine.protectedRoots|
      ensures MeetOnDisk(scope, protected, OwnedRoots(scope)[i], OwnedRoots(protected)[k]) <==>
                && Comparable(OwnedRoots(scope)[i], engine.protectedRoots[k])
                && !ExcludedOnDisk(scope, Deeper(OwnedRoots(scope)[i], engine.protectedRoots[k]))
    {}
  }

  lemma NothingTouched(engine: Engine, request: Request)
    requires WriteLaunch(engine, request) && ScopeResolves(request)
    ensures forall i :: 0 <= i < |OwnedRoots(AssignedScope(request))| ==>
              !Touching(engine, OwnedRoots(AssignedScope(request))[i])
  {
    var roots := OwnedRoots(AssignedScope(request));
    EntriesAccepted(engine, request.path.value, roots);
    assert roots == Values(OwnedBy(request));
  }

  /**
    Whatever the names, what lies at or below a root of such a launch lies in its workspace, in
    the roots of the role, in the launcher's scope and in the launcher's root or project.
   */
  lemma ConfinedOnDisk(engine: Engine, request: Request, path: Path)
    requires WriteLaunch(engine, request) && ScopeResolves(request)
    requires Under(OwnedRoots(AssignedScope(request)), path)
    ensures request.path.value <= path
    ensures request.actor in engine.definitions && request.execution.activeWorkspace.Some?
    ensures var active, grants := request.execution.activeWorkspace.value, engine.definitions[request.actor];
            && Under(RootsAt(grants.readRoots, active), path) && Under(RootsAt(grants.writeRoots, active), path)
            && (request.execution.delegated ==> active <= path)
    ensures request.launch.value.writeScope.Some? ==> Under(Values(request.launch.value.writeScope.value), path)
    ensures request.launch.value.root.Some? && request.launch.value.project.Some?
    ensures request.launch.value.root.value <= path || request.launch.value.project.value <= path
  {
    LaunchIsConfined(engine, request);
    LaunchAcceptedExactly(engine, request);
    var roots := OwnedRoots(AssignedScope(request));
    var i :| 0 <= i < |roots| && roots[i] <= path;
    assert Within(roots[i], roots[i]);
    assert Covered(roots, roots[i]);
    assert Grantable(engine, request, roots[i]);
    BelowWorkspace(engine, request, roots[i]);
    assert RoleGranted(engine, request, roots[i]);
    var active, grants := request.execution.activeWorkspace.value, engine.definitions[request.actor];
    CoveredIsUnder(RootsAt(grants.readRoots, active), roots[i], path);
    CoveredIsUnder(RootsAt(grants.writeRoots, active), roots[i], path);
    if request.launch.value.writeScope.Some? {
      CoveredIsUnder(Values(request.launch.value.writeScope.value), roots[i], path);
    }
  }

  lemma CoveredIsUnder(roots: seq<Path>, upper: Path, path: Path)
    requires Covered(roots, upper) && upper <= path
    ensures Under(roots, path)
  {
  }

  // ----- Chains of launches

  /** Each launch after the first was asked for by the execution of the one before. */
  predicate Chain(engine: Engine, launches: seq<Request>) {
    && (forall i :: 0 <= i < |launches| ==> WriteLaunch(engine, launches[i]))
    && (forall i :: 0 < i < |launches| ==> launches[i].launch.value.writeScope == launches[i - 1].writeScope)
  }

  /** `path` lies in what `request` asked to own, exclusions aside. */
  predicate InRegion(request: Request, path: Path) {
    ScopeResolves(request) && Covered(OwnedRoots(AssignedScope(request)), path)
  }

  /**
    Down a chain of scoped launchers regions only shrink: what a later child may write lies in
    every earlier region.
   */
  lemma {:induction false} RegionsOnlyShrink(engine: Engine, launches: seq<Request>, n: nat, m: nat, path: Path)
    requires Chain(engine, launches) && n <= m < |launches| && InRegion(launches[m], path)
    requires forall i :: n <= i < m ==> launches[i].writeScope.Some?
    ensures InRegion(launches[n], path)
    decreases m
  {
    if n < m {
      LinkShrinks(engine, launches[m - 1], launches[m], path);
      RegionsOnlyShrink(engine, launches, n, m - 1, path);
    }
  }

  lemma LinkShrinks(engine: Engine, parent: Request, child: Request, path: Path)
    requires WriteLaunch(engine, parent) && WriteLaunch(engine, child)
    requires parent.writeScope.Some? && child.launch.value.writeScope == parent.writeScope
    requires InRegion(child, path)
    ensures InRegion(parent, path)
  {
    LaunchIsConfined(engine, parent);
    RegionIsGrantable(engine, child, path);
  }

  /** The assignments of a link of the chain, one inside the other up to exclusions, in either reading. */
  lemma LinkIsNested(engine: Engine, parent: Request, child: Request, reading: Reading)
    requires WriteLaunch(engine, parent) && WriteLaunch(engine, child)
    requires parent.writeScope.Some? && child.launch.value.writeScope == parent.writeScope
    ensures ScopeResolves(parent) && ScopeResolves(child)
    ensures RootsWithin(reading, AssignedScope(parent), AssignedScope(child))
  {
    LaunchIsConfined(engine, parent);
    LaunchIsConfined(engine, child);
    forall path | InRoots(reading, OwnedRoots(AssignedScope(child)), path)
      ensures InRoots(reading, OwnedRoots(AssignedScope(parent)), path)
    {
      ReadingsAgree(AssignedScope(parent), path);
      ReadingsAgree(AssignedScope(child), path);
      match reading
      case ByTest =>
        assert InRegion(child, path);
        LinkShrinks(engine, parent, child, path);
      case OnDisk =>
        ConfinedOnDisk(engine, child, path);
    }
  }

  /** Every launch but the last has a write scope of its own. */
  predicate ScopedChain(engine: Engine, launches: seq<Request>) {
    Chain(engine, launches) && forall i :: 0 <= i < |launches| - 1 ==> launches[i].writeScope.Some?
  }

  predicate AllScopesResolve(launches: seq<Request>) {
    forall i :: 0 <= i < |launches| ==> ScopeResolves(launches[i])
  }

  /** Whatever a later execution owns, every earlier one owns. */
  ghost predicate OwnershipShrinks(reading: Reading, launches: seq<Request>)
    requires AllScopesResolve(launches)
  {
    forall n, m :: 0 <= n <= m < |launches| ==>
      OwnsOnlyWhat(reading, AssignedScope(launches[n]), AssignedScope(launches[m]))
  }

  /** Each launch carves out whatever its own launcher had carved out of the roots it was given. */
  predicate ExclusionsCarried(reading: Reading, launches: seq<Request>)
    requires AllScopesResolve(launches)
  {
    forall i :: 0 < i < |launches| ==>
      KeepsExclusions(reading, AssignedScope(launches[i - 1]), AssignedScope(launches[i]))
  }

  /**
    `decide` measures a child against the write scope of its launcher and not against the
    exclusions. So down a chain of scoped launchers, in either reading, ownership shrinks if and
    only if every single launch repeats the exclusions that touch it.
   */
  lemma OwnershipShrinksExactly(engine: Engine, launches: seq<Request>, reading: Reading)
    requires ScopedChain(engine, launches)
    ensures AllScopesResolve(launches)
    ensures OwnershipShrinks(reading, launches) <==> ExclusionsCarried(reading, launches)
  {
    forall i | 0 <= i < |launches| ensures ScopeResolves(launches[i]) {
      LaunchIsConfined(engine, launches[i]);
    }
    forall i | 0 < i < |launches|
      ensures OwnsOnlyWhat(reading, AssignedScope(launches[i - 1]), AssignedScope(launches[i]))
         <==> KeepsExclusions(reading, AssignedScope(launches[i - 1]), AssignedScope(launches[i]))
    {
      LinkIsNested(engine, launches[i - 1], launches[i], reading);
      OwnsOnlyExactly(reading, AssignedScope(launches[i - 1]), AssignedScope(launches[i]));
    }
    if ExclusionsCarried(reading, launches) {
      forall n, m | 0 <= n <= m < |launches|
        ensures OwnsOnlyWhat(reading, AssignedScope(launches[n]), AssignedScope(launches[m]))
      {
        OwnershipDescends(reading, launches, n, m);
      }
    }
  }

  lemma {:induction false} OwnershipDescends(reading: Reading, launches: seq<Request>, n: nat, m: nat)
    requires AllScopesResolve(launches) && n <= m < |launches|
    requires forall i :: 0 < i < |launches| ==>
               OwnsOnlyWhat(reading, AssignedScope(launches[i - 1]), AssignedScope(launches[i]))
    ensures OwnsOnlyWhat(reading, AssignedScope(launches[n]), AssignedScope(launches[m]))
    decreases m
  {
    if n < m { OwnershipDescends(reading, launches, n, m - 1); }
  }

  lemma RegionIsGrantable(engine: Engine, request: Request, path: Path)
    requires WriteLaunch(engine, request) && ScopeResolves(request)
    requires Covered(OwnedRoots(AssignedScope(request)), path)
    ensures Grantable(engine, request, path)
  {
    LaunchAcceptedExactly(engine, request);
  }

  // ----- Exclusions

  /**
    An accepted exclude scope leaves something to own, unless the write scope was empty to
    begin with: a shallowest owned root is never excluded, even when roots are nested.
   */
  lemma ExclusionLeavesSomething(request: Request, excludeScope: seq<Resolution>)
    requires request.write && PathsResolve(request, OwnedBy(request)) && AllResolve(excludeScope)
    requires request.excludeScope == Some(excludeScope)
    requires ExcludeScopeDenial(request, excludeScope).None?
    ensures (exists path :: OwnsPath(AssignedScope(request), path)) <==> OwnedBy(request) != []
    ensures (exists path :: OwnsOnDisk(AssignedScope(request), path)) <==> OwnedBy(request) != []
  {
    var scope := AssignedScope(request);
    var roots := OwnedRoots(scope);
    assert roots == Values(OwnedBy(request));
    if roots != [] {
      var i := Shallowest(roots);
      assert Within(roots[i], roots[i]);
      if Excluded(scope.excludeScope, roots[i]) {
        var k :| 0 <= k < |scope.excludeScope.value| && Within(scope.excludeScope.value[k], roots[i]);
        ExcludedStrictlyInside(roots, scope.excludeScope.value, k);
      }
      assert OwnsPath(scope, roots[i]);
      if ExcludedOnDisk(scope, roots[i]) {
        var k :| 0 <= k < |scope.excludeScope.value| && scope.excludeScope.value[k] <= roots[i];
        ExcludedStrictlyInside(roots, scope.excludeScope.value, k);
      }
      assert OwnsOnDisk(scope, roots[i]);
    }
  }

  lemma Shallowest(roots: seq<Path>) returns (i: nat)
    requires roots != []
    ensures i < |roots| && forall k :: 0 <= k < |roots| ==> |roots[i]| <= |roots[k]|
  {
    i := 0;
    for n := 1 to |roots|
      invariant i < |roots| && forall k :: 0 <= k < n ==> |roots[i]| <= |roots[k]|
    {
      if |roots[n]| < |roots[i]| { i := n; }
    }
  }

  lemma {:induction false} ExcludedStrictlyInside(owned: seq<Path>, entries: seq<Path>, k: nat)
    requires ExcludesDenial(owned, entries).None? && k < |entries|
    ensures exists i :: 0 <= i < |owned| && Within(owned[i], entries[k]) && |owned[i]| < |entries[k]|
  {
    if k == 0 {
      var root := FirstContaining(owned, entries[0]).value;
      var i :| 0 <= i < |owned| && owned[i] == root;
      assert root == entries[0][..|root|];
    } else {
      ExcludedStrictlyInside(owned, entries[1..], k - 1);
    }
  }

  // ----- The order of the write scope

  /** A path as the string the program sorts. */
  function Text(path: Path): string {
    if |path| <= 1 then "/" + Join(path, "/") else Text(path[..|path| - 1]) + "/" + path[|path| - 1]
  }

  lemma {:induction false} JoinLast(parts: seq<string>, separator: string)
    requires |parts| > 1
    ensures Join(parts, separator) == Join(parts[..|parts| - 1], separator) + separator + parts[|parts| - 1]
  {
    var front := parts[..|parts| - 1];
    if |parts| > 2 {
      JoinLast(parts[1..], separator);
      assert parts[1..][..|parts| - 2] == front[1..];
    }
  }

  /** That string is the absolute path: a slash, and the names with slashes between them. */
  lemma {:induction false} TextIsThePath(path: Path)
    ensures Text(path) == "/" + Join(path, "/")
    decreases |path|
  {
    if |path| > 1 {
      TextIsThePath(path[..|path| - 1]);
      JoinLast(path, "/");
    }
  }

  /** `a` sorts before `b`: a proper prefix, or smaller where they first differ. */
  predicate Before(a: string, b: string) {
    if b == [] then false else if a == [] then true else a[0] < b[0] || (a[0] == b[0] && Before(a[1..], b[1..]))
  }

  /** What `resolveScope` hands to `decide`: canonical, never empty, and sorted as strings without duplicates. */
  predicate ScopeList(roots: seq<Path>) {
    && roots != [] && (forall i :: 0 <= i < |roots| ==> Canonical(roots[i]))
    && forall i, j :: 0 <= i < j < |roots| ==> Before(Text(roots[i]), Text(roots[j]))
  }

  /** A root that contains another stands before it. */
  predicate ParentsFirst(roots: seq<Path>) {
    forall i, j :: 0 <= i < |roots| && 0 <= j < |roots| && Within(roots[i], roots[j]) && roots[i] != roots[j] ==> i < j
  }

  lemma {:induction false} PrefixIsBefore(a: string, b: string)
    requires a < b
    ensures Before(a, b) && !Before(b, a)
    decreases |a|
  {
    if a != [] {
      assert a == b[..|a|] && a[0] == b[0];
      assert a[1..] == b[1..][..|a| - 1];
      PrefixIsBefore(a[1..], b[1..]);
    }
  }

  lemma {:induction false} TextGrows(upper: Path, path: Path)
    requires upper < path && Canonical(path)
    ensures Text(upper) < Text(path)
    decreases |path|
  {
    assert CanonicalName(path[|path| - 1]);
    if |path| > 1 {
      var parent := path[..|path| - 1];
      if |upper| < |parent| { TextGrows(upper, parent); } else { assert upper == parent; }
      assert Text(parent) < Text(path);
    } else {
      assert upper == [];
    }
  }

  /** Sorting by text puts every root before the roots inside it. */
  lemma SortedIsParentsFirst(roots: seq<Path>)
    requires ScopeList(roots)
    ensures ParentsFirst(roots)
  {
    forall i, j | 0 <= i < |roots| && 0 <= j < |roots| && Within(roots[i], roots[j]) && roots[i] != roots[j]
      ensures i < j
    {
      assert roots[i] < roots[j];
      TextGrows(roots[i], roots[j]);
      PrefixIsBefore(Text(roots[i]), Text(roots[j]));
    }
  }

  /** Some owned root lies strictly above the entry. */
  predicate StrictlyInside(owned: seq<Path>, entry: Path) {
    exists i :: 0 <= i < |owned| && Within(owned[i], entry) && owned[i] != entry
  }

  /**
    How one exclusion of a launch is judged: outside when no owned root contains it, covering
    when it is an owned root that lies in no other one, and accepted in every other case, so
    that a nested owned root may be excluded whole.
   */
  lemma ExclusionJudged(owned: seq<Path>, entry: Path)
    requires ParentsFirst(owned)
    ensures ExcludesDenial(owned, [entry])
         == if !Covered(owned, entry) then Some(EXCLUDE_SCOPE_OUTSIDE_WRITE_SCOPE)
            else if StrictlyInside(owned, entry) then None
            else Some(EXCLUDE_SCOPE_COVERS_WRITE_SCOPE)
  {
    assert ExcludesDenial(owned, [entry][1..]) == None;
    FirstContainingInOrder(owned, entry);
  }

  lemma {:induction false} FirstContainingInOrder(owned: seq<Path>, entry: Path)
    requires ParentsFirst(owned)
    ensures FirstContaining(owned, entry).Some? ==>
              (FirstContaining(owned, entry).value != entry <==> StrictlyInside(owned, entry))
  {
    if owned != [] {
      var rest := owned[1..];
      assert forall i :: 0 <= i < |rest| ==> rest[i] == owned[i + 1];
      if Within(owned[0], entry) {
        assert Within(owned[0], entry) && owned[0] != entry ==> StrictlyInside(owned, entry);
      } else {
        FirstContainingInOrder(rest, entry);
        StrictlyInsideRest(owned, entry);
      }
    }
  }

  lemma StrictlyInsideRest(owned: seq<Path>, entry: Path)
    requires owned != [] && !Within(owned[0], entry)
    ensures StrictlyInside(owned, entry) <==> StrictlyInside(owned[1..], entry)
  {
    var rest := owned[1..];
    if StrictlyInside(owned, entry) {
      var i :| 0 <= i < |owned| && Within(owned[i], entry) && owned[i] != entry;
      assert rest[i - 1] == owned[i];
    }
    if StrictlyInside(rest, entry) {
      var i :| 0 <= i < |rest| && Within(rest[i], entry) && rest[i] != entry;
      assert owned[i + 1] == rest[i];
    }
  }

  /**
    For every scope a launch can carry: the exclusions are accepted if and only if each lies
    strictly below an owned root.
   */
  lemma {:induction false} ExclusionsAcceptedExactly(owned: seq<Path>, entries: seq<Path>)
    requires ScopeList(owned)
    ensures ExcludesDenial(owned, entries).None? <==>
              forall i :: 0 <= i < |entries| ==> StrictlyInside(owned, entries[i])
  {
    SortedIsParentsFirst(owned);
    if entries != [] {
      ExclusionsAcceptedExactly(owned, entries[1..]);
      FirstContainingInOrder(owned, entries[0]);
      assert forall i :: 0 < i < |entries| ==> entries[i] == entries[1..][i - 1];
      assert forall i :: 0 <= i < |entries[1..]| ==> entries[1..][i] == entries[i + 1];
      assert StrictlyInside(owned, entries[0]) ==> Covered(owned, entries[0]);
    }
  }

  /** The same list of roots with the one at `k` in front. */
  function Foremost(owned: seq<Path>, k: nat): (reordered: seq<Path>)
    requires k < |owned|
    ensures multiset(reordered) == multiset(owned)
  {
    assert owned == owned[..k] + [owned[k]] + owned[k + 1..];
    [owned[k]] + owned[..k] + owned[k + 1..]
  }

  /**
    Without the sorting the order of the roots would decide: `decide` alone judges an exclusion
    differently under some reordering of the same roots exactly when the exclusion is itself an
    owned root and lies strictly inside another.
   */
  lemma OrderMattersExactly(owned: seq<Path>, entry: Path)
    ensures (exists reordered :: multiset(reordered) == multiset(owned)
                                 && ExcludesDenial(reordered, [entry]) != ExcludesDenial(owned, [entry]))
       <==> entry in owned && StrictlyInside(owned, entry)
  {
    if entry in owned && StrictlyInside(owned, entry) {
      var k :| 0 <= k < |owned| && owned[k] == entry;
      var l :| 0 <= l < |owned| && Within(owned[l], entry) && owned[l] != entry;
      ForemostJudges(owned, k, entry);
      ForemostJudges(owned, l, entry);
    } else {
      forall reordered: seq<Path> | multiset(reordered) == multiset(owned)
        ensures ExcludesDenial(reordered, [entry]) == ExcludesDenial(owned, [entry])
      {
        SameVerdict(owned, reordered, entry);
      }
    }
  }

  lemma ForemostJudges(owned: seq<Path>, k: nat, entry: Path)
    requires k < |owned| && Within(owned[k], entry)
    ensures ExcludesDenial(Foremost(owned, k), [entry])
         == if owned[k] == entry then Some(EXCLUDE_SCOPE_COVERS_WRITE_SCOPE) else None
  {
    assert [entry][1..] == [];
    assert Foremost(owned, k)[0] == owned[k];
  }

  lemma SameVerdict(owned: seq<Path>, reordered: seq<Path>, entry: Path)
    requires multiset(reordered) == multiset(owned)
    requires entry !in owned || !StrictlyInside(owned, entry)
    ensures ExcludesDenial(reordered, [entry]) == ExcludesDenial(owned, [entry])
  {
    assert [entry][1..] == [];
    forall path: Path ensures path in owned <==> path in reordered {
      assert path in owned <==> path in multiset(owned);
      assert path in reordered <==> path in multiset(reordered);
    }
    if Covered(owned, entry) { CoveredByMembers(owned, reordered, entry); }
    if Covered(reordered, entry) { CoveredByMembers(reordered, owned, entry); }
  }

  lemma CoveredByMembers(owned: seq<Path>, reordered: seq<Path>, path: Path)
    requires Covered(owned, path) && forall root :: root in owned ==> root in reordered
    ensures Covered(reordered, path)
  {
    var i :| 0 <= i < |owned| && Within(owned[i], path);
    assert owned[i] in reordered;
  }

  // A tree at the root with two directories, one below the other.
  const SRC: Path := ["src"]
  const GEN: Path := ["src", "gen"]

  function TreeEngine(): Engine {
    Engine(map["worker" := Grants([AbsoluteRoot([])], [AbsoluteRoot([])])], [])
  }

  function TreeRequest(launcherScope: Option<seq<Resolution>>, writeScope: seq<Resolution>,
                       excludeScope: Option<seq<Resolution>>): Request
  {
    Request("worker", true, Some([]), Execution(Some([]), false, true), Some(Launch(Some([]), Some([]), launcherScope)),
            Some(writeScope), excludeScope)
  }

  /** In that tree every scope the launcher may give is accepted. */
  lemma TreeAccepts(request: Request, entry: Path)
    requires request.launch.Some? && request.writeScope == Some([Some(entry)])
    requires request == TreeRequest(request.launch.value.writeScope, [Some(entry)], request.excludeScope)
    requires Within([], entry) && ScopeResolves(request)
    requires request.launch.value.writeScope.Some? ==> Covered(Values(request.launch.value.writeScope.value), entry)
    requires request.excludeScope.Some? ==> ExclusionsFit([entry], Values(request.excludeScope.value))
    ensures WriteLaunch(TreeEngine(), request)
  {
    var engine := TreeEngine();
    var roots := RootsAt([AbsoluteRoot([])], []);
    assert roots[0] == [];
    assert Covered(roots, []);
    assert OwnedRoots(AssignedScope(request)) == [entry];
    forall path | Covered([entry], path) ensures Grantable(engine, request, path) {
      AcceptedEntryCoversGrantable(engine, request, entry, path);
    }
    LaunchAcceptedExactly(engine, request);
  }

  /**
    A parent's exclusions are not carried: a child is measured against the parent's write
    scope alone, so it can be handed a path its launcher had carved out.
   */
  lemma ExclusionsAreNotCarried() returns (parent: Request, child: Request)
    ensures Chain(TreeEngine(), [parent, child]) && parent.writeScope.Some?
    ensures ScopeResolves(parent) && ScopeResolves(child)
    ensures exists path :: OwnsPath(AssignedScope(child), path) && !OwnsPath(AssignedScope(parent), path)
  {
    parent := TreeRequest(None, [Some(SRC)], Some([Some(GEN)]));
    child := TreeRequest(Some([Some(SRC)]), [Some(GEN)], None);
    assert "src"[0] == 's' && "gen"[0] == 'g';
    assert Within([], SRC) && Within([], GEN) && Within(SRC, GEN);
    assert Values([Some(GEN)])[0] == GEN && Values([Some(SRC)])[0] == SRC;
    assert FirstContaining([SRC], GEN) == Some(SRC);
    TreeAccepts(parent, SRC);
    TreeAccepts(child, GEN);
    assert Within(GEN, GEN);
    assert OwnsPath(AssignedScope(child), GEN) by { assert OwnedRoots(AssignedScope(child))[0] == GEN; }
    assert Excluded(AssignedScope(parent).excludeScope, GEN) by {
      assert AssignedScope(parent).excludeScope.value[0] == GEN;
    }
  }

  const EXECUTIONS: Path := ["e"]

  /** A dotted directory inside a protected root can be handed out. */
  lemma DottedScopeIsGranted() returns (engine: Engine, request: Request)
    ensures engine.protectedRoots == [EXECUTIONS] && WriteLaunch(engine, request) && ScopeResolves(request)
    ensures OwnsPath(AssignedScope(request), EXECUTIONS + ["..x"])
  {
    var entry := EXECUTIONS + ["..x"];
    engine := TreeEngine().(protectedRoots := [EXECUTIONS]);
    request := TreeRequest(None, [Some(entry)], None);
    assert "e"[0] == 'e' && DotDotLed("..x") && entry[1] == "..x";
    assert !Touching(engine, entry);
    GrantedOverDots(engine, request, entry);
    assert OwnedRoots(AssignedScope(request))[0] == entry && Within(entry, entry);
  }

  /** A protected root with a dotted name does not stop a launch over everything. */
  lemma DottedProtectionIsIgnored() returns (engine: Engine, request: Request)
    ensures engine.protectedRoots == [["..e"]] && WriteLaunch(engine, request) && ScopeResolves(request)
    ensures request.writeScope.None? && OwnsOnDisk(AssignedScope(request), ["..e"])
  {
    engine := TreeEngine().(protectedRoots := [["..e"]]);
    request := TreeRequest(None, [], None).(writeScope := None);
    assert DotDotLed("..e") && ["..e"][0] == "..e";
    assert !Touching(engine, []);
    GrantedOverDots(engine, request, []);
    assert OwnedRoots(AssignedScope(request))[0] == [];
  }

  lemma GrantedOverDots(engine: Engine, request: Request, root: Path)
    requires engine.definitions == TreeEngine().definitions && !Touching(engine, root) && Within([], root)
    requires request == TreeRequest(None, [Some(root)], None)
          || (root == [] && request == TreeRequest(None, [], None).(writeScope := None))
    ensures WriteLaunch(engine, request) && ScopeResolves(request) && OwnedRoots(AssignedScope(request)) == [root]
  {
    var all := RootsAt([AbsoluteRoot([])], []);
    assert all[0] == [];
    assert Covered(all, []);
    if request.writeScope.Some? {
      assert Values([Some(root)]) == [root];
      EntriesAccepted(engine, [], [root]);
    }
  }
}
