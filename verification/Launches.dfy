/**
  Policy and delegation together (src/delegation/delegation-service.ts): a child is reserved
  only with the scope of a request that `decide` did not deny, asked under the write scope in
  its parent's snapshot. What that makes of whole runs.
 */
module Launches {
  import opened Wrappers
  import opened Paths
  import opened Assignment
  import opened Policy
  import opened Delegation

  /** The policy engine, and the project a workspace belongs to. */
  datatype Service = Service(engine: Engine, projectOf: Path -> Path)

  /** One move of the service: asking for a child, or any of its later steps. */
  datatype Move = Ask(parent: nat, request: Request) | Go(step: Step)

  function Resolved(writeScope: Option<seq<Path>>): Option<seq<Resolution>> {
    if writeScope.None? then None
    else Some(seq(|writeScope.value|, i requires 0 <= i < |writeScope.value| => Some(writeScope.value[i])))
  }

  /** A launch of which policy denies nothing, whether it may write or only read. */
  predicate Granted(service: Service, request: Request) {
    request.launch.Some? && !Decide(service.engine, request).Deny?
  }

  predicate MayMove(service: Service, graph: Graph, move: Move) {
    match move
    case Ask(parent, request) =>
      && parent < |graph| && graph[parent].phase.Running? && Granted(service, request)
      && request.launch.value.root == Some(graph[parent].scope.workspace)
      && request.launch.value.project == Some(service.projectOf(graph[parent].scope.workspace))
      && request.launch.value.writeScope == Resolved(graph[parent].scope.writeScope)
    case Go(step) => !step.Reserve? && Delegation.Enabled(graph, step)
  }

  lemma GrantedScope(service: Service, request: Request, parent: Option<seq<Path>>)
    requires Granted(service, request) && request.launch.value.writeScope == Resolved(parent)
    ensures ScopeResolves(request) && RootsInside(AssignedScope(request))
    ensures !request.write ==> AssignedScope(request) == Scope(request.path.value, None, None)
    ensures request.launch.value.root.Some? && request.launch.value.project.Some?
    ensures Within(request.launch.value.root.value, request.path.value)
         || Within(request.launch.value.project.value, request.path.value)
  {
    if request.write {
      LaunchIsConfined(service.engine, request);
      LaunchAcceptedExactly(service.engine, request);
    } else if request.writeScope.Some? || request.excludeScope.Some? {
      ReadScopeDenied(service.engine, request);
    } else {
      ReadLaunchDecidedExactly(service.engine, request);
    }
  }

  /** What the move does to the graph. */
  function StepOf(service: Service, graph: Graph, move: Move): (step: Step)
    requires MayMove(service, graph, move)
    ensures Delegation.Enabled(graph, step)
  {
    match move
    case Ask(parent, request) =>
      GrantedScope(service, request, graph[parent].scope.writeScope);
      Reserve(parent, request.write, AssignedScope(request))
    case Go(step) => step
  }

  function After(service: Service, graph: Graph, move: Move): (next: Graph)
    requires Tree(graph) && MayMove(service, graph, move)
    ensures Tree(next)
  {
    Apply(graph, StepOf(service, graph, move))
  }

  predicate Moves(service: Service, graph: Graph, moves: seq<Move>)
    requires Tree(graph)
    decreases |moves|
  {
    moves == [] || (MayMove(service, graph, moves[0]) && Moves(service, After(service, graph, moves[0]), moves[1..]))
  }

  /** The delegation steps of a run of moves. */
  function StepsOf(service: Service, graph: Graph, moves: seq<Move>): (steps: seq<Step>)
    requires Tree(graph) && Moves(service, graph, moves)
    decreases |moves|
  {
    if moves == [] then []
    else [StepOf(service, graph, moves[0])] + StepsOf(service, After(service, graph, moves[0]), moves[1..])
  }

  /** The tree after all the moves. */
  function AfterAll(service: Service, graph: Graph, moves: seq<Move>): Graph
    requires Tree(graph) && Moves(service, graph, moves)
    decreases |moves|
  {
    if moves == [] then graph else AfterAll(service, After(service, graph, moves[0]), moves[1..])
  }

  lemma MovesFirst(service: Service, graph: Graph, move: Move, rest: seq<Move>)
    requires Tree(graph) && MayMove(service, graph, move) && Moves(service, After(service, graph, move), rest)
    ensures Moves(service, graph, [move] + rest)
    ensures AfterAll(service, graph, [move] + rest) == AfterAll(service, After(service, graph, move), rest)
  {
    assert ([move] + rest)[1..] == rest;
  }

  /** A child that policy lets through, and whose scope is clear, can be brought to run with just that scope. */
  lemma AcceptedChildRuns(service: Service, graph: Graph, parent: nat, request: Request) returns (moves: seq<Move>)
    requires Tree(graph) && MayMove(service, graph, Ask(parent, request))
    requires Clear(After(service, graph, Ask(parent, request)), |graph|)
    ensures Moves(service, graph, moves)
    ensures var next := AfterAll(service, graph, moves);
            && |next| == |graph| + 1 && next[|graph|].parent == Some(parent) && next[|graph|].phase.Running?
            && next[|graph|].writes == request.write && next[|graph|].scope == AssignedScope(request)
  {
    var child := |graph|;
    var asked := After(service, graph, Ask(parent, request));
    var checked := After(service, asked, Go(Check(child)));
    moves := [Ask(parent, request)] + ([Go(Check(child))] + ([Go(Materialize(child))] + []));
    MovesFirst(service, checked, Go(Materialize(child)), []);
    MovesFirst(service, asked, Go(Check(child)), [Go(Materialize(child))] + []);
    MovesFirst(service, graph, Ask(parent, request), [Go(Check(child))] + ([Go(Materialize(child))] + []));
  }

  lemma {:induction false} MovesAreRuns(service: Service, graph: Graph, moves: seq<Move>)
    requires Tree(graph) && Moves(service, graph, moves)
    ensures Run(graph, StepsOf(service, graph, moves))
    ensures AfterSteps(graph, StepsOf(service, graph, moves)) == AfterAll(service, graph, moves)
    decreases |moves|
  {
    if moves != [] {
      var step, next := StepOf(service, graph, moves[0]), After(service, graph, moves[0]);
      MovesAreRuns(service, next, moves[1..]);
      assert ([step] + StepsOf(service, next, moves[1..]))[1..] == StepsOf(service, next, moves[1..]);
    }
  }

  // ----- What every child of a run may write

  /**
    The node works in its parent's workspace or in the project of that, whether it writes or
    only reads. Whatever lies at or below a writer's roots lies in its workspace and below the roots of a
    scoped parent, by the test as on disk; the test finds nothing protected there, and on disk
    nothing protected is there exactly when the protected roots are plainly apart.
   */
  ghost predicate Confined(service: Service, graph: Graph, i: nat)
    requires i < |graph|
  {
    var node := graph[i];
    && (node.scope.writeScope.Some? ==> node.writes)
    && (node.parent.Some? && node.parent.value < |graph| ==>
          var above := graph[node.parent.value].scope.workspace;
          Within(above, node.scope.workspace) || Within(service.projectOf(above), node.scope.workspace))
    && (node.writes && node.parent.Some? ==>
          && (forall path :: Covered(OwnedRoots(node.scope), path) ==>
                && Within(node.scope.workspace, path) && !Covered(service.engine.protectedRoots, path)
                && (HasScopedParent(graph, i) ==> Covered(ParentScope(graph, i), path)))
          && (forall path :: Under(OwnedRoots(node.scope), path) ==>
                node.scope.workspace <= path && (HasScopedParent(graph, i) ==> Under(ParentScope(graph, i), path)))
          && (SparesProtected(service.engine, node.scope) <==>
                PairsPlain(service.engine.protectedRoots, OwnedRoots(node.scope))))
  }

  predicate HasScopedParent(graph: Graph, i: nat)
    requires i < |graph|
  {
    && graph[i].parent.Some? && graph[i].parent.value < |graph|
    && graph[graph[i].parent.value].scope.writeScope.Some?
  }

  function ParentScope(graph: Graph, i: nat): seq<Path>
    requires i < |graph| && HasScopedParent(graph, i)
  {
    graph[graph[i].parent.value].scope.writeScope.value
  }

  ghost predicate AllConfined(service: Service, graph: Graph) {
    forall i :: 0 <= i < |graph| ==> Confined(service, graph, i)
  }

  lemma AskConfines(service: Service, graph: Graph, parent: nat, request: Request)
    requires Tree(graph) && MayMove(service, graph, Ask(parent, request))
    ensures var next := After(service, graph, Ask(parent, request));
            |next| == |graph| + 1 && Confined(service, next, |graph|)
  {
    var parentScope := graph[parent].scope.writeScope;
    GrantedScope(service, request, parentScope);
    if request.write {
      forall path | Covered(OwnedRoots(AssignedScope(request)), path) ensures Grantable(service.engine, request, path) {
        RegionIsGrantable(service.engine, request, path);
      }
      forall path | Under(OwnedRoots(AssignedScope(request)), path)
        ensures request.path.value <= path
        ensures request.launch.value.writeScope.Some? ==> Under(Values(request.launch.value.writeScope.value), path)
      {
        ConfinedOnDisk(service.engine, request, path);
      }
      ProtectedExactly(service.engine, request);
      if parentScope.Some? {
        assert Values(Resolved(parentScope).value) == parentScope.value;
      }
    }
  }

  lemma MoveKeepsConfined(service: Service, graph: Graph, move: Move)
    requires Tree(graph) && AllConfined(service, graph) && MayMove(service, graph, move)
    ensures AllConfined(service, After(service, graph, move))
  {
    var next := After(service, graph, move);
    if move.Ask? { AskConfines(service, graph, move.parent, move.request); }
    forall i | 0 <= i < |graph| ensures Confined(service, next, i) {
      assert Confined(service, graph, i);
      ConfinementKept(service, graph, next, i);
    }
  }

  /** Confinement looks at scopes, parents and modes alone. */
  lemma ConfinementKept(service: Service, before: Graph, after: Graph, i: nat)
    requires Tree(before) && i < |before| <= |after| && Confined(service, before, i)
    requires forall k :: 0 <= k < |before| ==>
               after[k].parent == before[k].parent && after[k].writes == before[k].writes
               && after[k].scope == before[k].scope
    ensures Confined(service, after, i)
  {
    assert HasScopedParent(after, i) <==> HasScopedParent(before, i);
  }

  ghost predicate AlwaysConfined(service: Service, graph: Graph, moves: seq<Move>)
    requires Tree(graph) && Moves(service, graph, moves)
    decreases |moves|
  {
    && AllConfined(service, graph)
    && (moves != [] ==> AlwaysConfined(service, After(service, graph, moves[0]), moves[1..]))
  }

  lemma {:induction false} MovesKeepConfined(service: Service, graph: Graph, moves: seq<Move>)
    requires Tree(graph) && Moves(service, graph, moves) && AllConfined(service, graph)
    ensures AlwaysConfined(service, graph, moves)
    decreases |moves|
  {
    if moves != [] {
      MoveKeepsConfined(service, graph, moves[0]);
      MovesKeepConfined(service, After(service, graph, moves[0]), moves[1..]);
    }
  }

  /**
    From a root with any scope policy gives out, over any run of asked-for launches and their
    steps: every child, reader or writer, stays confined in every state, and in either reading
    unrelated live writers own no common path in any state if and only if no materialization was
    raced and, on disk, no check had missed a running writer.
   */
  lemma LaunchedRunsAreSafe(service: Service, writes: bool, scope: Scope, moves: seq<Move>, reading: Reading)
    requires RootsInside(scope) && (scope.writeScope.Some? ==> writes)
    requires Moves(service, Launched(writes, scope), moves)
    ensures var root := Launched(writes, scope);
            var steps := StepsOf(service, root, moves);
            && AlwaysConfined(service, root, moves) && Run(root, steps)
            && (AlwaysDisjoint(root, steps, reading) <==>
                  NeverRaced(root, steps, reading) && NeverMissed(root, steps, reading))
  {
    var root := Launched(writes, scope);
    MovesKeepConfined(service, root, moves);
    MovesAreRuns(service, root, moves);
    RunExact(root, StepsOf(service, root, moves), reading);
  }

  // ----- Down the tree

  /** Every node from the parent of `i` up to `ancestor` has a write scope of its own. */
  predicate ScopedUpTo(graph: Graph, i: nat, ancestor: nat)
    requires Tree(graph) && i < |graph|
  {
    && ancestor in Ancestors(graph, i)
    && forall k :: k in Ancestors(graph, i) && k >= ancestor ==> k < |graph| && graph[k].scope.writeScope.Some?
  }

  lemma {:induction false} AncestorsPrecede(graph: Graph, i: nat)
    requires Tree(graph) && i < |graph|
    ensures forall k :: k in Ancestors(graph, i) ==> k < i
    decreases i
  {
    if graph[i].parent.Some? { AncestorsPrecede(graph, graph[i].parent.value); }
  }

  /**
    In every such state the regions of a branch only shrink: what a writer may write lies in
    every scoped ancestor's roots, by the test as on disk.
   */
  lemma {:induction false} BranchesShrink(service: Service, graph: Graph, i: nat, ancestor: nat, path: Path)
    requires Tree(graph) && AllConfined(service, graph) && i < |graph| && ScopedUpTo(graph, i, ancestor)
    requires graph[i].writes
    ensures ancestor < |graph|
    ensures Covered(OwnedRoots(graph[i].scope), path) ==> Covered(OwnedRoots(graph[ancestor].scope), path)
    ensures Under(OwnedRoots(graph[i].scope), path) ==> Under(OwnedRoots(graph[ancestor].scope), path)
    decreases i
  {
    var parent := graph[i].parent.value;
    assert Ancestors(graph, i) == {parent} + Ancestors(graph, parent);
    AncestorsPrecede(graph, parent);
    assert Confined(service, graph, i) && Confined(service, graph, parent);
    if parent != ancestor { BranchesShrink(service, graph, parent, ancestor, path); }
  }
}
