/**
  Write ownership over a whole delegation tree (src/delegation/delegation-service.ts).

  An execution id is its node's position in the graph; a parent always precedes its children.
  `delegate` reserves a node, compares its scope with every running write execution that is
  not an ancestor, and only then writes the policy snapshot others can compare against. The
  awaits between those three actions let other delegations run, so they are three steps here.
 */
module Delegation {
  import opened Wrappers
  import opened Paths
  import opened Assignment

  /** `Reserved` and `Checked` nodes have no snapshot yet; `Running` ones do. */
  datatype Phase = Reserved | Checked | Running | Terminal

  /** `since`: the nodes that were materialized after this one passed its check. */
  datatype Node = Node(parent: Option<nat>, writes: bool, scope: Scope, phase: Phase, since: set<nat>)
  type Graph = seq<Node>

  predicate Tree(graph: Graph) {
    forall i :: 0 <= i < |graph| && graph[i].parent.Some? ==> graph[i].parent.value < i
  }

  /** The proper ancestors of a node. */
  function Ancestors(graph: Graph, id: nat): set<nat>
    requires Tree(graph) && id < |graph|
  {
    match graph[id].parent
    case None => {}
    case Some(parent) => {parent} + Ancestors(graph, parent)
  }

  predicate LiveWriter(graph: Graph, id: nat) {
    id < |graph| && graph[id].phase.Running? && graph[id].writes
  }

  /** The nodes `refuseScopeOverlap` compares a new node with. */
  predicate Compared(graph: Graph, id: nat, other: nat)
    requires Tree(graph) && id < |graph|
  {
    LiveWriter(graph, other) && other != id && other !in Ancestors(graph, id)
  }

  predicate Clear(graph: Graph, id: nat)
    requires Tree(graph) && id < |graph|
  {
    !graph[id].writes
    || forall other :: 0 <= other < |graph| && Compared(graph, id, other) ==>
          !Overlaps(graph[id].scope, graph[other].scope)
  }

  method RefuseScopeOverlap(graph: Graph, id: nat, parent: nat) returns (conflict: Option<(Path, nat)>)
    requires Tree(graph) && id < |graph| && graph[id].parent == Some(parent)
    ensures conflict.None? <==> Clear(graph, id)
    ensures conflict.Some? ==>
              var (region, other) := conflict.value;
              && Compared(graph, id, other)
              && OwnsPath(graph[id].scope, region) && OwnsPath(graph[other].scope, region)
              // the first one in the way, and where its roots are first met
              && FirstMeeting(graph[id].scope, graph[other].scope, region)
              && forall k :: 0 <= k < other && Compared(graph, id, k) ==> !Overlaps(graph[id].scope, graph[k].scope)
  {
    if !graph[id].writes { return None; }
    var ancestors: set<nat> := {};
    var cursor: Option<nat> := Some(parent);
    while cursor.Some?
      invariant cursor.Some? ==> cursor.value < |graph|
      invariant Ancestors(graph, id)
             == ancestors + if cursor.Some? then {cursor.value} + Ancestors(graph, cursor.value) else {}
      decreases if cursor.Some? then cursor.value + 1 else 0
    {
      ancestors := ancestors + {cursor.value};
      cursor := graph[cursor.value].parent;
    }
    for other := 0 to |graph|
      invariant forall k :: 0 <= k < other && Compared(graph, id, k) ==> !Overlaps(graph[id].scope, graph[k].scope)
    {
      if other == id || other in ancestors || !graph[other].phase.Running? || !graph[other].writes { continue; }
      var shared := SharedRegion(graph[id].scope, graph[other].scope);
      if shared.Some? { return Some((shared.value, other)); }
    }
    return None;
  }

  // ----- The steps of a run

  datatype Step =
    | Reserve(parent: nat, writes: bool, scope: Scope)
    | Check(id: nat)
    | Materialize(id: nat)
    | Settle(id: nat)

  /** Only a running parent authenticates, and only scopes the policy did not deny are reserved. */
  predicate Enabled(graph: Graph, step: Step) {
    match step
    case Reserve(parent, _, scope) => parent < |graph| && graph[parent].phase.Running? && RootsInside(scope)
    case Check(id) => id < |graph| && graph[id].phase.Reserved?
    case Materialize(id) => id < |graph| && graph[id].phase.Checked?
    case Settle(id) => id < |graph| && !graph[id].phase.Terminal?
  }

  function Apply(graph: Graph, step: Step): (next: Graph)
    requires Tree(graph) && Enabled(graph, step)
    ensures Tree(next)
  {
    match step
    case Reserve(parent, writes, scope) => graph + [Node(Some(parent), writes, scope, Reserved, {})]
    case Check(id) => graph[id := graph[id].(phase := if Clear(graph, id) then Checked else Terminal, since := {})]
    case Materialize(id) =>
      seq(|graph|, k requires 0 <= k < |graph| =>
        if k == id then graph[k].(phase := Running)
        else if graph[k].phase.Checked? then graph[k].(since := graph[k].since + {id})
        else graph[k])
    case Settle(id) => graph[id := graph[id].(phase := Terminal)]
  }

  /** The safety property: two live writers, neither an ancestor of the other, own no common path. */
  ghost predicate Disjoint(graph: Graph, reading: Reading)
    requires Tree(graph)
  {
    forall i: nat, j: nat :: Incomparable(graph, i, j) ==> !Share(reading, graph[i].scope, graph[j].scope)
  }

  predicate Incomparable(graph: Graph, i: nat, j: nat)
    requires Tree(graph)
  {
    && LiveWriter(graph, i) && LiveWriter(graph, j) && i != j
    && i !in Ancestors(graph, j) && j !in Ancestors(graph, i)
  }

  /** A node that passed its check is still clear of everything materialized before the check. */
  ghost predicate ClearButRivals(graph: Graph, i: nat)
    requires Tree(graph) && i < |graph|
  {
    graph[i].writes ==>
      forall j: nat :: Compared(graph, i, j) && j !in graph[i].since ==> !ShareAPath(graph[i].scope, graph[j].scope)
  }

  predicate RivalsUnrelated(graph: Graph, i: nat)
    requires Tree(graph) && i < |graph|
  {
    forall j :: j in graph[i].since ==> Started(graph, j) && j != i && j !in Ancestors(graph, i)
  }

  ghost predicate NodeInv(graph: Graph, i: nat)
    requires Tree(graph) && i < |graph|
  {
    && RootsInside(graph[i].scope)
    && (graph[i].parent.Some? ==> Started(graph, graph[i].parent.value))
    && (graph[i].phase.Checked? ==> ClearButRivals(graph, i) && RivalsUnrelated(graph, i))
  }

  /** What every step keeps, whatever the interleaving. */
  ghost predicate Inv(graph: Graph) {
    Tree(graph) && forall i :: 0 <= i < |graph| ==> NodeInv(graph, i)
  }

  predicate Started(graph: Graph, id: nat) {
    id < |graph| && (graph[id].phase.Running? || graph[id].phase.Terminal?)
  }

  lemma {:induction false} AncestorsKept(before: Graph, after: Graph, id: nat)
    requires Tree(before) && Tree(after) && id < |before| <= |after|
    requires forall k :: 0 <= k < |before| ==> after[k].parent == before[k].parent
    ensures Ancestors(after, id) == Ancestors(before, id)
    decreases id
  {
    if before[id].parent.Some? {
      AncestorsKept(before, after, before[id].parent.value);
    }
  }

  lemma AllAncestorsKept(before: Graph, after: Graph)
    requires Tree(before) && Tree(after) && |before| <= |after|
    requires forall k :: 0 <= k < |before| ==> after[k].parent == before[k].parent
    ensures forall id :: 0 <= id < |before| ==> Ancestors(after, id) == Ancestors(before, id)
  {
    forall id | 0 <= id < |before| ensures Ancestors(after, id) == Ancestors(before, id) {
      AncestorsKept(before, after, id);
    }
  }

  lemma {:induction false} AncestorsStarted(graph: Graph, id: nat)
    requires Inv(graph) && id < |graph|
    ensures forall k :: k in Ancestors(graph, id) ==> k < id && Started(graph, k)
    decreases id
  {
    assert NodeInv(graph, id);
    if graph[id].parent.Some? {
      AncestorsStarted(graph, graph[id].parent.value);
    }
  }

  lemma StepKeepsInv(graph: Graph, step: Step)
    requires Inv(graph) && Enabled(graph, step)
    ensures Inv(Apply(graph, step))
  {
    match step
    case Reserve(_, _, _) => ReserveKeepsInv(graph, step);
    case Check(id) => CheckKeepsInv(graph, id);
    case Materialize(id) => MaterializeKeepsInv(graph, id);
    case Settle(id) => SettleKeepsInv(graph, id);
  }

  lemma ReserveKeepsInv(graph: Graph, step: Step)
    requires Inv(graph) && step.Reserve? && Enabled(graph, step)
    ensures Inv(Apply(graph, step))
  {
    var next := Apply(graph, step);
    AllAncestorsKept(graph, next);
    forall i | 0 <= i < |graph| ensures NodeInv(next, i) {
      assert NodeInv(graph, i);
    }
  }

  lemma CheckKeepsInv(graph: Graph, id: nat)
    requires Inv(graph) && Enabled(graph, Check(id))
    ensures Inv(Apply(graph, Check(id)))
  {
    var next := Apply(graph, Check(id));
    AllAncestorsKept(graph, next);
    forall i | 0 <= i < |graph| ensures NodeInv(next, i) {
      assert NodeInv(graph, i);
      if i == id && Clear(graph, id) {
        forall j: nat | graph[id].writes && Compared(next, id, j)
          ensures !ShareAPath(next[id].scope, next[j].scope)
        {
          assert Compared(graph, id, j) && NodeInv(graph, j);
          OverlapExact(graph[id].scope, graph[j].scope);
        }
      }
    }
  }

  lemma MaterializeKeepsInv(graph: Graph, id: nat)
    requires Inv(graph) && Enabled(graph, Materialize(id))
    ensures Inv(Apply(graph, Materialize(id)))
  {
    var next := Apply(graph, Materialize(id));
    AllAncestorsKept(graph, next);
    forall i | 0 <= i < |graph| ensures NodeInv(next, i) {
      assert NodeInv(graph, i);
      AncestorsStarted(graph, i);
    }
  }

  lemma SettleKeepsInv(graph: Graph, id: nat)
    requires Inv(graph) && Enabled(graph, Settle(id))
    ensures Inv(Apply(graph, Settle(id)))
  {
    var next := Apply(graph, Settle(id));
    AllAncestorsKept(graph, next);
    forall i | 0 <= i < |graph| ensures NodeInv(next, i) {
      assert NodeInv(graph, i);
    }
  }

  /** Every step but `Materialize` keeps the live writers disjoint. */
  lemma OtherStepsKeepDisjoint(graph: Graph, step: Step, reading: Reading)
    requires Inv(graph) && Disjoint(graph, reading) && Enabled(graph, step) && !step.Materialize?
    ensures Disjoint(Apply(graph, step), reading)
  {
    var next := Apply(graph, step);
    AllAncestorsKept(graph, next);
    forall i: nat, j: nat | Incomparable(next, i, j)
      ensures !Share(reading, next[i].scope, next[j].scope)
    {
      assert Incomparable(graph, i, j);
    }
  }

  /** No node that was materialized since `id` was checked owns one of its paths. */
  ghost predicate RaceFree(graph: Graph, id: nat, reading: Reading)
    requires id < |graph|
  {
    graph[id].writes ==>
      forall j :: j in graph[id].since && LiveWriter(graph, j) ==> !Share(reading, graph[id].scope, graph[j].scope)
  }

  /** On disk, the check of `id` missed no scope it was compared with. */
  predicate NothingMissed(graph: Graph, id: nat, reading: Reading)
    requires Tree(graph) && id < |graph|
  {
    graph[id].writes && reading.OnDisk? ==>
      forall j :: 0 <= j < |graph| && Compared(graph, id, j) && j !in graph[id].since ==>
        !Missed(graph[id].scope, graph[j].scope)
  }

  /** Among scopes the check lets pass side by side, those that share a path on disk are the missed ones. */
  lemma SharedIsMissed(left: Scope, right: Scope, reading: Reading)
    requires RootsInside(left) && RootsInside(right) && !ShareAPath(left, right)
    ensures Share(reading, left, right) <==> reading.OnDisk? && Missed(left, right)
  {
    OverlapExact(left, right);
    OverlapMissesExactly(left, right);
  }

  /**
    Materializing keeps the writers disjoint if and only if no rival slipped in after the check
    and, on disk, the check missed none.
   */
  lemma MaterializeExact(graph: Graph, id: nat, reading: Reading)
    requires Inv(graph) && Disjoint(graph, reading) && Enabled(graph, Materialize(id))
    ensures Disjoint(Apply(graph, Materialize(id)), reading) <==>
              RaceFree(graph, id, reading) && NothingMissed(graph, id, reading)
  {
    var next := Apply(graph, Materialize(id));
    AllAncestorsKept(graph, next);
    UncontestedExactly(graph, id, reading);
    forall i | 0 <= i < |graph| ensures id !in Ancestors(graph, i) {
      AncestorsStarted(graph, i);
    }
    if Uncontested(graph, id, reading) {
      forall i: nat, j: nat | Incomparable(next, i, j)
        ensures !Share(reading, next[i].scope, next[j].scope)
      {
        if i == id {
          assert Compared(graph, id, j);
        } else if j == id {
          assert Compared(graph, id, i);
        } else {
          assert Incomparable(graph, i, j);
        }
      }
    }
    if Disjoint(next, reading) && graph[id].writes {
      forall j | 0 <= j < |graph| && Compared(graph, id, j)
        ensures !Share(reading, graph[id].scope, graph[j].scope)
      {
        assert Ancestors(next, id) == Ancestors(graph, id) && Ancestors(next, j) == Ancestors(graph, j);
        assert Incomparable(next, id, j);
      }
    }
  }

  /** No live writer that `id` has to be compared with owns one of its paths. */
  ghost predicate Uncontested(graph: Graph, id: nat, reading: Reading)
    requires Tree(graph) && id < |graph|
  {
    graph[id].writes ==>
      forall j :: 0 <= j < |graph| && Compared(graph, id, j) ==> !Share(reading, graph[id].scope, graph[j].scope)
  }

  lemma UncontestedExactly(graph: Graph, id: nat, reading: Reading)
    requires Inv(graph) && id < |graph| && graph[id].phase.Checked?
    ensures Uncontested(graph, id, reading) <==> RaceFree(graph, id, reading) && NothingMissed(graph, id, reading)
  {
    assert NodeInv(graph, id);
    if graph[id].writes {
      forall j | 0 <= j < |graph| && Compared(graph, id, j) && j !in graph[id].since
        ensures Share(reading, graph[id].scope, graph[j].scope) <==>
                  reading.OnDisk? && Missed(graph[id].scope, graph[j].scope)
      {
        assert NodeInv(graph, j);
        SharedIsMissed(graph[id].scope, graph[j].scope, reading);
      }
      forall j | j in graph[id].since && LiveWriter(graph, j) ensures Compared(graph, id, j) {}
    }
  }

  // ----- Whole runs

  predicate Run(graph: Graph, steps: seq<Step>)
    requires Tree(graph)
    decreases |steps|
  {
    steps == [] || (Enabled(graph, steps[0]) && Run(Apply(graph, steps[0]), steps[1..]))
  }

  ghost predicate AlwaysDisjoint(graph: Graph, steps: seq<Step>, reading: Reading)
    requires Tree(graph) && Run(graph, steps)
    decreases |steps|
  {
    Disjoint(graph, reading) && (steps != [] ==> AlwaysDisjoint(Apply(graph, steps[0]), steps[1..], reading))
  }

  ghost predicate NeverRaced(graph: Graph, steps: seq<Step>, reading: Reading)
    requires Tree(graph) && Run(graph, steps)
    decreases |steps|
  {
    steps != [] ==>
      && (steps[0].Materialize? ==> RaceFree(graph, steps[0].id, reading))
      && NeverRaced(Apply(graph, steps[0]), steps[1..], reading)
  }

  predicate NeverMissed(graph: Graph, steps: seq<Step>, reading: Reading)
    requires Tree(graph) && Run(graph, steps)
    decreases |steps|
  {
    steps != [] ==>
      && (steps[0].Materialize? ==> NothingMissed(graph, steps[0].id, reading))
      && NeverMissed(Apply(graph, steps[0]), steps[1..], reading)
  }

  /**
    Over any run and in either reading, the property holds in every state if and only if no
    materialization was raced and, on disk, no check had missed a running writer.
   */
  lemma {:induction false} RunExact(graph: Graph, steps: seq<Step>, reading: Reading)
    requires Inv(graph) && Disjoint(graph, reading) && Run(graph, steps)
    ensures AlwaysDisjoint(graph, steps, reading) <==>
              NeverRaced(graph, steps, reading) && NeverMissed(graph, steps, reading)
    decreases |steps|
  {
    if steps != [] {
      var next := Apply(graph, steps[0]);
      StepKeepsInv(graph, steps[0]);
      if steps[0].Materialize? {
        MaterializeExact(graph, steps[0].id, reading);
      } else {
        OtherStepsKeepDisjoint(graph, steps[0], reading);
      }
      if Disjoint(next, reading) {
        RunExact(next, steps[1..], reading);
      } else {
        NotDisjointNow(next, steps[1..], reading);
      }
    }
  }

  lemma NotDisjointNow(graph: Graph, steps: seq<Step>, reading: Reading)
    requires Tree(graph) && Run(graph, steps) && !Disjoint(graph, reading)
    ensures !AlwaysDisjoint(graph, steps, reading)
  {
  }

  /** As the test reads paths, nothing is ever missed. */
  lemma {:induction false} TestMissesNothing(graph: Graph, steps: seq<Step>)
    requires Tree(graph) && Run(graph, steps)
    ensures NeverMissed(graph, steps, ByTest)
    decreases |steps|
  {
    if steps != [] { TestMissesNothing(Apply(graph, steps[0]), steps[1..]); }
  }

  predicate AllPlain(graph: Graph) {
    forall i :: 0 <= i < |graph| ==> RootsInside(graph[i].scope) && PlainRoots(graph[i].scope)
  }

  lemma PlainMissesNothing(graph: Graph, id: nat)
    requires Tree(graph) && AllPlain(graph) && id < |graph|
    ensures NothingMissed(graph, id, OnDisk)
  {
    forall j | 0 <= j < |graph| ensures !Missed(graph[id].scope, graph[j].scope) {
      PlainRootsAreNotMissed(graph[id].scope, graph[j].scope);
    }
  }

  lemma StepKeepsPlain(graph: Graph, step: Step)
    requires Tree(graph) && AllPlain(graph) && Enabled(graph, step) && (step.Reserve? ==> PlainRoots(step.scope))
    ensures AllPlain(Apply(graph, step))
  {
  }

  /** Neither is anything on disk while all roots are plain. */
  lemma {:induction false} PlainRunsMissNothing(graph: Graph, steps: seq<Step>)
    requires Tree(graph) && Run(graph, steps) && AllPlain(graph)
    requires forall i :: 0 <= i < |steps| && steps[i].Reserve? ==> PlainRoots(steps[i].scope)
    ensures NeverMissed(graph, steps, OnDisk)
    decreases |steps|
  {
    if steps != [] {
      StepKeepsPlain(graph, steps[0]);
      PlainRunsMissNothing(Apply(graph, steps[0]), steps[1..]);
      if steps[0].Materialize? { PlainMissesNothing(graph, steps[0].id); }
    }
  }

  /** A fresh tree: its root, running, with the scope policy gave it. */
  function Launched(writes: bool, scope: Scope): (graph: Graph)
    ensures Tree(graph)
  {
    [Node(None, writes, scope, Running, {})]
  }

  /** No check starts while another node sits between its check and its snapshot. */
  predicate Serial(graph: Graph, steps: seq<Step>)
    requires Tree(graph) && Run(graph, steps)
    decreases |steps|
  {
    steps != [] ==>
      && (steps[0].Check? ==> forall k :: 0 <= k < |graph| ==> !graph[k].phase.Checked?)
      && Serial(Apply(graph, steps[0]), steps[1..])
  }

  /**
    With check and snapshot taken as one step, no run ever lets two unrelated writers own a path
    by the test, nor on disk unless a check missed a running writer; with plain roots none does.
   */
  lemma SerialRunsAreSafe(writes: bool, scope: Scope, steps: seq<Step>)
    requires RootsInside(scope)
    requires Run(Launched(writes, scope), steps) && Serial(Launched(writes, scope), steps)
    ensures AlwaysDisjoint(Launched(writes, scope), steps, ByTest)
    ensures AlwaysDisjoint(Launched(writes, scope), steps, OnDisk) <==>
              NeverMissed(Launched(writes, scope), steps, OnDisk)
    ensures PlainRoots(scope) && (forall i :: 0 <= i < |steps| && steps[i].Reserve? ==> PlainRoots(steps[i].scope)) ==>
              AlwaysDisjoint(Launched(writes, scope), steps, OnDisk)
  {
    var root := Launched(writes, scope);
    SerialNeverRaced(root, steps, ByTest);
    SerialNeverRaced(root, steps, OnDisk);
    TestMissesNothing(root, steps);
    RunExact(root, steps, ByTest);
    RunExact(root, steps, OnDisk);
    if PlainRoots(scope) && forall i :: 0 <= i < |steps| && steps[i].Reserve? ==> PlainRoots(steps[i].scope) {
      PlainRunsMissNothing(root, steps);
    }
  }

  /** One delegation at a time, each from its reservation to its snapshot or its refusal, and nodes that settle. */
  datatype Turn = Delegation(parent: nat, writes: bool, scope: Scope) | Settling(id: nat)

  function TurnSteps(graph: Graph, turn: Turn): seq<Step>
    requires Tree(graph)
    requires turn.Delegation? ==> Enabled(graph, Reserve(turn.parent, turn.writes, turn.scope))
  {
    match turn
    case Delegation(parent, writes, scope) =>
      var reserved := Apply(graph, Reserve(parent, writes, scope));
      [Reserve(parent, writes, scope), Check(|graph|)] + if Clear(reserved, |graph|) then [Materialize(|graph|)] else []
    case Settling(id) => [Settle(id)]
  }

  /** A running parent delegates, or a node that is running settles. */
  predicate CanTakeTurn(graph: Graph, turn: Turn) {
    match turn
    case Delegation(parent, _, scope) => parent < |graph| && graph[parent].phase == Running && RootsInside(scope)
    case Settling(id) => id < |graph| && graph[id].phase == Running
  }

  predicate BetweenTurns(graph: Graph) {
    forall k :: 0 <= k < |graph| ==> graph[k].phase == Running || graph[k].phase == Terminal
  }

  /** Steps taken one after another. */
  function AfterSteps(graph: Graph, steps: seq<Step>): (next: Graph)
    requires Tree(graph) && Run(graph, steps)
    ensures Tree(next)
    decreases |steps|
  {
    if steps == [] then graph else AfterSteps(Apply(graph, steps[0]), steps[1..])
  }

  lemma {:induction false} SerialStep(graph: Graph, step: Step, rest: seq<Step>)
    requires Tree(graph) && Enabled(graph, step) && Run(Apply(graph, step), rest) && Serial(Apply(graph, step), rest)
    requires step.Check? ==> forall k :: 0 <= k < |graph| ==> graph[k].phase != Checked
    ensures Run(graph, [step] + rest) && Serial(graph, [step] + rest)
    ensures AfterSteps(graph, [step] + rest) == AfterSteps(Apply(graph, step), rest)
  {
    assert ([step] + rest)[1..] == rest;
  }

  /** Each turn is a serial run, and it leaves the tree between turns again. */
  lemma TurnIsSerial(graph: Graph, turn: Turn)
    requires Tree(graph) && BetweenTurns(graph) && CanTakeTurn(graph, turn)
    ensures var steps := TurnSteps(graph, turn);
            && Run(graph, steps) && Serial(graph, steps) && BetweenTurns(AfterSteps(graph, steps))
            && (turn.Settling? ==> AfterSteps(graph, steps) == graph[turn.id := graph[turn.id].(phase := Terminal)])
            && (turn.Delegation? ==> |AfterSteps(graph, steps)| == |graph| + 1)
  {
    match turn
    case Settling(id) => SerialStep(graph, Settle(id), []);
    case Delegation(parent, writes, scope) => DelegationIsSerial(graph, parent, writes, scope);
  }

  lemma DelegationIsSerial(graph: Graph, parent: nat, writes: bool, scope: Scope)
    requires Tree(graph) && BetweenTurns(graph) && CanTakeTurn(graph, Delegation(parent, writes, scope))
    ensures var steps := TurnSteps(graph, Delegation(parent, writes, scope));
            && Run(graph, steps) && Serial(graph, steps) && BetweenTurns(AfterSteps(graph, steps))
            && |AfterSteps(graph, steps)| == |graph| + 1
  {
    var id, step := |graph|, Reserve(parent, writes, scope);
    var reserved := Apply(graph, step);
    var last := LastOfTurn(reserved, id);
    SerialStep(reserved, Check(id), last);
    SerialStep(graph, step, [Check(id)] + last);
    assert TurnSteps(graph, Delegation(parent, writes, scope)) == [step] + ([Check(id)] + last);
  }

  /** After its check a reserved node gets its snapshot, or it is terminal already. */
  lemma LastOfTurn(reserved: Graph, id: nat) returns (last: seq<Step>)
    requires Tree(reserved) && id < |reserved| && reserved[id].phase == Reserved
    requires forall k :: 0 <= k < |reserved| && k != id ==>
               reserved[k].phase == Running || reserved[k].phase == Terminal
    ensures last == if Clear(reserved, id) then [Materialize(id)] else []
    ensures var checked := Apply(reserved, Check(id));
            && Run(checked, last) && Serial(checked, last) && BetweenTurns(AfterSteps(checked, last))
            && |AfterSteps(checked, last)| == |reserved|
  {
    var checked := Apply(reserved, Check(id));
    last := [];
    if Clear(reserved, id) {
      last := [Materialize(id)] + [];
      SerialStep(checked, Materialize(id), []);
    }
  }

  lemma {:induction false} SerialThen(graph: Graph, a: seq<Step>, b: seq<Step>)
    requires Tree(graph) && Run(graph, a) && Serial(graph, a)
    requires Run(AfterSteps(graph, a), b) && Serial(AfterSteps(graph, a), b)
    ensures Run(graph, a + b) && Serial(graph, a + b)
    ensures AfterSteps(graph, a + b) == AfterSteps(AfterSteps(graph, a), b)
    decreases |a|
  {
    if a == [] {
      assert a + b == b;
    } else {
      assert (a + b)[0] == a[0] && (a + b)[1..] == a[1..] + b;
      SerialThen(Apply(graph, a[0]), a[1..], b);
    }
  }

  /** Turns that can be taken one after another. */
  predicate Turns(graph: Graph, turns: seq<Turn>)
    requires Tree(graph) && BetweenTurns(graph)
    decreases |turns|
  {
    turns != [] ==>
      && CanTakeTurn(graph, turns[0])
      && (TurnIsSerial(graph, turns[0]);
          Turns(AfterSteps(graph, TurnSteps(graph, turns[0])), turns[1..]))
  }

  function AllSteps(graph: Graph, turns: seq<Turn>): seq<Step>
    requires Tree(graph) && BetweenTurns(graph) && Turns(graph, turns)
    decreases |turns|
  {
    if turns == [] then []
    else
      TurnIsSerial(graph, turns[0]);
      var steps := TurnSteps(graph, turns[0]);
      steps + AllSteps(AfterSteps(graph, steps), turns[1..])
  }

  function Delegations(turns: seq<Turn>): nat {
    if turns == [] then 0 else (if turns[0].Delegation? then 1 else 0) + Delegations(turns[1..])
  }

  /** Delegations that are never interrupted are a serial run, so what is proved of serial runs holds of them. */
  lemma {:induction false} TurnsAreSerial(graph: Graph, turns: seq<Turn>)
    requires Tree(graph) && BetweenTurns(graph) && Turns(graph, turns)
    ensures Run(graph, AllSteps(graph, turns)) && Serial(graph, AllSteps(graph, turns))
    ensures |AfterSteps(graph, AllSteps(graph, turns))| == |graph| + Delegations(turns)
    decreases |turns|
  {
    if turns != [] {
      TurnIsSerial(graph, turns[0]);
      var steps := TurnSteps(graph, turns[0]);
      TurnsAreSerial(AfterSteps(graph, steps), turns[1..]);
      SerialThen(graph, steps, AllSteps(AfterSteps(graph, steps), turns[1..]));
    }
  }

  /** With delegations taken in turn, unrelated writers own no common path in any state, even within a turn. */
  lemma TurnsAreSafe(writes: bool, scope: Scope, turns: seq<Turn>)
    requires RootsInside(scope) && Turns(Launched(writes, scope), turns)
    ensures var root := Launched(writes, scope);
            Run(root, AllSteps(root, turns)) && AlwaysDisjoint(root, AllSteps(root, turns), ByTest)
  {
    TurnsAreSerial(Launched(writes, scope), turns);
    SerialRunsAreSafe(writes, scope, AllSteps(Launched(writes, scope), turns));
  }

  predicate OneChecked(graph: Graph) {
    && (forall k :: 0 <= k < |graph| && graph[k].phase.Checked? ==> graph[k].since == {})
    && (forall k, l :: 0 <= k < l < |graph| ==> !graph[k].phase.Checked? || !graph[l].phase.Checked?)
  }

  lemma {:induction false} SerialNeverRaced(graph: Graph, steps: seq<Step>, reading: Reading)
    requires Tree(graph) && OneChecked(graph) && Run(graph, steps) && Serial(graph, steps)
    ensures NeverRaced(graph, steps, reading)
    decreases |steps|
  {
    if steps != [] {
      SerialNeverRaced(Apply(graph, steps[0]), steps[1..], reading);
    }
  }

  lemma RunCons(graph: Graph, step: Step, rest: seq<Step>, reading: Reading)
    requires Tree(graph) && Enabled(graph, step) && Run(Apply(graph, step), rest)
    ensures Run(graph, [step] + rest)
    ensures !AlwaysDisjoint(Apply(graph, step), rest, reading) ==> !AlwaysDisjoint(graph, [step] + rest, reading)
  {
  }

  /** Two siblings that are both checked before either has a snapshot end up writing the same workspace. */
  lemma RacedRunShares(whole: Scope, first: Step, second: Step)
    requires whole == Scope([], None, None) && first == second == Reserve(0, true, whole)
    ensures var steps := [first] + ([second] + ([Check(1)] + ([Check(2)]
                         + ([Materialize(1)] + ([Materialize(2)] + [])))));
            Run(Launched(true, whole), steps) && !AlwaysDisjoint(Launched(true, whole), steps, ByTest)
  {
    var root := Node(None, true, whole, Running, {});
    var idle := Node(Some(0), true, whole, Reserved, {});
    var passed := idle.(phase := Checked);
    var g0, g1, g2 := [root], [root, idle], [root, idle, idle];
    var g3, g4 := [root, passed, idle], [root, passed, passed];
    var live := passed.(phase := Running);
    var g5, g6 := [root, live, passed.(since := {1})], [root, live, live.(since := {1})];
    assert Apply(g0, first) == g1 && Apply(g1, second) == g2;
    RacedChecks(g2, g3, g4);
    assert passed.since + {1} == {1};
    assert Apply(g4, Materialize(1)) == g5;
    assert Apply(g5, Materialize(2)) == g6;
    TwoWritersShare(g6, whole);
    RunCons(g5, Materialize(2), [], ByTest);
    RunCons(g4, Materialize(1), [Materialize(2)] + [], ByTest);
    RunCons(g3, Check(2), [Materialize(1)] + ([Materialize(2)] + []), ByTest);
    RunCons(g2, Check(1), [Check(2)] + ([Materialize(1)] + ([Materialize(2)] + [])), ByTest);
    RunCons(g1, second, [Check(1)] + ([Check(2)] + ([Materialize(1)] + ([Materialize(2)] + []))), ByTest);
    RunCons(g0, first, [second] + ([Check(1)] + ([Check(2)] + ([Materialize(1)] + ([Materialize(2)] + [])))), ByTest);
  }

  lemma RacedChecks(g2: Graph, g3: Graph, g4: Graph)
    requires |g2| == 3 && g2[0].parent == None && g2[1].parent == g2[2].parent == Some(0)
    requires g2[1].phase == g2[2].phase == Reserved && g2[1].since == g2[2].since == {}
    requires g3 == g2[1 := g2[1].(phase := Checked)] && g4 == g3[2 := g3[2].(phase := Checked)]
    ensures Tree(g2) && Apply(g2, Check(1)) == g3 && Apply(g3, Check(2)) == g4
  {
  }

  lemma TwoWritersShare(graph: Graph, whole: Scope)
    requires Tree(graph) && |graph| == 3 && LiveWriter(graph, 1) && LiveWriter(graph, 2)
    requires graph[1].parent == graph[2].parent == Some(0) && graph[0].parent == None
    requires graph[1].scope == graph[2].scope == whole == Scope([], None, None)
    ensures !Disjoint(graph, ByTest)
  {
    assert Ancestors(graph, 0) == {};
    assert Ancestors(graph, 1) == {0} + Ancestors(graph, 0) && Ancestors(graph, 2) == {0} + Ancestors(graph, 0);
    assert Incomparable(graph, 1, 2);
    assert OwnedRoots(whole)[0] == [] && Within([], []);
    assert OwnsPath(whole, []);
  }

  const LEFT := Scope(["w"], Some([["w", "a"]]), None)
  const RIGHT := Scope(["w"], Some([["w", "a", "..x"]]), None)

  /**
    One sibling after the other, with nothing between check and snapshot, and one lies inside
    the other all the same.
   */
  lemma DottedSiblingsShare(whole: Scope)
    requires whole == Scope(["w"], None, None)
    ensures var steps := [Reserve(0, true, LEFT)] + ([Check(1)] + ([Materialize(1)]
                         + ([Reserve(0, true, RIGHT)] + ([Check(2)] + ([Materialize(2)] + [])))));
            Run(Launched(true, whole), steps) && !AlwaysDisjoint(Launched(true, whole), steps, OnDisk)
  {
    var root, left, right := Node(None, true, whole, Running, {}), Sibling(LEFT, Reserved), Sibling(RIGHT, Reserved);
    var g0, g1, g2 := [root], [root, left], [root, Sibling(LEFT, Checked)];
    var g3, g4 := [root, Sibling(LEFT, Running)], [root, Sibling(LEFT, Running), right];
    var g5, g6 := g4[2 := Sibling(RIGHT, Checked)], g4[2 := Sibling(RIGHT, Running)];
    DottedSiblingIsMissed();
    assert Within(["w"], LEFT.writeScope.value[0]) && Within(["w"], RIGHT.writeScope.value[0]) by {
      assert OwnedRoots(LEFT)[0] == LEFT.writeScope.value[0] && OwnedRoots(RIGHT)[0] == RIGHT.writeScope.value[0];
    }
    assert Apply(g0, Reserve(0, true, LEFT)) == g1;
    SiblingPasses(g1, 1);
    assert Apply(g1, Check(1)) == g2 && Apply(g2, Materialize(1)) == g3;
    assert Apply(g3, Reserve(0, true, RIGHT)) == g4;
    SiblingPasses(g4, 2);
    assert Apply(g4, Check(2)) == g5 && Apply(g5, Materialize(2)) == g6;
    BothRun(g6);
    var last := [Reserve(0, true, RIGHT)] + ([Check(2)] + ([Materialize(2)] + []));
    RunCons(g5, Materialize(2), [], OnDisk);
    RunCons(g4, Check(2), [Materialize(2)] + [], OnDisk);
    RunCons(g3, Reserve(0, true, RIGHT), [Check(2)] + ([Materialize(2)] + []), OnDisk);
    RunCons(g2, Materialize(1), last, OnDisk);
    RunCons(g1, Check(1), [Materialize(1)] + last, OnDisk);
    RunCons(g0, Reserve(0, true, LEFT), [Check(1)] + ([Materialize(1)] + last), OnDisk);
  }

  function Sibling(scope: Scope, phase: Phase): Node {
    Node(Some(0), true, scope, phase, {})
  }

  lemma SiblingPasses(graph: Graph, id: nat)
    requires 2 <= |graph| <= 3 && id == |graph| - 1 && graph[0].parent == None
    requires graph[id] == Sibling(if id == 1 then LEFT else RIGHT, Reserved)
    requires id == 2 ==> graph[1] == Sibling(LEFT, Running)
    ensures Tree(graph) && Clear(graph, id)
  {
    DottedSiblingIsMissed();
    assert !Overlaps(RIGHT, LEFT) by {
      OverlapMissesExactly(LEFT, RIGHT);
      OverlapExact(LEFT, RIGHT);
      OverlapExact(RIGHT, LEFT);
    }
  }

  lemma BothRun(graph: Graph)
    requires |graph| == 3 && graph[0].parent == None
    requires graph[1] == Sibling(LEFT, Running) && graph[2] == Sibling(RIGHT, Running)
    ensures Tree(graph) && !Disjoint(graph, OnDisk)
  {
    DottedSiblingIsMissed();
    assert Ancestors(graph, 0) == {};
    assert Ancestors(graph, 1) == {0} + Ancestors(graph, 0) && Ancestors(graph, 2) == {0} + Ancestors(graph, 0);
    assert Incomparable(graph, 1, 2);
  }

  // ----- The service, when nothing else runs between its steps

  /** A live writer a new child of `parent` is compared with. */
  predicate Unrelated(graph: Graph, parent: nat, other: nat)
    requires Tree(graph) && parent < |graph|
  {
    LiveWriter(graph, other) && other != parent && other !in Ancestors(graph, parent)
  }

  /** What the check says about a child that was just reserved. */
  lemma ReservedIsJudged(graph: Graph, parent: nat, writes: bool, scope: Scope)
    requires Inv(graph) && Enabled(graph, Reserve(parent, writes, scope))
    ensures var next := Apply(graph, Reserve(parent, writes, scope));
            Clear(next, |graph|) <==>
              !writes || forall k :: 0 <= k < |graph| && Unrelated(graph, parent, k) ==>
                           !ShareAPath(scope, graph[k].scope)
    ensures Clear(Apply(graph, Reserve(parent, writes, scope)), |graph|) && writes ==>
              forall k :: 0 <= k < |graph| && Unrelated(graph, parent, k) ==>
                (ShareOnDisk(scope, graph[k].scope) <==> Missed(scope, graph[k].scope))
  {
    var next := Apply(graph, Reserve(parent, writes, scope));
    AllAncestorsKept(graph, next);
    forall k | 0 <= k < |graph|
      ensures Compared(next, |graph|, k) <==> Unrelated(graph, parent, k)
      ensures Overlaps(scope, graph[k].scope) <==> ShareAPath(scope, graph[k].scope)
      ensures ShareOnDisk(scope, graph[k].scope) && !Overlaps(scope, graph[k].scope) <==>
                Missed(scope, graph[k].scope)
    {
      assert NodeInv(graph, k);
      OverlapExact(scope, graph[k].scope);
      OverlapMissesExactly(scope, graph[k].scope);
    }
  }

  class DelegationTree {
    var graph: Graph

    ghost predicate Valid()
      reads this
    {
      Inv(graph) && Disjoint(graph, ByTest) && forall k :: 0 <= k < |graph| ==> !graph[k].phase.Checked?
    }

    constructor (writes: bool, scope: Scope)
      requires RootsInside(scope)
      ensures Valid() && graph == Launched(writes, scope)
    {
      graph := Launched(writes, scope);
    }

    method Delegate(parent: nat, writes: bool, scope: Scope) returns (refused: Option<(Path, nat)>)
      requires Valid() && Enabled(graph, Reserve(parent, writes, scope))
      modifies this
      ensures Valid()
      ensures |graph| == |old(graph)| + 1 && graph[..|old(graph)|] == old(graph)
      ensures var added := graph[|old(graph)|];
              && added.parent == Some(parent) && added.writes == writes && added.scope == scope
              && added.phase == if refused.None? then Running else Terminal
      ensures refused.None? && writes ==>
                forall k :: 0 <= k < |old(graph)| && Unrelated(old(graph), parent, k) ==>
                  (ShareOnDisk(scope, old(graph)[k].scope) <==> Missed(scope, old(graph)[k].scope))
      ensures refused.Some? <==>
                writes && exists k :: 0 <= k < |old(graph)| && Unrelated(old(graph), parent, k)
                                      && ShareAPath(scope, old(graph)[k].scope)
    {
      var id := |graph|;
      ReservedIsJudged(graph, parent, writes, scope);
      StepKeepsInv(graph, Reserve(parent, writes, scope));
      OtherStepsKeepDisjoint(graph, Reserve(parent, writes, scope), ByTest);
      graph := Apply(graph, Reserve(parent, writes, scope));
      refused := RefuseScopeOverlap(graph, id, parent);
      StepKeepsInv(graph, Check(id));
      OtherStepsKeepDisjoint(graph, Check(id), ByTest);
      graph := Apply(graph, Check(id));
      if refused.None? {
        StepKeepsInv(graph, Materialize(id));
        MaterializeExact(graph, id, ByTest);
        graph := Apply(graph, Materialize(id));
      }
    }

    method Settle(id: nat)
      requires Valid() && Enabled(graph, Step.Settle(id))
      modifies this
      ensures Valid() && graph == old(graph)[id := old(graph)[id].(phase := Terminal)]
    {
      StepKeepsInv(graph, Step.Settle(id));
      OtherStepsKeepDisjoint(graph, Step.Settle(id), ByTest);
      graph := Apply(graph, Step.Settle(id));
    }
  }
}
