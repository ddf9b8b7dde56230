/** The delegation-cycle check (src/agents/registry.ts): a colouring depth-first search. */
module Registry {
  import opened Wrappers
  import opened Lists

  type AgentId = string
  /** `delegatesTo` of every registered agent. */
  type Relation = map<AgentId, seq<AgentId>>

  /** An unregistered id delegates to nobody. */
  function Targets(byId: Relation, id: AgentId): seq<AgentId> {
    if id in byId then byId[id] else []
  }

  predicate DelegatesTo(byId: Relation, from: AgentId, to: AgentId) {
    from in byId && to in byId[from]
  }

  predicate Walk(byId: Relation, walk: seq<AgentId>) {
    forall i :: 0 <= i < |walk| - 1 ==> DelegatesTo(byId, walk[i], walk[i + 1])
  }

  predicate IsCycle(byId: Relation, trail: seq<AgentId>) {
    |trail| >= 2 && trail[0] == trail[|trail| - 1] && Walk(byId, trail)
  }

  predicate AllIn(ids: seq<AgentId>, known: seq<AgentId>) {
    forall k :: 0 <= k < |ids| ==> ids[k] in known
  }

  lemma OneMoreIn(ids: seq<AgentId>, i: nat, before: seq<AgentId>, after: seq<AgentId>)
    requires i < |ids| && AllIn(ids[..i], before) && before <= after && ids[i] in after
    ensures AllIn(ids[..i + 1], after)
  {
    forall k | 0 <= k < i ensures ids[k] in after {
      assert ids[..i][k] in before;
    }
  }

  /** Every target of an agent stands before it. */
  predicate Ordered(byId: Relation, order: seq<AgentId>) {
    forall i, target :: 0 <= i < |order| && target in Targets(byId, order[i]) ==> target in order[..i]
  }

  lemma OrderedGrows(byId: Relation, order: seq<AgentId>, id: AgentId)
    requires Ordered(byId, order) && AllIn(Targets(byId, id), order)
    ensures Ordered(byId, order + [id])
  {
    var longer := order + [id];
    forall i, target | 0 <= i < |longer| && target in Targets(byId, longer[i]) ensures target in longer[..i] {
      assert longer[..i] == order[..i];
    }
  }

  /** A walk only moves towards the front of such an order. */
  lemma {:induction false} WalkDescends(byId: Relation, order: seq<AgentId>, walk: seq<AgentId>, k: nat)
    returns (l: nat)
    requires Ordered(byId, order) && Walk(byId, walk) && walk != []
    requires k < |order| && order[k] == walk[0]
    ensures l <= k < |order| && order[l] == walk[|walk| - 1]
    ensures |walk| > 1 ==> l < k
    decreases |walk|
  {
    l := k;
    if |walk| > 1 {
      assert walk[1] in order[..k];
      var next :| 0 <= next < k && order[next] == walk[1];
      l := WalkDescends(byId, order, walk[1..], next);
    }
  }

  lemma OrderedHasNoCycle(byId: Relation, order: seq<AgentId>, trail: seq<AgentId>)
    requires Ordered(byId, order) && Distinct(order)
    requires forall id :: id in byId ==> id in order
    ensures !IsCycle(byId, trail)
  {
    if IsCycle(byId, trail) {
      assert trail[1] in Targets(byId, trail[0]);
      var k :| 0 <= k < |order| && order[k] == trail[0];
      var l := WalkDescends(byId, order, trail, k);
    }
  }

  function IndexOf(ids: seq<AgentId>, id: AgentId): (k: nat)
    requires id in ids
    ensures k < |ids| && ids[k] == id && id !in ids[..k]
  {
    if ids[0] == id then 0
    else
      var k := IndexOf(ids[1..], id);
      assert ids[..k + 1] == [ids[0]] + ids[1..][..k];
      k + 1
  }

  /** Every id that occurs in the relation. */
  function Ids(byId: Relation): set<AgentId> {
    byId.Keys + set id, target | id in byId.Keys && target in byId[id] :: target
  }

  lemma TargetsAreIds(byId: Relation, id: AgentId)
    ensures forall k :: 0 <= k < |Targets(byId, id)| ==> Targets(byId, id)[k] in Ids(byId)
  {
    forall k | 0 <= k < |Targets(byId, id)| ensures Targets(byId, id)[k] in Ids(byId) {
      assert id in byId.Keys && Targets(byId, id)[k] in byId[id];
    }
  }

  lemma TrailCloses(byId: Relation, trail: seq<AgentId>, start: nat, id: AgentId)
    requires Walk(byId, trail) && start < |trail| && trail[start] == id
    requires id in Targets(byId, trail[|trail| - 1])
    ensures IsCycle(byId, trail[start..] + [id])
  {
  }

  lemma LastOfTrail(byId: Relation, trail: seq<AgentId>, id: AgentId)
    requires Walk(byId, trail) && trail != [] && trail[|trail| - 1] == id
    ensures Walk(byId, trail[..|trail| - 1])
    ensures forall k :: k in trail <==> k in trail[..|trail| - 1] || k == id
  {
    assert trail == trail[..|trail| - 1] + [id];
  }

  datatype Mark = Visiting | Visited

  class CycleCheck {
    const byId: Relation
    var state: map<AgentId, Mark>
    var trail: seq<AgentId>
    ghost const universe: set<AgentId>
    /** The agents marked `Visited`, in the order in which they were. */
    ghost var finished: seq<AgentId>

    constructor (byId: Relation)
      ensures this.byId == byId && universe == Ids(byId) && Valid() && trail == [] && finished == []
    {
      this.byId := byId;
      universe := Ids(byId);
      state, trail, finished := map[], [], [];
    }

    ghost predicate Valid()
      reads this
    {
      && state.Keys <= universe
      && (forall id :: id in trail <==> id in state && state[id] == Visiting)
      && (forall id :: id in finished <==> id in state && state[id] == Visited)
      && Distinct(finished) && Ordered(byId, finished) && Walk(byId, trail)
    }

    method Visit(id: AgentId) returns (cycle: Option<seq<AgentId>>)
      requires Valid() && universe == Ids(byId) && id in universe
      requires trail != [] ==> id in Targets(byId, trail[|trail| - 1])
      modifies this
      ensures cycle.Some? ==> IsCycle(byId, cycle.value)
      ensures cycle.None? ==> Valid() && trail == old(trail) && old(finished) <= finished && id in finished
      ensures cycle.None? ==> old(state.Keys) <= state.Keys
      decreases universe - state.Keys
    {
      if id in state && state[id] == Visited { return None; }
      if id in state && state[id] == Visiting {
        var start := IndexOf(trail, id);
        TrailCloses(byId, trail, start, id);
        return Some(trail[start..] + [id]);
      }
      Enter(id);
      TargetsAreIds(byId, id);
      var targets := Targets(byId, id);
      for i := 0 to |targets|
        invariant Valid() && trail == old(trail) + [id] && old(finished) <= finished
        invariant old(state.Keys) + {id} <= state.Keys
        invariant AllIn(targets[..i], finished)
      {
        ghost var done := finished;
        cycle := Visit(targets[i]);
        if cycle.Some? { return; }
        OneMoreIn(targets, i, done, finished);
      }
      assert targets[..|targets|] == targets;
      Leave(id);
      return None;
    }

    /** `state.set(id, "visiting")` and `trail.push(id)`. */
    method Enter(id: AgentId)
      requires Valid() && id in universe && id !in state
      requires trail != [] ==> id in Targets(byId, trail[|trail| - 1])
      modifies this
      ensures Valid() && trail == old(trail) + [id] && finished == old(finished)
      ensures state == old(state)[id := Visiting]
    {
      state := state[id := Visiting];
      trail := trail + [id];
      assert forall k :: k in trail <==> k in old(trail) || k == id;
    }

    /** `trail.pop()` and `state.set(id, "visited")`, once every target is finished. */
    method Leave(id: AgentId)
      requires Valid() && trail != [] && trail[|trail| - 1] == id && id !in trail[..|trail| - 1]
      requires AllIn(Targets(byId, id), finished)
      modifies this
      ensures Valid() && trail == old(trail)[..|old(trail)| - 1] && finished == old(finished) + [id]
      ensures state == old(state)[id := Visited]
    {
      ghost var order := finished + [id];
      LastOfTrail(byId, trail, id);
      assert Ordered(byId, order) by { OrderedGrows(byId, finished, id); }
      assert Distinct(order) by {
        assert id in trail;
        DistinctConcat(finished, [id]);
      }
      assert forall k :: k in order <==> k in finished || k == id;
      trail := trail[..|trail| - 1];
      state := state[id := Visited];
      finished := order;
    }
  }

  /** Returns normally exactly when `delegatesTo` has no cycle; what it reports otherwise is one. */
  method AssertNoDelegationCycles(definitions: seq<AgentId>, byId: Relation) returns (cycle: Option<seq<AgentId>>)
    requires forall id :: id in definitions <==> id in byId
    ensures cycle.Some? ==> IsCycle(byId, cycle.value)
    ensures cycle.None? <==> forall trail :: !IsCycle(byId, trail)
  {
    var check := new CycleCheck(byId);
    for i := 0 to |definitions|
      invariant check.byId == byId && check.universe == Ids(byId) && check.Valid() && check.trail == []
      invariant AllIn(definitions[..i], check.finished)
    {
      ghost var done := check.finished;
      cycle := check.Visit(definitions[i]);
      if cycle.Some? { return; }
      OneMoreIn(definitions, i, done, check.finished);
    }
    assert definitions[..|definitions|] == definitions;
    forall trail ensures !IsCycle(byId, trail) {
      OrderedHasNoCycle(byId, check.finished, trail);
    }
    return None;
  }
}
