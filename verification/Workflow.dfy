/** The workflow check of `alp agent test` (src/agent-test/tier1.ts): breadth-first reachability. */
module Workflow {
  import opened Lists

  type StateId = string
  datatype State = State(transitions: seq<StateId>, terminal: bool)
  datatype Definition = Definition(initial: StateId, states: map<StateId, State>)

  datatype Issue =
    | InitialNotDeclared
    | UnknownTransition(source: StateId, target: StateId)
    | Unreachable(ids: set<StateId>)
    | NoTerminal

  /** A path of declared states along declared transitions. */
  predicate Path(workflow: Definition, path: seq<StateId>) {
    && path != []
    && (forall i :: 0 <= i < |path| ==> path[i] in workflow.states)
    && (forall i :: 0 <= i < |path| - 1 ==> path[i + 1] in workflow.states[path[i]].transitions)
  }

  ghost predicate Reachable(workflow: Definition, id: StateId) {
    exists path :: Path(workflow, path) && path[0] == workflow.initial && path[|path| - 1] == id
  }

  lemma ReachableStep(workflow: Definition, id: StateId, next: StateId)
    requires Reachable(workflow, id) && id in workflow.states
    requires next in workflow.states[id].transitions && next in workflow.states
    ensures Reachable(workflow, next)
  {
    var path :| Path(workflow, path) && path[0] == workflow.initial && path[|path| - 1] == id;
    assert Path(workflow, path + [next]);
  }

  /** A set that holds the initial state and every declared successor holds whatever is reachable. */
  lemma {:induction false} ClosedHoldsPath(workflow: Definition, closed: set<StateId>, path: seq<StateId>)
    requires Path(workflow, path) && path[0] in closed
    requires forall id :: id in closed ==> Declared(workflow, id) <= closed
    ensures path[|path| - 1] in closed
    decreases |path|
  {
    if |path| > 1 {
      assert path[1] in Declared(workflow, path[0]);
      ClosedHoldsPath(workflow, closed, path[1..]);
    }
  }

  function Declared(workflow: Definition, id: StateId): set<StateId> {
    if id in workflow.states then set next | next in workflow.states[id].transitions && next in workflow.states else {}
  }

  function Unknown(workflow: Definition, id: StateId): set<StateId> {
    if id in workflow.states then set next | next in workflow.states[id].transitions && next !in workflow.states else {}
  }

  /** `issue` reports an undeclared target of one of `sources`. */
  predicate ReportsFrom(workflow: Definition, sources: set<StateId>, issue: Issue) {
    issue.UnknownTransition? && issue.source in sources && issue.target in Unknown(workflow, issue.source)
  }

  /** One turn of the queue: follow every transition of `current`. */
  method Expand(workflow: Definition, current: StateId, reached: set<StateId>)
    returns (reached': set<StateId>, pushed: seq<StateId>, found: seq<Issue>)
    requires current in workflow.states
    ensures reached' == reached + Declared(workflow, current)
    ensures Distinct(pushed) && forall id :: id in pushed <==> id in reached' && id !in reached
    ensures forall issue :: issue in found <==> ReportsFrom(workflow, {current}, issue)
  {
    reached', pushed, found := reached, [], [];
    var transitions := workflow.states[current].transitions;
    for i := 0 to |transitions|
      invariant reached' == reached + set next | next in transitions[..i] && next in workflow.states
      invariant Distinct(pushed) && forall id :: id in pushed <==> id in reached' && id !in reached
      invariant forall issue :: issue in found <==>
                  issue.UnknownTransition? && issue.source == current && issue.target in transitions[..i]
                      && issue.target !in workflow.states
    {
      var next := transitions[i];
      assert transitions[..i + 1] == transitions[..i] + [next];
      if next !in workflow.states {
        found := found + [UnknownTransition(current, next)];
      } else if next !in reached' {
        reached' := reached' + {next};
        pushed := pushed + [next];
      }
    }
    assert transitions[..|transitions|] == transitions;
  }

  method Search(workflow: Definition) returns (reached: set<StateId>, issues: seq<Issue>)
    requires workflow.initial in workflow.states
    ensures forall id :: id in reached <==> Reachable(workflow, id)
    ensures forall issue :: issue in issues <==> ReportsFrom(workflow, reached, issue)
  {
    reached, issues := {workflow.initial}, [];
    var queue := [workflow.initial];
    assert Path(workflow, [workflow.initial]);
    while queue != []
      invariant workflow.initial in reached && reached <= workflow.states.Keys
      invariant Distinct(queue) && forall id :: id in queue ==> id in reached
      invariant forall id :: id in reached ==> Reachable(workflow, id)
      invariant forall id :: id in reached && id !in queue ==> Declared(workflow, id) <= reached
      invariant forall issue :: issue in issues <==> ReportsFrom(workflow, reached - Members(queue), issue)
      decreases workflow.states.Keys - reached, |queue|
    {
      var current, rest := queue[0], queue[1..];
      var reached', pushed, found := Expand(workflow, current, reached);
      forall id | id in Declared(workflow, current) ensures Reachable(workflow, id) {
        ReachableStep(workflow, current, id);
      }
      assert forall id :: id in queue <==> id == current || id in rest;
      assert reached' - Members(rest + pushed) == (reached - Members(queue)) + {current};
      DistinctConcat(rest, pushed);
      assert pushed != [] ==> pushed[0] in reached' - reached;
      assert pushed == [] ==> reached' == reached;
      queue, reached, issues := rest + pushed, reached', issues + found;
    }
    assert reached - Members(queue) == reached;
    forall id | Reachable(workflow, id) ensures id in reached {
      var path :| Path(workflow, path) && path[0] == workflow.initial && path[|path| - 1] == id;
      ClosedHoldsPath(workflow, reached, path);
    }
  }

  function Members(ids: seq<StateId>): set<StateId> {
    set id | id in ids
  }

  /** The reachability part of the workflow check. */
  method WorkflowIssues(workflow: Definition) returns (issues: seq<Issue>)
    ensures InitialNotDeclared in issues <==> workflow.initial !in workflow.states
    ensures workflow.initial in workflow.states ==>
              && (forall ids :: Unreachable(ids) in issues <==>
                    ids != {} && ids == Unreached(workflow))
              && (forall source, target :: UnknownTransition(source, target) in issues <==>
                    Reachable(workflow, source) && target in Unknown(workflow, source))
              && (NoTerminal in issues <==> forall id :: id in workflow.states ==> !workflow.states[id].terminal)
    ensures issues == [] <==> Sound(workflow)
  {
    if workflow.initial !in workflow.states {
      return [InitialNotDeclared];
    }
    var reached;
    reached, issues := Search(workflow);
    var unreachable := set id | id in workflow.states && id !in reached;
    assert unreachable == Unreached(workflow);
    SoundExactly(workflow, reached, issues);
    if unreachable != {} { issues := issues + [Unreachable(unreachable)]; }
    if !exists id :: id in workflow.states && workflow.states[id].terminal { issues := issues + [NoTerminal]; }
  }

  lemma SoundExactly(workflow: Definition, reached: set<StateId>, searched: seq<Issue>)
    requires workflow.initial in workflow.states
    requires forall id :: id in reached <==> Reachable(workflow, id)
    requires forall issue :: issue in searched <==> ReportsFrom(workflow, reached, issue)
    ensures Sound(workflow) <==>
              && searched == [] && Unreached(workflow) == {}
              && exists id :: id in workflow.states && workflow.states[id].terminal
  {
    assert searched != [] ==> searched[0] in searched;
    if searched == [] && Unreached(workflow) == {} {
      forall id | id in workflow.states ensures Reachable(workflow, id) {
        assert id !in Unreached(workflow);
      }
      forall id, next | id in workflow.states && next in workflow.states[id].transitions
        ensures next in workflow.states
      {
        assert ReportsFrom(workflow, reached, UnknownTransition(id, next)) <==> next !in workflow.states;
      }
    }
  }

  ghost function Unreached(workflow: Definition): set<StateId> {
    set id | id in workflow.states && !Reachable(workflow, id)
  }

  ghost predicate Sound(workflow: Definition) {
    && workflow.initial in workflow.states
    && (forall id :: id in workflow.states ==> Reachable(workflow, id))
    && (forall id, next :: id in workflow.states && next in workflow.states[id].transitions ==> next in workflow.states)
    && (exists id :: id in workflow.states && workflow.states[id].terminal)
  }

  /** A workflow without issue can be run from its initial state to a terminal one. */
  lemma SoundCanComplete(workflow: Definition)
    requires Sound(workflow)
    ensures exists path ::
              Path(workflow, path) && path[0] == workflow.initial && workflow.states[path[|path| - 1]].terminal
  {
  }
}
