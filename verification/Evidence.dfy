/**
  Evidence of a finished execution (src/execution/evidence.ts): who else could have written
  what it wrote, how far a git observation may be trusted, and what collecting again and again
  can change.
 */
module Evidence {
  import opened Wrappers
  import opened Paths
  import opened Assignment
  import opened Lists

  datatype Provenance = Observed | Derived | SelfReported | Unknown
  datatype Isolation = Enforced | PartlyEnforced | DeclaredOnly | NotEnforced

  // ----- Who else could have written

  /** No start reads as minus infinity, no end as plus infinity. */
  datatype OverlapNode = OverlapNode(
    id: string, scope: Scope, readOnly: bool, isolation: Option<Isolation>, started: Option<int>, ended: Option<int>)

  predicate EndsBefore(ended: Option<int>, started: Option<int>) {
    ended.Some? && started.Some? && ended.value < started.value
  }

  predicate ActiveTogether(a: OverlapNode, b: OverlapNode) {
    !EndsBefore(a.ended, b.started) && !EndsBefore(b.ended, a.started)
  }

  /** `node` is active at instant `t`, its first and last instant included. */
  predicate ActiveAt(node: OverlapNode, t: int) {
    (node.started.Some? ==> node.started.value <= t) && (node.ended.Some? ==> t <= node.ended.value)
  }

  /** Two executions are active together exactly when some instant belongs to both. */
  lemma ActiveTogetherExactly(a: OverlapNode, b: OverlapNode)
    requires !EndsBefore(a.ended, a.started) && !EndsBefore(b.ended, b.started)
    ensures ActiveTogether(a, b) <==> exists t :: ActiveAt(a, t) && ActiveAt(b, t)
  {
    if ActiveTogether(a, b) {
      var t :=
        if a.started.Some? && b.started.Some? then
          if a.started.value <= b.started.value then b.started.value else a.started.value
        else if a.started.Some? then a.started.value
        else if b.started.Some? then b.started.value
        else if a.ended.Some? && b.ended.Some? then
          if a.ended.value <= b.ended.value then a.ended.value else b.ended.value
        else if a.ended.Some? then a.ended.value
        else if b.ended.Some? then b.ended.value
        else 0;
      assert ActiveAt(a, t) && ActiveAt(b, t);
    }
  }

  predicate Ambiguous(target: OverlapNode, node: OverlapNode) {
    && node.id != target.id && Nested(node.scope, target.scope) && ActiveTogether(target, node)
    && (node.isolation != Some(Enforced) || (!node.readOnly && Overlaps(node.scope, target.scope)))
  }

  function Named(target: OverlapNode, others: seq<OverlapNode>): set<string> {
    set i | 0 <= i < |others| && Ambiguous(target, others[i]) :: others[i].id
  }

  method AmbiguousNodes(target: OverlapNode, others: seq<OverlapNode>) returns (named: set<string>)
    ensures named == Named(target, others)
  {
    named := {};
    for n := 0 to |others|
      invariant named == set i | 0 <= i < n && Ambiguous(target, others[i]) :: others[i].id
    {
      var node := others[n];
      if node.id == target.id { continue; }
      if !Within(node.scope.workspace, target.scope.workspace)
         && !Within(target.scope.workspace, node.scope.workspace) { continue; }
      if EndsBefore(target.ended, node.started) || EndsBefore(node.ended, target.started) { continue; }
      if node.isolation != Some(Enforced) {
        named := named + {node.id};
        continue;
      }
      if node.readOnly { continue; }
      var shared := SharedRegion(node.scope, target.scope);
      if shared.Some? { named := named + {node.id}; }
    }
  }

  function GitProvenance(baseline: bool, ambiguousWith: set<string>, isolation: Option<Isolation>)
    : (provenance: Provenance)
    ensures provenance == Unknown <==> !baseline
    ensures provenance == Observed <==> baseline && ambiguousWith == {} && isolation == Some(Enforced)
  {
    if !baseline then Unknown
    else if ambiguousWith != {} || isolation != Some(Enforced) then Derived
    else Observed
  }

  predicate VersionMatches(measured: string, actual: string) {
    actual == measured || measured + "." <= actual
  }

  /** The version that ran is known and falls under the measured one. */
  predicate RanAsMeasured(measured: Option<string>, actual: Option<string>) {
    measured.Some? && actual.Some? && actual.value != "unknown" && VersionMatches(measured.value, actual.value)
  }

  lemma PartsHead(version: string)
    requires version != ""
    ensures var rest := Split(version[1..], '.');
            if version[0] == '.' then Split(version, '.')[0] == "" && Split(version, '.')[1..] == rest
            else Split(version, '.')[0] == [version[0]] + rest[0] && Split(version, '.')[1..] == rest[1..]
  {
  }

  /** The parts of a version tell which version it is, up to a dot and what follows it. */
  lemma {:induction false} PartsPrefix(a: string, b: string)
    requires Split(a, '.') <= Split(b, '.')
    ensures a == b || a + "." <= b
  {
    assert Split(a, '.')[0] == Split(b, '.')[0] && Split(a, '.')[1..] <= Split(b, '.')[1..];
    if a != "" { PartsHead(a); }
    if b != "" { PartsHead(b); }
    if a != "" && b != "" {
      assert a[0] != '.' ==> Split(a, '.')[0][0] == a[0];
      assert b[0] != '.' ==> Split(b, '.')[0][0] == b[0];
      SameRest(a, b);
      PartsPrefix(a[1..], b[1..]);
      assert a == [a[0]] + a[1..] && b == [b[0]] + b[1..];
    }
  }

  lemma SameRest(a: string, b: string)
    requires a != "" && b != "" && a[0] == b[0] && Split(a, '.') <= Split(b, '.')
    ensures Split(a[1..], '.') <= Split(b[1..], '.')
  {
    PartsHead(a);
    PartsHead(b);
    var restA, restB := Split(a[1..], '.'), Split(b[1..], '.');
    assert Split(a, '.')[0] == Split(b, '.')[0] && Split(a, '.')[1..] <= Split(b, '.')[1..];
    if a[0] != '.' {
      assert restA[0] == Split(a, '.')[0][1..] && restB[0] == Split(b, '.')[0][1..];
      assert restA == [restA[0]] + restA[1..] && restB == [restB[0]] + restB[1..];
    }
  }

  /**
    A runtime ran as measured exactly when its version is known and begins, part by part, with
    the measured one: "2.10" is no "2.1".
   */
  lemma RanAsMeasuredExactly(measured: Option<string>, actual: Option<string>)
    ensures RanAsMeasured(measured, actual) <==>
              && measured.Some? && actual.Some? && actual != Some("unknown")
              && Split(measured.value, '.') <= Split(actual.value, '.')
  {
    if measured.Some? && actual.Some? {
      if Split(measured.value, '.') <= Split(actual.value, '.') { PartsPrefix(measured.value, actual.value); }
      if measured.value + "." <= actual.value {
        var rest := actual.value[|measured.value| + 1..];
        assert actual.value == measured.value + "." + rest;
        SplitJoined(measured.value, rest, '.');
      }
    }
  }

  /** `demote`: nothing is called observed about a runtime nobody measured. */
  function Demote(provenance: Provenance, measured: Option<string>, actual: Option<string>): Provenance {
    if provenance != Observed then provenance else if RanAsMeasured(measured, actual) then provenance else Derived
  }

  /** `node` cannot have written what `target` owns: isolated, and read-only or owning no path of the target's. */
  ghost predicate Harmless(target: OverlapNode, node: OverlapNode) {
    node.isolation == Some(Enforced) && (node.readOnly || !ShareAPath(node.scope, target.scope))
  }

  /** Another execution in the same or a nested workspace, active at the same time. */
  predicate Rival(target: OverlapNode, node: OverlapNode) {
    node.id != target.id && Nested(node.scope, target.scope) && ActiveTogether(target, node)
  }

  /** Exactly the rivals that could have written are named. */
  lemma NamedExactly(target: OverlapNode, node: OverlapNode)
    ensures Ambiguous(target, node) <==> Rival(target, node) && !Harmless(target, node)
  {
    OverlapExactWhateverTheRoots(node.scope, target.scope);
  }

  /** The change is the target's alone: isolated, run as measured, and every rival harmless. */
  ghost predicate Unshared(target: OverlapNode, others: seq<OverlapNode>, measured: Option<string>,
                           actual: Option<string>)
  {
    && target.isolation == Some(Enforced) && RanAsMeasured(measured, actual)
    && forall i :: 0 <= i < |others| && Rival(target, others[i]) ==> Harmless(target, others[i])
  }

  /** The provenance of the git item, on a baseline. */
  function GitChangeProvenance(
    target: OverlapNode, others: seq<OverlapNode>, measured: Option<string>, actual: Option<string>): Provenance
  {
    Demote(GitProvenance(true, Named(target, others), target.isolation), measured, actual)
  }

  method ChangeProvenance(target: OverlapNode, others: seq<OverlapNode>, measured: Option<string>,
                          actual: Option<string>)
    returns (provenance: Provenance)
    ensures provenance == GitChangeProvenance(target, others, measured, actual)
    ensures provenance == Observed <==> Unshared(target, others, measured, actual)
    ensures provenance == Observed || provenance == Derived
  {
    var named := AmbiguousNodes(target, others);
    provenance := Demote(GitProvenance(true, named, target.isolation), measured, actual);
    ObservedExactly(target, others, measured, actual);
  }

  /** The git item is observed exactly when the change is the target's alone. */
  lemma ObservedExactly(target: OverlapNode, others: seq<OverlapNode>, measured: Option<string>, actual: Option<string>)
    ensures GitChangeProvenance(target, others, measured, actual) == Observed <==>
              Unshared(target, others, measured, actual)
  {
    forall i | 0 <= i < |others|
      ensures Ambiguous(target, others[i]) <==> Rival(target, others[i]) && !Harmless(target, others[i])
    {
      NamedExactly(target, others[i]);
    }
    assert Named(target, others) == {} <==> forall i :: 0 <= i < |others| ==> !Ambiguous(target, others[i]) by {
      forall i | 0 <= i < |others| && Ambiguous(target, others[i]) ensures others[i].id in Named(target, others) {}
    }
  }

  // ----- The same on disk

  /** An execution active at the same time, in a workspace that lies in the target's or holds it. */
  predicate RivalOnDisk(target: OverlapNode, node: OverlapNode) {
    && node.id != target.id && Comparable(node.scope.workspace, target.scope.workspace)
    && ActiveTogether(target, node)
  }

  ghost predicate HarmlessOnDisk(target: OverlapNode, node: OverlapNode) {
    node.isolation == Some(Enforced) && (node.readOnly || !ShareOnDisk(node.scope, target.scope))
  }

  /** The change is the target's alone, whatever the names. */
  ghost predicate UnsharedOnDisk(target: OverlapNode, others: seq<OverlapNode>) {
    forall i :: 0 <= i < |others| && RivalOnDisk(target, others[i]) ==> HarmlessOnDisk(target, others[i])
  }

  /**
    A rival that is not named though it could have written: its workspace is told apart by a
    dotted name and it is not harmless, or the overlap test misses its scope.
   */
  predicate Overlooked(target: OverlapNode, node: OverlapNode) {
    && RivalOnDisk(target, node)
    && (if PlainlyComparable(node.scope.workspace, target.scope.workspace)
        then node.isolation == Some(Enforced) && !node.readOnly && Missed(node.scope, target.scope)
        else node.isolation != Some(Enforced) || (!node.readOnly && RootsMeetOnDisk(node.scope, target.scope)))
  }

  /** An observed change is the target's alone on disk exactly when no rival was overlooked. */
  lemma ObservedOnDiskExactly(
    target: OverlapNode, others: seq<OverlapNode>, measured: Option<string>, actual: Option<string>)
    requires GitChangeProvenance(target, others, measured, actual) == Observed
    ensures UnsharedOnDisk(target, others) <==> forall i :: 0 <= i < |others| ==> !Overlooked(target, others[i])
  {
    ObservedExactly(target, others, measured, actual);
    forall i | 0 <= i < |others| && RivalOnDisk(target, others[i])
      ensures HarmlessOnDisk(target, others[i]) <==> !Overlooked(target, others[i])
    {
      RivalJudged(target, others[i]);
    }
  }

  lemma RivalJudged(target: OverlapNode, node: OverlapNode)
    requires RivalOnDisk(target, node) && (Rival(target, node) ==> Harmless(target, node))
    ensures HarmlessOnDisk(target, node) <==> !Overlooked(target, node)
  {
    PlainlyIsWithin(node.scope.workspace, target.scope.workspace);
    OverlapExactWhateverTheRoots(node.scope, target.scope);
    OverlapMissesExactly(node.scope, target.scope);
    ShareOnDiskExactly(node.scope, target.scope);
  }

  /** `overlapNodeOf` without a policy: a writer of the whole file system that nothing confines. */
  function UnreadableNode(id: string, started: Option<int>, ended: Option<int>): OverlapNode {
    OverlapNode(id, Scope([], None, None), false, None, started, ended)
  }

  /** It is named whenever it was active at the same time, unless the first name of the target's workspace hides it. */
  lemma UnreadableIsAmbiguous(target: OverlapNode, id: string, started: Option<int>, ended: Option<int>)
    ensures Ambiguous(target, UnreadableNode(id, started, ended)) <==>
              && id != target.id && !EndsBefore(target.ended, started) && !EndsBefore(ended, target.started)
              && (target.scope.workspace != [] ==> !DotDotLed(target.scope.workspace[0]))
  {
  }

  // ----- What a record holds

  datatype Completeness = Complete | Partial | FinalOnly | Unsupported
  datatype SkipReason = NotConfigured | Untrusted | TimedOut

  datatype Item =
    | GitChange(provenance: Provenance, paths: seq<string>)
    | HistoryChange(provenance: Provenance, paths: seq<string>)
    | ToolCall(provenance: Provenance)
    | UsageCount(provenance: Provenance)
    | Boundary(provenance: Provenance)
    | Output(digest: string)
    | Verify(command: string, exitCode: int)
    | VerifySkipped(command: string, reason: SkipReason)

  function ProvenanceOf(item: Item): Provenance {
    match item
    case Output(_) => SelfReported
    case Verify(_, _) => Observed
    case VerifySkipped(_, _) => Unknown
    case _ => item.provenance
  }

  /** What is collected together and refreshed together: the items of a producer, or of one verify command. */
  datatype Key = Git | HistoryBridge | RuntimeEvent | AgentOutput | Verifier(command: string)

  function SourceKey(item: Item): Key {
    match item
    case GitChange(_, _) => Git
    case HistoryChange(_, _) => HistoryBridge
    case ToolCall(_) => HistoryBridge
    case UsageCount(_) => HistoryBridge
    case Boundary(_) => RuntimeEvent
    case Output(_) => AgentOutput
    case Verify(command, _) => Verifier(command)
    case VerifySkipped(command, _) => Verifier(command)
  }

  datatype Record = Record(items: seq<Item>, completeness: Completeness)

  function HasSourceKey(key: Key): Item -> bool {
    item => SourceKey(item) == key
  }

  function Of(items: seq<Item>, key: Key): seq<Item> {
    Filter(items, HasSourceKey(key))
  }

  predicate AnyUnknown(items: seq<Item>) {
    exists i :: 0 <= i < |items| && ProvenanceOf(items[i]) == Unknown
  }

  // ----- Requirements

  datatype Requirement = Change | VerifyWith(command: string)
  datatype Verdict = Met | Unanswered | Missing
  datatype Evaluation = Unevaluated | Satisfied | Unsatisfied | UnknownEvaluation

  predicate IsChange(item: Item) {
    item.GitChange? || item.HistoryChange?
  }

  predicate ShowsChange(items: seq<Item>) {
    exists i :: 0 <= i < |items| && IsChange(items[i]) && items[i].provenance != Unknown && items[i].paths != []
  }

  predicate Ran(items: seq<Item>, command: string) {
    exists i :: 0 <= i < |items| && items[i].Verify? && items[i].command == command
  }

  /** The exit code of the first finished verify of `command`. */
  function FirstExit(items: seq<Item>, command: string): int
    requires Ran(items, command)
  {
    if items[0].Verify? && items[0].command == command then items[0].exitCode
    else
      assert Ran(items[1..], command) by {
        var i :| 0 <= i < |items| && items[i].Verify? && items[i].command == command;
        assert items[1..][i - 1] == items[i];
      }
      FirstExit(items[1..], command)
  }

  function VerdictOn(requirement: Requirement, items: seq<Item>): Verdict {
    match requirement
    case Change =>
      if ShowsChange(items) then Met
      else if exists i :: 0 <= i < |items| && IsChange(items[i]) && items[i].provenance == Unknown then Unanswered
      else Missing
    case VerifyWith(command) =>
      if Ran(items, command) then (if FirstExit(items, command) == 0 then Met else Missing)
      else if exists i :: 0 <= i < |items| && items[i].VerifySkipped? && items[i].command == command then Unanswered
      else Missing
  }

  predicate AllMet(required: seq<Requirement>, items: seq<Item>) {
    forall i :: 0 <= i < |required| ==> VerdictOn(required[i], items) == Met
  }

  /** Item `i` is the first finished verify of `command`. */
  predicate FirstVerify(items: seq<Item>, command: string, i: nat) {
    && i < |items| && items[i].Verify? && items[i].command == command
    && forall k :: 0 <= k < i && items[k].Verify? ==> items[k].command != command
  }

  predicate Passed(items: seq<Item>, command: string) {
    exists i :: 0 <= i < |items| && FirstVerify(items, command, i) && items[i].exitCode == 0
  }

  predicate Failed(items: seq<Item>, command: string) {
    exists i :: 0 <= i < |items| && FirstVerify(items, command, i) && items[i].exitCode != 0
  }

  predicate Mentioned(items: seq<Item>, command: string) {
    exists i :: 0 <= i < |items| && (items[i].Verify? || items[i].VerifySkipped?) && items[i].command == command
  }

  /** A change item of a producer that could not answer, and one that shows changed paths. */
  predicate Silent(item: Item) {
    IsChange(item) && item.provenance == Unknown
  }

  predicate Telling(item: Item) {
    (item.GitChange? || item.HistoryChange?) && item.provenance != Unknown && item.paths != []
  }

  /** `requirement` is fulfilled by the items as they stand. */
  predicate Fulfilled(requirement: Requirement, items: seq<Item>) {
    match requirement
    case Change => exists i :: 0 <= i < |items| && Telling(items[i])
    case VerifyWith(command) => Passed(items, command)
  }

  /** `requirement` is outright missing, and not merely unanswered. */
  predicate Lacking(requirement: Requirement, items: seq<Item>) {
    match requirement
    case Change => forall i :: 0 <= i < |items| ==> !Telling(items[i]) && !Silent(items[i])
    case VerifyWith(command) => Failed(items, command) || !Mentioned(items, command)
  }

  lemma {:induction false} FirstExitIsFirst(items: seq<Item>, command: string) returns (i: nat)
    requires Ran(items, command)
    ensures FirstVerify(items, command, i) && items[i].exitCode == FirstExit(items, command)
  {
    if items[0].Verify? && items[0].command == command {
      i := 0;
    } else {
      assert Ran(items[1..], command) by {
        var k :| 0 <= k < |items| && items[k].Verify? && items[k].command == command;
        assert items[1..][k - 1] == items[k];
      }
      var rest := FirstExitIsFirst(items[1..], command);
      i := rest + 1;
      assert forall k :: 0 < k < i ==> items[k] == items[1..][k - 1];
    }
  }

  lemma VerdictExactly(requirement: Requirement, items: seq<Item>)
    ensures VerdictOn(requirement, items) == Met <==> Fulfilled(requirement, items)
    ensures VerdictOn(requirement, items) == Missing <==> Lacking(requirement, items)
  {
    match requirement
    case Change =>
      forall i | 0 <= i < |items|
        ensures Telling(items[i]) <==> IsChange(items[i]) && items[i].provenance != Unknown && items[i].paths != []
      {}
    case VerifyWith(command) =>
      if Ran(items, command) { var i := FirstExitIsFirst(items, command); }
  }

  /** One missing requirement settles the verdict; without requirements there is none. */
  method EvaluateEvidence(required: seq<Requirement>, items: seq<Item>)
    returns (evaluation: Evaluation, missing: seq<Requirement>)
    ensures evaluation == Unevaluated <==> required == []
    ensures evaluation == Satisfied <==> required != [] && AllMet(required, items)
    ensures evaluation == Unsatisfied <==> missing != []
    ensures forall requirement :: requirement in missing <==>
              requirement in required && VerdictOn(requirement, items) == Missing
    // the same over the items themselves
    ensures evaluation == Satisfied <==>
              required != [] && forall requirement :: requirement in required ==> Fulfilled(requirement, items)
    ensures forall requirement :: requirement in missing <==> requirement in required && Lacking(requirement, items)
  {
    forall requirement
      ensures VerdictOn(requirement, items) == Met <==> Fulfilled(requirement, items)
      ensures VerdictOn(requirement, items) == Missing <==> Lacking(requirement, items)
    {
      VerdictExactly(requirement, items);
    }
    missing := [];
    if required == [] { return Unevaluated, []; }
    var unknown := false;
    for i := 0 to |required|
      invariant forall requirement :: requirement in missing <==>
                requirement in required[..i] && VerdictOn(requirement, items) == Missing
      invariant unknown <==> exists k :: 0 <= k < i && VerdictOn(required[k], items) == Unanswered
      invariant missing == [] <==> forall k :: 0 <= k < i ==> VerdictOn(required[k], items) != Missing
    {
      assert required[..i + 1] == required[..i] + [required[i]];
      match VerdictOn(required[i], items)
      case Met =>
      case Unanswered => unknown := true;
      case Missing => missing := missing + [required[i]];
    }
    assert required[..|required|] == required;
    evaluation := if missing != [] then Unsatisfied else if unknown then UnknownEvaluation else Satisfied;
  }

  // ----- One collection

  datatype Answer = Skipped(reason: SkipReason) | Finished(exitCode: int)
  datatype Entry = ToolEntry | ChangeEntry(paths: seq<string>)

  /** What a bridge hands back: entries come only with a transcript that was read. */
  datatype History = Read(entries: seq<Entry>, complete: bool) | Unreachable | NoBridge

  /**
    What a collection finds: the paths git shows as changed (`None` without a baseline), the
    other executions, the versions, the transcript, and what the remaining producers answer.
   */
  datatype World = World(
    git: Option<seq<string>>, target: OverlapNode, others: seq<OverlapNode>,
    measured: Option<string>, actual: Option<string>,
    history: History, counted: bool, output: Option<string>, verifier: string -> Answer)

  function Lowered(provenance: Provenance, world: World): Provenance {
    Demote(provenance, world.measured, world.actual)
  }

  function CompletenessOf(history: History): Completeness {
    match history
    case Read(_, complete) => if complete then Complete else Partial
    case Unreachable => FinalOnly
    case NoBridge => Unsupported
  }

  function EntriesOf(history: History): seq<Entry> {
    if history.Read? then history.entries else []
  }

  function BridgeProvenance(completeness: Completeness): Provenance {
    match completeness
    case Complete => Observed
    case Partial => Derived
    case FinalOnly => Derived
    case Unsupported => Unknown
  }

  /** The last collection had no transcript to read, so the next one tries once more. */
  predicate HistoryIncomplete(existing: Option<Record>) {
    existing.Some? && (existing.value.completeness.FinalOnly? || existing.value.completeness.Unsupported?)
  }

  predicate FullyAnswered(existing: Option<Record>) {
    existing.Some? && !AnyUnknown(existing.value.items) && !HistoryIncomplete(existing)
  }

  function Kept(existing: Option<Record>, key: Key): seq<Item> {
    if existing.Some? then Of(existing.value.items, key) else []
  }

  predicate Refreshes(existing: Option<Record>, key: Key) {
    existing.None? || AnyUnknown(Kept(existing, key)) || Kept(existing, key) == []
  }

  function GitItems(existing: Option<Record>, world: World): seq<Item> {
    if !Refreshes(existing, Git) then Kept(existing, Git)
    else if world.git.None? then [GitChange(Unknown, [])]
    else [GitChange(GitChangeProvenance(world.target, world.others, world.measured, world.actual), world.git.value)]
  }

  predicate AsksHistory(existing: Option<Record>) {
    Refreshes(existing, HistoryBridge) || HistoryIncomplete(existing)
  }

  function EntryItems(entries: seq<Entry>, provenance: Provenance): seq<Item> {
    seq(|entries|, i requires 0 <= i < |entries| =>
      match entries[i]
      case ToolEntry => ToolCall(provenance)
      case ChangeEntry(paths) => HistoryChange(provenance, paths))
  }

  function HistoryItems(existing: Option<Record>, world: World): seq<Item> {
    if !AsksHistory(existing) then Kept(existing, HistoryBridge)
    else
      var provenance := Lowered(BridgeProvenance(CompletenessOf(world.history)), world);
      EntryItems(EntriesOf(world.history), provenance) + if world.counted then [UsageCount(provenance)] else []
  }

  function BoundaryItems(existing: Option<Record>, world: World): seq<Item> {
    if !Refreshes(existing, RuntimeEvent) then Kept(existing, RuntimeEvent) else [Boundary(Lowered(Observed, world))]
  }

  function OutputItems(existing: Option<Record>, world: World): seq<Item> {
    if !Refreshes(existing, AgentOutput) then Kept(existing, AgentOutput)
    else if world.output.Some? then [Output(world.output.value)] else []
  }

  function VerifyItem(command: string, answer: Answer): Item {
    match answer
    case Skipped(reason) => VerifySkipped(command, reason)
    case Finished(exitCode) => Verify(command, exitCode)
  }

  function VerifyItems(existing: Option<Record>, required: seq<Requirement>, world: World): seq<Item> {
    if required == [] then []
    else
      var last := required[|required| - 1];
      VerifyItems(existing, required[..|required| - 1], world)
      + if last.Change? then []
        else if !Refreshes(existing, Verifier(last.command)) then Kept(existing, Verifier(last.command))
        else [VerifyItem(last.command, world.verifier(last.command))]
  }

  /** The commands whose verify run finished during the collection, in order. */
  function RunsOf(existing: Option<Record>, required: seq<Requirement>, world: World): seq<string> {
    if required == [] then []
    else
      var last := required[|required| - 1];
      RunsOf(existing, required[..|required| - 1], world)
      + if last.VerifyWith? && Refreshes(existing, Verifier(last.command)) && world.verifier(last.command).Finished?
        then [last.command] else []
  }

  function Collected(existing: Option<Record>, required: seq<Requirement>, world: World): Record {
    if FullyAnswered(existing) then existing.value
    else
      Record(GitItems(existing, world) + HistoryItems(existing, world) + BoundaryItems(existing, world)
             + OutputItems(existing, world) + VerifyItems(existing, required, world),
             if AsksHistory(existing) then CompletenessOf(world.history) else existing.value.completeness)
  }

  function FinishedRuns(existing: Option<Record>, required: seq<Requirement>, world: World): seq<string> {
    if FullyAnswered(existing) then [] else RunsOf(existing, required, world)
  }

  method CollectGit(existing: Option<Record>, world: World) returns (items: seq<Item>)
    ensures items == GitItems(existing, world)
  {
    if !Refreshes(existing, Git) { return Kept(existing, Git); }
    if world.git.None? { return [GitChange(Unknown, [])]; }
    var provenance := ChangeProvenance(world.target, world.others, world.measured, world.actual);
    items := [GitChange(provenance, world.git.value)];
  }

  class EvidenceFile {
    var record: Option<Record>

    constructor ()
      ensures record == None
    {
      record := None;
    }

    method Collect(required: seq<Requirement>, world: World) returns (ran: seq<string>)
      modifies this
      ensures record == Some(Collected(old(record), required, world))
      ensures ran == FinishedRuns(old(record), required, world)
    {
      ran := [];
      if FullyAnswered(record) { return; }
      var changed := CollectGit(record, world);
      var items := changed + HistoryItems(record, world) + BoundaryItems(record, world) + OutputItems(record, world);
      var verified: seq<Item> := [];
      for i := 0 to |required|
        invariant record == old(record)
        invariant verified == VerifyItems(record, required[..i], world) && ran == RunsOf(record, required[..i], world)
      {
        assert required[..i + 1][..i] == required[..i];
        if required[i].Change? { continue; }
        var command := required[i].command;
        if !Refreshes(record, Verifier(command)) {
          verified := verified + Kept(record, Verifier(command));
          continue;
        }
        var answer := world.verifier(command);
        verified := verified + [VerifyItem(command, answer)];
        if answer.Finished? { ran := ran + [command]; }
      }
      assert required[..|required|] == required;
      var completeness := if AsksHistory(record) then CompletenessOf(world.history) else record.value.completeness;
      record := Some(Record(items + verified, completeness));
    }
  }

  // ----- What one collection leaves of each producer

  predicate AllFrom(items: seq<Item>, key: Key) {
    forall i :: 0 <= i < |items| ==> SourceKey(items[i]) == key
  }

  lemma OfAllFrom(items: seq<Item>, source: Key, key: Key)
    requires AllFrom(items, source)
    ensures Of(items, key) == if key == source then items else []
  {
    if key == source { FilterAll(items, HasSourceKey(key)); } else { FilterNone(items, HasSourceKey(key)); }
  }

  lemma OfHasKey(items: seq<Item>, key: Key)
    ensures AllFrom(Of(items, key), key)
    ensures forall item :: item in Of(items, key) <==> item in items && SourceKey(item) == key
  {
    FilterMember(items, HasSourceKey(key));
    forall i | 0 <= i < |Of(items, key)| ensures SourceKey(Of(items, key)[i]) == key {
      assert Of(items, key)[i] in Of(items, key);
    }
  }

  lemma KeptHasKey(existing: Option<Record>, key: Key)
    ensures AllFrom(Kept(existing, key), key)
  {
    if existing.Some? { OfHasKey(existing.value.items, key); }
  }

  /** What one collection does for one verify command. */
  function CommandItems(existing: Option<Record>, command: string, world: World): seq<Item> {
    if Refreshes(existing, Verifier(command)) then [VerifyItem(command, world.verifier(command))]
    else Kept(existing, Verifier(command))
  }

  lemma CommandItemsFrom(existing: Option<Record>, command: string, world: World)
    ensures AllFrom(CommandItems(existing, command, world), Verifier(command))
  {
    KeptHasKey(existing, Verifier(command));
  }

  /** Of the verify items, those of one command are what the collection did for that command. */
  lemma {:induction false} OfVerifyItems(existing: Option<Record>, required: seq<Requirement>, world: World, key: Key)
    requires Distinct(required)
    ensures Of(VerifyItems(existing, required, world), key)
         == if key.Verifier? && VerifyWith(key.command) in required then CommandItems(existing, key.command, world)
            else []
    decreases |required|
  {
    if required != [] {
      var front, last := required[..|required| - 1], required[|required| - 1];
      OfVerifyItems(existing, front, world, key);
      LastOfRequired(required);
      var before := VerifyItems(existing, front, world);
      if last.Change? {
        assert VerifyItems(existing, required, world) == before;
      } else {
        var added := CommandItems(existing, last.command, world);
        assert VerifyItems(existing, required, world) == before + added;
        FilterConcat(before, added, HasSourceKey(key));
        CommandItemsFrom(existing, last.command, world);
        OfAllFrom(added, Verifier(last.command), key);
      }
    }
  }

  lemma LastOfRequired(required: seq<Requirement>)
    requires required != [] && Distinct(required)
    ensures var front, last := required[..|required| - 1], required[|required| - 1];
            && Distinct(front) && last !in front
            && forall requirement :: requirement in required <==> requirement in front || requirement == last
  {
  }

  lemma ProducersKeepTheirKeys(existing: Option<Record>, world: World)
    ensures AllFrom(GitItems(existing, world), Git) && AllFrom(HistoryItems(existing, world), HistoryBridge)
    ensures AllFrom(BoundaryItems(existing, world), RuntimeEvent) && AllFrom(OutputItems(existing, world), AgentOutput)
  {
    forall key ensures AllFrom(Kept(existing, key), key) { KeptHasKey(existing, key); }
  }

  lemma OfParts(git: seq<Item>, history: seq<Item>, boundary: seq<Item>, output: seq<Item>, verify: seq<Item>, key: Key)
    requires AllFrom(git, Git) && AllFrom(history, HistoryBridge) && AllFrom(boundary, RuntimeEvent)
               && AllFrom(output, AgentOutput)
    requires !key.Verifier? ==> Of(verify, key) == []
    ensures Of(git + history + boundary + output + verify, key)
         == match key
            case Git => git
            case HistoryBridge => history
            case RuntimeEvent => boundary
            case AgentOutput => output
            case Verifier(_) => Of(verify, key)
  {
    OfConcatFive(git, history, boundary, output, verify, key);
    OfAllFrom(git, Git, key);
    OfAllFrom(history, HistoryBridge, key);
    OfAllFrom(boundary, RuntimeEvent, key);
    OfAllFrom(output, AgentOutput, key);
  }

  lemma OfConcatFive(a: seq<Item>, b: seq<Item>, c: seq<Item>, d: seq<Item>, e: seq<Item>, key: Key)
    ensures Of(a + b + c + d + e, key) == Of(a, key) + Of(b, key) + Of(c, key) + Of(d, key) + Of(e, key)
  {
    FilterConcat(a, b, HasSourceKey(key));
    FilterConcat(a + b, c, HasSourceKey(key));
    FilterConcat(a + b + c, d, HasSourceKey(key));
    FilterConcat(a + b + c + d, e, HasSourceKey(key));
  }

  /** The items of each producer after a collection that was not a no-op. */
  lemma OfCollected(existing: Option<Record>, required: seq<Requirement>, world: World, key: Key)
    requires Distinct(required) && !FullyAnswered(existing)
    ensures Kept(Some(Collected(existing, required, world)), key)
         == match key
            case Git => GitItems(existing, world)
            case HistoryBridge => HistoryItems(existing, world)
            case RuntimeEvent => BoundaryItems(existing, world)
            case AgentOutput => OutputItems(existing, world)
            case Verifier(command) =>
              if VerifyWith(command) in required then CommandItems(existing, command, world) else []
  {
    ProducersKeepTheirKeys(existing, world);
    OfVerifyItems(existing, required, world, key);
    OfParts(GitItems(existing, world), HistoryItems(existing, world), BoundaryItems(existing, world),
            OutputItems(existing, world),
            VerifyItems(existing, required, world), key);
  }

  /** An answered git, boundary, output or required verify item is never replaced. */
  lemma AnsweredPersists(existing: Option<Record>, required: seq<Requirement>, world: World, key: Key)
    requires Distinct(required) && existing.Some? && !Refreshes(existing, key)
    requires !key.HistoryBridge? && (key.Verifier? ==> VerifyWith(key.command) in required)
    ensures Kept(Some(Collected(existing, required, world)), key) == Kept(existing, key)
    ensures !Refreshes(Some(Collected(existing, required, world)), key)
  {
    if !FullyAnswered(existing) {
      OfCollected(existing, required, world, key);
    }
  }

  // ----- Collecting again and again

  function RecordAfter(required: seq<Requirement>, worlds: seq<World>): Option<Record> {
    if worlds == [] then None
    else Some(Collected(RecordAfter(required, worlds[..|worlds| - 1]), required, worlds[|worlds| - 1]))
  }

  /** Whatever is collected afterwards, an answered git, boundary, output or required verify item stands. */
  lemma {:induction false} AnsweredForGood(required: seq<Requirement>, worlds: seq<World>, n: nat, key: Key)
    requires Distinct(required) && 0 < n <= |worlds| && !Refreshes(RecordAfter(required, worlds[..n]), key)
    requires !key.HistoryBridge? && (key.Verifier? ==> VerifyWith(key.command) in required)
    ensures Kept(RecordAfter(required, worlds), key) == Kept(RecordAfter(required, worlds[..n]), key)
    ensures !Refreshes(RecordAfter(required, worlds), key)
    decreases |worlds|
  {
    if n == |worlds| {
      assert worlds[..n] == worlds;
    } else {
      var front := worlds[..|worlds| - 1];
      assert front[..n] == worlds[..n];
      AnsweredForGood(required, front, n, key);
      AnsweredPersists(RecordAfter(required, front), required, worlds[|worlds| - 1], key);
    }
  }

  /** `item` is what a producer answered during one collection. */
  predicate Attested(item: Item, world: World) {
    match item
    case GitChange(Unknown, paths) => world.git.None? && paths == []
    case GitChange(provenance, paths) =>
      world.git == Some(paths)
          && provenance == GitChangeProvenance(world.target, world.others, world.measured, world.actual)
    case HistoryChange(provenance, paths) => ChangeEntry(paths) in EntriesOf(world.history) && ReadAs(provenance, world)
    case ToolCall(provenance) => ToolEntry in EntriesOf(world.history) && ReadAs(provenance, world)
    case UsageCount(provenance) => world.counted && ReadAs(provenance, world)
    case Boundary(provenance) => provenance == if RanAsMeasured(world.measured, world.actual) then Observed else Derived
    case Output(digest) => world.output == Some(digest) && ProvenanceOf(item) == SelfReported
    case Verify(command, exitCode) => world.verifier(command) == Finished(exitCode) && ProvenanceOf(item) == Observed
    case VerifySkipped(command, reason) =>
      world.verifier(command) == Skipped(reason) && ProvenanceOf(item) == Unknown
  }

  /** Observed needs a complete transcript and the measured runtime; unknown means no bridge. */
  predicate ReadAs(provenance: Provenance, world: World) {
    && provenance != SelfReported
    && (provenance == Observed <==>
          world.history.Read? && world.history.complete && RanAsMeasured(world.measured, world.actual))
    && (provenance == Unknown <==> world.history.NoBridge?)
  }

  lemma NewItemsAreAttested(existing: Option<Record>, world: World, item: Item)
    ensures Refreshes(existing, Git) && item in GitItems(existing, world) ==> Attested(item, world)
    ensures AsksHistory(existing) && item in HistoryItems(existing, world) ==> Attested(item, world)
    ensures Refreshes(existing, RuntimeEvent) && item in BoundaryItems(existing, world) ==> Attested(item, world)
    ensures Refreshes(existing, AgentOutput) && item in OutputItems(existing, world) ==> Attested(item, world)
  {
    assert ReadAs(Lowered(BridgeProvenance(CompletenessOf(world.history)), world), world);
  }

  /** An item of a record after a collection was already there, or a producer answered it now. */
  lemma KeptOrAttested(existing: Option<Record>, required: seq<Requirement>, world: World, item: Item)
    requires Distinct(required) && item in Collected(existing, required, world).items
    ensures Attested(item, world) || (existing.Some? && item in existing.value.items)
  {
    if !FullyAnswered(existing) {
      var key := SourceKey(item);
      OfCollected(existing, required, world, key);
      OfHasKey(Collected(existing, required, world).items, key);
      assert item in Kept(Some(Collected(existing, required, world)), key);
      NewItemsAreAttested(existing, world, item);
      if item !in Kept(existing, key) {
        assert Attested(item, world);
      } else {
        OfHasKey(existing.value.items, key);
      }
    }
  }

  /** Nothing in a record is invented: every item was answered, as it stands, by a producer during some collection. */
  lemma {:induction false} ItemsAreAttested(required: seq<Requirement>, worlds: seq<World>, item: Item)
    requires Distinct(required) && worlds != [] && item in RecordAfter(required, worlds).value.items
    ensures exists i :: 0 <= i < |worlds| && Attested(item, worlds[i])
    decreases |worlds|
  {
    var front, world := worlds[..|worlds| - 1], worlds[|worlds| - 1];
    KeptOrAttested(RecordAfter(required, front), required, world, item);
    if !Attested(item, world) {
      ItemsAreAttested(required, front, item);
      var i :| 0 <= i < |front| && Attested(item, front[i]);
      assert worlds[i] == front[i];
    }
  }

  /**
    So an observed git change is an unshared one: some collection saw exactly these paths
    changed while every rival of the target was harmless; on disk too, exactly when none of the
    others was overlooked.
   */
  lemma ObservedMeansUnshared(required: seq<Requirement>, worlds: seq<World>, paths: seq<string>) returns (world: World)
    requires Distinct(required) && worlds != []
    requires GitChange(Observed, paths) in RecordAfter(required, worlds).value.items
    ensures world in worlds && world.git == Some(paths)
    ensures Unshared(world.target, world.others, world.measured, world.actual)
    ensures UnsharedOnDisk(world.target, world.others) <==>
              forall i :: 0 <= i < |world.others| ==> !Overlooked(world.target, world.others[i])
  {
    ItemsAreAttested(required, worlds, GitChange(Observed, paths));
    var i :| 0 <= i < |worlds| && Attested(GitChange(Observed, paths), worlds[i]);
    world := worlds[i];
    ObservedExactly(world.target, world.others, world.measured, world.actual);
    ObservedOnDiskExactly(world.target, world.others, world.measured, world.actual);
  }

  /** Every finished verify run of the whole history, in order. */
  function AllRuns(required: seq<Requirement>, worlds: seq<World>): seq<string> {
    if worlds == [] then []
    else
      var front := worlds[..|worlds| - 1];
      AllRuns(required, front) + FinishedRuns(RecordAfter(required, front), required, worlds[|worlds| - 1])
  }

  lemma {:induction false} RunsAreRefreshed(existing: Option<Record>, required: seq<Requirement>, world: World)
    requires Distinct(required)
    ensures Distinct(RunsOf(existing, required, world))
    ensures forall command :: command in RunsOf(existing, required, world) ==>
              && VerifyWith(command) in required && Refreshes(existing, Verifier(command))
                    && world.verifier(command).Finished?
    decreases |required|
  {
    if required != [] {
      RunsAreRefreshed(existing, required[..|required| - 1], world);
    }
  }

  /** `commands` were verified and their answers stand. */
  predicate Standing(required: seq<Requirement>, record: Option<Record>, commands: seq<string>) {
    Distinct(commands)
    && forall command :: command in commands ==>
          VerifyWith(command) in required && !Refreshes(record, Verifier(command))
  }

  lemma FinishedRunStands(existing: Option<Record>, required: seq<Requirement>, world: World, command: string)
    requires Distinct(required) && !FullyAnswered(existing) && VerifyWith(command) in required
    requires Refreshes(existing, Verifier(command)) && world.verifier(command).Finished?
    ensures !Refreshes(Some(Collected(existing, required, world)), Verifier(command))
  {
    OfCollected(existing, required, world, Verifier(command));
  }

  lemma RunsStand(existing: Option<Record>, required: seq<Requirement>, world: World, before: seq<string>)
    requires Distinct(required) && Standing(required, existing, before)
    ensures Standing(required, Some(Collected(existing, required, world)),
                     before + FinishedRuns(existing, required, world))
  {
    var runs, next := FinishedRuns(existing, required, world), Some(Collected(existing, required, world));
    RunsAreRefreshed(existing, required, world);
    DistinctConcat(before, runs);
    forall command | command in before + runs
      ensures VerifyWith(command) in required && !Refreshes(next, Verifier(command))
    {
      if command in before {
        AnsweredPersists(existing, required, world, Verifier(command));
      } else {
        FinishedRunStands(existing, required, world, command);
      }
    }
  }

  /** Each required command finishes a verify run at most once, and once it has, its answer stands. */
  lemma {:induction false} VerifiedAtMostOnce(required: seq<Requirement>, worlds: seq<World>)
    requires Distinct(required)
    ensures Standing(required, RecordAfter(required, worlds), AllRuns(required, worlds))
    decreases |worlds|
  {
    if worlds != [] {
      VerifiedAtMostOnce(required, worlds[..|worlds| - 1]);
      RunsStand(RecordAfter(required, worlds[..|worlds| - 1]), required, worlds[|worlds| - 1],
                AllRuns(required, worlds[..|worlds| - 1]));
    }
  }

  /** A fully answered record is final: later collections change nothing and run nothing. */
  lemma {:induction false} FullyAnsweredIsFinal(required: seq<Requirement>, worlds: seq<World>, n: nat)
    requires n <= |worlds| && FullyAnswered(RecordAfter(required, worlds[..n]))
    ensures RecordAfter(required, worlds) == RecordAfter(required, worlds[..n])
    ensures AllRuns(required, worlds) == AllRuns(required, worlds[..n])
    decreases |worlds|
  {
    if n == |worlds| {
      assert worlds[..n] == worlds;
    } else {
      var front := worlds[..|worlds| - 1];
      assert front[..n] == worlds[..n];
      FullyAnsweredIsFinal(required, front, n);
    }
  }

  // ----- What a record is bound to hold

  /** Some collection saw the command pass. */
  predicate PassedIn(worlds: seq<World>, command: string) {
    exists i :: 0 <= i < |worlds| && worlds[i].verifier(command) == Finished(0)
  }

  /** Some collection saw paths changed, in git or in the transcript. */
  ghost predicate ChangeIn(worlds: seq<World>) {
    exists i, paths :: 0 <= i < |worlds| && paths != []
                       && (worlds[i].git == Some(paths) || ChangeEntry(paths) in EntriesOf(worlds[i].history))
  }

  /** Satisfied is earned: each required command passed in some collection, and a required change was seen. */
  lemma SatisfiedIsEarned(required: seq<Requirement>, worlds: seq<World>, requirement: Requirement)
    requires Distinct(required) && worlds != [] && requirement in required
    requires AllMet(required, RecordAfter(required, worlds).value.items)
    ensures match requirement
            case Change => ChangeIn(worlds)
            case VerifyWith(command) => PassedIn(worlds, command)
  {
    var items := RecordAfter(required, worlds).value.items;
    VerdictExactly(requirement, items);
    match requirement
    case Change =>
      var k :| 0 <= k < |items| && Telling(items[k]);
      ItemsAreAttested(required, worlds, items[k]);
      var i :| 0 <= i < |worlds| && Attested(items[k], worlds[i]);
      assert worlds[i].git == Some(items[k].paths) || ChangeEntry(items[k].paths) in EntriesOf(worlds[i].history);
    case VerifyWith(command) =>
      var k :| 0 <= k < |items| && FirstVerify(items, command, k) && items[k].exitCode == 0;
      ItemsAreAttested(required, worlds, items[k]);
      var i :| 0 <= i < |worlds| && Attested(items[k], worlds[i]);
  }

  lemma UnknownIsAskedAgain(existing: Option<Record>, key: Key)
    requires existing.Some? && AnyUnknown(Kept(existing, key))
    ensures Refreshes(existing, key) && !FullyAnswered(existing)
  {
    OfHasKey(existing.value.items, key);
    var mine := Kept(existing, key);
    var i :| 0 <= i < |mine| && ProvenanceOf(mine[i]) == Unknown;
    assert mine[i] in existing.value.items;
  }

  /** A collection after others: what the last one found is collected into the record of the others. */
  lemma LastCollection(required: seq<Requirement>, worlds: seq<World>)
    requires worlds != []
    ensures RecordAfter(required, worlds)
         == Some(Collected(RecordAfter(required, worlds[..|worlds| - 1]), required, worlds[|worlds| - 1]))
  {
  }

  /** What git answers in `world`: the paths it found, as far as they can be trusted, if there is a baseline. */
  function GitAnswer(world: World): Item {
    if world.git.Some?
    then GitChange(GitChangeProvenance(world.target, world.others, world.measured, world.actual), world.git.value)
    else GitChange(Unknown, [])
  }

  predicate OnlyItem(existing: Option<Record>, key: Key, item: Item) {
    Kept(existing, key) == [item]
  }

  lemma GitStep(existing: Option<Record>, required: seq<Requirement>, world: World)
    requires Distinct(required) && (existing.None? || OnlyItem(existing, Git, GitChange(Unknown, [])))
    ensures OnlyItem(Some(Collected(existing, required, world)), Git, GitAnswer(world))
  {
    if existing.Some? {
      assert ProvenanceOf(Kept(existing, Git)[0]) == Unknown;
      UnknownIsAskedAgain(existing, Git);
    }
    OfCollected(existing, required, world, Git);
  }

  lemma VerifyStep(existing: Option<Record>, required: seq<Requirement>, world: World, command: string,
                   reason: SkipReason)
    requires Distinct(required) && VerifyWith(command) in required
    requires existing.None? || OnlyItem(existing, Verifier(command), VerifySkipped(command, reason))
    ensures OnlyItem(Some(Collected(existing, required, world)), Verifier(command),
                     VerifyItem(command, world.verifier(command)))
  {
    if existing.Some? {
      assert ProvenanceOf(Kept(existing, Verifier(command))[0]) == Unknown;
      UnknownIsAskedAgain(existing, Verifier(command));
    }
    OfCollected(existing, required, world, Verifier(command));
  }

  /** An answered item that stands alone keeps standing alone. */
  lemma OnlyItemStands(existing: Option<Record>, required: seq<Requirement>, world: World, key: Key, item: Item)
    requires Distinct(required) && OnlyItem(existing, key, item) && ProvenanceOf(item) != Unknown
    requires !key.HistoryBridge? && (key.Verifier? ==> VerifyWith(key.command) in required)
    ensures OnlyItem(Some(Collected(existing, required, world)), key, item)
  {
    AnsweredPersists(existing, required, world, key);
  }

  /** Collection `i` is the first with a baseline to compare with. */
  predicate FirstBaseline(worlds: seq<World>, i: nat) {
    i < |worlds| && worlds[i].git.Some? && forall k :: 0 <= k < i ==> worlds[k].git.None?
  }

  /** Without a baseline the one git item says that nobody could answer. */
  lemma {:induction false} NoBaseline(required: seq<Requirement>, worlds: seq<World>)
    requires Distinct(required) && worlds != [] && forall i :: 0 <= i < |worlds| ==> worlds[i].git.None?
    ensures OnlyItem(RecordAfter(required, worlds), Git, GitChange(Unknown, []))
    decreases |worlds|
  {
    var front := worlds[..|worlds| - 1];
    if front != [] { NoBaseline(required, front); }
    LastCollection(required, worlds);
    GitStep(RecordAfter(required, front), required, worlds[|worlds| - 1]);
  }

  /** The first comparison stands: the one git item has the paths it found, trusted as that collection could trust. */
  lemma {:induction false} FirstComparisonStands(required: seq<Requirement>, worlds: seq<World>, i: nat)
    requires Distinct(required) && FirstBaseline(worlds, i)
    ensures var world := worlds[i];
            OnlyItem(RecordAfter(required, worlds), Git,
                     GitChange(GitChangeProvenance(world.target, world.others, world.measured, world.actual),
                               world.git.value))
    decreases |worlds|
  {
    var front, last := worlds[..|worlds| - 1], worlds[|worlds| - 1];
    var existing := RecordAfter(required, front);
    LastCollection(required, worlds);
    if i < |front| {
      FirstComparisonStands(required, front, i);
      ObservedExactly(worlds[i].target, worlds[i].others, worlds[i].measured, worlds[i].actual);
      OnlyItemStands(existing, required, last, Git, GitAnswer(worlds[i]));
    } else {
      if front != [] { NoBaseline(required, front); }
      GitStep(existing, required, last);
    }
  }

  /** The boundary is recorded once, by the first collection. */
  lemma {:induction false} FirstBoundaryStands(required: seq<Requirement>, worlds: seq<World>)
    requires Distinct(required) && worlds != []
    ensures OnlyItem(RecordAfter(required, worlds), RuntimeEvent,
                     Boundary(if RanAsMeasured(worlds[0].measured, worlds[0].actual) then Observed else Derived))
    decreases |worlds|
  {
    var front, last := worlds[..|worlds| - 1], worlds[|worlds| - 1];
    LastCollection(required, worlds);
    if front == [] {
      OfCollected(None, required, last, RuntimeEvent);
    } else {
      FirstBoundaryStands(required, front);
      OnlyItemStands(RecordAfter(required, front), required, last, RuntimeEvent,
                     Boundary(if RanAsMeasured(worlds[0].measured, worlds[0].actual) then Observed else Derived));
    }
  }

  /** Collection `i` finds the first output of those that ask, which a fully answered record does not. */
  predicate FirstOutput(required: seq<Requirement>, worlds: seq<World>, i: nat) {
    && i < |worlds| && worlds[i].output.Some? && !FullyAnswered(RecordAfter(required, worlds[..i]))
    && forall k :: 0 <= k < i ==> worlds[k].output.None?
  }

  /** Where no output was found before, the one found now is the only item. */
  lemma OutputStep(existing: Option<Record>, required: seq<Requirement>, world: World)
    requires Distinct(required) && !FullyAnswered(existing) && Kept(existing, AgentOutput) == []
    ensures Kept(Some(Collected(existing, required, world)), AgentOutput)
         == if world.output.Some? then [Output(world.output.value)] else []
  {
    OfCollected(existing, required, world, AgentOutput);
  }

  lemma {:induction false} NoOutput(required: seq<Requirement>, worlds: seq<World>)
    requires Distinct(required) && forall i :: 0 <= i < |worlds| ==> worlds[i].output.None?
    ensures Kept(RecordAfter(required, worlds), AgentOutput) == []
    decreases |worlds|
  {
    if worlds != [] {
      var front := worlds[..|worlds| - 1];
      var existing := RecordAfter(required, front);
      NoOutput(required, front);
      LastCollection(required, worlds);
      if !FullyAnswered(existing) { OutputStep(existing, required, worlds[|worlds| - 1]); }
    }
  }

  /** The first output that is asked for stands. */
  lemma {:induction false} FirstOutputStands(required: seq<Requirement>, worlds: seq<World>, i: nat)
    requires Distinct(required) && FirstOutput(required, worlds, i)
    ensures OnlyItem(RecordAfter(required, worlds), AgentOutput, Output(worlds[i].output.value))
    decreases |worlds|
  {
    var front, last := worlds[..|worlds| - 1], worlds[|worlds| - 1];
    LastCollection(required, worlds);
    if i < |front| {
      FirstOutputStands(required, front, i) by { assert front[..i] == worlds[..i]; }
      OnlyItemStands(RecordAfter(required, front), required, last, AgentOutput, Output(worlds[i].output.value));
    } else {
      NoOutput(required, front);
      OutputStep(RecordAfter(required, front), required, last);
    }
  }

  /** In none of the collections the verify run of `command` finishes. */
  predicate NoneFinishes(worlds: seq<World>, command: string) {
    forall k :: 0 <= k < |worlds| ==> worlds[k].verifier(command).Skipped?
  }

  /** Collection `i` is the first in which the verify run of `command` finishes. */
  predicate FirstFinished(worlds: seq<World>, command: string, i: nat) {
    i < |worlds| && worlds[i].verifier(command).Finished? && NoneFinishes(worlds[..i], command)
  }

  /** After collections in which the command never finished, the next one answers anew. */
  lemma {:induction false} AnsweredAnew(required: seq<Requirement>, front: seq<World>, last: World, command: string)
    requires Distinct(required) && VerifyWith(command) in required
    requires NoneFinishes(front, command)
    ensures OnlyItem(Some(Collected(RecordAfter(required, front), required, last)), Verifier(command),
                     VerifyItem(command, last.verifier(command)))
    decreases |front|, 1
  {
    if front == [] {
      VerifyStep(None, required, last, command, NotConfigured);
    } else {
      NeverFinished(required, front, command);
      VerifyStep(RecordAfter(required, front), required, last, command,
                 front[|front| - 1].verifier(command).reason);
    }
  }

  /** Until a required command finishes, its one item gives the last reason why it did not run. */
  lemma {:induction false} NeverFinished(required: seq<Requirement>, worlds: seq<World>, command: string)
    requires Distinct(required) && VerifyWith(command) in required && worlds != []
    requires NoneFinishes(worlds, command)
    ensures OnlyItem(RecordAfter(required, worlds), Verifier(command),
                     VerifySkipped(command, worlds[|worlds| - 1].verifier(command).reason))
    decreases |worlds|, 0
  {
    LastCollection(required, worlds);
    AnsweredAnew(required, worlds[..|worlds| - 1], worlds[|worlds| - 1], command);
  }

  /** The first exit code of a required command stands. */
  lemma {:induction false} FirstExitStands(required: seq<Requirement>, worlds: seq<World>, command: string, i: nat)
    requires Distinct(required) && VerifyWith(command) in required && FirstFinished(worlds, command, i)
    ensures OnlyItem(RecordAfter(required, worlds), Verifier(command),
                     Verify(command, worlds[i].verifier(command).exitCode))
    decreases |worlds|
  {
    var front, last := worlds[..|worlds| - 1], worlds[|worlds| - 1];
    LastCollection(required, worlds);
    if i < |front| {
      FirstExitStands(required, front, command, i) by { assert front[..i] == worlds[..i]; }
      OnlyItemStands(RecordAfter(required, front), required, last, Verifier(command),
                     Verify(command, worlds[i].verifier(command).exitCode));
    } else {
      assert worlds[..i] == front;
      AnsweredAnew(required, front, last, command);
    }
  }

  lemma {:induction false} RunsExactly(existing: Option<Record>, required: seq<Requirement>, world: World,
                                       command: string)
    ensures command in RunsOf(existing, required, world) <==>
              && VerifyWith(command) in required && Refreshes(existing, Verifier(command))
              && world.verifier(command).Finished?
    decreases |required|
  {
    if required != [] {
      var front, last := required[..|required| - 1], required[|required| - 1];
      RunsExactly(existing, front, world, command);
      assert VerifyWith(command) in required <==> VerifyWith(command) in front || last == VerifyWith(command);
    }
  }

  /** Some collection of the list could finish the verify run of `command`. */
  ghost predicate CouldFinish(worlds: seq<World>, command: string) {
    exists i :: 0 <= i < |worlds| && worlds[i].verifier(command).Finished?
  }

  /** The verify run of a command finishes over any collections if and only if it is required and one of them could. */
  lemma {:induction false} RanExactly(required: seq<Requirement>, worlds: seq<World>, command: string)
    requires Distinct(required)
    ensures command in AllRuns(required, worlds) <==> VerifyWith(command) in required && CouldFinish(worlds, command)
    decreases |worlds|
  {
    if worlds != [] {
      var front, last := worlds[..|worlds| - 1], worlds[|worlds| - 1];
      var existing := RecordAfter(required, front);
      RanExactly(required, front, command);
      RunsExactly(existing, required, last, command);
      assert CouldFinish(worlds, command) <==> CouldFinish(front, command) || last.verifier(command).Finished?;
      if VerifyWith(command) in required && !CouldFinish(front, command) && front != [] {
        NeverFinished(required, front, command);
        assert ProvenanceOf(Kept(existing, Verifier(command))[0]) == Unknown;
        UnknownIsAskedAgain(existing, Verifier(command));
      }
    }
  }

  /** The transcript shows something: an entry, or usage that was counted from it. */
  predicate Shows(world: World) {
    world.history.Read? && (world.history.entries != [] || world.counted)
  }

  /** What a transcript is worth: observed only if it was read whole, from the runtime that was measured. */
  function ReadProvenance(world: World): Provenance
    requires world.history.Read?
  {
    if world.history.complete && RanAsMeasured(world.measured, world.actual) then Observed else Derived
  }

  /** The items are the entries of the transcript in order, and then the usage. */
  predicate HistoryShown(items: seq<Item>, world: World)
    requires world.history.Read?
  {
    var entries := world.history.entries;
    && |items| == |entries| + (if world.counted then 1 else 0)
    && (forall k :: 0 <= k < |entries| ==>
          items[k] == if entries[k].ToolEntry? then ToolCall(ReadProvenance(world))
                      else HistoryChange(ReadProvenance(world), entries[k].paths))
    && (world.counted ==> items[|entries|] == UsageCount(ReadProvenance(world)))
  }

  /** What a record holds of the transcript, and how complete it says that is. */
  predicate HoldsTranscript(record: Option<Record>, world: World)
    requires world.history.Read?
  {
    && record.Some? && HistoryShown(Kept(record, HistoryBridge), world)
    && record.value.completeness == if world.history.complete then Complete else Partial
  }

  lemma HistoryStep(existing: Option<Record>, required: seq<Requirement>, world: World)
    requires Distinct(required) && (existing.Some? ==> AsksHistory(existing)) && !FullyAnswered(existing)
    ensures var record := Some(Collected(existing, required, world));
            && (world.history.Read? ==> HoldsTranscript(record, world))
            && (!world.history.Read? ==>
                  record.value.completeness == if world.history.Unreachable? then FinalOnly else Unsupported)
            && (!world.history.Read? ==>
                  Kept(record, HistoryBridge)
                  == if !world.counted then []
                     else [UsageCount(if world.history.Unreachable? then Derived else Unknown)])
  {
    OfCollected(existing, required, world, HistoryBridge);
  }

  lemma TranscriptAnswers(record: Option<Record>, world: World)
    requires Shows(world) && HoldsTranscript(record, world)
    ensures !AsksHistory(record)
  {
    var items := Kept(record, HistoryBridge);
    forall k | 0 <= k < |items| ensures ProvenanceOf(items[k]) == ReadProvenance(world) {}
  }

  /** Until a transcript shows something, the next collection asks for it again. */
  lemma {:induction false} HistoryStillAsked(required: seq<Requirement>, worlds: seq<World>)
    requires Distinct(required) && worlds != [] && forall i :: 0 <= i < |worlds| ==> !Shows(worlds[i])
    ensures AsksHistory(RecordAfter(required, worlds))
    decreases |worlds|
  {
    var front, last := worlds[..|worlds| - 1], worlds[|worlds| - 1];
    LastCollection(required, worlds);
    if front != [] { HistoryStillAsked(required, front); }
    if !FullyAnswered(RecordAfter(required, front)) { HistoryStep(RecordAfter(required, front), required, last); }
  }

  /** Collection `i` is the first to read a transcript that shows something, and the record still asks for it. */
  predicate FirstShown(required: seq<Requirement>, worlds: seq<World>, i: nat) {
    && i < |worlds| && Shows(worlds[i]) && !FullyAnswered(RecordAfter(required, worlds[..i]))
    && forall k :: 0 <= k < i ==> !Shows(worlds[k])
  }

  lemma TranscriptStands(existing: Option<Record>, required: seq<Requirement>, last: World, shown: World)
    requires Distinct(required) && Shows(shown) && HoldsTranscript(existing, shown)
    ensures HoldsTranscript(Some(Collected(existing, required, last)), shown)
  {
    TranscriptAnswers(existing, shown);
    if !FullyAnswered(existing) { OfCollected(existing, required, last, HistoryBridge); }
  }

  /** The first transcript that shows something stands: entry by entry, with its usage and its completeness. */
  lemma {:induction false} FirstTranscriptStands(required: seq<Requirement>, worlds: seq<World>, i: nat)
    requires Distinct(required) && FirstShown(required, worlds, i)
    ensures HoldsTranscript(RecordAfter(required, worlds), worlds[i])
    decreases |worlds|
  {
    var front, last := worlds[..|worlds| - 1], worlds[|worlds| - 1];
    LastCollection(required, worlds);
    if i < |front| {
      FirstTranscriptStands(required, front, i) by { assert front[..i] == worlds[..i]; }
      TranscriptStands(RecordAfter(required, front), required, last, worlds[i]);
    } else {
      if front != [] { HistoryStillAsked(required, front); }
      HistoryStep(RecordAfter(required, front), required, last);
    }
  }

  // ----- When a record is final

  /** Every producer can answer in `world`; whether there is an output is left open. */
  ghost predicate Answerable(required: seq<Requirement>, world: World) {
    && world.git.Some? && world.history.Read?
    && forall command :: VerifyWith(command) in required ==> world.verifier(command).Finished?
  }

  predicate NoneUnknown(items: seq<Item>) {
    forall item :: item in items ==> ProvenanceOf(item) != Unknown
  }

  lemma KeptIsKnown(existing: Option<Record>, key: Key)
    requires existing.Some? && !Refreshes(existing, key)
    ensures NoneUnknown(Kept(existing, key))
  {
  }

  lemma AnswersAreKnown(existing: Option<Record>, required: seq<Requirement>, world: World)
    requires Answerable(required, world)
    ensures NoneUnknown(GitItems(existing, world)) && NoneUnknown(HistoryItems(existing, world))
    ensures NoneUnknown(BoundaryItems(existing, world)) && NoneUnknown(OutputItems(existing, world))
  {
    forall key | existing.Some? && !Refreshes(existing, key) ensures NoneUnknown(Kept(existing, key)) {
      KeptIsKnown(existing, key);
    }
    ObservedExactly(world.target, world.others, world.measured, world.actual);
    assert GitChangeProvenance(world.target, world.others, world.measured, world.actual) != Unknown;
  }

  lemma {:induction false} VerifiesAreKnown(existing: Option<Record>, required: seq<Requirement>, world: World)
    requires Answerable(required, world)
    ensures NoneUnknown(VerifyItems(existing, required, world))
    decreases |required|
  {
    if required != [] {
      var front, last := required[..|required| - 1], required[|required| - 1];
      VerifiesAreKnown(existing, front, world);
      if last.VerifyWith? && !Refreshes(existing, Verifier(last.command)) {
        KeptIsKnown(existing, Verifier(last.command));
      }
    }
  }

  /** One collection in which every producer can answer leaves nothing to ask. */
  lemma AnswerableIsFinal(existing: Option<Record>, required: seq<Requirement>, world: World)
    requires Answerable(required, world)
    ensures FullyAnswered(Some(Collected(existing, required, world)))
  {
    if !FullyAnswered(existing) {
      AnswersAreKnown(existing, required, world);
      VerifiesAreKnown(existing, required, world);
      var items := Collected(existing, required, world).items;
      forall i | 0 <= i < |items| ensures ProvenanceOf(items[i]) != Unknown { assert items[i] in items; }
    }
  }

  /** As long as no collection could read a transcript, the record is not final, whatever else was answered. */
  lemma {:induction false} UnreadIsNotFinal(required: seq<Requirement>, worlds: seq<World>)
    requires Distinct(required) && forall i :: 0 <= i < |worlds| ==> !worlds[i].history.Read?
    ensures !FullyAnswered(RecordAfter(required, worlds))
    decreases |worlds|
  {
    if worlds != [] {
      var front := worlds[..|worlds| - 1];
      UnreadIsNotFinal(required, front);
      if front != [] { HistoryStillAsked(required, front); }
      LastCollection(required, worlds);
      HistoryStep(RecordAfter(required, front), required, worlds[|worlds| - 1]);
    }
  }

  /** The first transcript that can be read stands if it shows something. */
  lemma FirstReadStands(required: seq<Requirement>, worlds: seq<World>, i: nat)
    requires Distinct(required) && i < |worlds| && Shows(worlds[i])
    requires forall k :: 0 <= k < i ==> !worlds[k].history.Read?
    ensures HoldsTranscript(RecordAfter(required, worlds), worlds[i])
  {
    UnreadIsNotFinal(required, worlds[..i]);
    FirstTranscriptStands(required, worlds, i);
  }

  // ----- Satisfied is never lost

  predicate HoldsHistoryChange(items: seq<Item>) {
    exists i :: 0 <= i < |items| && items[i].HistoryChange?
  }

  /** History that shows a change is never asked for again. */
  predicate HistorySettled(existing: Option<Record>) {
    HoldsHistoryChange(Kept(existing, HistoryBridge)) ==> !AsksHistory(existing)
  }

  lemma CollectionSettlesHistory(existing: Option<Record>, required: seq<Requirement>, world: World)
    requires Distinct(required) && HistorySettled(existing)
    ensures HistorySettled(Some(Collected(existing, required, world)))
  {
    if !FullyAnswered(existing) {
      OfCollected(existing, required, world, HistoryBridge);
      if AsksHistory(existing) && HoldsHistoryChange(HistoryItems(existing, world)) {
        HistoryItemsSettle(existing, world);
      }
    }
  }

  lemma HistoryItemsSettle(existing: Option<Record>, world: World)
    requires AsksHistory(existing) && HoldsHistoryChange(HistoryItems(existing, world))
    ensures HistoryItems(existing, world) != [] && !AnyUnknown(HistoryItems(existing, world))
    ensures world.history.Read?
  {
  }

  lemma {:induction false} FirstExitOf(items: seq<Item>, command: string)
    ensures Ran(Of(items, Verifier(command)), command) <==> Ran(items, command)
    ensures Ran(items, command) ==> FirstExit(Of(items, Verifier(command)), command) == FirstExit(items, command)
  {
    RanOf(items, command);
    if items != [] {
      RanOf(items[1..], command);
      FirstExitOf(items[1..], command);
      var rest := Of(items[1..], Verifier(command));
      if SourceKey(items[0]) == Verifier(command) {
        assert Of(items, Verifier(command)) == [items[0]] + rest;
        assert ([items[0]] + rest)[1..] == rest;
      } else {
        assert Of(items, Verifier(command)) == rest;
      }
    }
  }

  lemma RanOf(items: seq<Item>, command: string)
    ensures Ran(Of(items, Verifier(command)), command) <==> Ran(items, command)
  {
    OfHasKey(items, Verifier(command));
    var mine := Of(items, Verifier(command));
    if Ran(items, command) {
      var i :| 0 <= i < |items| && items[i].Verify? && items[i].command == command;
      assert items[i] in mine;
    }
    if Ran(mine, command) {
      var i :| 0 <= i < |mine| && mine[i].Verify? && mine[i].command == command;
      assert mine[i] in items;
    }
  }

  lemma MetByKey(items: seq<Item>, command: string)
    ensures VerdictOn(VerifyWith(command), items) == Met <==>
              VerdictOn(VerifyWith(command), Of(items, Verifier(command))) == Met
  {
    FirstExitOf(items, command);
  }

  lemma MetIsAnswered(mine: seq<Item>, command: string)
    requires |mine| <= 1 && VerdictOn(VerifyWith(command), mine) == Met
    ensures mine != [] && !AnyUnknown(mine)
  {
  }

  /** A verify requirement that is met stays met. */
  lemma VerifyMetPersists(existing: Option<Record>, required: seq<Requirement>, world: World, command: string)
    requires Distinct(required) && VerifyWith(command) in required && existing.Some?
    requires VerdictOn(VerifyWith(command), existing.value.items) == Met && |Kept(existing, Verifier(command))| <= 1
    ensures VerdictOn(VerifyWith(command), Collected(existing, required, world).items) == Met
  {
    MetByKey(existing.value.items, command);
    MetIsAnswered(Kept(existing, Verifier(command)), command);
    AnsweredPersists(existing, required, world, Verifier(command));
    MetByKey(Collected(existing, required, world).items, command);
  }

  lemma ChangeItemPersists(existing: Option<Record>, required: seq<Requirement>, world: World, item: Item)
    requires Distinct(required) && existing.Some? && HistorySettled(existing) && |Kept(existing, Git)| <= 1
    requires IsChange(item) && item.provenance != Unknown && item in Kept(existing, SourceKey(item))
    ensures item in Kept(Some(Collected(existing, required, world)), SourceKey(item))
  {
    if item.GitChange? {
      assert Kept(existing, Git) == [item];
      AnsweredPersists(existing, required, world, Git);
    } else if !FullyAnswered(existing) {
      OfCollected(existing, required, world, HistoryBridge);
    }
  }

  lemma ShowsChangeByKey(items: seq<Item>)
    ensures ShowsChange(items) <==>
              exists item :: item in items && IsChange(item) && item.provenance != Unknown && item.paths != []
                  && item in Of(items, SourceKey(item))
  {
    if ShowsChange(items) {
      var i :| 0 <= i < |items| && IsChange(items[i]) && items[i].provenance != Unknown && items[i].paths != [];
      OfHasKey(items, SourceKey(items[i]));
      assert items[i] in items;
    }
  }

  /** A shown change stays shown. */
  lemma ChangeMetPersists(existing: Option<Record>, required: seq<Requirement>, world: World)
    requires Distinct(required) && existing.Some? && HistorySettled(existing)
    requires ShowsChange(existing.value.items) && |Kept(existing, Git)| <= 1
    ensures ShowsChange(Collected(existing, required, world).items)
  {
    var items, next := existing.value.items, Collected(existing, required, world).items;
    ShowsChangeByKey(items);
    ShowsChangeByKey(next);
    var item :| item in items && IsChange(item) && item.provenance != Unknown && item.paths != []
        && item in Of(items, SourceKey(item));
    ChangeItemPersists(existing, required, world, item);
    OfHasKey(next, SourceKey(item));
  }

  /** At most one git item, and at most one item for each verify command. */
  ghost predicate SingleAnswers(existing: Option<Record>) {
    |Kept(existing, Git)| <= 1 && forall command :: |Kept(existing, Verifier(command))| <= 1
  }

  lemma CollectionAnswersOnce(existing: Option<Record>, required: seq<Requirement>, world: World)
    requires Distinct(required) && SingleAnswers(existing)
    ensures SingleAnswers(Some(Collected(existing, required, world)))
  {
    if !FullyAnswered(existing) {
      OfCollected(existing, required, world, Git);
      forall command ensures |Kept(Some(Collected(existing, required, world)), Verifier(command))| <= 1 {
        OfCollected(existing, required, world, Verifier(command));
      }
    }
  }

  lemma {:induction false} RunInvariants(required: seq<Requirement>, worlds: seq<World>)
    requires Distinct(required)
    ensures HistorySettled(RecordAfter(required, worlds)) && SingleAnswers(RecordAfter(required, worlds))
    decreases |worlds|
  {
    if worlds != [] {
      var front := worlds[..|worlds| - 1];
      RunInvariants(required, front);
      CollectionSettlesHistory(RecordAfter(required, front), required, worlds[|worlds| - 1]);
      CollectionAnswersOnce(RecordAfter(required, front), required, worlds[|worlds| - 1]);
    }
  }

  /** Once every requirement is met, no later collection un-meets one. */
  lemma {:induction false} SatisfiedIsNeverLost(required: seq<Requirement>, worlds: seq<World>, n: nat)
    requires Distinct(required) && 0 < n <= |worlds|
    requires AllMet(required, RecordAfter(required, worlds[..n]).value.items)
    ensures AllMet(required, RecordAfter(required, worlds).value.items)
    decreases |worlds|
  {
    if n == |worlds| {
      assert worlds[..n] == worlds;
    } else {
      var front := worlds[..|worlds| - 1];
      assert front[..n] == worlds[..n];
      SatisfiedIsNeverLost(required, front, n);
      RunInvariants(required, front);
      var existing := RecordAfter(required, front);
      forall i | 0 <= i < |required| ensures VerdictOn(required[i], RecordAfter(required, worlds).value.items) == Met {
        if required[i].VerifyWith? {
          VerifyMetPersists(existing, required, worlds[|worlds| - 1], required[i].command);
        } else {
          ChangeMetPersists(existing, required, worlds[|worlds| - 1]);
        }
      }
    }
  }
}
