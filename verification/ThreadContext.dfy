/**
  What a Thread hands from one execution to the next (src/thread/context-projector.ts,
  src/thread/context-types.ts): snapshot revision N and the checkpoint of one execution give
  revision N + 1, cut down in a fixed order until it fits. The size of a snapshot in bytes is
  an arbitrary function of it.
 */
module ThreadContext {
  import opened Wrappers
  import opened Checkpoints

  type ExecutionId = string

  datatype Line = Line(text: string, source: ExecutionId, pinId: Option<string>)
  datatype OutcomeKind = Completed | Failed | Cancelled | Expired
  datatype Outcome = Outcome(execution: ExecutionId, sequence: nat, kind: OutcomeKind)
  datatype Snapshot = Snapshot(
    revision: nat, objective: Option<string>,
    decisions: seq<Line>, constraints: seq<Line>, openItems: seq<Line>, nextActions: seq<Line>,
    outcomes: seq<Outcome>, delegations: Option<seq<string>>, degraded: bool)

  datatype Section = Decisions | Constraints | OpenItems | NextActions

  function Lines(snapshot: Snapshot, section: Section): seq<Line> {
    match section
    case Decisions => snapshot.decisions
    case Constraints => snapshot.constraints
    case OpenItems => snapshot.openItems
    case NextActions => snapshot.nextActions
  }

  function Pins(checkpoint: Checkpoint, section: Section): seq<Pin> {
    match section
    case Decisions => checkpoint.decisions
    case Constraints => checkpoint.constraints
    case OpenItems => checkpoint.openItems
    case NextActions => checkpoint.nextActions
  }

  /** One settled execution of the Thread; `checkpoint` is `None` when it cannot be trusted. */
  datatype Settled = Settled(
    id: ExecutionId, sequence: nat, kind: OutcomeKind, title: Option<string>,
    checkpoint: Option<Checkpoint>, delegations: seq<string>)

  // ----- Promotion and merging

  predicate HasText(lines: seq<Line>, text: string) {
    exists i :: 0 <= i < |lines| && lines[i].text == text
  }

  predicate DistinctTexts(lines: seq<Line>) {
    forall i, j :: 0 <= i < j < |lines| ==> lines[i].text != lines[j].text
  }

  function PromotedPin(pin: Pin, execution: ExecutionId): seq<Line> {
    if pin.source == FromExecution then [] else [Line(pin.text, execution, Some(pin.id))]
  }

  function Promoted(pins: seq<Pin>, execution: ExecutionId): seq<Line> {
    if pins == [] then [] else PromotedPin(pins[0], execution) + Promoted(pins[1..], execution)
  }

  function PromotedPins(checkpoint: Option<Checkpoint>, section: Section, execution: ExecutionId): seq<Line> {
    if checkpoint.None? then [] else Promoted(Pins(checkpoint.value, section), execution)
  }

  /** Append, skipping a line whose exact text is already there. */
  function Merge(previous: seq<Line>, added: seq<Line>): seq<Line>
    decreases |added|
  {
    if added == [] then previous
    else if HasText(previous, added[0].text) then Merge(previous, added[1..])
    else Merge(previous + [added[0]], added[1..])
  }

  method MergeLines(previous: seq<Line>, added: seq<Line>) returns (merged: seq<Line>)
    ensures merged == Merge(previous, added)
  {
    merged := previous;
    var seen := set i | 0 <= i < |previous| :: previous[i].text;
    for i := 0 to |added|
      invariant forall text :: text in seen <==> HasText(merged, text)
      invariant Merge(previous, added) == Merge(merged, added[i..])
    {
      assert added[i..][0] == added[i] && added[i..][1..] == added[i + 1..];
      if added[i].text in seen { continue; }
      seen := seen + {added[i].text};
      ghost var before := merged;
      merged := merged + [added[i]];
      forall text ensures text in seen <==> HasText(merged, text) {
        if HasText(before, text) {
          var k :| 0 <= k < |before| && before[k].text == text;
          assert merged[k].text == text;
        }
        assert merged[|before|].text == added[i].text;
      }
    }
  }

  lemma {:induction false} MergeKeeps(previous: seq<Line>, added: seq<Line>)
    ensures previous <= Merge(previous, added)
    ensures forall k :: 0 <= k < |added| ==> HasText(Merge(previous, added), added[k].text)
    ensures forall i :: |previous| <= i < |Merge(previous, added)| ==>
              Merge(previous, added)[i] in added && !HasText(previous, Merge(previous, added)[i].text)
    ensures DistinctTexts(previous) ==> DistinctTexts(Merge(previous, added))
    decreases |added|
  {
    if added != [] {
      var merged := Merge(previous, added);
      var grown := if HasText(previous, added[0].text) then previous else previous + [added[0]];
      MergeKeeps(grown, added[1..]);
      assert HasText(grown, added[0].text) by {
        if grown != previous { assert grown[|previous|].text == added[0].text; }
      }
      HasTextLonger(grown, merged, added[0].text);
      forall k | 0 <= k < |added| ensures HasText(merged, added[k].text) {
        if k > 0 { assert added[k] == added[1..][k - 1]; }
      }
      forall i | |previous| <= i < |merged| ensures merged[i] in added && !HasText(previous, merged[i].text) {
        if i >= |grown| {
          if HasText(previous, merged[i].text) { HasTextLonger(previous, grown, merged[i].text); }
        }
      }
    }
  }

  lemma HasTextLonger(shorter: seq<Line>, longer: seq<Line>, text: string)
    requires shorter <= longer && HasText(shorter, text)
    ensures HasText(longer, text)
  {
  }

  lemma {:induction false} PromotesEveryOwnPin(pins: seq<Pin>, execution: ExecutionId, k: nat)
    requires k < |pins| && pins[k].source != FromExecution
    ensures exists i :: 0 <= i < |Promoted(pins, execution)|
              && Promoted(pins, execution)[i] == Line(pins[k].text, execution, Some(pins[k].id))
  {
    var promoted := Promoted(pins, execution);
    if k == 0 {
      assert promoted[0] == Line(pins[0].text, execution, Some(pins[0].id));
    } else {
      PromotesEveryOwnPin(pins[1..], execution, k - 1);
      var rest := Promoted(pins[1..], execution);
      var i :| 0 <= i < |rest| && rest[i] == Line(pins[k].text, execution, Some(pins[k].id));
      assert promoted[|promoted| - |rest| + i] == rest[i];
    }
  }

  lemma {:induction false} PromotedAreOwn(pins: seq<Pin>, execution: ExecutionId)
    ensures forall line :: line in Promoted(pins, execution) ==> line.source == execution
  {
    if pins != [] { PromotedAreOwn(pins[1..], execution); }
  }

  // ----- Projection before the size limit

  function KindName(kind: OutcomeKind): string {
    match kind
    case Completed => "completed"
    case Failed => "failed"
    case Cancelled => "cancelled"
    case Expired => "expired"
  }

  function EndedLine(settled: Settled): Line {
    Line("E-" + Decimal(settled.sequence) + " (" + settled.id + ") ended " + KindName(settled.kind), settled.id, None)
  }

  function PreviousLines(previous: Option<Snapshot>, section: Section): seq<Line> {
    if previous.Some? then Lines(previous.value, section) else []
  }

  function Added(settled: Settled, section: Section): seq<Line> {
    PromotedPins(settled.checkpoint, section, settled.id)
    + if section == NextActions && settled.kind != Completed then [EndedLine(settled)] else []
  }

  function Merged(previous: Option<Snapshot>, settled: Settled): Snapshot {
    Snapshot(
      (if previous.Some? then previous.value.revision else 0) + 1,
      if settled.title.Some? then settled.title else if previous.Some? then previous.value.objective else None,
      Merge(PreviousLines(previous, Decisions), PromotedPins(settled.checkpoint, Decisions, settled.id)),
      Merge(PreviousLines(previous, Constraints), PromotedPins(settled.checkpoint, Constraints, settled.id)),
      Merge(PreviousLines(previous, OpenItems), PromotedPins(settled.checkpoint, OpenItems, settled.id)),
      Merge(Merge(PreviousLines(previous, NextActions), PromotedPins(settled.checkpoint, NextActions, settled.id)),
            if settled.kind != Completed then [EndedLine(settled)] else []),
      PreviousOutcomes(previous) + [Outcome(settled.id, settled.sequence, settled.kind)],
      if settled.delegations == [] then None else Some(settled.delegations),
      settled.checkpoint.None?)
  }

  lemma {:induction false} MergeSplits(previous: seq<Line>, a: seq<Line>, b: seq<Line>)
    ensures Merge(previous, a + b) == Merge(Merge(previous, a), b)
    decreases |a|
  {
    if a == [] {
      assert a + b == b;
    } else {
      assert (a + b)[1..] == a[1..] + b;
      MergeSplits(if HasText(previous, a[0].text) then previous else previous + [a[0]], a[1..], b);
    }
  }

  lemma MergedLines(previous: Option<Snapshot>, settled: Settled, section: Section)
    ensures Lines(Merged(previous, settled), section)
              == Merge(PreviousLines(previous, section), Added(settled, section))
  {
    var promoted := PromotedPins(settled.checkpoint, section, settled.id);
    var ended := if section == NextActions && settled.kind != Completed then [EndedLine(settled)] else [];
    MergeSplits(PreviousLines(previous, section), promoted, ended);
  }

  // ----- Cutting

  const MIN_RETAINED_OUTCOMES := 3

  /** How many lines other executions than `newest` left. */
  function Olds(lines: seq<Line>, newest: ExecutionId): nat {
    if lines == [] then 0 else (if lines[0].source != newest then 1 else 0) + Olds(lines[1..], newest)
  }

  /** The lines without the `k` oldest that are not `newest`'s own. */
  function DropOld(lines: seq<Line>, newest: ExecutionId, k: nat): seq<Line>
    requires k <= Olds(lines, newest)
  {
    if k == 0 || lines == [] then lines
    else if lines[0].source != newest then DropOld(lines[1..], newest, k - 1)
    else [lines[0]] + DropOld(lines[1..], newest, k)
  }

  lemma {:induction false} DropOldCounts(lines: seq<Line>, newest: ExecutionId, k: nat)
    requires k <= Olds(lines, newest)
    ensures |DropOld(lines, newest, k)| + k == |lines|
    ensures Olds(DropOld(lines, newest, k), newest) + k == Olds(lines, newest)
  {
    if k > 0 && lines != [] {
      if lines[0].source != newest {
        DropOldCounts(lines[1..], newest, k - 1);
      } else {
        DropOldCounts(lines[1..], newest, k);
        assert DropOld(lines, newest, k)[1..] == DropOld(lines[1..], newest, k);
      }
    }
  }

  /** Dropping keeps to the list, and keeps every line of the newest execution. */
  lemma {:induction false} DropOldMembers(lines: seq<Line>, newest: ExecutionId, k: nat)
    requires k <= Olds(lines, newest)
    ensures forall line :: line in DropOld(lines, newest, k) ==> line in lines
    ensures forall line :: line in lines && line.source == newest ==> line in DropOld(lines, newest, k)
  {
    if k > 0 && lines != [] {
      DropOldMembers(lines[1..], newest, if lines[0].source != newest then k - 1 else k);
    }
  }

  lemma {:induction false} DropOldDistinct(lines: seq<Line>, newest: ExecutionId, k: nat)
    requires k <= Olds(lines, newest) && DistinctTexts(lines)
    ensures DistinctTexts(DropOld(lines, newest, k))
  {
    if k > 0 && lines != [] {
      if lines[0].source != newest {
        DropOldDistinct(lines[1..], newest, k - 1);
      } else {
        var rest := DropOld(lines[1..], newest, k);
        DropOldDistinct(lines[1..], newest, k);
        DropOldMembers(lines[1..], newest, k);
        forall i | 0 <= i < |rest| ensures rest[i].text != lines[0].text {
          assert rest[i] in lines[1..];
        }
      }
    }
  }

  lemma {:induction false} DropOldAgain(lines: seq<Line>, newest: ExecutionId, k: nat)
    requires k < Olds(lines, newest)
    ensures Olds(DropOld(lines, newest, k), newest) > 0
    ensures DropOld(DropOld(lines, newest, k), newest, 1) == DropOld(lines, newest, k + 1)
  {
    DropOldCounts(lines, newest, k);
    if k > 0 {
      if lines[0].source != newest {
        DropOldAgain(lines[1..], newest, k - 1);
      } else {
        DropOldAgain(lines[1..], newest, k);
        assert DropOld(lines, newest, k)[1..] == DropOld(lines[1..], newest, k);
      }
    }
  }

  /** The next thing to go, in the fixed order; `None` when nothing may be cut any more. */
  function CutStep(body: Snapshot, newest: ExecutionId): Option<Snapshot> {
    if Olds(body.openItems, newest) > 0 then Some(body.(openItems := DropOld(body.openItems, newest, 1)))
    else if Olds(body.decisions, newest) > 0 then Some(body.(decisions := DropOld(body.decisions, newest, 1)))
    else if Olds(body.constraints, newest) > 0 then Some(body.(constraints := DropOld(body.constraints, newest, 1)))
    else if |body.outcomes| > MIN_RETAINED_OUTCOMES then Some(body.(outcomes := body.outcomes[1..]))
    else if body.delegations.Some? && body.delegations.value != [] then
      Some(body.(delegations := if |body.delegations.value| == 1 then None else Some(body.delegations.value[1..])))
    else None
  }

  function DelegationCount(body: Snapshot): nat {
    if body.delegations.Some? then |body.delegations.value| else 0
  }

  /** Everything a cut may take away. */
  function Weight(body: Snapshot): nat {
    |body.openItems| + |body.decisions| + |body.constraints| + |body.outcomes| + DelegationCount(body)
  }

  lemma CutStepShrinks(body: Snapshot, newest: ExecutionId)
    ensures CutStep(body, newest).Some? ==> Weight(CutStep(body, newest).value) + 1 == Weight(body)
  {
    if Olds(body.openItems, newest) > 0 { DropOldCounts(body.openItems, newest, 1); }
    if Olds(body.decisions, newest) > 0 { DropOldCounts(body.decisions, newest, 1); }
    if Olds(body.constraints, newest) > 0 { DropOldCounts(body.constraints, newest, 1); }
  }

  /** One cut at a time until the snapshot fits or nothing is left to cut. */
  function Cut(body: Snapshot, size: Snapshot -> nat, maxBytes: nat, newest: ExecutionId): (result: (Snapshot, nat))
    decreases Weight(body)
  {
    CutStepShrinks(body, newest);
    if size(body) <= maxBytes || CutStep(body, newest).None? then (body, 0)
    else
      var (rest, dropped) := Cut(CutStep(body, newest).value, size, maxBytes, newest);
      (rest, dropped + 1)
  }

  /** `dropped` cuts have led from a body that cuts down to `goal` to `current`. */
  predicate OnTrack(goal: (Snapshot, nat), current: Snapshot, dropped: nat, size: Snapshot -> nat, maxBytes: nat,
                    newest: ExecutionId)
  {
    var (rest, more) := Cut(current, size, maxBytes, newest);
    goal == (rest, dropped + more)
  }

  lemma OnTrackStep(goal: (Snapshot, nat), current: Snapshot, next: Snapshot, dropped: nat, size: Snapshot -> nat,
                    maxBytes: nat, newest: ExecutionId)
    requires OnTrack(goal, current, dropped, size, maxBytes, newest)
    requires size(current) > maxBytes && CutStep(current, newest) == Some(next)
    ensures OnTrack(goal, next, dropped + 1, size, maxBytes, newest) && Weight(next) < Weight(current)
  {
    CutStepShrinks(current, newest);
  }

  /** The four staged loops of the program do exactly that. */
  method Bound(body: Snapshot, size: Snapshot -> nat, maxBytes: nat, newest: ExecutionId)
    returns (current: Snapshot, droppedCount: nat)
    ensures (current, droppedCount) == Cut(body, size, maxBytes, newest)
  {
    ghost var goal := Cut(body, size, maxBytes, newest);
    current, droppedCount := BoundLines(body, size, maxBytes, newest);
    while size(current) > maxBytes && |current.outcomes| > MIN_RETAINED_OUTCOMES
      invariant size(current) > maxBytes ==> LinesExhausted(current, newest)
      invariant OnTrack(goal, current, droppedCount, size, maxBytes, newest)
      decreases Weight(current)
    {
      var next := current.(outcomes := current.outcomes[1..]);
      OnTrackStep(goal, current, next, droppedCount, size, maxBytes, newest);
      current, droppedCount := next, droppedCount + 1;
    }
    while size(current) > maxBytes && current.delegations.Some? && current.delegations.value != []
      invariant size(current) > maxBytes ==>
                LinesExhausted(current, newest) && |current.outcomes| <= MIN_RETAINED_OUTCOMES
      invariant OnTrack(goal, current, droppedCount, size, maxBytes, newest)
      decreases Weight(current)
    {
      var delegations := current.delegations.value;
      var next := current.(delegations := if |delegations| == 1 then None else Some(delegations[1..]));
      OnTrackStep(goal, current, next, droppedCount, size, maxBytes, newest);
      current, droppedCount := next, droppedCount + 1;
    }
  }

  /** The first two loops: open items, then decisions and constraints. */
  method BoundLines(body: Snapshot, size: Snapshot -> nat, maxBytes: nat, newest: ExecutionId)
    returns (current: Snapshot, droppedCount: nat)
    ensures OnTrack(Cut(body, size, maxBytes, newest), current, droppedCount, size, maxBytes, newest)
    ensures size(current) > maxBytes ==> LinesExhausted(current, newest)
  {
    current, droppedCount := body, 0;
    ghost var goal := Cut(body, size, maxBytes, newest);
    while size(current) > maxBytes && Olds(current.openItems, newest) > 0
      invariant OnTrack(goal, current, droppedCount, size, maxBytes, newest)
      decreases Weight(current)
    {
      var next := current.(openItems := DropOld(current.openItems, newest, 1));
      OnTrackStep(goal, current, next, droppedCount, size, maxBytes, newest);
      current, droppedCount := next, droppedCount + 1;
    }
    while size(current) > maxBytes && (Olds(current.decisions, newest) > 0 || Olds(current.constraints, newest) > 0)
      invariant size(current) > maxBytes ==> Olds(current.openItems, newest) == 0
      invariant OnTrack(goal, current, droppedCount, size, maxBytes, newest)
      decreases Weight(current)
    {
      var next := current;
      if Olds(current.decisions, newest) > 0 {
        next := current.(decisions := DropOld(current.decisions, newest, 1));
      } else {
        next := current.(constraints := DropOld(current.constraints, newest, 1));
      }
      OnTrackStep(goal, current, next, droppedCount, size, maxBytes, newest);
      current, droppedCount := next, droppedCount + 1;
    }
  }

  predicate LinesExhausted(body: Snapshot, newest: ExecutionId) {
    Olds(body.openItems, newest) == 0 && Olds(body.decisions, newest) == 0 && Olds(body.constraints, newest) == 0
  }

  /** How much went from each place. */
  datatype Tally = Tally(openItems: nat, decisions: nat, constraints: nat, outcomes: nat, delegations: nat)

  function Total(t: Tally): nat {
    t.openItems + t.decisions + t.constraints + t.outcomes + t.delegations
  }

  predicate LinesCut(before: seq<Line>, after: seq<Line>, newest: ExecutionId, k: nat) {
    k <= Olds(before, newest) && after == DropOld(before, newest, k)
  }

  lemma LinesCutStep(before: seq<Line>, now: seq<Line>, newest: ExecutionId, k: nat)
    requires LinesCut(before, now, newest, k) && Olds(now, newest) > 0
    ensures LinesCut(before, DropOld(now, newest, 1), newest, k + 1)
  {
    DropOldCounts(before, newest, k);
    DropOldAgain(before, newest, k);
  }

  /** Outcomes and delegations lose a prefix; nothing else changes. */
  predicate RestCut(before: Snapshot, after: Snapshot, t: Tally) {
    && t.outcomes <= |before.outcomes| && after.outcomes == before.outcomes[t.outcomes..]
    && t.delegations <= DelegationCount(before) && DelegationCount(after) == DelegationCount(before) - t.delegations
    && (DelegationCount(after) > 0 ==> after.delegations.value == before.delegations.value[t.delegations..])
    && after.nextActions == before.nextActions && after.objective == before.objective
    && after.revision == before.revision && after.degraded == before.degraded
  }

  /** A place was touched only once the earlier ones were exhausted. */
  predicate Staged(after: Snapshot, newest: ExecutionId, t: Tally) {
    && (t.decisions > 0 ==> Olds(after.openItems, newest) == 0)
    && (t.constraints > 0 ==> Olds(after.openItems, newest) == 0 && Olds(after.decisions, newest) == 0)
    && (t.outcomes > 0 ==> LinesExhausted(after, newest) && |after.outcomes| >= MIN_RETAINED_OUTCOMES)
    && (t.delegations > 0 ==> LinesExhausted(after, newest) && |after.outcomes| <= MIN_RETAINED_OUTCOMES)
  }

  /** `after` is `before` without the oldest `t`, taken in the fixed order. */
  predicate CutBy(before: Snapshot, after: Snapshot, newest: ExecutionId, t: Tally) {
    && LinesCut(before.openItems, after.openItems, newest, t.openItems)
    && LinesCut(before.decisions, after.decisions, newest, t.decisions)
    && LinesCut(before.constraints, after.constraints, newest, t.constraints)
    && RestCut(before, after, t) && Staged(after, newest, t)
  }

  /**
    The result fits, or nothing is left to cut; what went is a staged removal of oldest items,
    and the reported count is exactly the number of items removed.
   */
  lemma CutIsStaged(body: Snapshot, size: Snapshot -> nat, maxBytes: nat, newest: ExecutionId) returns (t: Tally)
    ensures var (after, dropped) := Cut(body, size, maxBytes, newest);
            && (size(after) <= maxBytes || CutStep(after, newest).None?)
            && CutBy(body, after, newest, t) && dropped == Total(t)
  {
    t := CutFrom(body, body, size, maxBytes, newest, Tally(0, 0, 0, 0, 0));
  }

  lemma {:induction false} CutFrom(body: Snapshot, now: Snapshot, size: Snapshot -> nat, maxBytes: nat,
                                   newest: ExecutionId, sofar: Tally)
    returns (t: Tally)
    requires CutBy(body, now, newest, sofar)
    ensures var (after, dropped) := Cut(now, size, maxBytes, newest);
            && (size(after) <= maxBytes || CutStep(after, newest).None?)
            && CutBy(body, after, newest, t) && Total(t) == Total(sofar) + dropped
    decreases Weight(now)
  {
    CutStepShrinks(now, newest);
    if size(now) <= maxBytes || CutStep(now, newest).None? {
      t := sofar;
    } else {
      var step := StepExtends(body, now, newest, sofar);
      t := CutFrom(body, CutStep(now, newest).value, size, maxBytes, newest, step);
    }
  }

  lemma StepExtends(body: Snapshot, now: Snapshot, newest: ExecutionId, sofar: Tally) returns (step: Tally)
    requires CutBy(body, now, newest, sofar) && CutStep(now, newest).Some?
    ensures CutBy(body, CutStep(now, newest).value, newest, step) && Total(step) == Total(sofar) + 1
  {
    if Olds(now.openItems, newest) > 0 {
      LinesCutStep(body.openItems, now.openItems, newest, sofar.openItems);
      step := sofar.(openItems := sofar.openItems + 1);
    } else if Olds(now.decisions, newest) > 0 {
      LinesCutStep(body.decisions, now.decisions, newest, sofar.decisions);
      step := sofar.(decisions := sofar.decisions + 1);
    } else if Olds(now.constraints, newest) > 0 {
      LinesCutStep(body.constraints, now.constraints, newest, sofar.constraints);
      step := sofar.(constraints := sofar.constraints + 1);
    } else if |now.outcomes| > MIN_RETAINED_OUTCOMES {
      step := sofar.(outcomes := sofar.outcomes + 1);
    } else {
      step := sofar.(delegations := sofar.delegations + 1);
    }
  }

  /** Nothing is cut needlessly: just before the last cut the snapshot was still too big. */
  lemma {:induction false} LastCutWasNeeded(body: Snapshot, size: Snapshot -> nat, maxBytes: nat, newest: ExecutionId)
    returns (prior: Snapshot)
    requires Cut(body, size, maxBytes, newest).1 > 0
    ensures size(prior) > maxBytes && CutStep(prior, newest) == Some(Cut(body, size, maxBytes, newest).0)
    decreases Weight(body)
  {
    CutStepShrinks(body, newest);
    var next := CutStep(body, newest).value;
    var (rest, dropped) := Cut(next, size, maxBytes, newest);
    assert Cut(body, size, maxBytes, newest) == (rest, dropped + 1);
    if dropped > 0 {
      prior := LastCutWasNeeded(next, size, maxBytes, newest);
    } else {
      UncutIsUnchanged(next, size, maxBytes, newest);
      prior := body;
    }
  }

  lemma UncutIsUnchanged(body: Snapshot, size: Snapshot -> nat, maxBytes: nat, newest: ExecutionId)
    requires Cut(body, size, maxBytes, newest).1 == 0
    ensures Cut(body, size, maxBytes, newest).0 == body
  {
  }

  // ----- Whole runs of a Thread

  function Project(previous: Option<Snapshot>, settled: Settled, size: Snapshot -> nat, maxBytes: nat)
    : (result: (Snapshot, nat))
  {
    Cut(Merged(previous, settled), size, maxBytes, settled.id)
  }

  /** The snapshot after every execution of a run was projected in turn. */
  function After(run: seq<Settled>, size: Snapshot -> nat, maxBytes: nat): Option<Snapshot> {
    if run == [] then None
    else Some(Project(After(run[..|run| - 1], size, maxBytes), run[|run| - 1], size, maxBytes).0)
  }

  /** The number of items the last projection of a run reported as dropped. */
  function DroppedAt(run: seq<Settled>, size: Snapshot -> nat, maxBytes: nat): nat
    requires run != []
  {
    Project(After(run[..|run| - 1], size, maxBytes), run[|run| - 1], size, maxBytes).1
  }

  /** No section ever holds two lines with the same text. */
  lemma {:induction false} TextsStayDistinct(run: seq<Settled>, size: Snapshot -> nat, maxBytes: nat, section: Section)
    ensures DistinctTexts(PreviousLines(After(run, size, maxBytes), section))
    decreases |run|
  {
    if run != [] {
      var previous, settled := After(run[..|run| - 1], size, maxBytes), run[|run| - 1];
      TextsStayDistinct(run[..|run| - 1], size, maxBytes, section);
      var merged := Merged(previous, settled);
      MergedLines(previous, settled, section);
      MergeKeeps(PreviousLines(previous, section), Added(settled, section));
      var t := CutIsStaged(merged, size, maxBytes, settled.id);
      CutLines(merged, Project(previous, settled, size, maxBytes).0, settled.id, t, section);
    }
  }

  /** The outcomes of a run, oldest first. */
  function OutcomesOf(run: seq<Settled>): seq<Outcome> {
    seq(|run|, i requires 0 <= i < |run| => Outcome(run[i].id, run[i].sequence, run[i].kind))
  }

  /** The last title a run saw. */
  function LastTitle(run: seq<Settled>): Option<string> {
    if run == [] then None
    else if run[|run| - 1].title.Some? then run[|run| - 1].title
    else LastTitle(run[..|run| - 1])
  }

  predicate IsTail<T(==)>(tail: seq<T>, whole: seq<T>) {
    |tail| <= |whole| && forall i :: 0 <= i < |tail| ==> tail[i] == whole[|whole| - |tail| + i]
  }

  /**
    The revision counts executions, the objective is the last title, and the outcomes are the
    latest ones, three at least.
   */
  lemma {:induction false} RunKeepsRecord(run: seq<Settled>, size: Snapshot -> nat, maxBytes: nat)
    requires run != []
    ensures var snapshot := After(run, size, maxBytes).value;
            && snapshot.revision == |run| && snapshot.objective == LastTitle(run)
            && snapshot.degraded == run[|run| - 1].checkpoint.None?
            && IsTail(snapshot.outcomes, OutcomesOf(run))
            && (|snapshot.outcomes| >= MIN_RETAINED_OUTCOMES || |snapshot.outcomes| == |run|)
    decreases |run|
  {
    var shorter, settled := run[..|run| - 1], run[|run| - 1];
    var previous := After(shorter, size, maxBytes);
    if shorter != [] { RunKeepsRecord(shorter, size, maxBytes); }
    var merged := Merged(previous, settled);
    TailGrows(PreviousOutcomes(previous), run);
    var t := CutIsStaged(merged, size, maxBytes, settled.id);
    OutcomesStayTail(merged, Project(previous, settled, size, maxBytes).0, settled.id, t, OutcomesOf(run));
  }

  /**
    The delegations are those of the last execution alone, the latest of them, and all unless a
    cut was reported; an empty list is never written.
   */
  lemma LastDelegations(run: seq<Settled>, size: Snapshot -> nat, maxBytes: nat)
    requires run != []
    ensures var shown, delegations := After(run, size, maxBytes).value.delegations, run[|run| - 1].delegations;
            && shown != Some([])
            && IsTail(if shown.Some? then shown.value else [], delegations)
            && (DroppedAt(run, size, maxBytes) == 0 && delegations != [] ==> shown == Some(delegations))
  {
    var previous, settled := After(run[..|run| - 1], size, maxBytes), run[|run| - 1];
    var merged, after := Merged(previous, settled), Project(previous, settled, size, maxBytes).0;
    NoEmptyDelegations(merged, size, maxBytes, settled.id);
    var t := CutIsStaged(merged, size, maxBytes, settled.id);
    DelegationsAreCut(merged, after, t, settled.delegations);
  }

  lemma DelegationsAreCut(before: Snapshot, after: Snapshot, t: Tally, delegations: seq<string>)
    requires RestCut(before, after, t) && before.delegations == if delegations == [] then None else Some(delegations)
    ensures IsTail(if after.delegations.Some? then after.delegations.value else [], delegations)
    ensures Total(t) == 0 && delegations != [] ==> after.delegations == Some(delegations)
  {
  }

  lemma {:induction false} NoEmptyDelegations(body: Snapshot, size: Snapshot -> nat, maxBytes: nat,
                                              newest: ExecutionId)
    requires body.delegations != Some([])
    ensures Cut(body, size, maxBytes, newest).0.delegations != Some([])
    decreases Weight(body)
  {
    CutStepShrinks(body, newest);
    if size(body) > maxBytes && CutStep(body, newest).Some? {
      NoEmptyDelegations(CutStep(body, newest).value, size, maxBytes, newest);
    }
  }

  function PreviousOutcomes(previous: Option<Snapshot>): seq<Outcome> {
    if previous.Some? then previous.value.outcomes else []
  }

  lemma TailGrows(outcomes: seq<Outcome>, run: seq<Settled>)
    requires run != [] && IsTail(outcomes, OutcomesOf(run[..|run| - 1]))
    ensures var last := run[|run| - 1]; IsTail(outcomes + [Outcome(last.id, last.sequence, last.kind)], OutcomesOf(run))
  {
  }

  lemma OutcomesStayTail(before: Snapshot, after: Snapshot, newest: ExecutionId, t: Tally, whole: seq<Outcome>)
    requires RestCut(before, after, t) && Staged(after, newest, t) && IsTail(before.outcomes, whole)
    ensures IsTail(after.outcomes, whole)
    ensures after.outcomes == before.outcomes || |after.outcomes| >= MIN_RETAINED_OUTCOMES
  {
    assert t.outcomes == 0 ==> after.outcomes == before.outcomes;
  }

  /** `line` is one of the pins an execution recorded itself. */
  predicate IsOwnPin(pins: seq<Pin>, line: Line) {
    exists k :: 0 <= k < |pins| && pins[k].source != FromExecution && line.text == pins[k].text
                && line.pinId == Some(pins[k].id)
  }

  /** What an execution may leave in a section: a pin it recorded itself there, or how it ended. */
  predicate LeftBy(settled: Settled, section: Section, line: Line) {
    && line.source == settled.id
    && match section
       case Decisions => settled.checkpoint.Some? && IsOwnPin(settled.checkpoint.value.decisions, line)
       case Constraints => settled.checkpoint.Some? && IsOwnPin(settled.checkpoint.value.constraints, line)
       case OpenItems => settled.checkpoint.Some? && IsOwnPin(settled.checkpoint.value.openItems, line)
       case NextActions =>
         || (settled.checkpoint.Some? && IsOwnPin(settled.checkpoint.value.nextActions, line))
         || (line.pinId == None && TellsEnding(line.text, settled))
  }

  /** How an execution that was not completed is spoken of. */
  predicate TellsEnding(text: string, settled: Settled) {
    var name := "E-" + Decimal(settled.sequence) + " (" + settled.id + ")";
    match settled.kind
    case Completed => false
    case Failed => text == name + " ended failed"
    case Cancelled => text == name + " ended cancelled"
    case Expired => text == name + " ended expired"
  }

  lemma {:induction false} PromotedArePins(pins: seq<Pin>, execution: ExecutionId, line: Line) returns (k: nat)
    requires line in Promoted(pins, execution)
    ensures k < |pins| && pins[k].source != FromExecution && line == Line(pins[k].text, execution, Some(pins[k].id))
  {
    if line in PromotedPin(pins[0], execution) {
      k := 0;
    } else {
      var rest := PromotedArePins(pins[1..], execution, line);
      k := rest + 1;
    }
  }

  lemma EndedLineTells(settled: Settled)
    requires settled.kind != Completed
    ensures TellsEnding(EndedLine(settled).text, settled)
  {
  }

  lemma AddedAreLeft(settled: Settled, section: Section, line: Line)
    requires line in Added(settled, section)
    ensures LeftBy(settled, section, line)
  {
    if line in PromotedPins(settled.checkpoint, section, settled.id) {
      var k := PromotedArePins(Pins(settled.checkpoint.value, section), settled.id, line);
      assert IsOwnPin(Pins(settled.checkpoint.value, section), line);
    } else {
      EndedLineTells(settled);
    }
  }

  lemma ProjectedLine(previous: Option<Snapshot>, settled: Settled, size: Snapshot -> nat, maxBytes: nat,
                      section: Section, line: Line)
    requires line in Lines(Project(previous, settled, size, maxBytes).0, section)
    ensures line in PreviousLines(previous, section) || line in Added(settled, section)
  {
    var merged := Merged(previous, settled);
    var t := CutIsStaged(merged, size, maxBytes, settled.id);
    CutLines(merged, Project(previous, settled, size, maxBytes).0, settled.id, t, section);
    MergedLines(previous, settled, section);
    MergeKeeps(PreviousLines(previous, section), Added(settled, section));
  }

  lemma LineOfLast(run: seq<Settled>, size: Snapshot -> nat, maxBytes: nat, section: Section, line: Line)
    requires run != [] && line in PreviousLines(After(run, size, maxBytes), section)
    ensures || line in PreviousLines(After(run[..|run| - 1], size, maxBytes), section)
            || LeftBy(run[|run| - 1], section, line)
  {
    var previous, settled := After(run[..|run| - 1], size, maxBytes), run[|run| - 1];
    ProjectedLine(previous, settled, size, maxBytes, section, line);
    if line in Added(settled, section) { AddedAreLeft(settled, section, line); }
  }

  /** Every line of a snapshot is one that an execution of the run left in that section. */
  lemma {:induction false} LinesAreEarned(run: seq<Settled>, size: Snapshot -> nat, maxBytes: nat, section: Section,
                                          line: Line)
    requires line in PreviousLines(After(run, size, maxBytes), section)
    ensures exists i :: 0 <= i < |run| && LeftBy(run[i], section, line)
    decreases |run|
  {
    var shorter := run[..|run| - 1];
    LineOfLast(run, size, maxBytes, section, line);
    if line in PreviousLines(After(shorter, size, maxBytes), section) {
      LinesAreEarned(shorter, size, maxBytes, section, line);
      var i :| 0 <= i < |shorter| && LeftBy(shorter[i], section, line);
      assert run[i] == shorter[i];
    } else {
      assert LeftBy(run[|run| - 1], section, line);
    }
  }

  lemma AddedHasEnding(settled: Settled) returns (text: string)
    requires settled.kind != Completed
    ensures TellsEnding(text, settled) && HasText(Added(settled, NextActions), text)
  {
    EndedLineTells(settled);
    text := EndedLine(settled).text;
    var added := Added(settled, NextActions);
    assert added[|added| - 1] == EndedLine(settled);
  }

  /** However hard the cuts, an execution that was not completed is never forgotten. */
  lemma {:induction false} EndingsAreConserved(run: seq<Settled>, size: Snapshot -> nat, maxBytes: nat, i: nat)
    returns (text: string)
    requires i < |run| && run[i].kind != Completed
    ensures TellsEnding(text, run[i]) && HasText(PreviousLines(After(run, size, maxBytes), NextActions), text)
    decreases |run|
  {
    var shorter, settled := run[..|run| - 1], run[|run| - 1];
    if i == |shorter| {
      text := AddedHasEnding(settled);
    } else {
      text := EndingsAreConserved(shorter, size, maxBytes, i);
    }
    ProjectionKeepsText(After(shorter, size, maxBytes), settled, size, maxBytes, NextActions, text);
  }

  lemma DropOldKeeps(lines: seq<Line>, newest: ExecutionId, k: nat)
    requires k <= Olds(lines, newest)
    ensures DistinctTexts(lines) ==> DistinctTexts(DropOld(lines, newest, k))
    ensures forall line :: line in DropOld(lines, newest, k) ==> line in lines
    ensures forall line :: line in lines && line.source == newest ==> line in DropOld(lines, newest, k)
    ensures k == 0 ==> DropOld(lines, newest, k) == lines
  {
    DropOldMembers(lines, newest, k);
    if DistinctTexts(lines) { DropOldDistinct(lines, newest, k); }
  }

  lemma CutLines(before: Snapshot, after: Snapshot, newest: ExecutionId, t: Tally, section: Section)
    requires CutBy(before, after, newest, t)
    ensures DistinctTexts(Lines(before, section)) ==> DistinctTexts(Lines(after, section))
    ensures forall line :: line in Lines(after, section) ==> line in Lines(before, section)
    ensures forall line :: line in Lines(before, section) && line.source == newest ==> line in Lines(after, section)
    ensures section == NextActions || Total(t) == 0 ==> Lines(after, section) == Lines(before, section)
  {
    match section
    case OpenItems => DropOldKeeps(before.openItems, newest, t.openItems);
    case Decisions => DropOldKeeps(before.decisions, newest, t.decisions);
    case Constraints => DropOldKeeps(before.constraints, newest, t.constraints);
    case NextActions =>
  }

  /** Neither the projection of execution `i` nor any after it reported a cut. */
  predicate QuietSince(run: seq<Settled>, size: Snapshot -> nat, maxBytes: nat, i: nat)
    decreases |run|
  {
    i < |run| ==> DroppedAt(run, size, maxBytes) == 0 && QuietSince(run[..|run| - 1], size, maxBytes, i)
  }

  /**
    A pin an execution recorded itself is in every later snapshot, by text, until a projection
    reports a cut; next actions are there whatever was cut.
   */
  lemma {:induction false} PinsAreConserved(run: seq<Settled>, size: Snapshot -> nat, maxBytes: nat, i: nat,
                                            section: Section, k: nat)
    requires i < |run| && run[i].checkpoint.Some?
    requires k < |Pins(run[i].checkpoint.value, section)|
               && Pins(run[i].checkpoint.value, section)[k].source != FromExecution
    requires section == NextActions || QuietSince(run, size, maxBytes, i)
    ensures HasText(PreviousLines(After(run, size, maxBytes), section), Pins(run[i].checkpoint.value, section)[k].text)
    decreases |run|
  {
    if i == |run| - 1 {
      LastAddsPin(run, size, maxBytes, section, k);
    } else {
      var shorter := run[..|run| - 1];
      assert shorter[i] == run[i];
      PinsAreConserved(shorter, size, maxBytes, i, section, k);
      LastKeepsText(run, size, maxBytes, section, Pins(shorter[i].checkpoint.value, section)[k].text);
    }
  }

  lemma LastAddsPin(run: seq<Settled>, size: Snapshot -> nat, maxBytes: nat, section: Section, k: nat)
    requires run != [] && run[|run| - 1].checkpoint.Some? && k < |Pins(run[|run| - 1].checkpoint.value, section)|
    requires Pins(run[|run| - 1].checkpoint.value, section)[k].source != FromExecution
    requires section == NextActions || DroppedAt(run, size, maxBytes) == 0
    ensures HasText(PreviousLines(After(run, size, maxBytes), section),
                    Pins(run[|run| - 1].checkpoint.value, section)[k].text)
  {
    var previous, settled := After(run[..|run| - 1], size, maxBytes), run[|run| - 1];
    AddedHasPin(settled, section, k);
    ProjectionKeepsText(previous, settled, size, maxBytes, section, Pins(settled.checkpoint.value, section)[k].text);
  }

  lemma LastKeepsText(run: seq<Settled>, size: Snapshot -> nat, maxBytes: nat, section: Section, text: string)
    requires run != [] && HasText(PreviousLines(After(run[..|run| - 1], size, maxBytes), section), text)
    requires section == NextActions || DroppedAt(run, size, maxBytes) == 0
    ensures HasText(PreviousLines(After(run, size, maxBytes), section), text)
  {
    ProjectionKeepsText(After(run[..|run| - 1], size, maxBytes), run[|run| - 1], size, maxBytes, section, text);
  }

  lemma ProjectionKeepsText(previous: Option<Snapshot>, settled: Settled, size: Snapshot -> nat, maxBytes: nat,
                            section: Section, text: string)
    requires HasText(PreviousLines(previous, section), text) || HasText(Added(settled, section), text)
    requires section == NextActions || Project(previous, settled, size, maxBytes).1 == 0
    ensures HasText(Lines(Project(previous, settled, size, maxBytes).0, section), text)
  {
    var merged := Merged(previous, settled);
    MergedLines(previous, settled, section);
    MergeKeeps(PreviousLines(previous, section), Added(settled, section));
    if HasText(PreviousLines(previous, section), text) {
      HasTextLonger(PreviousLines(previous, section), Lines(merged, section), text);
    }
    var t := CutIsStaged(merged, size, maxBytes, settled.id);
    CutLines(merged, Project(previous, settled, size, maxBytes).0, settled.id, t, section);
  }

  lemma AddedHasPin(settled: Settled, section: Section, k: nat)
    requires settled.checkpoint.Some? && k < |Pins(settled.checkpoint.value, section)|
    requires Pins(settled.checkpoint.value, section)[k].source != FromExecution
    ensures HasText(Added(settled, section), Pins(settled.checkpoint.value, section)[k].text)
  {
    var pins := Pins(settled.checkpoint.value, section);
    PromotesEveryOwnPin(pins, settled.id, k);
    var j :| 0 <= j < |Promoted(pins, settled.id)|
        && Promoted(pins, settled.id)[j] == Line(pins[k].text, settled.id, Some(pins[k].id));
    assert Added(settled, section)[j] == Promoted(pins, settled.id)[j];
  }

  /** Some other execution already left `text` in the list. */
  predicate HeldByAnother(lines: seq<Line>, text: string, newest: ExecutionId) {
    exists i :: 0 <= i < |lines| && lines[i].text == text && lines[i].source != newest
  }

  /** A pin `settled` recorded itself, as a line of the section. */
  predicate OwnPin(settled: Settled, section: Section, k: nat) {
    && settled.checkpoint.Some? && k < |Pins(settled.checkpoint.value, section)|
    && Pins(settled.checkpoint.value, section)[k].source != FromExecution
  }

  /** However hard the cut, a text the newest execution pins survives unless another one already holds it. */
  lemma NewestSurvives(previous: Option<Snapshot>, settled: Settled, size: Snapshot -> nat, maxBytes: nat,
                       section: Section, k: nat)
    requires OwnPin(settled, section, k)
    requires var text := Pins(settled.checkpoint.value, section)[k].text;
             !HeldByAnother(PreviousLines(previous, section), text, settled.id)
    ensures HasText(Lines(Project(previous, settled, size, maxBytes).0, section),
                    Pins(settled.checkpoint.value, section)[k].text)
  {
    var text := Pins(settled.checkpoint.value, section)[k].text;
    var merged, after := Merged(previous, settled), Project(previous, settled, size, maxBytes).0;
    var line := OwnLineOf(previous, settled, section, text) by { AddedHasPin(settled, section, k); }
    var t := CutIsStaged(merged, size, maxBytes, settled.id);
    CutLines(merged, after, settled.id, t, section);
    MemberHasText(Lines(after, section), line);
  }

  lemma {:induction false} NoOldsLeft(lines: seq<Line>, newest: ExecutionId)
    requires Olds(lines, newest) == 0
    ensures forall line :: line in lines ==> line.source == newest
  {
    if lines != [] { NoOldsLeft(lines[1..], newest); }
  }

  /** A size no cut ever brings down to nothing. */
  function OneByte(): Snapshot -> nat {
    _ => 1
  }

  /**
    Outside the next actions, a projection that ends too big has cut every line of another
    execution, and a text `settled` pins again goes with it, because the merge left it with its
    first author.
   */
  lemma RepeatedPinCanBeCut(previous: Option<Snapshot>, settled: Settled, size: Snapshot -> nat, maxBytes: nat,
                            section: Section, i: nat)
    requires size(Project(previous, settled, size, maxBytes).0) > maxBytes
    requires section != NextActions && DistinctTexts(PreviousLines(previous, section))
    requires i < |PreviousLines(previous, section)| && PreviousLines(previous, section)[i].source != settled.id
    ensures !HasText(Lines(Project(previous, settled, size, maxBytes).0, section),
                     PreviousLines(previous, section)[i].text)
  {
    var merged, after := Merged(previous, settled), Project(previous, settled, size, maxBytes).0;
    MergeKeepsBoth(previous, settled, section);
    var t := CutIsStaged(merged, size, maxBytes, settled.id);
    OnlyNewestLeft(merged, after, settled.id, t, section);
    TextIsGone(Lines(merged, section), Lines(after, section), settled.id, i);
  }

  /** The characters of the lines. */
  function TextLength(lines: seq<Line>): nat {
    if lines == [] then 0 else |lines[0].text| + TextLength(lines[1..])
  }

  /** A size that counts at least every character of the next actions. */
  ghost predicate CountsNextActions(size: Snapshot -> nat) {
    forall snapshot :: size(snapshot) >= TextLength(snapshot.nextActions)
  }

  /** Next actions are never cut, so when they alone exceed the limit the projection ends too big. */
  lemma NextActionsOverflow(previous: Option<Snapshot>, settled: Settled, size: Snapshot -> nat, maxBytes: nat)
    requires CountsNextActions(size) && TextLength(Merged(previous, settled).nextActions) > maxBytes
    ensures size(Project(previous, settled, size, maxBytes).0) > maxBytes
  {
    var after := Project(previous, settled, size, maxBytes).0;
    var t := CutIsStaged(Merged(previous, settled), size, maxBytes, settled.id);
    assert after.nextActions == Merged(previous, settled).nextActions;
    assert size(after) >= TextLength(after.nextActions);
  }

  /** So with enough next actions every text another execution holds elsewhere is lost, for every such size. */
  lemma RepeatedPinIsCut(previous: Option<Snapshot>, settled: Settled, size: Snapshot -> nat, maxBytes: nat,
                         section: Section, i: nat)
    requires CountsNextActions(size) && TextLength(Merged(previous, settled).nextActions) > maxBytes
    requires section != NextActions && DistinctTexts(PreviousLines(previous, section))
    requires i < |PreviousLines(previous, section)| && PreviousLines(previous, section)[i].source != settled.id
    ensures !HasText(Lines(Project(previous, settled, size, maxBytes).0, section),
                     PreviousLines(previous, section)[i].text)
  {
    NextActionsOverflow(previous, settled, size, maxBytes);
    RepeatedPinCanBeCut(previous, settled, size, maxBytes, section, i);
  }

  lemma MergeKeepsBoth(previous: Option<Snapshot>, settled: Settled, section: Section)
    requires DistinctTexts(PreviousLines(previous, section))
    ensures DistinctTexts(Lines(Merged(previous, settled), section))
    ensures PreviousLines(previous, section) <= Lines(Merged(previous, settled), section)
  {
    MergedLines(previous, settled, section);
    MergeKeeps(PreviousLines(previous, section), Added(settled, section));
  }

  lemma TextIsGone(before: seq<Line>, after: seq<Line>, newest: ExecutionId, i: nat)
    requires DistinctTexts(before) && i < |before| && before[i].source != newest
    requires forall line :: line in after ==> line in before && line.source == newest
    ensures !HasText(after, before[i].text)
  {
    forall n | 0 <= n < |after| ensures after[n].text != before[i].text {
      var m :| 0 <= m < |before| && before[m] == after[n];
    }
  }

  lemma OnlyNewestLeft(before: Snapshot, after: Snapshot, newest: ExecutionId, t: Tally, section: Section)
    requires CutBy(before, after, newest, t) && CutStep(after, newest).None? && section != NextActions
    ensures forall line :: line in Lines(after, section) ==> line in Lines(before, section) && line.source == newest
  {
    NoOldsLeft(Lines(after, section), newest);
    match section
    case OpenItems => DropOldMembers(before.openItems, newest, t.openItems);
    case Decisions => DropOldMembers(before.decisions, newest, t.decisions);
    case Constraints => DropOldMembers(before.constraints, newest, t.constraints);
  }

  /**
    The projection that brings `text` in ends with it, whatever snapshots weigh and however few
    bytes they may have.
   */
  ghost predicate AlwaysSurvives(previous: Option<Snapshot>, settled: Settled, section: Section, text: string) {
    forall size: Snapshot -> nat, maxBytes: nat ::
      HasText(Lines(Project(previous, settled, size, maxBytes).0, section), text)
  }

  /** What the newest execution pinned survives every cut exactly when no other execution holds the same text. */
  lemma PinSurvivesExactly(previous: Option<Snapshot>, settled: Settled, section: Section, k: nat)
    requires OwnPin(settled, section, k) && DistinctTexts(PreviousLines(previous, section))
    ensures var text := Pins(settled.checkpoint.value, section)[k].text;
            AlwaysSurvives(previous, settled, section, text) <==>
              section == NextActions || !HeldByAnother(PreviousLines(previous, section), text, settled.id)
  {
    var text, before := Pins(settled.checkpoint.value, section)[k].text, PreviousLines(previous, section);
    if section == NextActions {
      AddedHasPin(settled, section, k);
      forall size: Snapshot -> nat, maxBytes: nat
        ensures HasText(Lines(Project(previous, settled, size, maxBytes).0, section), text)
      {
        ProjectionKeepsText(previous, settled, size, maxBytes, section, text);
      }
    } else if HeldByAnother(before, text, settled.id) {
      var i :| 0 <= i < |before| && before[i].text == text && before[i].source != settled.id;
      RepeatedPinCanBeCut(previous, settled, OneByte(), 0, section, i);
    } else {
      forall size: Snapshot -> nat, maxBytes: nat
        ensures HasText(Lines(Project(previous, settled, size, maxBytes).0, section), text)
      {
        NewestSurvives(previous, settled, size, maxBytes, section, k);
      }
    }
  }

  lemma MemberHasText(lines: seq<Line>, line: Line)
    requires line in lines
    ensures HasText(lines, line.text)
  {
  }

  lemma AddedAreOwn(settled: Settled, section: Section)
    ensures forall line :: line in Added(settled, section) ==> line.source == settled.id
  {
    if settled.checkpoint.Some? { PromotedAreOwn(Pins(settled.checkpoint.value, section), settled.id); }
  }

  /** A text no other execution holds is held by a line of the newest one. */
  lemma OwnLineOf(previous: Option<Snapshot>, settled: Settled, section: Section, text: string) returns (line: Line)
    requires HasText(Added(settled, section), text)
    requires !HeldByAnother(PreviousLines(previous, section), text, settled.id)
    ensures line in Lines(Merged(previous, settled), section) && line.text == text && line.source == settled.id
  {
    var lines, before := Lines(Merged(previous, settled), section), PreviousLines(previous, section);
    MergedLines(previous, settled, section);
    MergeKeeps(before, Added(settled, section));
    AddedAreOwn(settled, section);
    var i :| 0 <= i < |lines| && lines[i].text == text;
    assert i < |before| ==> lines[i] == before[i];
    line := lines[i];
  }

  /** The outcome of the newest execution survives every cut. */
  lemma NewestOutcomeSurvives(previous: Option<Snapshot>, settled: Settled, size: Snapshot -> nat, maxBytes: nat)
    ensures var outcomes := Project(previous, settled, size, maxBytes).0.outcomes;
            outcomes != [] && outcomes[|outcomes| - 1] == Outcome(settled.id, settled.sequence, settled.kind)
  {
    var merged := Merged(previous, settled);
    var t := CutIsStaged(merged, size, maxBytes, settled.id);
    LastOutcomeKept(merged, Project(previous, settled, size, maxBytes).0, settled.id, t);
  }

  lemma LastOutcomeKept(before: Snapshot, after: Snapshot, newest: ExecutionId, t: Tally)
    requires RestCut(before, after, t) && Staged(after, newest, t) && before.outcomes != []
    ensures after.outcomes != [] && after.outcomes[|after.outcomes| - 1] == before.outcomes[|before.outcomes| - 1]
  {
  }
}
