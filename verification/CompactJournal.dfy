/**
  The compaction journal (src/context/compact-payload.ts, src/context/compact-journal.ts): how
  a line gets its key, and what folding the replayed lines means.
 */
module CompactJournal {
  import opened Wrappers
  import opened Checkpoints

  datatype Phase = Started | Completed

  /** What `normalizeCompactEvent` reads from one line; `sequence` is ALP's own ordinal, when one is assigned. */
  datatype Input = Input(
    runtime: Runtime, phase: Phase, session: Option<string>, eventId: Option<string>,
    observedAt: string, sequence: Option<nat>)

  datatype Event = Event(key: string, phase: Phase, observedAt: string)

  function RuntimeName(runtime: Runtime): string {
    match runtime case Claude => "claude" case Codex => "codex"
  }

  function PhaseName(phase: Phase): string {
    match phase case Started => "started" case Completed => "completed"
  }

  function SessionText(session: Option<string>): string {
    if session.Some? then session.value else "-"
  }

  function Identity(input: Input): string {
    if input.sequence.Some? then Decimal(input.sequence.value)
    else if input.eventId.Some? then input.eventId.value
    else input.observedAt
  }

  /** The four parts joined with a bar. */
  function DedupeKey(input: Input): string {
    RuntimeName(input.runtime) + "|"
    + (SessionText(input.session) + "|" + (Identity(input) + "|" + PhaseName(input.phase)))
  }

  /** The key as it is written. */
  lemma KeySpelled(input: Input)
    ensures DedupeKey(input)
         == (if input.runtime.Claude? then "claude" else "codex") + "|" + SessionText(input.session) + "|"
            + Identity(input) + "|" + (if input.phase.Started? then "started" else "completed")
  {
  }

  function Normalize(input: Input): Event {
    Event(DedupeKey(input), input.phase, input.observedAt)
  }

  // ----- The pairing key

  /** `lastIndexOf`: -1 when the character does not occur. */
  function LastIndexOf(s: string, c: char): (k: int)
    ensures -1 <= k < |s|
    ensures k >= 0 ==> s[k] == c
    ensures forall i :: k < i < |s| ==> s[i] != c
  {
    if s == [] then -1 else if s[|s| - 1] == c then |s| - 1 else LastIndexOf(s[..|s| - 1], c)
  }

  /** `slice(0, end)`: a negative end counts from the back. */
  function SliceTo(s: string, end: int): string
    requires -1 <= end <= |s|
  {
    if end >= 0 then s[..end] else if s == [] then [] else s[..|s| - 1]
  }

  function PairKeyOf(key: string): string {
    SliceTo(key, LastIndexOf(key, '|'))
  }

  function PairKey(input: Input): string {
    RuntimeName(input.runtime) + "|" + (SessionText(input.session) + "|" + Identity(input))
  }

  /** For every session and identity, bars included, the pairing key is the key without its phase. */
  lemma PairKeyStripsThePhase(input: Input)
    ensures PairKeyOf(DedupeKey(input)) == PairKey(input)
    ensures DedupeKey(input) == PairKey(input) + "|" + PhaseName(input.phase)
  {
    var key, pair, phase := DedupeKey(input), PairKey(input), PhaseName(input.phase);
    assert key == pair + "|" + phase;
    assert '|' !in phase;
    assert key[|pair|] == '|';
    forall i | |pair| < i < |key| ensures key[i] != '|' {
      assert key[i] == phase[i - |pair| - 1];
      assert phase[i - |pair| - 1] in phase;
    }
    assert LastIndexOf(key, '|') == |pair|;
  }

  lemma SplitAtFirstBar(a: string, x: string, b: string, y: string)
    requires '|' !in a && '|' !in b && a + "|" + x == b + "|" + y
    ensures a == b && x == y
  {
    var s, t := a + "|" + x, b + "|" + y;
    assert s[|a|] == '|' && t[|b|] == '|';
    assert s[..|a|] == a && t[..|b|] == b;
    assert s[|a| + 1..] == x && t[|b| + 1..] == y;
  }

  lemma KeyTellsPhase(a: Input, b: Input)
    requires DedupeKey(a) == DedupeKey(b)
    ensures a.phase == b.phase
  {
    PairKeyStripsThePhase(a);
    PairKeyStripsThePhase(b);
    assert DedupeKey(a)[|PairKey(a)| + 1] == PhaseName(a.phase)[0];
    assert DedupeKey(b)[|PairKey(b)| + 1] == PhaseName(b.phase)[0];
  }

  // ----- What equal keys mean

  /** Equal sessions, or an absent one beside an id that is spelled like the stand-in for it. */
  predicate SessionsAgree(a: Option<string>, b: Option<string>) {
    a == b || {a, b} == {None, Some("-")}
  }

  /** A bar in `longer` can be taken for the one that ends `shorter`. */
  predicate Extends(longer: Option<string>, shorter: Option<string>) {
    SessionText(shorter) + "|" <= SessionText(longer)
  }

  /** What `longer` holds after that bar. */
  function Excess(longer: Option<string>, shorter: Option<string>): string
    requires Extends(longer, shorter)
  {
    SessionText(longer)[|SessionText(shorter)| + 1..]
  }

  /** The session of `a` reaches into the identity of `b`. */
  predicate BarMoved(a: Input, b: Input) {
    Extends(a.session, b.session) && Identity(b) == Excess(a.session, b.session) + "|" + Identity(a)
  }

  /** When two lines share a key: for every pair of inputs, in terms of their fields. */
  lemma KeysEqualExactly(a: Input, b: Input)
    ensures DedupeKey(a) == DedupeKey(b) <==> a.phase == b.phase && PairKey(a) == PairKey(b)
    ensures PairKey(a) == PairKey(b) <==>
              && a.runtime == b.runtime
              && ((SessionsAgree(a.session, b.session) && Identity(a) == Identity(b))
                  || BarMoved(a, b) || BarMoved(b, a))
  {
    KeyIsPairAndPhase(a, b);
    PairKeysSplit(a, b);
    TailsEqualExactly(SessionText(a.session), Identity(a), SessionText(b.session), Identity(b));
    AgreeInText(a.session, b.session);
  }

  lemma KeyIsPairAndPhase(a: Input, b: Input)
    ensures DedupeKey(a) == DedupeKey(b) <==> a.phase == b.phase && PairKey(a) == PairKey(b)
  {
    PairKeyStripsThePhase(a);
    PairKeyStripsThePhase(b);
    if DedupeKey(a) == DedupeKey(b) { KeyTellsPhase(a, b); }
  }

  lemma PairKeysSplit(a: Input, b: Input)
    ensures PairKey(a) == PairKey(b) <==>
              && a.runtime == b.runtime
              && SessionText(a.session) + "|" + Identity(a) == SessionText(b.session) + "|" + Identity(b)
  {
    var tail, tail' := SessionText(a.session) + "|" + Identity(a), SessionText(b.session) + "|" + Identity(b);
    assert PairKey(a) == RuntimeName(a.runtime) + "|" + tail && PairKey(b) == RuntimeName(b.runtime) + "|" + tail';
    assert RuntimeName(Claude)[1] == 'l' && RuntimeName(Codex)[1] == 'o';
    if PairKey(a) == PairKey(b) {
      SplitAtFirstBar(RuntimeName(a.runtime), tail, RuntimeName(b.runtime), tail');
    }
  }

  lemma AgreeInText(a: Option<string>, b: Option<string>)
    ensures SessionsAgree(a, b) <==> SessionText(a) == SessionText(b)
  {
    if {a, b} == {None, Some("-")} { assert a in {None, Some("-")} && b in {None, Some("-")}; }
    if a != b && SessionText(a) == SessionText(b) { assert {a, b} == {None, Some("-")}; }
  }

  lemma TailsEqualExactly(s: string, x: string, t: string, y: string)
    ensures s + "|" + x == t + "|" + y <==>
              || (s == t && x == y)
              || (t + "|" <= s && y == s[|t| + 1..] + "|" + x)
              || (s + "|" <= t && x == t[|s| + 1..] + "|" + y)
  {
    if s + "|" + x == t + "|" + y { EqualTailsSplit(s, x, t, y); }
    if t + "|" <= s && y == s[|t| + 1..] + "|" + x { assert s == t + "|" + s[|t| + 1..]; }
    if s + "|" <= t && x == t[|s| + 1..] + "|" + y { assert t == s + "|" + t[|s| + 1..]; }
  }

  lemma EqualTailsSplit(s: string, x: string, t: string, y: string)
    requires s + "|" + x == t + "|" + y
    ensures |s| == |t| ==> s == t && x == y
    ensures |s| > |t| ==> t + "|" <= s && y == s[|t| + 1..] + "|" + x
    ensures |s| < |t| ==> s + "|" <= t && x == t[|s| + 1..] + "|" + y
  {
    var whole := s + "|" + x;
    assert whole[..|s|] == s && whole[|s|] == '|' && whole[|s| + 1..] == x;
    assert whole[..|t|] == t && whole[|t|] == '|' && whole[|t| + 1..] == y;
    if |s| > |t| {
      assert s[..|t|] == t && s[|t|] == '|';
      assert y == whole[|t| + 1..|s|] + whole[|s|..];
    } else if |s| < |t| {
      assert t[..|s|] == s && t[|s|] == '|';
      assert x == whole[|s| + 1..|t|] + whole[|t|..];
    }
  }

  datatype IdentityKind = Ordinal | RuntimeEvent | Observation

  function KindOf(input: Input): IdentityKind {
    if input.sequence.Some? then Ordinal else if input.eventId.Some? then RuntimeEvent else Observation
  }

  /** The same session of the same runtime, and the same value in the field that identifies the compaction. */
  predicate SameCompaction(a: Input, b: Input) {
    && a.runtime == b.runtime && a.session == b.session && KindOf(a) == KindOf(b)
    && match KindOf(a)
       case Ordinal => a.sequence == b.sequence
       case RuntimeEvent => a.eventId == b.eventId
       case Observation => a.observedAt == b.observedAt
  }

  /**
    Sessions no input of which can share a key: neither extends the other past a bar, and
    neither stands in for the other.
   */
  predicate Separable(s: Option<string>, t: Option<string>) {
    s == t || (!SessionsAgree(s, t) && !Extends(s, t) && !Extends(t, s))
  }

  /**
    Two sessions can share a key if and only if one is absent and the other is "-", or one is
    the other followed by a bar and more.
   */
  lemma SessionsCollideExactly(s: Option<string>, t: Option<string>)
    requires s != t
    ensures (exists a: Input, b: Input :: a.session == s && b.session == t && DedupeKey(a) == DedupeKey(b))
       <==> !Separable(s, t)
  {
    if !Separable(s, t) { var a, b := Colliding(s, t); }
    forall a: Input, b: Input | a.session == s && b.session == t && DedupeKey(a) == DedupeKey(b)
      ensures !Separable(s, t)
    {
      KeysEqualExactly(a, b);
    }
  }

  lemma Colliding(s: Option<string>, t: Option<string>) returns (a: Input, b: Input)
    requires !Separable(s, t)
    ensures a.session == s && b.session == t && DedupeKey(a) == DedupeKey(b)
  {
    a, b := Named(s, "x"), Named(t, "x");
    if Extends(t, s) {
      a := Named(s, Excess(t, s) + "|" + "x");
      assert BarMoved(b, a);
    } else if Extends(s, t) {
      b := Named(t, Excess(s, t) + "|" + "x");
      assert BarMoved(a, b);
    }
    KeysEqualExactly(a, b);
  }

  function Named(session: Option<string>, id: string): Input {
    Input(Claude, Started, session, Some(id), "t", None)
  }

  lemma NotBothExtend(s: Option<string>, t: Option<string>)
    ensures !(Extends(s, t) && Extends(t, s)) && !(Extends(s, t) && SessionsAgree(s, t))
  {
    AgreeInText(s, t);
  }

  /** A bar is always ambiguous: whatever the line, another session has a line with the same key. */
  lemma BarsCollide(a: Input) returns (b: Input)
    requires a.session.Some? && '|' in a.session.value
    ensures b.session != a.session && DedupeKey(b) == DedupeKey(a)
  {
    var s := a.session.value;
    var k :| 0 <= k < |s| && s[k] == '|';
    b := Input(a.runtime, a.phase, Some(s[..k]), Some(s[k + 1..] + "|" + Identity(a)), a.observedAt, None);
    assert s == s[..k] + "|" + s[k + 1..];
    assert BarMoved(a, b);
    KeysEqualExactly(a, b);
  }

  /**
    The phases of one compaction always share the pairing key, and two lines that share it are
    of one compaction if and only if their sessions are separable and their identities of one
    kind; likewise for the dedupe key and one phase.
   */
  lemma KeysIdentify(a: Input, b: Input)
    ensures SameCompaction(a, b) ==> PairKey(a) == PairKey(b)
    ensures PairKey(a) == PairKey(b) ==>
              (SameCompaction(a, b) <==> Separable(a.session, b.session) && KindOf(a) == KindOf(b))
    ensures DedupeKey(a) == DedupeKey(b) <==> PairKey(a) == PairKey(b) && a.phase == b.phase
  {
    KeysEqualExactly(a, b);
    NotBothExtend(a.session, b.session);
    if a.sequence.Some? && b.sequence.Some? && Identity(a) == Identity(b) {
      DecimalInjective(a.sequence.value, b.sequence.value);
    }
  }

  /**
    The ordinal ALP assigned separates compactions that share a runtime id, and joins the two
    phases of one; without it the runtime id does, and without that the time of observation.
   */
  lemma IdentityInOrder(a: Input, b: Input)
    requires a.runtime == b.runtime && a.session == b.session && KindOf(a) == KindOf(b)
    ensures a.sequence.Some? ==> (PairKey(a) == PairKey(b) <==> a.sequence == b.sequence)
    ensures a.sequence.None? && a.eventId.Some? ==> (PairKey(a) == PairKey(b) <==> a.eventId == b.eventId)
    ensures a.sequence.None? && a.eventId.None? ==> (PairKey(a) == PairKey(b) <==> a.observedAt == b.observedAt)
  {
    KeysIdentify(a, b);
  }

  /**
    Across kinds nothing tells an identity from another with the same spelling: within one
    session an ordinal, a runtime's id and a time of observation share a key exactly when they
    are written alike.
   */
  lemma KindsShareSpellings(a: Input, b: Input)
    requires a.runtime == b.runtime && a.session == b.session && KindOf(a) != KindOf(b)
    ensures !SameCompaction(a, b)
    ensures PairKey(a) == PairKey(b) <==> Identity(a) == Identity(b)
  {
    KeysEqualExactly(a, b);
    NotBothExtend(a.session, b.session);
  }

  // ----- The fold

  datatype CompactionState = CompactionState(generation: nat, pending: Option<Event>, lastCompleted: Option<Event>)

  predicate HasKey(events: seq<Event>, key: string) {
    exists i :: 0 <= i < |events| && events[i].key == key
  }

  /** The first event of each key, in order. */
  function Distinct(events: seq<Event>): seq<Event> {
    if events == [] then []
    else
      var before, last := events[..|events| - 1], events[|events| - 1];
      if HasKey(before, last.key) then Distinct(before) else Distinct(before) + [last]
  }

  function CompletedCount(events: seq<Event>): nat {
    if events == [] then 0
    else CompletedCount(events[..|events| - 1]) + if events[|events| - 1].phase.Completed? then 1 else 0
  }

  predicate LastOfPhase(events: seq<Event>, phase: Phase, i: nat) {
    i < |events| && events[i].phase == phase && forall j :: i < j < |events| ==> events[j].phase != phase
  }

  predicate MatchedLater(events: seq<Event>, i: nat)
    requires i < |events|
  {
    exists j :: i < j < |events| && events[j].phase.Completed? && PairKeyOf(events[j].key) == PairKeyOf(events[i].key)
  }

  /** `event` is the last start of `events` and no later completion matches it. */
  predicate IsPending(events: seq<Event>, event: Event) {
    exists i :: 0 <= i < |events| && LastOfPhase(events, Started, i) && events[i] == event && !MatchedLater(events, i)
  }

  predicate IsLastCompleted(events: seq<Event>, event: Event) {
    exists i :: 0 <= i < |events| && LastOfPhase(events, Completed, i) && events[i] == event
  }

  predicate PendingMeans(distinct: seq<Event>, pending: Option<Event>) {
    && (pending.Some? ==> IsPending(distinct, pending.value))
    && (pending.None? ==> forall i :: 0 <= i < |distinct| && LastOfPhase(distinct, Started, i) ==>
            MatchedLater(distinct, i))
  }

  predicate CompletedMeans(distinct: seq<Event>, lastCompleted: Option<Event>) {
    && (lastCompleted.Some? ==> IsLastCompleted(distinct, lastCompleted.value))
    && (lastCompleted.None? ==> forall i :: 0 <= i < |distinct| ==> distinct[i].phase.Started?)
  }

  /** The meaning of a list without repeated keys. */
  predicate MeansOf(distinct: seq<Event>, state: CompactionState) {
    && state.generation == CompletedCount(distinct)
    && PendingMeans(distinct, state.pending) && CompletedMeans(distinct, state.lastCompleted)
  }

  /** The declarative meaning of a replayed journal. */
  predicate Means(events: seq<Event>, state: CompactionState) {
    MeansOf(Distinct(events), state)
  }

  /** The meaning leaves nothing open. */
  lemma MeaningIsUnique(events: seq<Event>, a: CompactionState, b: CompactionState)
    requires Means(events, a) && Means(events, b)
    ensures a == b
  {
  }

  method ReduceCompactJournal(events: seq<Event>) returns (state: CompactionState)
    ensures Means(events, state)
  {
    var seen: set<string>, generation := {}, 0;
    var lastCompleted: Option<Event>, pending: Option<Event>, pendingPairKey: Option<string> := None, None, None;
    for i := 0 to |events|
      invariant forall key :: key in seen <==> HasKey(events[..i], key)
      invariant Means(events[..i], CompactionState(generation, pending, lastCompleted))
      invariant pendingPairKey == if pending.Some? then Some(PairKeyOf(pending.value.key)) else None
    {
      var event := events[i];
      MeansAfter(events[..i], event, CompactionState(generation, pending, lastCompleted));
      assert events[..i] + [event] == events[..i + 1];
      HasKeyGrows(events[..i], event);
      if event.key in seen { continue; }
      seen := seen + {event.key};
      var pairKey := PairKeyOf(event.key);
      if event.phase.Started? {
        pending, pendingPairKey := Some(event), Some(pairKey);
        continue;
      }
      generation := generation + 1;
      lastCompleted := Some(event);
      if Some(pairKey) == pendingPairKey {
        pending, pendingPairKey := None, None;
      }
    }
    assert events[..|events|] == events;
    state := CompactionState(generation, pending, lastCompleted);
  }

  /** What a turn of the loop does with an event whose key is new. */
  function Turn(before: CompactionState, event: Event): CompactionState {
    if event.phase.Started? then before.(pending := Some(event))
    else
      var matched := before.pending.Some? && PairKeyOf(before.pending.value.key) == PairKeyOf(event.key);
      CompactionState(before.generation + 1, if matched then None else before.pending, Some(event))
  }

  lemma HasKeyGrows(events: seq<Event>, event: Event)
    ensures forall key :: HasKey(events + [event], key) <==> HasKey(events, key) || key == event.key
  {
    forall key ensures HasKey(events + [event], key) <==> HasKey(events, key) || key == event.key {
      var all := events + [event];
      assert all[|events|].key == event.key;
      if HasKey(events, key) {
        var i :| 0 <= i < |events| && events[i].key == key;
        assert all[i].key == key;
      }
    }
  }

  /** One turn keeps the meaning, whether the key is new or not. */
  lemma MeansAfter(events: seq<Event>, event: Event, before: CompactionState)
    requires Means(events, before)
    ensures Means(events + [event], if HasKey(events, event.key) then before else Turn(before, event))
  {
    assert (events + [event])[..|events|] == events;
    if HasKey(events, event.key) {
      assert Distinct(events + [event]) == Distinct(events);
    } else {
      assert Distinct(events + [event]) == Distinct(events) + [event];
      if event.phase.Started? {
        MeansAfterStart(Distinct(events), event, before);
      } else {
        MeansAfterCompletion(Distinct(events), event, before);
      }
    }
  }

  lemma CountGrows(before: seq<Event>, last: Event)
    ensures CompletedCount(before + [last]) == CompletedCount(before) + if last.phase.Completed? then 1 else 0
  {
  }

  lemma MeansAfterStart(d: seq<Event>, event: Event, before: CompactionState)
    requires MeansOf(d, before) && event.phase.Started?
    ensures MeansOf(d + [event], Turn(before, event))
  {
  }

  lemma MeansAfterCompletion(d: seq<Event>, event: Event, before: CompactionState)
    requires MeansOf(d, before) && event.phase.Completed?
    ensures MeansOf(d + [event], Turn(before, event))
  {
    CountGrows(d, event);
    PendingAfterCompletion(d, event, before);
    var e := d + [event];
    assert LastOfPhase(e, Completed, |d|) && e[|d|] == event;
  }

  lemma PendingAfterCompletion(d: seq<Event>, event: Event, before: CompactionState)
    requires PendingMeans(d, before.pending) && event.phase.Completed?
    ensures PendingMeans(d + [event], Turn(before, event).pending)
  {
    var e := d + [event];
    assert e[..|d|] == d && e[|d|] == event;
    forall i | 0 <= i < |d|
      ensures LastOfPhase(e, Started, i) <==> LastOfPhase(d, Started, i)
      ensures MatchedLater(e, i) <==> MatchedLater(d, i) || PairKeyOf(event.key) == PairKeyOf(d[i].key)
    {
      MatchGrows(d, event, i);
    }
    if before.pending.Some? {
      var i :| 0 <= i < |d| && LastOfPhase(d, Started, i) && d[i] == before.pending.value && !MatchedLater(d, i);
      assert LastOfPhase(e, Started, i) && e[i] == d[i];
    }
  }

  lemma MatchGrows(d: seq<Event>, event: Event, i: nat)
    requires event.phase.Completed? && i < |d|
    ensures MatchedLater(d + [event], i) <==> MatchedLater(d, i) || PairKeyOf(event.key) == PairKeyOf(d[i].key)
  {
    var e := d + [event];
    assert e[|d|] == event && e[i] == d[i];
    if MatchedLater(d, i) {
      var j :| i < j < |d| && d[j].phase.Completed? && PairKeyOf(d[j].key) == PairKeyOf(d[i].key);
      assert e[j] == d[j];
    }
    if PairKeyOf(event.key) == PairKeyOf(d[i].key) { assert e[|d|].phase.Completed?; }
  }

  // ----- Replays

  lemma {:induction false} DistinctIgnores(before: seq<Event>, event: Event, rest: seq<Event>)
    requires HasKey(before, event.key)
    ensures Distinct(before + [event] + rest) == Distinct(before + rest)
    decreases |rest|
  {
    var longer, shorter := before + [event] + rest, before + rest;
    if rest == [] {
      assert longer[..|longer| - 1] == before && shorter == before;
    } else {
      var front, last := rest[..|rest| - 1], rest[|rest| - 1];
      assert longer[..|longer| - 1] == before + [event] + front && shorter[..|shorter| - 1] == before + front;
      DistinctIgnores(before, event, front);
      SameKeys(before, event, front);
    }
  }

  lemma SameKeys(before: seq<Event>, event: Event, rest: seq<Event>)
    requires HasKey(before, event.key)
    ensures forall key :: HasKey(before + [event] + rest, key) <==> HasKey(before + rest, key)
  {
    var longer, shorter := before + [event] + rest, before + rest;
    forall key ensures HasKey(longer, key) <==> HasKey(shorter, key) {
      if HasKey(longer, key) {
        var i :| 0 <= i < |longer| && longer[i].key == key;
        var k :| 0 <= k < |before| && before[k].key == event.key;
        if i < |before| { assert shorter[i] == longer[i]; }
        else if i == |before| { assert shorter[k] == before[k]; }
        else { assert shorter[i - 1] == longer[i]; }
      }
      if HasKey(shorter, key) {
        var i :| 0 <= i < |shorter| && shorter[i].key == key;
        if i < |before| { assert longer[i] == shorter[i]; } else { assert longer[i + 1] == shorter[i]; }
      }
    }
  }

  /** Inserting an event whose key was already seen changes nothing, wherever it is inserted. */
  lemma DuplicateChangesNothing(before: seq<Event>, event: Event, rest: seq<Event>, state: CompactionState)
    requires HasKey(before, event.key)
    ensures Means(before + [event] + rest, state) <==> Means(before + rest, state)
  {
    DistinctIgnores(before, event, rest);
  }

  /** A key tells the phase of its event. */
  predicate KeyedByPhase(events: seq<Event>) {
    forall i, j :: 0 <= i < |events| && 0 <= j < |events| && events[i].key == events[j].key ==>
        events[i].phase == events[j].phase
  }

  lemma CompletedKeysGrow(before: seq<Event>, last: Event)
    ensures CompletedKeys(before + [last]) == CompletedKeys(before) + if last.phase.Completed? then {last.key} else {}
    ensures last.key in CompletedKeys(before) ==> HasKey(before, last.key)
    ensures KeyedByPhase(before + [last]) && HasKey(before, last.key) && last.phase.Completed? ==>
              last.key in CompletedKeys(before)
  {
    var events := before + [last];
    assert events[|before|] == last && events[..|before|] == before;
    assert forall i :: 0 <= i < |before| ==> events[i] == before[i];
    assert forall event :: event in events <==> event in before || event == last;
    if HasKey(before, last.key) {
      var k :| 0 <= k < |before| && before[k].key == last.key;
      assert events[k] == before[k] && before[k] in before;
    }
  }

  lemma {:induction false} CompletedAreCounted(events: seq<Event>)
    requires KeyedByPhase(events)
    ensures CompletedCount(Distinct(events)) == |CompletedKeys(events)|
    decreases |events|
  {
    if events != [] {
      var before, last := events[..|events| - 1], events[|events| - 1];
      assert events == before + [last];
      CompletedAreCounted(before);
      CompletedKeysGrow(before, last);
      if !HasKey(before, last.key) {
        CountGrows(Distinct(before), last);
      } else {
        assert CompletedKeys(events) == CompletedKeys(before);
      }
    }
  }

  /** Normalized events are keyed by phase, so `generation` is the number of distinct completed keys. */
  lemma GenerationCountsKeys(inputs: seq<Input>, state: CompactionState)
    requires Means(Events(inputs), state)
    ensures state.generation == |CompletedKeys(Events(inputs))|
  {
    var events := Events(inputs);
    forall i, j | 0 <= i < |events| && 0 <= j < |events| && events[i].key == events[j].key
      ensures events[i].phase == events[j].phase
    {
      KeyTellsPhase(inputs[i], inputs[j]);
    }
    CompletedAreCounted(events);
  }

  function Events(inputs: seq<Input>): seq<Event> {
    seq(|inputs|, i requires 0 <= i < |inputs| => Normalize(inputs[i]))
  }

  function CompletedKeys(events: seq<Event>): set<string> {
    set event | event in events && event.phase.Completed? :: event.key
  }
}
