/**
  Token counting over transcript slices (src/runtime/history-usage.ts,
  src/runtime/claude-history-bridge.ts, src/thread/history-bridge.ts) and the budget read off
  the accumulated total (src/execution/usage.ts). A column is `None` when it is unknown.
 */
module Usage {
  import opened Wrappers

  type Column = Option<nat>
  datatype Counters = Counters(input: Column, output: Column, cacheRead: Column, cacheWrite: Column, toolCalls: Column)
  const NO_USAGE := Counters(Some(0), Some(0), Some(0), Some(0), Some(0))

  function AddColumn(a: Column, b: Column): Column {
    if a.None? || b.None? then None else Some(a.value + b.value)
  }

  function AddUsage(a: Counters, b: Counters): Counters {
    Counters(AddColumn(a.input, b.input), AddColumn(a.output, b.output), AddColumn(a.cacheRead, b.cacheRead),
             AddColumn(a.cacheWrite, b.cacheWrite), AddColumn(a.toolCalls, b.toolCalls))
  }

  function Accumulate(previous: Option<Counters>, delta: Option<Counters>): Option<Counters> {
    if delta.None? then previous
    else if previous.None? then delta
    else Some(AddUsage(previous.value, delta.value))
  }

  // ----- Transcript lines

  /** `usage` holds the four token columns of the API response, each unknown when unreadable. */
  datatype Message = Message(id: Option<string>, usage: Counters)
  /** `Other`: any line that is not an assistant line. `tools`: the tool entries the line yields. */
  datatype Line =
    | Other(tools: nat)
    | Assistant(sidechain: bool, message: Option<Message>, blockIndex: Option<nat>, tools: nat)

  /** A line of the main conversation that carries a message object. */
  predicate Main(line: Line) {
    line.Assistant? && !line.sidechain && line.message.Some?
  }

  predicate Carries(line: Line, id: string) {
    Main(line) && line.message.value.id == Some(id)
  }

  /** The line on which a response is to be counted. */
  predicate Opens(line: Line) {
    Main(line) && line.message.value.id.Some? && line.blockIndex == Some(0)
  }

  datatype SliceState = SliceState(counters: Option<Counters>, seen: set<string>, first: bool)
  const FRESH_STATE := SliceState(None, {}, true)

  /** The token columns of `add`: the tool column stays 0 inside a slice. */
  function AddTokens(counters: Option<Counters>, usage: Counters): Counters {
    AddUsage(if counters.Some? then counters.value else NO_USAGE, usage.(toolCalls := Some(0)))
  }

  /** `collectClaudeUsage` on one line. */
  function Collect(state: SliceState, line: Line, continuing: bool): SliceState {
    if !Main(line) then state
    else if line.message.value.id.None? then state.(first := false)
    else
      var id := line.message.value.id.value;
      if id in state.seen then state.(first := false)
      else
        var next := state.(first := false, seen := state.seen + {id});
        if state.first && continuing && line.blockIndex.Some? && line.blockIndex.value > 0 then next
        else next.(counters := Some(AddTokens(state.counters, line.message.value.usage)))
  }

  function CollectAll(lines: seq<Line>, start: nat, end: nat): (state: SliceState)
    requires start <= end <= |lines|
    decreases end
  {
    if start == end then FRESH_STATE else Collect(CollectAll(lines, start, end - 1), lines[end - 1], start > 0)
  }

  function Tools(lines: seq<Line>, start: nat, end: nat): nat
    requires start <= end <= |lines|
    decreases end
  {
    if start == end then 0 else Tools(lines, start, end - 1) + lines[end - 1].tools
  }

  /** `finishUsage`: nothing at all when the slice held no usage line. */
  function SliceUsage(lines: seq<Line>, start: nat, end: nat): Option<Counters>
    requires start <= end <= |lines|
  {
    var counters := CollectAll(lines, start, end).counters;
    if counters.None? then None else Some(counters.value.(toolCalls := Some(Tools(lines, start, end))))
  }

  class ClaudeUsageState {
    var counters: Option<Counters>
    var seen: set<string>
    var first: bool

    constructor ()
      ensures State() == FRESH_STATE
    {
      counters, seen, first := None, {}, true;
    }

    function State(): SliceState
      reads this
    {
      SliceState(counters, seen, first)
    }

    method CollectLine(line: Line, continuing: bool)
      modifies this
      ensures State() == Collect(old(State()), line, continuing)
    {
      if !Main(line) { return; }
      var wasFirst := first;
      first := false;
      if line.message.value.id.None? || line.message.value.id.value in seen { return; }
      seen := seen + {line.message.value.id.value};
      if wasFirst && continuing && line.blockIndex.Some? && line.blockIndex.value > 0 { return; }
      counters := Some(AddTokens(counters, line.message.value.usage));
    }
  }

  /** One pass of the bridge over what lies past its cursor. */
  method CollectDelta(lines: seq<Line>, cursor: nat) returns (delta: Option<Counters>, cursor': nat)
    ensures cursor' == |lines|
    ensures delta == SliceUsage(lines, if cursor < |lines| then cursor else |lines|, |lines|)
  {
    var offset := if cursor < |lines| then cursor else |lines|;
    var usage := new ClaudeUsageState();
    var tools := 0;
    for i := offset to |lines|
      invariant usage.State() == CollectAll(lines, offset, i) && tools == Tools(lines, offset, i)
    {
      usage.CollectLine(lines[i], offset > 0);
      tools := tools + lines[i].tools;
    }
    cursor' := |lines|;
    delta := if usage.counters.None? then None else Some(usage.counters.value.(toolCalls := Some(tools)));
  }

  /** A pass sees the transcript as it was then: lines appended later change nothing about its slice. */
  lemma {:induction false} SliceIgnoresLaterLines(lines: seq<Line>, start: nat, end: nat, n: nat)
    requires start <= end <= n <= |lines|
    ensures CollectAll(lines[..n], start, end) == CollectAll(lines, start, end)
    ensures SliceUsage(lines[..n], start, end) == SliceUsage(lines, start, end)
    ensures Tools(lines[..n], start, end) == Tools(lines, start, end)
    decreases end
  {
    if start < end { SliceIgnoresLaterLines(lines, start, end - 1, n); }
  }

  // ----- Slices against one pass

  predicate CarriedIn(lines: seq<Line>, start: nat, end: nat, id: string)
    requires start <= end <= |lines|
  {
    exists k :: start <= k < end && Carries(lines[k], id)
  }

  /** Line `i` is the first from `start` on that carries its message. */
  predicate FirstFrom(lines: seq<Line>, start: nat, i: nat)
    requires start <= i < |lines|
  {
    Main(lines[i]) && lines[i].message.value.id.Some? && !CarriedIn(lines, start, i, lines[i].message.value.id.value)
  }

  /** Line `i` opens the slice from `start` on, in the middle of a message. */
  predicate Continues(lines: seq<Line>, start: nat, i: nat)
    requires start <= i < |lines|
  {
    && start > 0 && Main(lines[i]) && (forall k :: start <= k < i ==> !Main(lines[k]))
    && lines[i].blockIndex.Some? && lines[i].blockIndex.value > 0
  }

  /** Line `i` is counted by a pass that starts at `start`. */
  predicate Counted(lines: seq<Line>, start: nat, i: nat)
    requires start <= i < |lines|
  {
    FirstFrom(lines, start, i) && !Continues(lines, start, i)
  }

  /** The lines of a stretch that a pass from `origin` on counts, added up. */
  function CountedSum(lines: seq<Line>, origin: nat, start: nat, end: nat): Option<Counters>
    requires origin <= start <= end <= |lines|
    decreases end
  {
    if start == end then None
    else
      var before := CountedSum(lines, origin, start, end - 1);
      if Counted(lines, origin, end - 1) then Some(AddTokens(before, lines[end - 1].message.value.usage)) else before
  }

  /** For any transcript, a slice adds up the lines it counts. */
  lemma {:induction false} SliceCounts(lines: seq<Line>, start: nat, end: nat)
    requires start <= end <= |lines|
    ensures CollectAll(lines, start, end).counters == CountedSum(lines, start, start, end)
    ensures CollectAll(lines, start, end).first <==> forall k :: start <= k < end ==> !Main(lines[k])
    ensures forall id :: id in CollectAll(lines, start, end).seen <==> CarriedIn(lines, start, end, id)
    decreases end
  {
    if start < end {
      SliceCounts(lines, start, end - 1);
      forall id
        ensures CarriedIn(lines, start, end, id) <==>
                  CarriedIn(lines, start, end - 1, id) || Carries(lines[end - 1], id)
      {}
    }
  }

  /**
    A cut is clean when the line that opens the slice is skipped exactly for a message that
    was carried before the cut, and no other message of the slice was.
   */
  predicate CleanCut(lines: seq<Line>, start: nat, end: nat)
    requires start <= end <= |lines|
  {
    forall i :: start <= i < end && FirstFrom(lines, start, i) ==>
      (CarriedIn(lines, 0, start, lines[i].message.value.id.value) <==> Continues(lines, start, i))
  }

  predicate CountedAlike(lines: seq<Line>, start: nat, end: nat)
    requires start <= end <= |lines|
  {
    forall i :: start <= i < end ==> (Counted(lines, start, i) <==> Counted(lines, 0, i))
  }

  /** A slice counts the lines that one pass counts there if and only if its cut is clean. */
  lemma CleanCutExactly(lines: seq<Line>, start: nat, end: nat)
    requires start <= end <= |lines|
    ensures CountedAlike(lines, start, end) <==> CleanCut(lines, start, end)
  {
    forall i | start <= i < end && Main(lines[i]) && lines[i].message.value.id.Some?
      ensures FirstFrom(lines, 0, i) <==>
                FirstFrom(lines, start, i) && !CarriedIn(lines, 0, start, lines[i].message.value.id.value)
    {}
    if CountedAlike(lines, start, end) {
      forall i | start <= i < end && FirstFrom(lines, start, i)
        ensures CarriedIn(lines, 0, start, lines[i].message.value.id.value) <==> Continues(lines, start, i)
      {
        assert Counted(lines, start, i) <==> Counted(lines, 0, i);
      }
    }
  }

  lemma {:induction false} CountedSumSplits(lines: seq<Line>, start: nat, mid: nat, end: nat)
    requires start <= mid <= end <= |lines|
    ensures CountedSum(lines, start, start, end)
         == Accumulate(CountedSum(lines, start, start, mid), CountedSum(lines, start, mid, end))
    decreases end
  {
    if mid < end {
      CountedSumSplits(lines, start, mid, end - 1);
      if Counted(lines, start, end - 1) {
        AddTokensAssociates(CountedSum(lines, start, start, mid), CountedSum(lines, start, mid, end - 1),
                            lines[end - 1].message.value.usage);
      }
    }
  }

  lemma {:induction false} CountedAlikeSums(lines: seq<Line>, start: nat, end: nat)
    requires start <= end <= |lines| && CountedAlike(lines, start, end)
    ensures CountedSum(lines, start, start, end) == CountedSum(lines, 0, start, end)
    decreases end
  {
    if start < end { CountedAlikeSums(lines, start, end - 1); }
  }

  lemma {:induction false} CountedSumHasNoTools(lines: seq<Line>, origin: nat, start: nat, end: nat)
    requires origin <= start <= end <= |lines|
    ensures TokensOf(CountedSum(lines, origin, start, end)) == CountedSum(lines, origin, start, end)
    decreases end
  {
    if start < end { CountedSumHasNoTools(lines, origin, start, end - 1); }
  }

  lemma SliceTokens(lines: seq<Line>, start: nat, end: nat)
    requires start <= end <= |lines|
    ensures TokensOf(SliceUsage(lines, start, end)) == CountedSum(lines, start, start, end)
  {
    SliceCounts(lines, start, end);
    CountedSumHasNoTools(lines, start, start, end);
  }

  predicate CleanCuts(lines: seq<Line>, cuts: seq<nat>)
    requires Cuts(lines, cuts)
  {
    forall j :: 0 < j < |cuts| ==> CleanCut(lines, cuts[j - 1], cuts[j])
  }

  /** With clean cuts the four token columns come out as in one pass, unknowns included. */
  lemma {:induction false} CleanCutsAgree(lines: seq<Line>, cuts: seq<nat>)
    requires Cuts(lines, cuts) && CleanCuts(lines, cuts)
    ensures TokensOf(Sliced(lines, cuts)) == TokensOf(SliceUsage(lines, 0, cuts[|cuts| - 1]))
    decreases |cuts|
  {
    var last := |cuts| - 1;
    SliceTokens(lines, 0, cuts[last]);
    if |cuts| > 1 {
      var front := cuts[..last];
      forall j | 0 < j < |front| ensures CleanCut(lines, front[j - 1], front[j]) {
        assert CleanCut(lines, cuts[j - 1], cuts[j]);
      }
      CleanCutsAgree(lines, front);
      SliceTokens(lines, 0, cuts[last - 1]);
      SliceTokens(lines, cuts[last - 1], cuts[last]);
      CleanCutExactly(lines, cuts[last - 1], cuts[last]);
      CountedAlikeSums(lines, cuts[last - 1], cuts[last]);
      CountedSumSplits(lines, 0, cuts[last - 1], cuts[last]);
    }
  }

  // ----- Agreement whatever the lines cost

  /** The same transcript, with other usages on its lines. */
  function Priced(lines: seq<Line>, usage: nat -> Counters): (priced: seq<Line>)
    ensures |priced| == |lines|
  {
    seq(|lines|, i requires 0 <= i < |lines| =>
      if Main(lines[i]) then lines[i].(message := Some(lines[i].message.value.(usage := usage(i)))) else lines[i])
  }

  lemma PricedCountsAlike(lines: seq<Line>, usage: nat -> Counters, start: nat, i: nat)
    requires start <= i < |lines|
    ensures Counted(Priced(lines, usage), start, i) <==> Counted(lines, start, i)
  {
    var priced := Priced(lines, usage);
    forall k | 0 <= k < |lines| ensures Main(priced[k]) <==> Main(lines[k]) {}
    forall k, id | 0 <= k < |lines| ensures Carries(priced[k], id) <==> Carries(lines[k], id) {}
  }

  lemma PricedCutsAlike(lines: seq<Line>, usage: nat -> Counters, cuts: seq<nat>)
    requires Cuts(lines, cuts)
    ensures CleanCuts(Priced(lines, usage), cuts) <==> CleanCuts(lines, cuts)
  {
    var priced := Priced(lines, usage);
    forall j | 0 < j < |cuts|
      ensures CleanCut(priced, cuts[j - 1], cuts[j]) <==> CleanCut(lines, cuts[j - 1], cuts[j])
    {
      forall i | cuts[j - 1] <= i < cuts[j]
        ensures Counted(priced, cuts[j - 1], i) <==> Counted(lines, cuts[j - 1], i)
        ensures Counted(priced, 0, i) <==> Counted(lines, 0, i)
      {
        PricedCountsAlike(lines, usage, cuts[j - 1], i);
        PricedCountsAlike(lines, usage, 0, i);
      }
      CleanCutExactly(priced, cuts[j - 1], cuts[j]);
      CleanCutExactly(lines, cuts[j - 1], cuts[j]);
    }
  }

  ghost predicate AgreesAtAnyPrice(lines: seq<Line>, cuts: seq<nat>)
    requires Cuts(lines, cuts)
  {
    forall usage: nat -> Counters ::
      TokensOf(Sliced(Priced(lines, usage), cuts)) == TokensOf(SliceUsage(Priced(lines, usage), 0, cuts[|cuts| - 1]))
  }

  /** Only line `i` costs anything: one input token. */
  function OnlyAt(i: nat): nat -> Counters {
    k => if k == i then NO_USAGE.(input := Some(1)) else NO_USAGE
  }

  function Input(usage: Option<Counters>): Column {
    if usage.None? then Some(0) else usage.value.input
  }

  lemma {:induction false} PricedSum(lines: seq<Line>, i: nat, origin: nat, start: nat, end: nat)
    requires origin <= start <= end <= |lines| && i < |lines|
    ensures Input(CountedSum(Priced(lines, OnlyAt(i)), origin, start, end))
         == Some(if start <= i < end && Counted(lines, origin, i) then 1 else 0)
    decreases end
  {
    if start < end {
      PricedSum(lines, i, origin, start, end - 1);
      PricedCountsAlike(lines, OnlyAt(i), origin, end - 1);
    }
  }

  lemma PricedSlice(lines: seq<Line>, i: nat, start: nat, end: nat)
    requires start <= end <= |lines| && i < |lines|
    ensures Input(SliceUsage(Priced(lines, OnlyAt(i)), start, end))
         == Some(if start <= i < end && Counted(lines, start, i) then 1 else 0)
  {
    SliceTokens(Priced(lines, OnlyAt(i)), start, end);
    PricedSum(lines, i, start, start, end);
  }

  lemma LastSlice(lines: seq<Line>, cuts: seq<nat>)
    requires Cuts(lines, cuts) && |cuts| > 1
    ensures var last := |cuts| - 1;
            Cuts(lines, cuts[..last])
            && Input(Sliced(lines, cuts))
               == AddColumn(Input(Sliced(lines, cuts[..last])), Input(SliceUsage(lines, cuts[last - 1], cuts[last])))
  {
  }

  lemma {:induction false} PricedSliced(lines: seq<Line>, cuts: seq<nat>, i: nat, j: nat)
    requires Cuts(lines, cuts) && i < |lines|
    requires 0 < j && (j < |cuts| ==> cuts[j - 1] <= i < cuts[j]) && (j >= |cuts| ==> cuts[|cuts| - 1] <= i)
    ensures Input(Sliced(Priced(lines, OnlyAt(i)), cuts))
         == Some(if j < |cuts| && Counted(lines, cuts[j - 1], i) then 1 else 0)
    decreases |cuts|
  {
    if |cuts| > 1 {
      var last := |cuts| - 1;
      SortedCuts(lines, cuts, if j < |cuts| then j else last);
      PricedSliced(lines, cuts[..last], i, j);
      LastSlice(Priced(lines, OnlyAt(i)), cuts);
      PricedSlice(lines, i, cuts[last - 1], cuts[last]);
    }
  }

  lemma {:induction false} SortedCuts(lines: seq<Line>, cuts: seq<nat>, j: nat)
    requires Cuts(lines, cuts) && j < |cuts|
    ensures forall k :: j <= k < |cuts| ==> cuts[j] <= cuts[k]
    decreases |cuts|
  {
    if j < |cuts| - 1 {
      SortedCuts(lines, cuts[..|cuts| - 1], j);
      var last := |cuts| - 1;
      assert cuts[last - 1] <= cuts[last - 1 + 1];
      assert forall k :: j <= k < last ==> cuts[..last][k] == cuts[k];
    }
  }

  /** A transcript and its cuts give the one-pass token columns at any price if and only if every cut is clean. */
  lemma AgreementExactly(lines: seq<Line>, cuts: seq<nat>)
    requires Cuts(lines, cuts)
    ensures AgreesAtAnyPrice(lines, cuts) <==> CleanCuts(lines, cuts)
  {
    if CleanCuts(lines, cuts) {
      forall usage: nat -> Counters
        ensures TokensOf(Sliced(Priced(lines, usage), cuts))
                  == TokensOf(SliceUsage(Priced(lines, usage), 0, cuts[|cuts| - 1]))
      {
        PricedCutsAlike(lines, usage, cuts);
        CleanCutsAgree(Priced(lines, usage), cuts);
      }
    } else {
      var j :| 0 < j < |cuts| && !CleanCut(lines, cuts[j - 1], cuts[j]);
      UncleanCutShows(lines, cuts, j);
    }
  }

  lemma UncleanCutShows(lines: seq<Line>, cuts: seq<nat>, j: nat)
    requires Cuts(lines, cuts) && 0 < j < |cuts| && !CleanCut(lines, cuts[j - 1], cuts[j])
    ensures !AgreesAtAnyPrice(lines, cuts)
  {
    CleanCutExactly(lines, cuts[j - 1], cuts[j]);
    var i :| cuts[j - 1] <= i < cuts[j] && (Counted(lines, cuts[j - 1], i) != Counted(lines, 0, i));
    var priced, end := Priced(lines, OnlyAt(i)), cuts[|cuts| - 1];
    SortedCuts(lines, cuts, j);
    PricedSliced(lines, cuts, i, j);
    SliceTokens(priced, 0, end);
    PricedSum(lines, i, 0, 0, end);
    assert Input(TokensOf(Sliced(priced, cuts))) != Input(TokensOf(SliceUsage(priced, 0, end)));
  }

  // ----- Contiguous transcripts

  /** The main line just before position `i`, if any. */
  function MainBefore(lines: seq<Line>, i: nat): (k: Option<nat>)
    requires i <= |lines|
    ensures k.Some? ==> k.value < i && Main(lines[k.value]) && forall l :: k.value < l < i ==> !Main(lines[l])
    ensures k.None? ==> forall l :: 0 <= l < i ==> !Main(lines[l])
  {
    if i == 0 then None else if Main(lines[i - 1]) then Some(i - 1) else MainBefore(lines, i - 1)
  }

  /** The blocks of each message follow one another on the main lines, numbered from 0. */
  predicate Contiguous(lines: seq<Line>) {
    forall i :: 0 <= i < |lines| && Main(lines[i]) && lines[i].message.value.id.Some? ==> BlockInPlace(lines, i)
  }

  predicate BlockInPlace(lines: seq<Line>, i: nat)
    requires i < |lines| && Main(lines[i]) && lines[i].message.value.id.Some?
  {
    var id := lines[i].message.value.id.value;
    lines[i].blockIndex.Some? &&
    if lines[i].blockIndex.value == 0 then forall k :: 0 <= k < i ==> !Carries(lines[k], id)
    else
      var before := MainBefore(lines, i);
      && before.Some? && Carries(lines[before.value], id)
      && lines[before.value].blockIndex == Some(lines[i].blockIndex.value - 1)
  }

  /** What should be counted: each response once, on the line that opens it. */
  function Opened(lines: seq<Line>, start: nat, end: nat): Option<Counters>
    requires start <= end <= |lines|
    decreases end
  {
    if start == end then None
    else
      var before := Opened(lines, start, end - 1);
      if Opens(lines[end - 1]) then Some(AddTokens(before, lines[end - 1].message.value.usage)) else before
  }

  /** In a contiguous transcript a pass counts a line exactly when the line opens a response. */
  lemma ContiguousCounts(lines: seq<Line>, start: nat, i: nat)
    requires Contiguous(lines) && start <= i < |lines|
    ensures Counted(lines, start, i) <==> Opens(lines[i])
  {
    if Main(lines[i]) && lines[i].message.value.id.Some? {
      assert BlockInPlace(lines, i);
    }
  }

  /** Wherever a slice starts, it counts exactly the responses opened in it. */
  lemma {:induction false} SliceCountsOpened(lines: seq<Line>, start: nat, end: nat)
    requires Contiguous(lines) && start <= end <= |lines|
    ensures CollectAll(lines, start, end).counters == Opened(lines, start, end)
    decreases end
  {
    SliceCounts(lines, start, end);
    if start < end {
      SliceCountsOpened(lines, start, end - 1);
      SliceCounts(lines, start, end - 1);
      ContiguousCounts(lines, start, end - 1);
    }
  }

  lemma AddTokensAssociates(before: Option<Counters>, since: Option<Counters>, usage: Counters)
    ensures AddTokens(Accumulate(before, since), usage) == Accumulate(before, Some(AddTokens(since, usage))).value
         || (before.None? && AddTokens(Accumulate(before, since), usage) == AddTokens(since, usage))
  {
  }

  datatype TokenColumn = InputTokens | OutputTokens | CacheReadTokens | CacheWriteTokens

  function Get(counters: Counters, column: TokenColumn): Column {
    match column
    case InputTokens => counters.input
    case OutputTokens => counters.output
    case CacheReadTokens => counters.cacheRead
    case CacheWriteTokens => counters.cacheWrite
  }

  /** The sum of one column over the lines that open a response; unknown as soon as one of them is. */
  function ColumnSum(lines: seq<Line>, start: nat, end: nat, column: TokenColumn): Column
    requires start <= end <= |lines|
    decreases end
  {
    if start == end then Some(0)
    else if !Opens(lines[end - 1]) then ColumnSum(lines, start, end - 1, column)
    else
      var before, here := ColumnSum(lines, start, end - 1, column), Get(lines[end - 1].message.value.usage, column);
      if before.Some? && here.Some? then Some(before.value + here.value) else None
  }

  /** Each column is added up on its own, and nothing is reported when no response opens. */
  lemma {:induction false} OpenedIsColumnSums(lines: seq<Line>, start: nat, end: nat, column: TokenColumn)
    requires start <= end <= |lines|
    ensures Opened(lines, start, end).None? <==> forall k :: start <= k < end ==> !Opens(lines[k])
    ensures Opened(lines, start, end).Some? ==>
              Get(Opened(lines, start, end).value, column) == ColumnSum(lines, start, end, column)
    ensures Opened(lines, start, end).None? ==> ColumnSum(lines, start, end, column) == Some(0)
    decreases end
  {
    if start < end { OpenedIsColumnSums(lines, start, end - 1, column); }
  }

  predicate Cuts(lines: seq<Line>, cuts: seq<nat>) {
    && cuts != [] && cuts[0] == 0
    && (forall i :: 0 <= i < |cuts| - 1 ==> cuts[i] <= cuts[i + 1])
    && (forall i :: 0 <= i < |cuts| ==> cuts[i] <= |lines|)
  }

  /** The total after the slices between successive cuts have been added up. */
  function Sliced(lines: seq<Line>, cuts: seq<nat>): Option<Counters>
    requires Cuts(lines, cuts)
  {
    if |cuts| == 1 then None
    else
      var last := |cuts| - 1;
      Accumulate(Sliced(lines, cuts[..last]), SliceUsage(lines, cuts[last - 1], cuts[last]))
  }

  function TokensOf(usage: Option<Counters>): Option<Counters> {
    if usage.None? then None else Some(usage.value.(toolCalls := Some(0)))
  }

  /** However a contiguous transcript is cut, the four token columns come out as in one pass, unknowns included. */
  lemma SlicesAgreeWithOnePass(lines: seq<Line>, cuts: seq<nat>)
    requires Contiguous(lines) && Cuts(lines, cuts)
    ensures TokensOf(Sliced(lines, cuts)) == TokensOf(SliceUsage(lines, 0, cuts[|cuts| - 1]))
    ensures TokensOf(Sliced(lines, cuts)) == Opened(lines, 0, cuts[|cuts| - 1])
  {
    forall j | 0 < j < |cuts| ensures CleanCut(lines, cuts[j - 1], cuts[j]) {
      ContiguousIsClean(lines, cuts[j - 1], cuts[j]);
    }
    CleanCutsAgree(lines, cuts);
    SliceCountsOpened(lines, 0, cuts[|cuts| - 1]);
    OpenedHasNoTools(lines, 0, cuts[|cuts| - 1]);
  }

  lemma ContiguousIsClean(lines: seq<Line>, start: nat, end: nat)
    requires Contiguous(lines) && start <= end <= |lines|
    ensures CleanCut(lines, start, end)
  {
    forall i | start <= i < end ensures Counted(lines, start, i) <==> Counted(lines, 0, i) {
      ContiguousCounts(lines, start, i);
      ContiguousCounts(lines, 0, i);
    }
    CleanCutExactly(lines, start, end);
  }

  /** So each accumulated column is the sum over the responses of the transcript, each counted once. */
  lemma SlicedColumns(lines: seq<Line>, cuts: seq<nat>, column: TokenColumn)
    requires Contiguous(lines) && Cuts(lines, cuts)
    ensures var end := cuts[|cuts| - 1];
            && (Sliced(lines, cuts).Some? <==> exists k :: 0 <= k < end && Opens(lines[k]))
            && (Sliced(lines, cuts).Some? ==>
                    Get(Sliced(lines, cuts).value, column) == ColumnSum(lines, 0, end, column))
  {
    SlicesAgreeWithOnePass(lines, cuts);
    OpenedIsColumnSums(lines, 0, cuts[|cuts| - 1], column);
  }

  lemma {:induction false} OpenedHasNoTools(lines: seq<Line>, start: nat, end: nat)
    requires start <= end <= |lines|
    ensures TokensOf(Opened(lines, start, end)) == Opened(lines, start, end)
    decreases end
  {
    if start < end { OpenedHasNoTools(lines, start, end - 1); }
  }

  /**
    A cut that is not clean: with an error line without an id between two blocks, and the cut
    before it, the message is counted twice.
   */
  lemma InterruptedMessageCountsTwice(id: string, tokens: Counters)
    requires tokens.input == Some(1)
    ensures var block := Some(Message(Some(id), tokens));
            var lines := [Assistant(false, block, Some(0), 0), Assistant(false, Some(Message(None, tokens)), None, 0),
                          Assistant(false, block, Some(1), 0)];
            && !Contiguous(lines) && !CleanCut(lines, 1, 3)
            && SliceUsage(lines, 0, 3).Some? && SliceUsage(lines, 0, 3).value.input == Some(1)
            && Sliced(lines, [0, 1, 3]).Some? && Sliced(lines, [0, 1, 3]).value.input == Some(2)
  {
    var block := Some(Message(Some(id), tokens));
    var lines := [Assistant(false, block, Some(0), 0), Assistant(false, Some(Message(None, tokens)), None, 0),
                  Assistant(false, block, Some(1), 0)];
    var cuts := [0, 1, 3];
    assert cuts[..2] == [0, 1] && cuts[..2][..1] == [0];
    assert MainBefore(lines, 2) == Some(1) && !BlockInPlace(lines, 2);
    var s1 := CollectAll(lines, 0, 1);
    assert s1 == Collect(FRESH_STATE, lines[0], false);
    assert CollectAll(lines, 0, 2) == Collect(s1, lines[1], false);
    assert CollectAll(lines, 0, 3) == Collect(CollectAll(lines, 0, 2), lines[2], false);
    assert CollectAll(lines, 1, 2) == Collect(FRESH_STATE, lines[1], true);
    assert CollectAll(lines, 1, 3) == Collect(CollectAll(lines, 1, 2), lines[2], true);
    assert SliceUsage(lines, 0, 1).value.input == SliceUsage(lines, 1, 3).value.input == Some(1);
    assert Sliced(lines, cuts[..2]) == Accumulate(Sliced(lines, cuts[..2][..1]), SliceUsage(lines, 0, 1));
    assert Sliced(lines, cuts) == Accumulate(Sliced(lines, cuts[..2]), SliceUsage(lines, 1, 3));
  }

  // ----- The tool column does depend on the cuts

  predicate NothingCounted(lines: seq<Line>, start: nat, end: nat)
    requires start <= end <= |lines|
  {
    forall k :: start <= k < end ==> !Counted(lines, start, k)
  }

  /** A slice that counts no line, but yields tool entries. */
  predicate LosesTools(lines: seq<Line>, start: nat, end: nat)
    requires start <= end <= |lines|
  {
    NothingCounted(lines, start, end) && Tools(lines, start, end) > 0
  }

  /** The tool entries of such slices. */
  function Dropped(lines: seq<Line>, cuts: seq<nat>): nat
    requires Cuts(lines, cuts)
  {
    if |cuts| == 1 then 0
    else
      var last := |cuts| - 1;
      Dropped(lines, cuts[..last])
      + if NothingCounted(lines, cuts[last - 1], cuts[last]) then Tools(lines, cuts[last - 1], cuts[last]) else 0
  }

  lemma {:induction false} DroppedExactly(lines: seq<Line>, cuts: seq<nat>)
    requires Cuts(lines, cuts)
    ensures Dropped(lines, cuts) == 0 <==> forall j :: 0 < j < |cuts| ==> !LosesTools(lines, cuts[j - 1], cuts[j])
    decreases |cuts|
  {
    if |cuts| > 1 {
      var last := |cuts| - 1;
      var front := cuts[..last];
      DroppedExactly(lines, front);
      forall j | 0 < j < last
        ensures LosesTools(lines, cuts[j - 1], cuts[j]) <==> LosesTools(lines, front[j - 1], front[j])
      {}
    }
  }

  lemma {:induction false} NoneCounted(lines: seq<Line>, start: nat, end: nat)
    requires start <= end <= |lines|
    ensures CountedSum(lines, start, start, end).None? <==> NothingCounted(lines, start, end)
    decreases end
  {
    if start < end { NoneCounted(lines, start, end - 1); }
  }

  lemma SilentSlice(lines: seq<Line>, start: nat, end: nat)
    requires start <= end <= |lines|
    ensures SliceUsage(lines, start, end).None? <==> NothingCounted(lines, start, end)
  {
    SliceCounts(lines, start, end);
    NoneCounted(lines, start, end);
  }

  lemma {:induction false} ToolsSplit(lines: seq<Line>, start: nat, mid: nat, end: nat)
    requires start <= mid <= end <= |lines|
    ensures Tools(lines, start, end) == Tools(lines, start, mid) + Tools(lines, mid, end)
    decreases end
  {
    if mid < end { ToolsSplit(lines, start, mid, end - 1); }
  }

  lemma {:induction false} SlicedTools(lines: seq<Line>, cuts: seq<nat>)
    requires Cuts(lines, cuts)
    ensures Sliced(lines, cuts).Some? ==>
              Sliced(lines, cuts).value.toolCalls == Some(Tools(lines, 0, cuts[|cuts| - 1]) - Dropped(lines, cuts))
    ensures Sliced(lines, cuts).None? ==> Dropped(lines, cuts) == Tools(lines, 0, cuts[|cuts| - 1])
    ensures Dropped(lines, cuts) <= Tools(lines, 0, cuts[|cuts| - 1])
    decreases |cuts|
  {
    if |cuts| > 1 {
      var last := |cuts| - 1;
      SlicedTools(lines, cuts[..last]);
      SilentSlice(lines, cuts[last - 1], cuts[last]);
      ToolsSplit(lines, 0, cuts[last - 1], cuts[last]);
    }
  }

  /** Every slice that counts no line yields no tool entry either. */
  predicate NoToolsLost(lines: seq<Line>, cuts: seq<nat>)
    requires Cuts(lines, cuts)
  {
    forall j :: 0 < j < |cuts| ==> !LosesTools(lines, cuts[j - 1], cuts[j])
  }

  /** With clean cuts the whole record agrees with one pass exactly when no line counts at all, or no tools are lost. */
  lemma ToolCallsAgree(lines: seq<Line>, cuts: seq<nat>)
    requires Cuts(lines, cuts) && CleanCuts(lines, cuts)
    ensures Sliced(lines, cuts) == SliceUsage(lines, 0, cuts[|cuts| - 1]) <==>
              NothingCounted(lines, 0, cuts[|cuts| - 1]) || NoToolsLost(lines, cuts)
  {
    SlicedTools(lines, cuts);
    CleanCutsAgree(lines, cuts);
    SilentSlice(lines, 0, cuts[|cuts| - 1]);
    DroppedExactly(lines, cuts);
  }

  ghost predicate AgreesWhollyAtAnyPrice(lines: seq<Line>, cuts: seq<nat>)
    requires Cuts(lines, cuts)
  {
    forall usage: nat -> Counters ::
      Sliced(Priced(lines, usage), cuts) == SliceUsage(Priced(lines, usage), 0, cuts[|cuts| - 1])
  }

  /**
    For any transcript, the whole record agrees with one pass at any price if and only if every
    cut is clean, and no line counts at all or no slice that counts none had a tool entry.
   */
  lemma ToolCallsAgreeExactly(lines: seq<Line>, cuts: seq<nat>)
    requires Cuts(lines, cuts)
    ensures AgreesWhollyAtAnyPrice(lines, cuts) <==>
              CleanCuts(lines, cuts) && (NothingCounted(lines, 0, cuts[|cuts| - 1]) || NoToolsLost(lines, cuts))
  {
    AgreementExactly(lines, cuts);
    if CleanCuts(lines, cuts) {
      forall usage: nat -> Counters
        ensures Sliced(Priced(lines, usage), cuts) == SliceUsage(Priced(lines, usage), 0, cuts[|cuts| - 1]) <==>
                  NothingCounted(lines, 0, cuts[|cuts| - 1]) || NoToolsLost(lines, cuts)
      {
        PricedCutsAlike(lines, usage, cuts);
        PricedToolsAlike(lines, usage, cuts);
        ToolCallsAgree(Priced(lines, usage), cuts);
      }
      assert Sliced(Priced(lines, OnlyAt(0)), cuts) == SliceUsage(Priced(lines, OnlyAt(0)), 0, cuts[|cuts| - 1]) <==>
             NothingCounted(lines, 0, cuts[|cuts| - 1]) || NoToolsLost(lines, cuts);
    } else {
      assert AgreesWhollyAtAnyPrice(lines, cuts) ==> AgreesAtAnyPrice(lines, cuts);
    }
  }

  lemma {:induction false} PricedTools(lines: seq<Line>, usage: nat -> Counters, start: nat, end: nat)
    requires start <= end <= |lines|
    ensures Tools(Priced(lines, usage), start, end) == Tools(lines, start, end)
    decreases end
  {
    if start < end { PricedTools(lines, usage, start, end - 1); }
  }

  lemma PricedSliceAlike(lines: seq<Line>, usage: nat -> Counters, start: nat, end: nat)
    requires start <= end <= |lines|
    ensures NothingCounted(Priced(lines, usage), start, end) <==> NothingCounted(lines, start, end)
    ensures LosesTools(Priced(lines, usage), start, end) <==> LosesTools(lines, start, end)
  {
    PricedTools(lines, usage, start, end);
    forall k | start <= k < end ensures Counted(Priced(lines, usage), start, k) <==> Counted(lines, start, k) {
      PricedCountsAlike(lines, usage, start, k);
    }
  }

  lemma PricedToolsAlike(lines: seq<Line>, usage: nat -> Counters, cuts: seq<nat>)
    requires Cuts(lines, cuts)
    ensures NothingCounted(Priced(lines, usage), 0, cuts[|cuts| - 1]) <==> NothingCounted(lines, 0, cuts[|cuts| - 1])
    ensures NoToolsLost(Priced(lines, usage), cuts) <==> NoToolsLost(lines, cuts)
  {
    PricedSliceAlike(lines, usage, 0, cuts[|cuts| - 1]);
    forall j | 0 < j < |cuts|
      ensures LosesTools(Priced(lines, usage), cuts[j - 1], cuts[j]) <==> LosesTools(lines, cuts[j - 1], cuts[j])
    {
      PricedSliceAlike(lines, usage, cuts[j - 1], cuts[j]);
    }
  }

  predicate NothingOpens(lines: seq<Line>, start: nat, end: nat)
    requires start <= end <= |lines|
  {
    forall k :: start <= k < end ==> !Opens(lines[k])
  }

  lemma NothingOpensExactly(lines: seq<Line>, start: nat, end: nat)
    requires Contiguous(lines) && start <= end <= |lines|
    ensures NothingCounted(lines, start, end) <==> NothingOpens(lines, start, end)
  {
    forall k | start <= k < end ensures Counted(lines, start, k) <==> Opens(lines[k]) {
      ContiguousCounts(lines, start, k);
    }
  }

  /** In a contiguous transcript the lines that count are those that open a response. */
  lemma ToolCallsOfContiguous(lines: seq<Line>, cuts: seq<nat>)
    requires Contiguous(lines) && Cuts(lines, cuts)
    ensures Sliced(lines, cuts) == SliceUsage(lines, 0, cuts[|cuts| - 1]) <==>
              || NothingOpens(lines, 0, cuts[|cuts| - 1])
              || forall j :: 0 < j < |cuts| && NothingOpens(lines, cuts[j - 1], cuts[j]) ==>
                   Tools(lines, cuts[j - 1], cuts[j]) == 0
  {
    forall j | 0 < j < |cuts|
      ensures CleanCut(lines, cuts[j - 1], cuts[j])
      ensures NothingCounted(lines, cuts[j - 1], cuts[j]) <==> NothingOpens(lines, cuts[j - 1], cuts[j])
    {
      ContiguousIsClean(lines, cuts[j - 1], cuts[j]);
      NothingOpensExactly(lines, cuts[j - 1], cuts[j]);
    }
    NothingOpensExactly(lines, 0, cuts[|cuts| - 1]);
    ToolCallsAgree(lines, cuts);
  }

  /** A message cut before its tool block loses the tool call. */
  lemma ToolCallLost(usage: Counters)
    ensures var message := Some(Message(Some("m"), usage));
            var lines := [Assistant(false, message, Some(0), 0), Assistant(false, message, Some(1), 1)];
            Contiguous(lines) && Sliced(lines, [0, 1, 2]) != SliceUsage(lines, 0, 2)
  {
    var message := Some(Message(Some("m"), usage));
    var lines := [Assistant(false, message, Some(0), 0), Assistant(false, message, Some(1), 1)];
    var cuts := [0, 1, 2];
    assert cuts[..2] == [0, 1] && cuts[..2][..1] == [0];
    assert MainBefore(lines, 1) == Some(0);
    assert BlockInPlace(lines, 0) && BlockInPlace(lines, 1);
    SliceCountsOpened(lines, 0, 1);
    SliceCountsOpened(lines, 1, 2);
    assert Opened(lines, 1, 1) == None;
    assert SliceUsage(lines, 0, 1).Some? && SliceUsage(lines, 1, 2).None?;
    assert Tools(lines, 1, 2) == 1;
    ToolCallsOfContiguous(lines, cuts);
  }

  // ----- What is not the main conversation

  /** A line that is no assistant line, belongs to a sidechain or has no message: only its tool entries matter. */
  predicate Aside(line: Line) {
    line.Other? || line.sidechain || line.message == None
  }

  /** Two transcripts that differ in nothing but what lines aside say, tool entries excepted. */
  predicate SameMain(lines: seq<Line>, others: seq<Line>) {
    && |lines| == |others|
    && forall i :: 0 <= i < |lines| ==>
         lines[i] == others[i] || (Aside(lines[i]) && Aside(others[i]) && lines[i].tools == others[i].tools)
  }

  lemma {:induction false} SameMainSameState(lines: seq<Line>, others: seq<Line>, start: nat, end: nat)
    requires SameMain(lines, others) && start <= end <= |lines|
    ensures CollectAll(others, start, end) == CollectAll(lines, start, end)
    ensures Tools(others, start, end) == Tools(lines, start, end)
    decreases end
  {
    if start < end { SameMainSameState(lines, others, start, end - 1); }
  }

  /** Whatever a sidechain says about tokens, however the transcript is cut, the record does not change. */
  lemma {:induction false} SidechainsAreIgnored(lines: seq<Line>, others: seq<Line>, cuts: seq<nat>)
    requires SameMain(lines, others) && Cuts(lines, cuts)
    ensures Sliced(others, cuts) == Sliced(lines, cuts)
    decreases |cuts|
  {
    if |cuts| > 1 {
      var last := |cuts| - 1;
      SidechainsAreIgnored(lines, others, cuts[..last]);
      SameMainSameState(lines, others, cuts[last - 1], cuts[last]);
    }
  }

  // ----- Budgets

  datatype Budget = Budget(tokens: Option<nat>, toolCalls: Option<nat>)
  datatype BudgetStatus = WithinBudget | Exceeded | UnknownBudget

  function TotalTokens(usage: Option<Counters>): Column {
    if usage.None? then None
    else AddColumn(AddColumn(AddColumn(usage.value.input, usage.value.output), usage.value.cacheRead),
                   usage.value.cacheWrite)
  }

  function EvaluateBudget(budget: Option<Budget>, usage: Option<Counters>): BudgetStatus {
    if budget.None? then WithinBudget
    else
      var tokens := TotalTokens(usage);
      var tools := if usage.Some? then usage.value.toolCalls else None;
      if budget.value.tokens.Some? && tokens.Some? && tokens.value > budget.value.tokens.value then Exceeded
      else if budget.value.toolCalls.Some? && tools.Some? && tools.value > budget.value.toolCalls.value then Exceeded
      else if (budget.value.tokens.Some? && tokens.None?)
          || (budget.value.toolCalls.Some? && tools.None?) then UnknownBudget
      else WithinBudget
  }

  function AccumulateAll(deltas: seq<Option<Counters>>): Option<Counters> {
    if deltas == [] then None
    else Accumulate(AccumulateAll(deltas[..|deltas| - 1]), deltas[|deltas| - 1])
  }

  /** The slices between successive cuts. */
  function SlicesOf(lines: seq<Line>, cuts: seq<nat>): seq<Option<Counters>>
    requires Cuts(lines, cuts)
  {
    seq(|cuts| - 1, i requires 0 <= i < |cuts| - 1 => SliceUsage(lines, cuts[i], cuts[i + 1]))
  }

  /** What a budget is judged by is the total of the slices. */
  lemma {:induction false} SlicesAccumulate(lines: seq<Line>, cuts: seq<nat>)
    requires Cuts(lines, cuts)
    ensures AccumulateAll(SlicesOf(lines, cuts)) == Sliced(lines, cuts)
    decreases |cuts|
  {
    if |cuts| > 1 {
      var last := |cuts| - 1;
      SlicesAccumulate(lines, cuts[..last]);
      assert SlicesOf(lines, cuts)[..last - 1] == SlicesOf(lines, cuts[..last]);
    }
  }

  /** All four token columns are known. */
  predicate TokensKnown(usage: Option<Counters>) {
    && usage.Some? && usage.value.input.Some? && usage.value.output.Some?
    && usage.value.cacheRead.Some? && usage.value.cacheWrite.Some?
  }

  function TokenSum(usage: Option<Counters>): nat
    requires TokensKnown(usage)
  {
    usage.value.input.value + usage.value.output.value + usage.value.cacheRead.value + usage.value.cacheWrite.value
  }

  predicate ToolsKnown(usage: Option<Counters>) {
    usage.Some? && usage.value.toolCalls.Some?
  }

  /** A figure that is known is above a ceiling that is set. */
  predicate AboveACeiling(budget: Budget, usage: Option<Counters>) {
    || (budget.tokens.Some? && TokensKnown(usage) && TokenSum(usage) > budget.tokens.value)
    || (budget.toolCalls.Some? && ToolsKnown(usage) && usage.value.toolCalls.value > budget.toolCalls.value)
  }

  /** Every ceiling that is set has a known figure, and none is above its ceiling. */
  predicate UnderEveryCeiling(budget: Budget, usage: Option<Counters>) {
    && (budget.tokens.Some? ==> TokensKnown(usage) && TokenSum(usage) <= budget.tokens.value)
    && (budget.toolCalls.Some? ==> ToolsKnown(usage) && usage.value.toolCalls.value <= budget.toolCalls.value)
  }

  /** The status over the five columns: unknown is what is neither above a ceiling nor under all of them. */
  lemma StatusExactly(budget: Budget, usage: Option<Counters>)
    ensures EvaluateBudget(Some(budget), usage) == Exceeded <==> AboveACeiling(budget, usage)
    ensures EvaluateBudget(Some(budget), usage) == WithinBudget <==> UnderEveryCeiling(budget, usage)
    ensures EvaluateBudget(None, usage) == WithinBudget
  {
  }

  /** A column never falls below an earlier figure that was known, and never forgets that it is unknown. */
  predicate NotLess(before: Column, after: Column) {
    after.Some? ==> before.Some? && before.value <= after.value
  }

  predicate NoColumnLess(before: Option<Counters>, after: Option<Counters>) {
    before.Some? ==>
      && after.Some?
      && NotLess(before.value.input, after.value.input) && NotLess(before.value.output, after.value.output)
      && NotLess(before.value.cacheRead, after.value.cacheRead)
      && NotLess(before.value.cacheWrite, after.value.cacheWrite)
      && NotLess(before.value.toolCalls, after.value.toolCalls)
  }

  lemma {:induction false} NoColumnFalls(deltas: seq<Option<Counters>>, n: nat)
    requires n <= |deltas|
    ensures NoColumnLess(AccumulateAll(deltas[..n]), AccumulateAll(deltas))
    decreases |deltas|
  {
    if n == |deltas| {
      assert deltas[..n] == deltas;
    } else {
      var shorter := deltas[..|deltas| - 1];
      NoColumnFalls(shorter, n);
      assert shorter[..n] == deltas[..n];
    }
  }

  /**
    Once measured usage was not under every ceiling, no later slice makes it so: neither an
    unknown column nor a figure above its ceiling is ever rounded away.
   */
  lemma NeverFalselyWithin(budget: Budget, deltas: seq<Option<Counters>>, n: nat)
    requires n <= |deltas| && AccumulateAll(deltas[..n]).Some?
    requires !UnderEveryCeiling(budget, AccumulateAll(deltas[..n]))
    ensures EvaluateBudget(Some(budget), AccumulateAll(deltas)) != WithinBudget
  {
    NoColumnFalls(deltas, n);
    StatusExactly(budget, AccumulateAll(deltas));
  }

  /** A budget once exceeded stays exceeded for as long as every column is known. */
  lemma ExceededForGood(budget: Budget, deltas: seq<Option<Counters>>, n: nat)
    requires n <= |deltas| && AboveACeiling(budget, AccumulateAll(deltas[..n]))
    requires TokensKnown(AccumulateAll(deltas)) && ToolsKnown(AccumulateAll(deltas))
    ensures EvaluateBudget(Some(budget), AccumulateAll(deltas)) == Exceeded
  {
    NoColumnFalls(deltas, n);
    StatusExactly(budget, AccumulateAll(deltas));
  }
}
