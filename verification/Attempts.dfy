/**
  Collections that do not end (src/execution/evidence.ts). The cursor of the transcript is
  stored while evidence is gathered and `evidence.json` only at the end, so a collection that
  throws in between keeps no item of what it read and ran.
 */
module Attempts {
  import opened Wrappers
  import opened Lists
  import opened Evidence

  /**
    A call of the collector: what it finds, the entries the transcript holds by then, and after
    how many verify requirements it throws, if it does. The entries of `world.history` stand for
    whatever lies past the cursor.
   */
  datatype Attempt = Attempt(world: World, transcript: seq<Entry>, throwsAfter: Option<nat>)

  /** `evidence.json`, and the cursor, counted in entries. */
  datatype Files = Files(record: Option<Record>, cursor: nat)

  function Past(transcript: seq<Entry>, cursor: nat): seq<Entry> {
    if cursor <= |transcript| then transcript[cursor..] else []
  }

  /** The bridge hands back only what lies past the cursor. */
  function Found(files: Files, attempt: Attempt): World {
    var world := attempt.world;
    if world.history.Read? then
      world.(history := Read(Past(attempt.transcript, files.cursor), world.history.complete))
    else world
  }

  predicate Reads(files: Files, attempt: Attempt) {
    !FullyAnswered(files.record) && AsksHistory(files.record) && attempt.world.history.Read?
  }

  function Next(files: Files, required: seq<Requirement>, attempt: Attempt): Files {
    Files(
      if attempt.throwsAfter.Some? then files.record
      else Some(Collected(files.record, required, Found(files, attempt))),
      if Reads(files, attempt) then |attempt.transcript| else files.cursor)
  }

  /** The verify runs that finish during the attempt. */
  function RunsIn(files: Files, required: seq<Requirement>, attempt: Attempt): seq<string> {
    var handled :=
      if attempt.throwsAfter.Some? && attempt.throwsAfter.value < |required| then required[..attempt.throwsAfter.value]
      else required;
    FinishedRuns(files.record, handled, Found(files, attempt))
  }

  /** Requirement `i` comes before the point where the attempt throws, if it does. */
  predicate Handled(attempt: Attempt, i: nat) {
    attempt.throwsAfter.Some? ==> i < attempt.throwsAfter.value
  }

  /** A verify run finishes during an attempt exactly when its turn comes before the throw, is asked for, and can. */
  lemma RunsInExactly(files: Files, required: seq<Requirement>, attempt: Attempt, command: string)
    ensures command in RunsIn(files, required, attempt) <==>
              && !FullyAnswered(files.record) && Refreshes(files.record, Verifier(command))
              && attempt.world.verifier(command).Finished?
              && exists i :: 0 <= i < |required| && Handled(attempt, i) && required[i] == VerifyWith(command)
  {
    var handled :=
      if attempt.throwsAfter.Some? && attempt.throwsAfter.value < |required| then required[..attempt.throwsAfter.value]
      else required;
    RunsExactly(files.record, handled, Found(files, attempt), command);
    if i :| 0 <= i < |required| && Handled(attempt, i) && required[i] == VerifyWith(command) {
      assert handled[i] == required[i];
    }
    if VerifyWith(command) in handled {
      var i :| 0 <= i < |handled| && handled[i] == VerifyWith(command);
      assert Handled(attempt, i) && required[i] == handled[i];
    }
  }

  function FilesAfter(required: seq<Requirement>, attempts: seq<Attempt>): Files {
    if attempts == [] then Files(None, 0)
    else Next(FilesAfter(required, attempts[..|attempts| - 1]), required, attempts[|attempts| - 1])
  }

  /** What the attempts that ended had found. */
  function Completed(required: seq<Requirement>, attempts: seq<Attempt>): seq<World> {
    if attempts == [] then []
    else
      var front, last := attempts[..|attempts| - 1], attempts[|attempts| - 1];
      Completed(required, front) + if last.throwsAfter.Some? then [] else [Found(FilesAfter(required, front), last)]
  }

  /** The record is that of the attempts that ended: all that is proved of it holds with others in between. */
  lemma {:induction false} ThrownLeaveNoTrace(required: seq<Requirement>, attempts: seq<Attempt>)
    ensures FilesAfter(required, attempts).record == RecordAfter(required, Completed(required, attempts))
    decreases |attempts|
  {
    if attempts != [] {
      var front, last := attempts[..|attempts| - 1], attempts[|attempts| - 1];
      ThrownLeaveNoTrace(required, front);
      if last.throwsAfter.None? {
        var worlds := Completed(required, attempts);
        assert worlds[..|worlds| - 1] == Completed(required, front);
      } else {
        assert Completed(required, attempts) == Completed(required, front);
      }
    }
  }

  // ----- Verify runs

  predicate Stands(record: Option<Record>, command: string) {
    record.Some? && !Refreshes(record, Verifier(command))
  }

  lemma StandsOneMore(files: Files, required: seq<Requirement>, attempt: Attempt, command: string)
    requires Distinct(required) && VerifyWith(command) in required && Stands(files.record, command)
    ensures Stands(Next(files, required, attempt).record, command)
  {
    AnsweredPersists(files.record, required, Found(files, attempt), Verifier(command));
  }

  lemma OneMore(required: seq<Requirement>, attempts: seq<Attempt>, n: nat)
    requires n < |attempts|
    ensures FilesAfter(required, attempts[..n + 1]) == Next(FilesAfter(required, attempts[..n]), required, attempts[n])
  {
    assert attempts[..n + 1][..n] == attempts[..n];
  }

  lemma {:induction false} StandsFromThenOn(
    required: seq<Requirement>, attempts: seq<Attempt>, n: nat, k: nat, command: string)
    requires Distinct(required) && n <= k <= |attempts| && VerifyWith(command) in required
    requires Stands(FilesAfter(required, attempts[..n]).record, command)
    ensures Stands(FilesAfter(required, attempts[..k]).record, command)
    decreases k
  {
    if n < k {
      StandsFromThenOn(required, attempts, n, k - 1, command);
      StandsOneMore(FilesAfter(required, attempts[..k - 1]), required, attempts[k - 1], command);
      OneMore(required, attempts, k - 1);
    }
  }

  lemma RunIsRequired(files: Files, required: seq<Requirement>, attempt: Attempt, command: string)
    requires Distinct(required) && command in RunsIn(files, required, attempt)
    ensures VerifyWith(command) in required && Refreshes(files.record, Verifier(command))
    ensures !FullyAnswered(files.record) && attempt.world.verifier(command).Finished?
  {
    RunsAreRefreshed(files.record, required, Found(files, attempt));
    if attempt.throwsAfter.Some? && attempt.throwsAfter.value < |required| {
      RunsAreRefreshed(files.record, required[..attempt.throwsAfter.value], Found(files, attempt));
    }
  }

  /** A verify run that finished is repeated only if the attempt it finished in threw. */
  lemma RepeatedOnlyAfterThrow(required: seq<Requirement>, attempts: seq<Attempt>, i: nat, k: nat, command: string)
    requires Distinct(required) && i < k < |attempts|
    requires command in RunsIn(FilesAfter(required, attempts[..i]), required, attempts[i])
    requires command in RunsIn(FilesAfter(required, attempts[..k]), required, attempts[k])
    ensures attempts[i].throwsAfter.Some?
  {
    var before := FilesAfter(required, attempts[..i]);
    RunIsRequired(before, required, attempts[i], command);
    RunIsRequired(FilesAfter(required, attempts[..k]), required, attempts[k], command);
    if attempts[i].throwsAfter.None? {
      OneMore(required, attempts, i);
      FinishedRunStands(before.record, required, Found(before, attempts[i]), command);
      StandsFromThenOn(required, attempts, i + 1, k, command);
    }
  }

  lemma {:induction false} RunsReach(existing: Option<Record>, required: seq<Requirement>, world: World,
                                     command: string)
    requires VerifyWith(command) in required && Refreshes(existing, Verifier(command))
    requires world.verifier(command).Finished?
    ensures command in RunsOf(existing, required, world)
    decreases |required|
  {
    var front, last := required[..|required| - 1], required[|required| - 1];
    if last != VerifyWith(command) {
      assert VerifyWith(command) in front;
      RunsReach(existing, front, world, command);
    }
  }

  /** And then it always is: the next attempt that ends runs the command again. */
  lemma ThrownRunIsRepeated(
    files: Files, required: seq<Requirement>, thrown: Attempt, again: Attempt, command: string)
    requires Distinct(required) && thrown.throwsAfter.Some? && command in RunsIn(files, required, thrown)
    requires again.throwsAfter.None? && again.world.verifier(command).Finished?
    ensures command in RunsIn(Next(files, required, thrown), required, again)
  {
    RunIsRequired(files, required, thrown, command);
    RunsReach(files.record, required, Found(Next(files, required, thrown), again), command);
  }

  // ----- Entries

  /** The transcript entries that history items show. */
  function EntriesIn(items: seq<Item>): seq<Entry> {
    if items == [] then []
    else
      (match items[0]
       case ToolCall(_) => [ToolEntry]
       case HistoryChange(_, paths) => [ChangeEntry(paths)]
       case _ => [])
      + EntriesIn(items[1..])
  }

  function EntriesOfRecord(record: Option<Record>): seq<Entry> {
    EntriesIn(Kept(record, HistoryBridge))
  }

  lemma {:induction false} EntriesComeBack(entries: seq<Entry>, provenance: Provenance, usage: seq<Item>)
    requires forall i :: 0 <= i < |usage| ==> usage[i].UsageCount?
    ensures EntriesIn(EntryItems(entries, provenance) + usage) == entries
    decreases |entries| + |usage|
  {
    var items := EntryItems(entries, provenance) + usage;
    if entries != [] {
      assert items[1..] == EntryItems(entries[1..], provenance) + usage;
      EntriesComeBack(entries[1..], provenance, usage);
    } else if usage != [] {
      assert items == usage && items[1..] == EntryItems([], provenance) + usage[1..];
      EntriesComeBack([], provenance, usage[1..]);
    }
  }

  /** Transcripts only grow. */
  predicate Growing(attempts: seq<Attempt>) {
    forall i, j :: 0 <= i <= j < |attempts| ==> attempts[i].transcript <= attempts[j].transcript
  }

  function Transcript(attempts: seq<Attempt>): seq<Entry> {
    if attempts == [] then [] else attempts[|attempts| - 1].transcript
  }

  /** How far the transcript was read by attempts that threw. */
  function Lost(required: seq<Requirement>, attempts: seq<Attempt>): nat {
    if attempts == [] then 0
    else
      var front, last := attempts[..|attempts| - 1], attempts[|attempts| - 1];
      if last.throwsAfter.Some? && Reads(FilesAfter(required, front), last) then |last.transcript|
      else Lost(required, front)
  }

  /**
    The record shows the stretch between what was lost and the cursor; once it shows anything,
    nothing more is read.
   */
  predicate ShowsStretch(files: Files, transcript: seq<Entry>, lost: nat) {
    && lost <= files.cursor <= |transcript| && EntriesOfRecord(files.record) == transcript[lost..files.cursor]
    && (lost < files.cursor ==> !AsksHistory(files.record))
  }

  lemma CompletedKeepsStretch(files: Files, required: seq<Requirement>, attempt: Attempt, lost: nat)
    requires Distinct(required) && ShowsStretch(files, attempt.transcript, lost) && attempt.throwsAfter.None?
    ensures ShowsStretch(Next(files, required, attempt), attempt.transcript, lost)
  {
    var world := Found(files, attempt);
    if !FullyAnswered(files.record) {
      if AsksHistory(files.record) {
        ReadEntriesShow(files.record, required, world);
        if EntriesOf(world.history) != [] { SettledByEntries(files.record, required, world); }
      } else {
        OfCollected(files.record, required, world, HistoryBridge);
      }
    }
  }

  lemma ReadEntriesShow(existing: Option<Record>, required: seq<Requirement>, world: World)
    requires Distinct(required) && !FullyAnswered(existing) && AsksHistory(existing)
    ensures EntriesOfRecord(Some(Collected(existing, required, world))) == EntriesOf(world.history)
  {
    var provenance := Lowered(BridgeProvenance(CompletenessOf(world.history)), world);
    OfCollected(existing, required, world, HistoryBridge);
    EntriesComeBack(EntriesOf(world.history), provenance, if world.counted then [UsageCount(provenance)] else []);
  }

  lemma SettledByEntries(existing: Option<Record>, required: seq<Requirement>, world: World)
    requires Distinct(required) && !FullyAnswered(existing) && AsksHistory(existing)
    requires world.history.Read? && world.history.entries != []
    ensures !AsksHistory(Some(Collected(existing, required, world)))
  {
    OfCollected(existing, required, world, HistoryBridge);
    var items := HistoryItems(existing, world);
    assert items[0] == EntryItems(world.history.entries, items[0].provenance)[0];
    assert forall i :: 0 <= i < |items| ==> ProvenanceOf(items[i]) != Unknown;
  }

  /** Over any sequence of attempts the record shows exactly what was read and not lost to a throw, each entry once. */
  lemma {:induction false} RecordShowsTheRest(required: seq<Requirement>, attempts: seq<Attempt>)
    requires Distinct(required) && Growing(attempts)
    ensures ShowsStretch(FilesAfter(required, attempts), Transcript(attempts), Lost(required, attempts))
    decreases |attempts|
  {
    if attempts != [] {
      var front, last := attempts[..|attempts| - 1], attempts[|attempts| - 1];
      RecordShowsTheRest(required, front);
      StretchGrows(FilesAfter(required, front), Transcript(front), last.transcript, Lost(required, front)) by {
        if front != [] { assert front[|front| - 1].transcript <= last.transcript; }
      }
      if last.throwsAfter.None? {
        CompletedKeepsStretch(FilesAfter(required, front), required, last, Lost(required, front));
      }
    }
  }

  lemma StretchGrows(files: Files, shorter: seq<Entry>, longer: seq<Entry>, lost: nat)
    requires ShowsStretch(files, shorter, lost) && shorter <= longer
    ensures ShowsStretch(files, longer, lost)
  {
    assert shorter[lost..files.cursor] == longer[lost..files.cursor];
  }

  /** Everything that was read is in the record if and only if no attempt that threw had read an entry. */
  lemma NothingLostExactly(required: seq<Requirement>, attempts: seq<Attempt>)
    requires Distinct(required) && Growing(attempts)
    ensures var files := FilesAfter(required, attempts);
            && files.cursor <= |Transcript(attempts)|
            && (EntriesOfRecord(files.record) == Transcript(attempts)[..files.cursor] <==>
                  Lost(required, attempts) == 0)
  {
    RecordShowsTheRest(required, attempts);
    var files, lost := FilesAfter(required, attempts), Lost(required, attempts);
    assert |EntriesOfRecord(files.record)| == files.cursor - lost;
  }
}
