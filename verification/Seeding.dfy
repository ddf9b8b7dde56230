/**
  How the next execution of a Thread opens (src/thread/context-types.ts, src/context/checkpoint.ts,
  src/execution/execution-service.ts): a checkpoint seeded with the lines of the snapshot, and
  the continuity text rendered from it.
 */
module Seeding {
  import opened Wrappers
  import opened Checkpoints
  import opened ThreadContext
  import CheckpointJson
  import Continuity

  // ----- The seed

  function SectionName(section: Section): string {
    match section
    case Decisions => "decisions"
    case Constraints => "constraints"
    case OpenItems => "openItems"
    case NextActions => "nextActions"
  }

  function SeedId(revision: nat, section: Section, i: nat): string {
    "thread-" + Decimal(revision) + "-" + SectionName(section) + "-" + Decimal(i + 1)
  }

  /** The pins the checkpoint of the next execution opens with. */
  function SeedPins(snapshot: Option<Snapshot>, section: Section, createdAt: string): seq<Pin> {
    if snapshot.None? then []
    else
      var lines := Lines(snapshot.value, section);
      seq(|lines|, i requires 0 <= i < |lines| =>
        Pin(SeedId(snapshot.value.revision, section, i), lines[i].text, FromExecution, createdAt))
  }

  /** What a Thread hands to its next execution. */
  datatype Handoff = Handoff(title: Option<string>, snapshot: Option<Snapshot>)

  function HandedSnapshot(handoff: Option<Handoff>): Option<Snapshot> {
    if handoff.Some? then handoff.value.snapshot else None
  }

  function OpeningObjective(handoff: Option<Handoff>, task: string): string {
    if HandedSnapshot(handoff).Some? && HandedSnapshot(handoff).value.objective.Some?
    then HandedSnapshot(handoff).value.objective.value
    else if handoff.Some? && handoff.value.title.Some? then handoff.value.title.value
    else task
  }

  /** The opening checkpoint of an execution; `digest` is taken over everything but the digest itself. */
  function Opening(executionId: string, policyHash: string, handoff: Option<Handoff>, task: string,
                   createdAt: string, digest: Checkpoint -> string): Checkpoint
  {
    var snapshot := HandedSnapshot(handoff);
    var body := Checkpoint(
      executionId, policyHash, None, createdAt, createdAt, Some(OpeningObjective(handoff, task)),
      SeedPins(snapshot, Decisions, createdAt), SeedPins(snapshot, Constraints, createdAt),
      SeedPins(snapshot, OpenItems, createdAt), SeedPins(snapshot, NextActions, createdAt), "");
    body.(sha256 := digest(body))
  }

  /** Each seed pin carries the text of its line, and is marked as a seed. */
  lemma SeedsCarryTheLines(executionId: string, policyHash: string, handoff: Option<Handoff>, task: string,
                           createdAt: string, digest: Checkpoint -> string, section: Section)
    ensures var lines := PreviousLines(HandedSnapshot(handoff), section);
            var pins := Pins(Opening(executionId, policyHash, handoff, task, createdAt, digest), section);
            && |pins| == |lines|
            && forall i :: 0 <= i < |pins| ==>
                 pins[i].text == lines[i].text && pins[i].source == FromExecution && pins[i].createdAt == createdAt
  {
  }

  /** What a reader asks of a checkpoint beyond the schema: that it is whole, and bound to its execution and policy. */
  predicate Trusted(c: Checkpoint, executionId: string, policyHash: string, digest: Checkpoint -> string) {
    digest(c.(sha256 := "")) == c.sha256 && c.executionId == executionId && c.policyHash == policyHash
  }

  /** The opening checkpoint is trusted by the execution and policy it was made for, and by no other. */
  lemma OpeningIsTrusted(executionId: string, policyHash: string, handoff: Option<Handoff>, task: string,
                         createdAt: string, digest: Checkpoint -> string, reader: string, readerPolicy: string)
    ensures var c := Opening(executionId, policyHash, handoff, task, createdAt, digest);
            Trusted(c, reader, readerPolicy, digest) <==> reader == executionId && readerPolicy == policyHash
  {
    var c := Opening(executionId, policyHash, handoff, task, createdAt, digest);
    assert c.(sha256 := "").(sha256 := digest(c.(sha256 := ""))) == c;
  }

  /** The objective of an opening is the last title the run saw, else the title of the Thread, else the task. */
  lemma OpeningObjectiveOfRun(run: seq<Settled>, size: Snapshot -> nat, maxBytes: nat, executionId: string,
                              policyHash: string, title: Option<string>, task: string, createdAt: string,
                              digest: Checkpoint -> string)
    ensures Opening(executionId, policyHash, Some(Handoff(title, After(run, size, maxBytes))), task, createdAt,
                    digest).objective
              == Some(if LastTitle(run).Some? then LastTitle(run).value else if title.Some? then title.value else task)
    ensures Opening(executionId, policyHash, None, task, createdAt, digest).objective == Some(task)
  {
    if run != [] { RunKeepsRecord(run, size, maxBytes); }
  }

  predicate TextFits(text: string) {
    text != "" && CheckpointJson.ByteLength(text) <= 4096
  }

  /** Every line of the section is small enough for a pin. */
  predicate LinesFit(snapshot: Option<Snapshot>, section: Section) {
    forall i :: 0 <= i < |PreviousLines(snapshot, section)| ==> TextFits(PreviousLines(snapshot, section)[i].text)
  }

  /** ASCII letters, digits, `_` and `-`, by their codes. */
  predicate IsWordCode(code: nat) {
    97 <= code <= 122 || 65 <= code <= 90 || 48 <= code <= 57 || code == 95 || code == 45
  }

  lemma WordExactly(c: char)
    ensures CheckpointJson.IsWord(c) <==> IsWordCode(c as int)
  {
  }

  /** The execution has a name of its own behind `exec_`. */
  predicate NamesExecution(id: string) {
    |id| > 5 && id[..5] == "exec_" && forall c :: c in id[5..] ==> IsWordCode(c as int)
  }

  predicate AllAccepted(pins: seq<Pin>) {
    forall pin :: pin in pins ==> CheckpointJson.PinAccepted(pin)
  }

  lemma AcceptedListByList(a: seq<Pin>, b: seq<Pin>, c: seq<Pin>, d: seq<Pin>)
    ensures AllAccepted(a + b + c + d) <==> AllAccepted(a) && AllAccepted(b) && AllAccepted(c) && AllAccepted(d)
  {
  }

  lemma SeedAccepted(snapshot: Option<Snapshot>, section: Section, createdAt: string)
    requires createdAt != ""
    ensures LinesFit(snapshot, section) <==> AllAccepted(SeedPins(snapshot, section, createdAt))
  {
    var pins, lines := SeedPins(snapshot, section, createdAt), PreviousLines(snapshot, section);
    forall i | 0 <= i < |lines| ensures CheckpointJson.PinAccepted(pins[i]) <==> TextFits(lines[i].text) {
      assert pins[i].id[0] == 't';
    }
    forall i | 0 <= i < |lines| ensures pins[i] in pins {}
  }

  /** A reader's schema accepts an opening exactly when its names, its lines and its size are in bounds. */
  lemma OpeningAcceptedExactly(executionId: string, policyHash: string, handoff: Option<Handoff>, task: string,
                               createdAt: string, digest: Checkpoint -> string)
    ensures var c := Opening(executionId, policyHash, handoff, task, createdAt, digest);
            var snapshot := HandedSnapshot(handoff);
            CheckpointJson.SchemaAccepts(c) <==>
              && NamesExecution(executionId) && policyHash != "" && createdAt != "" && |c.sha256| == 64
              && LinesFit(snapshot, Decisions) && LinesFit(snapshot, Constraints)
              && LinesFit(snapshot, OpenItems) && LinesFit(snapshot, NextActions)
              && CheckpointJson.ByteLength(CheckpointJson.Json(c)) <= 128 * 1024
  {
    var snapshot := HandedSnapshot(handoff);
    var c := Opening(executionId, policyHash, handoff, task, createdAt, digest);
    AcceptedListByList(c.decisions, c.constraints, c.openItems, c.nextActions);
    if createdAt != "" {
      SeedAccepted(snapshot, Decisions, createdAt);
      SeedAccepted(snapshot, Constraints, createdAt);
      SeedAccepted(snapshot, OpenItems, createdAt);
      SeedAccepted(snapshot, NextActions, createdAt);
    }
    NameExactly(executionId);
  }

  lemma NameExactly(id: string)
    ensures NamesExecution(id) <==>
              "exec_" < id && forall i :: 5 <= i < |id| ==> CheckpointJson.IsWord(id[i])
  {
    forall c ensures CheckpointJson.IsWord(c) <==> IsWordCode(c as int) { WordExactly(c); }
    if |id| > 5 {
      forall i | 5 <= i < |id| ensures id[i] in id[5..] { assert id[i] == id[5..][i - 5]; }
    }
  }

  // ----- The names of the seeds

  lemma {:induction false} DecimalHasNoDash(n: nat)
    ensures '-' !in Decimal(n)
  {
    if n >= 10 { DecimalHasNoDash(n / 10); }
    assert DIGITS[n % 10] != '-';
  }

  lemma UpToTheDash(a: string, b: string, c: string, d: string)
    requires '-' !in a && '-' !in c && a + "-" + b == c + "-" + d
    ensures a == c && b == d
  {
    var text := a + "-" + b;
    assert text[|a|] == '-' && text[|c|] == '-';
    assert forall k :: 0 <= k < |a| ==> text[k] == a[k] && a[k] in a;
    assert forall k :: 0 <= k < |c| ==> text[k] == c[k] && c[k] in c;
    assert a == text[..|a|] && c == text[..|c|] && b == text[|a| + 1..] && d == text[|c| + 1..];
  }

  lemma SectionNamesDiffer(a: Section, b: Section)
    ensures '-' !in SectionName(a) && '-' !in SectionName(b)
    ensures SectionName(a) == SectionName(b) ==> a == b
  {
    assert SectionName(a)[0] == SectionName(b)[0] <==> a == b;
  }

  /** The four names of the seeds. */
  lemma SeedIdSpelled(revision: nat, i: nat)
    ensures SeedId(revision, Decisions, i) == "thread-" + Decimal(revision) + "-decisions-" + Decimal(i + 1)
    ensures SeedId(revision, Constraints, i) == "thread-" + Decimal(revision) + "-constraints-" + Decimal(i + 1)
    ensures SeedId(revision, OpenItems, i) == "thread-" + Decimal(revision) + "-openItems-" + Decimal(i + 1)
    ensures SeedId(revision, NextActions, i) == "thread-" + Decimal(revision) + "-nextActions-" + Decimal(i + 1)
  {
    SeedIdBetween(revision, Decisions, i);
    SeedIdBetween(revision, Constraints, i);
    SeedIdBetween(revision, OpenItems, i);
    SeedIdBetween(revision, NextActions, i);
    assert "-" + "decisions" + "-" == "-decisions-" && "-" + "constraints" + "-" == "-constraints-";
    assert "-" + "openItems" + "-" == "-openItems-" && "-" + "nextActions" + "-" == "-nextActions-";
  }

  lemma SeedIdBetween(revision: nat, section: Section, i: nat)
    ensures SeedId(revision, section, i)
         == "thread-" + Decimal(revision) + ("-" + SectionName(section) + "-") + Decimal(i + 1)
  {
    Regrouped("thread-", Decimal(revision), "-", SectionName(section), "-", Decimal(i + 1));
  }

  lemma SeedIdParts(m: nat, a: Section, i: nat)
    ensures SeedId(m, a, i) == "thread-" + (Decimal(m) + "-" + (SectionName(a) + "-" + Decimal(i + 1)))
  {
    Regrouped("thread-", Decimal(m), "-", SectionName(a), "-", Decimal(i + 1));
  }

  lemma Regrouped(a: string, b: string, c: string, d: string, e: string, f: string)
    ensures a + b + c + d + e + f == a + (b + c + (d + e + f))
    ensures a + b + c + d + e + f == a + b + (c + d + e) + f
  {
  }

  lemma SamePrefix(prefix: string, a: string, b: string)
    requires prefix + a == prefix + b
    ensures a == b
  {
    assert a == (prefix + a)[|prefix|..] && b == (prefix + b)[|prefix|..];
  }

  /** A seed is named after its revision, section and place: no two seeds of any snapshots share a name. */
  lemma SeedIdsIdentify(m: nat, a: Section, i: nat, n: nat, b: Section, j: nat)
    ensures SeedId(m, a, i) == SeedId(n, b, j) <==> m == n && a == b && i == j
  {
    if SeedId(m, a, i) == SeedId(n, b, j) {
      SeedIdParts(m, a, i);
      SeedIdParts(n, b, j);
      DashedPartsAgree(Decimal(m), SectionName(a), Decimal(i + 1), Decimal(n), SectionName(b), Decimal(j + 1)) by {
        DecimalHasNoDash(m);
        DecimalHasNoDash(n);
        SectionNamesDiffer(a, b);
      }
      SectionNamesDiffer(a, b);
      DecimalInjective(m, n);
      DecimalInjective(i + 1, j + 1);
    }
  }

  lemma DashedPartsAgree(a: string, b: string, c: string, x: string, y: string, z: string)
    requires '-' !in a && '-' !in b && '-' !in x && '-' !in y
    requires "thread-" + (a + "-" + (b + "-" + c)) == "thread-" + (x + "-" + (y + "-" + z))
    ensures a == x && b == y && c == z
  {
    SamePrefix("thread-", a + "-" + (b + "-" + c), x + "-" + (y + "-" + z));
    UpToTheDash(a, b + "-" + c, x, y + "-" + z);
    UpToTheDash(b, c, y, z);
  }

  // ----- What a seed adds

  lemma Associates(a: seq<Line>, b: seq<Line>, c: seq<Line>)
    ensures a + (b + c) == (a + b) + c
  {
  }

  lemma {:induction false} PromotedSplits(a: seq<Pin>, b: seq<Pin>, execution: ExecutionId)
    ensures Promoted(a + b, execution) == Promoted(a, execution) + Promoted(b, execution)
  {
    if a == [] {
      assert a + b == b;
    } else {
      assert (a + b)[0] == a[0] && (a + b)[1..] == a[1..] + b;
      PromotedSplits(a[1..], b, execution);
      Associates(PromotedPin(a[0], execution), Promoted(a[1..], execution), Promoted(b, execution));
    }
  }

  lemma {:induction false} SeedsAreNotPromoted(pins: seq<Pin>, execution: ExecutionId)
    requires forall i :: 0 <= i < |pins| ==> pins[i].source == FromExecution
    ensures Promoted(pins, execution) == []
  {
    if pins != [] { SeedsAreNotPromoted(pins[1..], execution); }
  }

  /** Seeded pins add no line: a checkpoint that opens with the seed projects exactly like its own pins alone. */
  lemma SeedAddsNothing(snapshot: Option<Snapshot>, section: Section, createdAt: string, own: seq<Pin>,
                        execution: ExecutionId)
    ensures Promoted(SeedPins(snapshot, section, createdAt) + own, execution) == Promoted(own, execution)
  {
    PromotedSplits(SeedPins(snapshot, section, createdAt), own, execution);
    SeedsAreNotPromoted(SeedPins(snapshot, section, createdAt), execution);
  }

  /** An execution that completes with nothing but its seed hands every section on unchanged. */
  lemma SeedRoundTrip(settled: Settled, policyHash: string, handoff: Option<Handoff>, task: string, createdAt: string,
                      digest: Checkpoint -> string, section: Section)
    requires settled.kind == Completed
    requires settled.checkpoint == Some(Opening(settled.id, policyHash, handoff, task, createdAt, digest))
    ensures Lines(Merged(HandedSnapshot(handoff), settled), section) == PreviousLines(HandedSnapshot(handoff), section)
  {
    MergedLines(HandedSnapshot(handoff), settled, section);
    SeedsAreNotPromoted(Pins(settled.checkpoint.value, section), settled.id);
  }

  // ----- What the next execution reads

  /** The place of a section among the lists that are rendered. */
  function Place(section: Section): (list: nat)
    ensures list < 4
  {
    match section
    case Decisions => 0
    case Constraints => 1
    case OpenItems => 2
    case NextActions => 3
  }

  function Rendered(c: Checkpoint, n: nat, section: Section): seq<Pin> {
    Continuity.KeptLists(Continuity.Cut(Continuity.Whole(c), n))[Place(section)]
  }

  /** Each line of the snapshot that was not cut is a bullet of the text the next execution reads. */
  lemma SeededLinesAreRendered(c: Checkpoint, handoff: Option<Handoff>, task: string, createdAt: string,
                               digest: Checkpoint -> string, n: nat, section: Section, i: nat)
    requires c == Opening(c.executionId, c.policyHash, handoff, task, createdAt, digest)
    requires var all := |PreviousLines(HandedSnapshot(handoff), section)|;
             all - |Rendered(c, n, section)| <= i < all
    ensures Continuity.Holds(Continuity.Build(c, Continuity.Cut(Continuity.Whole(c), n)),
                             "- " + PreviousLines(HandedSnapshot(handoff), section)[i].text)
  {
    SeedsCarryTheLines(c.executionId, c.policyHash, handoff, task, createdAt, digest, section);
    var k := RenderedIsSuffix(c, n, section, i);
    Continuity.KeptPinsAreRendered(c, Continuity.Cut(Continuity.Whole(c), n), Place(section), k);
  }

  lemma RenderedIsSuffix(c: Checkpoint, n: nat, section: Section, i: nat) returns (k: nat)
    requires |Pins(c, section)| - |Rendered(c, n, section)| <= i < |Pins(c, section)|
    ensures k < |Rendered(c, n, section)| && Rendered(c, n, section)[k] == Pins(c, section)[i]
  {
    Continuity.CutKeepsOrder(Continuity.Whole(c), n);
    assert Continuity.IsSuffix(Rendered(c, n, section), Pins(c, section));
    k := i - (|Pins(c, section)| - |Rendered(c, n, section)|);
  }

  /** A text that is small enough is the whole text, with nothing cut. */
  lemma NothingNeedsCutting(c: Checkpoint, n: nat)
    requires Continuity.FirstFit(Continuity.Whole(c), Continuity.RenderedSize(c), n)
    requires CheckpointJson.ByteLength(Continuity.Build(c, Continuity.Whole(c))) <= Continuity.MAX_RENDERED_BYTES
    ensures n == 0
  {
    assert Continuity.RenderedSize(c)(Continuity.Cut(Continuity.Whole(c), 0)) <= Continuity.MAX_RENDERED_BYTES;
  }

  /** When nothing needs cutting, every text of the snapshot is read. */
  lemma TextsAreRendered(c: Checkpoint, handoff: Option<Handoff>, task: string, createdAt: string,
                         digest: Checkpoint -> string, section: Section, text: string)
    requires c == Opening(c.executionId, c.policyHash, handoff, task, createdAt, digest)
    requires HasText(PreviousLines(HandedSnapshot(handoff), section), text)
    ensures Continuity.Holds(Continuity.Build(c, Continuity.Cut(Continuity.Whole(c), 0)), "- " + text)
  {
    var lines := PreviousLines(HandedSnapshot(handoff), section);
    var i :| 0 <= i < |lines| && lines[i].text == text;
    SeedsCarryTheLines(c.executionId, c.policyHash, handoff, task, createdAt, digest, section);
    assert Rendered(c, 0, section) == Pins(c, section);
    SeededLinesAreRendered(c, handoff, task, createdAt, digest, 0, section, i);
  }

  /**
    What an execution pins is read by every execution after it: until a projection reports a
    cut, for next actions always, and as long as the text of the next opening itself needs no cut.
   */
  lemma PinsReachTheNextExecution(run: seq<Settled>, size: Snapshot -> nat, maxBytes: nat, i: nat, section: Section,
                                  k: nat, c: Checkpoint, title: Option<string>, task: string, createdAt: string,
                                  digest: Checkpoint -> string, n: nat)
    requires i < |run| && OwnPin(run[i], section, k)
    requires section == NextActions || QuietSince(run, size, maxBytes, i)
    requires c == Opening(c.executionId, c.policyHash, Some(Handoff(title, After(run, size, maxBytes))), task,
                          createdAt, digest)
    requires Continuity.FirstFit(Continuity.Whole(c), Continuity.RenderedSize(c), n)
    requires CheckpointJson.ByteLength(Continuity.Build(c, Continuity.Whole(c))) <= Continuity.MAX_RENDERED_BYTES
    ensures Continuity.Holds(Continuity.Build(c, Continuity.Cut(Continuity.Whole(c), n)),
                             "- " + Pins(run[i].checkpoint.value, section)[k].text)
  {
    PinsAreConserved(run, size, maxBytes, i, section, k);
    NothingNeedsCutting(c, n);
    TextsAreRendered(c, Some(Handoff(title, After(run, size, maxBytes))), task, createdAt, digest, section,
                     Pins(run[i].checkpoint.value, section)[k].text);
  }
}
