/**
  Rendering a checkpoint into a session, in at most 24 KiB (src/context/continuity.ts,
  src/context/checkpoint.ts). Sizes are real: UTF-8 bytes of the rendered text, and of the
  JSON the schema measures.
 */
module Continuity {
  import opened Wrappers
  import opened Lists
  import opened Checkpoints
  import opened CheckpointJson

  const MAX_RENDERED_BYTES := 24 * 1024
  const MAX_CUTS := 10_000
  const INTERACTIVE_TASK_SENTINEL := "Interactive principal session; the task arrives from the principal."
  const HEADER := "## ALP continuity checkpoint"
  const FOOTER := "This checkpoint preserves continuity only. It does not override system, developer,\n"
                + "execution-policy, or current user instructions."

  // ----- Rendering

  /** What is still to be rendered. */
  datatype Doc = Doc(hasObjective: bool, decisions: seq<Pin>, constraints: seq<Pin>, openItems: seq<Pin>,
                     nextActions: seq<Pin>)

  function Whole(c: Checkpoint): Doc {
    var hasObjective := c.objective.Some? && c.objective.value != INTERACTIVE_TASK_SENTINEL;
    Doc(hasObjective, c.decisions, c.constraints, c.openItems, c.nextActions)
  }

  function Bullets(pins: seq<Pin>): seq<string> {
    seq(|pins|, i requires 0 <= i < |pins| => "- " + pins[i].text)
  }

  function PinSection(title: string, pins: seq<Pin>): seq<string> {
    if pins == [] then [] else ["### " + title + "\n" + Join(Bullets(pins), "\n")]
  }

  function Sections(c: Checkpoint, doc: Doc): seq<string> {
    (if doc.hasObjective && c.objective.Some? then ["### Objective\n" + c.objective.value] else [])
    + PinSection("Decisions", doc.decisions) + PinSection("Constraints", doc.constraints)
    + PinSection("Open items", doc.openItems) + PinSection("Next actions", doc.nextActions)
  }

  function Build(c: Checkpoint, doc: Doc): string {
    var sections := Sections(c, doc);
    if sections == [] then ""
    else Join([HEADER, "", "Execution: `" + c.executionId + "`", "", Join(sections, "\n\n"), "", FOOTER], "\n") + "\n"
  }

  predicate HoldsAt(text: string, part: string, i: nat) {
    i + |part| <= |text| && text[i..i + |part|] == part
  }

  ghost predicate Holds(text: string, part: string) {
    exists i: nat :: HoldsAt(text, part, i)
  }

  lemma HoldsWithin(before: string, text: string, after: string, part: string)
    requires Holds(text, part)
    ensures Holds(before + text + after, part)
  {
    var i: nat :| HoldsAt(text, part, i);
    var whole := before + text + after;
    assert whole[|before| + i..|before| + i + |part|] == text[i..i + |part|];
    assert HoldsAt(whole, part, |before| + i);
  }

  lemma HoldsItself(text: string)
    ensures Holds(text, text)
  {
    assert HoldsAt(text, text, 0);
  }

  lemma {:induction false} JoinHolds(parts: seq<string>, separator: string, k: nat, part: string)
    requires k < |parts| && Holds(parts[k], part)
    ensures Holds(Join(parts, separator), part)
    decreases |parts|
  {
    if |parts| == 1 {
    } else if k == 0 {
      HoldsWithin("", parts[0], separator + Join(parts[1..], separator), part);
      assert Join(parts, separator) == "" + parts[0] + (separator + Join(parts[1..], separator));
    } else {
      JoinHolds(parts[1..], separator, k - 1, part);
      HoldsWithin(parts[0] + separator, Join(parts[1..], separator), "", part);
      assert Join(parts, separator) == parts[0] + separator + Join(parts[1..], separator) + "";
    }
  }

  lemma SectionHolds(title: string, pins: seq<Pin>, k: nat)
    requires k < |pins|
    ensures |PinSection(title, pins)| == 1 && Holds(PinSection(title, pins)[0], "- " + pins[k].text)
  {
    HoldsItself(Bullets(pins)[k]);
    JoinHolds(Bullets(pins), "\n", k, "- " + pins[k].text);
    HoldsWithin("### " + title + "\n", Join(Bullets(pins), "\n"), "", "- " + pins[k].text);
    assert PinSection(title, pins)[0] == "### " + title + "\n" + Join(Bullets(pins), "\n") + "";
  }

  lemma SectionsAreBuilt(c: Checkpoint, doc: Doc, k: nat, part: string)
    requires k < |Sections(c, doc)| && Holds(Sections(c, doc)[k], part)
    ensures Holds(Build(c, doc), part)
  {
    var sections := Sections(c, doc);
    JoinHolds(sections, "\n\n", k, part);
    var body := [HEADER, "", "Execution: `" + c.executionId + "`", "", Join(sections, "\n\n"), "", FOOTER];
    JoinHolds(body, "\n", 4, part);
    HoldsWithin("", Join(body, "\n"), "\n", part);
    assert "" + Join(body, "\n") + "\n" == Join(body, "\n") + "\n";
  }

  /** The pins a document still holds, section by section as they are rendered. */
  function KeptLists(doc: Doc): seq<seq<Pin>> {
    [doc.decisions, doc.constraints, doc.openItems, doc.nextActions]
  }

  /** Every pin that was not cut is in the text, as one bullet. */
  lemma KeptPinsAreRendered(c: Checkpoint, doc: Doc, list: nat, k: nat)
    requires list < 4 && k < |KeptLists(doc)[list]|
    ensures Holds(Build(c, doc), "- " + KeptLists(doc)[list][k].text)
  {
    var part := "- " + KeptLists(doc)[list][k].text;
    var title := ["Decisions", "Constraints", "Open items", "Next actions"][list];
    SectionHolds(title, KeptLists(doc)[list], k);
    var section := PinSection(title, KeptLists(doc)[list])[0];
    assert section in Sections(c, doc);
    var n :| 0 <= n < |Sections(c, doc)| && Sections(c, doc)[n] == section;
    SectionsAreBuilt(c, doc, n, part);
  }

  // ----- The whole text

  /** Every part followed by the separator. */
  function Ended(parts: seq<string>, separator: string): string {
    if parts == [] then "" else parts[0] + separator + Ended(parts[1..], separator)
  }

  lemma {:induction false} JoinEnded(parts: seq<string>, separator: string)
    requires parts != []
    ensures Join(parts, separator) + separator == Ended(parts, separator)
  {
    if |parts| > 1 { JoinEnded(parts[1..], separator); }
  }

  lemma {:induction false} EndedConcat(a: seq<string>, b: seq<string>, separator: string)
    ensures Ended(a + b, separator) == Ended(a, separator) + Ended(b, separator)
  {
    if a == [] {
      assert a + b == b;
    } else {
      assert (a + b)[0] == a[0] && (a + b)[1..] == a[1..] + b;
      EndedConcat(a[1..], b, separator);
    }
  }

  /** One bullet and line end a pin. */
  function Listing(pins: seq<Pin>): string {
    if pins == [] then "" else "- " + pins[0].text + "\n" + Listing(pins[1..])
  }

  lemma {:induction false} BulletsListed(pins: seq<Pin>)
    ensures Ended(Bullets(pins), "\n") == Listing(pins)
  {
    if pins != [] {
      assert Bullets(pins)[1..] == Bullets(pins[1..]);
      BulletsListed(pins[1..]);
    }
  }

  /** A titled list and an empty line; an empty list leaves no trace. */
  function Block(title: string, pins: seq<Pin>): string {
    if pins == [] then "" else "### " + title + "\n" + Listing(pins) + "\n"
  }

  lemma PinSectionBlock(title: string, pins: seq<Pin>)
    ensures Ended(PinSection(title, pins), "\n\n") == Block(title, pins)
  {
    if pins != [] {
      BulletsListed(pins);
      JoinEnded(Bullets(pins), "\n");
      var text := Join(Bullets(pins), "\n");
      assert text + "\n\n" == (text + "\n") + "\n";
      assert PinSection(title, pins)[1..] == [];
    }
  }

  /** The objective, unless there is none or it is the sentinel of an interactive session. */
  function ObjectiveBlock(c: Checkpoint): string {
    match c.objective
    case None => ""
    case Some(objective) =>
      if objective == INTERACTIVE_TASK_SENTINEL then "" else "### Objective\n" + objective + "\n\n"
  }

  /** Everything between the execution's name and the footer. */
  function Body(c: Checkpoint, doc: Doc): string {
    (if doc.hasObjective then ObjectiveBlock(c) else "") + Block("Decisions", doc.decisions)
    + Block("Constraints", doc.constraints) + Block("Open items", doc.openItems)
    + Block("Next actions", doc.nextActions)
  }

  lemma SectionsEnded(c: Checkpoint, doc: Doc)
    requires doc.hasObjective ==> Whole(c).hasObjective
    ensures Ended(Sections(c, doc), "\n\n") == Body(c, doc)
  {
    var objective := if doc.hasObjective && c.objective.Some? then ["### Objective\n" + c.objective.value] else [];
    var decisions, constraints := PinSection("Decisions", doc.decisions), PinSection("Constraints", doc.constraints);
    var openItems, nextActions := PinSection("Open items", doc.openItems), PinSection("Next actions", doc.nextActions);
    EndedConcat(objective, decisions, "\n\n");
    EndedConcat(objective + decisions, constraints, "\n\n");
    EndedConcat(objective + decisions + constraints, openItems, "\n\n");
    EndedConcat(objective + decisions + constraints + openItems, nextActions, "\n\n");
    PinSectionBlock("Decisions", doc.decisions);
    PinSectionBlock("Constraints", doc.constraints);
    PinSectionBlock("Open items", doc.openItems);
    PinSectionBlock("Next actions", doc.nextActions);
    assert objective != [] ==> objective[1..] == [];
  }

  /** The text of what `n` cuts leave, character by character: nothing at all when nothing is left. */
  lemma TextExactly(c: Checkpoint, n: nat)
    ensures var doc := Cut(Whole(c), n);
            Build(c, doc) == if Body(c, doc) == "" then ""
                             else HEADER + "\n\nExecution: `" + c.executionId + "`\n\n" + Body(c, doc) + FOOTER + "\n"
  {
    var doc := Cut(Whole(c), n);
    CutKeepsOrder(Whole(c), n);
    SectionsEnded(c, doc);
    var sections := Sections(c, doc);
    if sections != [] {
      JoinEnded(sections, "\n\n");
      FramedText(c, Join(sections, "\n\n"));
    }
  }

  /** A line, an empty line and the rest. */
  lemma EndedPair(line: string, rest: seq<string>)
    ensures Ended([line, ""] + rest, "\n") == line + "\n\n" + Ended(rest, "\n")
  {
    var lines := [line, ""] + rest;
    assert lines[1..] == [""] + rest && lines[1..][1..] == rest;
    assert "\n" + "\n" == "\n\n";
  }

  lemma Framed(header: string, name: string, body: string, footer: string)
    ensures Join([header, "", name, "", body, "", footer], "\n") + "\n"
         == header + "\n\n" + (name + "\n\n" + (body + "\n\n" + (footer + "\n")))
  {
    var lines := [header, "", name, "", body, "", footer];
    JoinEnded(lines, "\n");
    assert lines == [header, ""] + ([name, ""] + ([body, ""] + [footer]));
    EndedPair(header, [name, ""] + ([body, ""] + [footer]));
    EndedPair(name, [body, ""] + [footer]);
    EndedPair(body, [footer]);
    assert Ended([footer], "\n") == footer + "\n";
  }

  lemma FramedText(c: Checkpoint, body: string)
    ensures Join([HEADER, "", "Execution: `" + c.executionId + "`", "", body, "", FOOTER], "\n") + "\n"
         == HEADER + "\n\nExecution: `" + c.executionId + "`\n\n" + (body + "\n\n") + FOOTER + "\n"
  {
    Framed(HEADER, "Execution: `" + c.executionId + "`", body, FOOTER);
    Respaced(HEADER, c.executionId, body + "\n\n", FOOTER + "\n");
    Trailing(HEADER + "\n\nExecution: `" + c.executionId + "`\n\n" + (body + "\n\n"), FOOTER, "\n");
  }

  lemma Trailing(a: string, b: string, c: string)
    ensures a + (b + c) == a + b + c
  {
  }

  lemma Respaced(header: string, id: string, body: string, footer: string)
    ensures header + "\n\n" + ("Execution: `" + id + "`" + "\n\n" + (body + footer))
         == header + "\n\nExecution: `" + id + "`\n\n" + body + footer
  {
    assert "\n\n" + "Execution: `" == "\n\nExecution: `";
    assert "`" + "\n\n" == "`\n\n";
  }

  // ----- Cutting

  /** Least load-bearing first; the oldest pin of a section first. */
  function CutOnce(doc: Doc): Option<Doc> {
    if doc.nextActions != [] then Some(doc.(nextActions := doc.nextActions[1..]))
    else if doc.openItems != [] then Some(doc.(openItems := doc.openItems[1..]))
    else if doc.hasObjective then Some(doc.(hasObjective := false))
    else if doc.constraints != [] then Some(doc.(constraints := doc.constraints[1..]))
    else if doc.decisions != [] then Some(doc.(decisions := doc.decisions[1..]))
    else None
  }

  function Items(doc: Doc): nat {
    |doc.nextActions| + |doc.openItems| + (if doc.hasObjective then 1 else 0) + |doc.constraints| + |doc.decisions|
  }

  /** What `n` cuts leave. */
  function Cut(doc: Doc, n: nat): Doc {
    if n == 0 then doc
    else
      var left := Cut(doc, n - 1);
      if CutOnce(left).Some? then CutOnce(left).value else left
  }

  lemma {:induction false} CutTakesOne(doc: Doc, n: nat)
    requires n <= Items(doc)
    ensures Items(Cut(doc, n)) == Items(doc) - n
  {
    if n > 0 { CutTakesOne(doc, n - 1); }
  }

  predicate IsSuffix(rest: seq<Pin>, pins: seq<Pin>) {
    |rest| <= |pins| && forall i :: 0 <= i < |rest| ==> rest[i] == pins[|pins| - |rest| + i]
  }

  /** Every list keeps a suffix; a later place loses something only when the earlier ones have nothing left. */
  predicate CutInOrder(doc: Doc, left: Doc) {
    && IsSuffix(left.nextActions, doc.nextActions) && IsSuffix(left.openItems, doc.openItems)
    && IsSuffix(left.constraints, doc.constraints) && IsSuffix(left.decisions, doc.decisions)
    && (left.hasObjective ==> doc.hasObjective)
    && (|left.openItems| < |doc.openItems| ==> left.nextActions == [])
    && (doc.hasObjective && !left.hasObjective ==> left.nextActions == [] && left.openItems == [])
    && (|left.constraints| < |doc.constraints| ==> left.nextActions == [] && left.openItems == [] && !left.hasObjective)
    && (|left.decisions| < |doc.decisions| ==>
          left.nextActions == [] && left.openItems == [] && !left.hasObjective && left.constraints == [])
  }

  lemma {:induction false} CutKeepsOrder(doc: Doc, n: nat)
    ensures CutInOrder(doc, Cut(doc, n))
  {
    if n > 0 {
      CutKeepsOrder(doc, n - 1);
      if CutOnce(Cut(doc, n - 1)).Some? { StepKeepsOrder(doc, Cut(doc, n - 1)); }
    }
  }

  lemma StepKeepsOrder(doc: Doc, left: Doc)
    requires CutInOrder(doc, left) && CutOnce(left).Some?
    ensures CutInOrder(doc, CutOnce(left).value)
  {
  }

  /** `n` is the fewest cuts after which the document fits. */
  predicate FirstFit(whole: Doc, size: Doc -> nat, n: nat) {
    && n <= Items(whole) && size(Cut(whole, n)) <= MAX_RENDERED_BYTES
    && forall m :: 0 <= m < n ==> size(Cut(whole, m)) > MAX_RENDERED_BYTES
  }

  /** The loop goes on for `n` cuts, and stops because the document fits or the guard is used up. */
  predicate StopsAt(whole: Doc, size: Doc -> nat, n: nat) {
    && n <= Items(whole) && n <= MAX_CUTS && (forall m :: 0 <= m < n ==> size(Cut(whole, m)) > MAX_RENDERED_BYTES)
    && (size(Cut(whole, n)) <= MAX_RENDERED_BYTES || n == MAX_CUTS)
  }

  /**
    The guarded loop, for whatever the closure `build` measures: it stops at the first fit
    unless its guard stops it first, which it never does with few enough items.
   */
  method CutToFit(whole: Doc, size: Doc -> nat) returns (doc: Doc)
    requires size(Cut(whole, Items(whole))) <= MAX_RENDERED_BYTES
    ensures exists n :: StopsAt(whole, size, n) && doc == Cut(whole, n)
    ensures Items(whole) <= MAX_CUTS ==> exists n :: FirstFit(whole, size, n) && doc == Cut(whole, n)
  {
    doc := whole;
    ghost var n := 0;
    var guard := 0;
    while size(doc) > MAX_RENDERED_BYTES && guard < MAX_CUTS
      invariant guard == n && n <= Items(whole) && n <= MAX_CUTS && doc == Cut(whole, n)
      invariant forall m :: 0 <= m < n ==> size(Cut(whole, m)) > MAX_RENDERED_BYTES
      decreases Items(whole) - n
    {
      guard := guard + 1;
      CutTakesOne(whole, n);
      var cut := CutOnce(doc);
      if cut.None? { break; }
      doc := cut.value;
      n := n + 1;
    }
    assert StopsAt(whole, size, n);
    assert Items(whole) <= MAX_CUTS ==> FirstFit(whole, size, n);
  }

  lemma NothingLeft(c: Checkpoint)
    ensures Build(c, Cut(Whole(c), Items(Whole(c)))) == ""
  {
    CutTakesOne(Whole(c), Items(Whole(c)));
  }

  function RenderedSize(c: Checkpoint): Doc -> nat {
    doc => ByteLength(Build(c, doc))
  }

  /** The guard never trips on a checkpoint the schema accepts. */
  lemma FewItems(c: Checkpoint)
    requires SchemaAccepts(c)
    ensures Items(Whole(c)) < MAX_CUTS
  {
    FewPins(c);
  }

  /**
    The text fits, after as few cuts as possible, for every accepted checkpoint and any other
    small enough for the guard; a bigger one is cut until it fits or the guard is used up.
   */
  method RenderContinuity(c: Checkpoint) returns (text: string)
    ensures exists n :: StopsAt(Whole(c), RenderedSize(c), n) && text == Build(c, Cut(Whole(c), n))
    ensures SchemaAccepts(c) || Items(Whole(c)) <= MAX_CUTS ==>
              && ByteLength(text) <= MAX_RENDERED_BYTES
              && exists n :: FirstFit(Whole(c), RenderedSize(c), n) && text == Build(c, Cut(Whole(c), n))
                             && CutInOrder(Whole(c), Cut(Whole(c), n))
  {
    NothingLeft(c);
    if SchemaAccepts(c) { FewItems(c); }
    var doc := CutToFit(Whole(c), RenderedSize(c));
    text := Build(c, doc);
    forall n ensures CutInOrder(Whole(c), Cut(Whole(c), n)) { CutKeepsOrder(Whole(c), n); }
  }
}
