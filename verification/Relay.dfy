/**
  The relay (src/execution/relay-protocol.ts, src/execution/relay-server.ts,
  src/cli/relay-client.ts): clients inside a sandbox and the serving process share nothing but
  a directory of request and response files.

  The two sides are interleaved step by step. The server runs in one thread: a completion
  never clears `inFlight` in the middle of a scan, and nothing else of the server happens
  between writing a response and unlinking its request. Every step of a client may fall
  anywhere.
 */
module Relay {
  import opened Wrappers

  // ----- Names and allowed commands

  type Id = string
  const ID_LENGTH := 32
  const REQUEST_SUFFIX := ".request.json"

  predicate IsHex(c: char) {
    '0' <= c <= '9' || 'a' <= c <= 'f'
  }

  predicate IsRelayId(id: string) {
    |id| == ID_LENGTH && forall i :: 0 <= i < |id| ==> IsHex(id[i])
  }

  function RequestFile(id: Id): string {
    id + REQUEST_SUFFIX
  }

  function RequestIdOf(file: string): Option<Id> {
    if |file| >= ID_LENGTH && IsRelayId(file[..ID_LENGTH]) && file[ID_LENGTH..] == REQUEST_SUFFIX
    then Some(file[..ID_LENGTH]) else None
  }

  /** The file-name test is the exact inverse of naming a request: no temporary or response file is taken for one. */
  lemma RequestIdOfExact(file: string, id: Id)
    ensures RequestIdOf(file) == Some(id) <==>
              |id| == 32 && (forall c :: c in id ==> c in "0123456789abcdef") && file == id + ".request.json"
    ensures RequestIdOf(file) == Some(id) <==> IsRelayId(id) && file == RequestFile(id)
  {
    HexDigits();
    if forall c :: c in id ==> c in "0123456789abcdef" {
      forall i | 0 <= i < |id| ensures IsHex(id[i]) { assert id[i] in id; }
    }
  }

  lemma HexDigits()
    ensures forall c :: IsHex(c) <==> c in "0123456789abcdef"
  {
    var digits := "0123456789abcdef";
    forall c ensures IsHex(c) <==> c in digits {
      if IsHex(c) { assert c == digits[if c <= '9' then c as int - '0' as int else c as int - 'a' as int + 10]; }
    }
  }

  predicate RelayAllowed(argv: seq<string>) {
    argv != []
    && if argv[0] == "--version" || argv[0] == "-v" then |argv| == 1
       else if argv[0] == "help" || argv[0] == "--help" then true
       else argv[0] == "delegate" || argv[0] == "delegation" || argv[0] == "context"
  }

  const COMMANDS := ["help", "--help", "delegate", "delegation", "context"]

  /** A lone version flag, or one of the five commands a session context names, with any arguments. */
  predicate NamesCommand(argv: seq<string>) {
    argv == ["--version"] || argv == ["-v"] || (argv != [] && argv[0] in COMMANDS)
  }

  lemma AllowedExactly(argv: seq<string>)
    ensures RelayAllowed(argv) <==> NamesCommand(argv)
  {
    assert COMMANDS[0] == "help" && COMMANDS[1] == "--help" && COMMANDS[2] == "delegate";
    assert COMMANDS[3] == "delegation" && COMMANDS[4] == "context";
    assert forall word :: word in COMMANDS ==> word != "--version" && word != "-v" by {
      assert COMMANDS[0][0] == 'h' && COMMANDS[1][2] == 'h' && COMMANDS[2][0] == COMMANDS[3][0] == 'd';
      assert COMMANDS[4][0] == 'c' && "--version"[2] == 'v';
    }
  }

  // ----- The shared directory and the two sides

  /** The fields of a request file that parses; `None` stands for anything else. */
  datatype Body = Body(id: Id, argv: seq<string>, cwd: string)
  datatype Execution = Execution(registration: nat, id: Id, argv: seq<string>, cwd: string)
  /** Exit 2 without running anything, or whatever came of the execution at that position of the log. */
  datatype Answer = Refused | Ran(execution: nat)

  datatype Wait = Waiting | Returned(answer: Answer) | GaveUp
  datatype Client = Client(argv: seq<string>, cwd: string, wait: Wait)

  datatype Stage = Serving | Responded | Unlinked | Abandoned | Cleared
  datatype Job = Job(registration: nat, id: Id, answer: Answer, stage: Stage)

  datatype State = State(
    requests: map<Id, Option<Body>>, responses: map<Id, Answer>, used: set<Id>,
    clients: map<Id, Client>,
    registered: bool, registration: nat, inFlight: set<Id>, scanning: Option<seq<Id>>, answering: Option<nat>,
    jobs: seq<Job>, log: seq<Execution>)

  const EMPTY_STATE := State(map[], map[], {}, map[], false, 0, {}, None, None, [], [])

  function ParseRequest(content: Option<Body>): Option<Body> {
    if content.Some? && IsRelayId(content.value.id) && content.value.cwd != "" then content else None
  }

  /** What `serve` decides as soon as it has read the request file. */
  predicate Executes(id: Id, content: Option<Body>) {
    var request := ParseRequest(content);
    request.Some? && request.value.id == id && RelayAllowed(request.value.argv)
  }

  datatype Step =
    | Send(id: Id, argv: seq<string>, cwd: string)
    | WriteRogue(id: Id, content: Option<Body>)
    | Read(id: Id)
    | GiveUp(id: Id)
    | Register
    | Unregister
    | BeginScan(ids: seq<Id>)
    | NextName
    | EndScan
    | Respond(job: nat)
    | Unlink(job: nat)
    | Clear(job: nat)

  predicate IsWaiting(s: State, id: Id) {
    id in s.clients && s.clients[id].wait.Waiting?
  }

  predicate Enabled(s: State, step: Step) {
    match step
    case Send(id, argv, cwd) => IsRelayId(id) && id !in s.used
    case WriteRogue(id, _) => IsRelayId(id) && id !in s.used
    case Read(id) => IsWaiting(s, id) && id in s.responses
    case GiveUp(id) => IsWaiting(s, id)
    case Register => !s.registered && s.answering.None?
    case Unregister => s.registered && s.scanning.None? && s.answering.None?
    case BeginScan(ids) =>
      s.registered && s.scanning.None? && s.answering.None? && (set id | id in ids) == s.requests.Keys
    case NextName => s.scanning.Some? && s.scanning.value != [] && s.answering.None?
    case EndScan => s.scanning.Some? && |s.scanning.value| == 0 && s.answering.None?
    case Respond(job) => job < |s.jobs| && s.jobs[job].stage.Serving? && s.answering.None?
    case Unlink(job) => s.answering == Some(job) && job < |s.jobs| && s.jobs[job].stage.Responded?
    case Clear(job) =>
      && job < |s.jobs| && (s.jobs[job].stage.Unlinked? || s.jobs[job].stage.Abandoned?)
      && s.scanning.None? && s.answering.None?
  }

  function Apply(s: State, step: Step): State
    requires Enabled(s, step)
  {
    match step
    case Send(id, argv, cwd) =>
      s.(requests := s.requests[id := Some(Body(id, argv, cwd))], used := s.used + {id},
         clients := s.clients[id := Client(argv, cwd, Waiting)])
    case WriteRogue(id, content) => s.(requests := s.requests[id := content], used := s.used + {id})
    case Read(id) =>
      s.(clients := s.clients[id := s.clients[id].(wait := Returned(s.responses[id]))], responses := s.responses - {id})
    case GiveUp(id) => s.(clients := s.clients[id := s.clients[id].(wait := GaveUp)])
    case Register => s.(registered := true, registration := s.registration + 1, inFlight := {})
    case Unregister => s.(registered := false)
    case BeginScan(ids) => s.(scanning := Some(ids))
    case NextName => Pick(s.(scanning := Some(s.scanning.value[1..])), s.scanning.value[0])
    case EndScan => s.(scanning := None)
    case Respond(job) => RespondTo(s, job)
    case Unlink(job) => Staged(s.(requests := s.requests - {s.jobs[job].id}, answering := None), job, Unlinked)
    case Clear(job) =>
      var cleared := if s.jobs[job].registration == s.registration then s.inFlight - {s.jobs[job].id} else s.inFlight;
      Staged(s.(inFlight := cleared), job, Cleared)
  }

  function Staged(s: State, job: nat, stage: Stage): State
    requires job < |s.jobs|
  {
    s.(jobs := s.jobs[job := s.jobs[job].(stage := stage)])
  }

  /** One turn of the scan loop: skip, or take the id in flight, read its request and start serving. */
  function Pick(s: State, id: Id): State {
    if id in s.inFlight || id in s.responses then s
    else
      var content := if id in s.requests then s.requests[id] else None;
      if Executes(id, content) then
        Logged(Taken(s, id, Ran(|s.log|)), Execution(s.registration, id, content.value.argv, content.value.cwd))
      else Taken(s, id, Refused)
  }

  function Taken(s: State, id: Id, answer: Answer): State {
    s.(inFlight := s.inFlight + {id}, jobs := s.jobs + [Job(s.registration, id, answer, Serving)])
  }

  function Logged(s: State, run: Execution): State {
    s.(log := s.log + [run])
  }

  /** A directory that is registered, in whatever registration, gets the response; otherwise nothing is written. */
  function RespondTo(s: State, job: nat): State
    requires job < |s.jobs|
  {
    if !s.registered then Staged(s, job, Abandoned)
    else
      var responses := s.responses[s.jobs[job].id := s.jobs[job].answer];
      Staged(s.(responses := responses, answering := Some(job)), job, Responded)
  }

  // ----- Invariants

  /** An answer the client of `id` may be given: the run of its own command line, or a refusal it earned. */
  predicate Fits(s: State, id: Id, answer: Answer)
    requires id in s.clients
  {
    var client := s.clients[id];
    match answer
    case Ran(k) => k < |s.log| && s.log[k].id == id && s.log[k].argv == client.argv && s.log[k].cwd == client.cwd
    case Refused => !RelayAllowed(client.argv) || client.cwd == ""
  }

  /** An execution of the current registration is still in flight, or its request is gone. */
  predicate Spent(s: State, id: Id) {
    id in s.inFlight || id !in s.requests
  }

  predicate ServerInv(s: State) {
    && s.requests.Keys <= s.used && s.responses.Keys <= s.used
    && (s.scanning.Some? ==> s.registered && forall id :: id in s.scanning.value ==> id in s.used)
    && (s.answering.Some? ==> s.registered && s.answering.value < |s.jobs|)
    && (forall id :: id in s.requests && id in s.responses ==> s.answering.Some? && s.jobs[s.answering.value].id == id)
    && (forall k :: 0 <= k < |s.log| ==> LogInv(s, k))
    && (forall j :: 0 <= j < |s.jobs| ==> JobInv(s, j))
  }

  predicate LogInv(s: State, k: nat)
    requires k < |s.log|
  {
    var run := s.log[k];
    && run.registration <= s.registration && run.id in s.used && RelayAllowed(run.argv)
    && (s.registered && run.registration == s.registration ==> Spent(s, run.id))
    && (run.id in s.requests ==> Executes(run.id, s.requests[run.id]))
  }

  predicate JobInv(s: State, j: nat)
    requires j < |s.jobs|
  {
    var job := s.jobs[j];
    && job.registration <= s.registration && job.id in s.used
    && (job.stage.Unlinked? ==> job.id !in s.requests)
    && (job.stage.Responded? ==> s.answering == Some(j))
    && (job.stage.Abandoned? && job.registration == s.registration ==> !s.registered)
  }

  predicate LogDistinct(log: seq<Execution>) {
    forall k, l :: 0 <= k < l < |log| ==> (log[k].registration, log[k].id) != (log[l].registration, log[l].id)
  }

  predicate ClientInv(s: State, id: Id)
    requires id in s.clients
  {
    var client := s.clients[id];
    && id in s.used && IsRelayId(id)
    && (id in s.requests ==> s.requests[id] == Some(Body(id, client.argv, client.cwd)))
    && (client.wait.Returned? ==> Fits(s, id, client.wait.answer))
    && (client.wait.Waiting? ==>
          // neither side ever loses the exchange
          && (id in s.requests || id in s.responses)
          && (id in s.responses ==> Fits(s, id, s.responses[id]))
          && (forall j :: 0 <= j < |s.jobs| ==> JobFits(s, id, j)))
  }

  predicate JobFits(s: State, id: Id, j: nat)
    requires id in s.clients && j < |s.jobs|
  {
    s.jobs[j].id == id ==> Fits(s, id, s.jobs[j].answer) && (s.jobs[j].stage.Responded? ==> id in s.responses)
  }

  predicate Inv(s: State) {
    && ServerInv(s) && LogDistinct(s.log)
    && forall id :: id in s.clients ==> ClientInv(s, id)
  }

  lemma StepKeepsServerInv(s: State, step: Step)
    requires ServerInv(s) && Enabled(s, step)
    ensures ServerInv(Apply(s, step))
  {
    match step
    case NextName =>
      PickKeepsServerInv(s.(scanning := Some(s.scanning.value[1..])), s.scanning.value[0]) by {
        RestOfScan(s);
      }
    case Respond(_) => JobStepKeepsServerInv(s, step);
    case Unlink(_) => JobStepKeepsServerInv(s, step);
    case Clear(_) => JobStepKeepsServerInv(s, step);
    case _ => OtherStepKeepsServerInv(s, step);
  }

  lemma RestOfScan(s: State)
    requires ServerInv(s) && Enabled(s, NextName)
    ensures ServerInv(s.(scanning := Some(s.scanning.value[1..]))) && s.scanning.value[0] in s.used
  {
    var rest := s.(scanning := Some(s.scanning.value[1..]));
    forall k | 0 <= k < |rest.log| ensures LogInv(rest, k) { assert LogInv(s, k); }
    forall j | 0 <= j < |rest.jobs| ensures JobInv(rest, j) { assert JobInv(s, j); }
  }

  lemma PickKeepsServerInv(s: State, id: Id)
    requires ServerInv(s) && id in s.used
    ensures ServerInv(Pick(s, id))
  {
    if id !in s.inFlight && id !in s.responses {
      var content := if id in s.requests then s.requests[id] else None;
      if Executes(id, content) {
        TakenKeepsServerInv(s, id, Ran(|s.log|));
        LoggedKeepsServerInv(Taken(s, id, Ran(|s.log|)),
                             Execution(s.registration, id, content.value.argv, content.value.cwd));
      } else {
        TakenKeepsServerInv(s, id, Refused);
      }
    }
  }

  lemma TakenKeepsServerInv(s: State, id: Id, answer: Answer)
    requires ServerInv(s) && id in s.used
    ensures ServerInv(Taken(s, id, answer))
  {
    var next := Taken(s, id, answer);
    forall k | 0 <= k < |next.log| ensures LogInv(next, k) { assert LogInv(s, k); }
    forall j | 0 <= j < |next.jobs| ensures JobInv(next, j) {
      if j < |s.jobs| { assert JobInv(s, j); }
    }
  }

  lemma LoggedKeepsServerInv(s: State, run: Execution)
    requires ServerInv(s) && run.id in s.used && run.id in s.inFlight && run.registration == s.registration
    requires RelayAllowed(run.argv) && (run.id in s.requests ==> Executes(run.id, s.requests[run.id]))
    ensures ServerInv(Logged(s, run))
  {
    var next := Logged(s, run);
    forall k | 0 <= k < |next.log| ensures LogInv(next, k) {
      if k < |s.log| { assert LogInv(s, k); }
    }
    forall j | 0 <= j < |next.jobs| ensures JobInv(next, j) { assert JobInv(s, j); }
  }

  lemma JobStepKeepsServerInv(s: State, step: Step)
    requires ServerInv(s) && Enabled(s, step) && (step.Respond? || step.Unlink? || step.Clear?)
    ensures ServerInv(Apply(s, step))
  {
    var next := Apply(s, step);
    assert JobInv(s, step.job);
    forall k | 0 <= k < |next.log| ensures LogInv(next, k) { assert LogInv(s, k); }
    forall j | 0 <= j < |next.jobs| ensures JobInv(next, j) { assert JobInv(s, j); }
  }

  lemma OtherStepKeepsServerInv(s: State, step: Step)
    requires ServerInv(s) && Enabled(s, step)
    requires !step.NextName? && !step.Respond? && !step.Unlink? && !step.Clear?
    ensures ServerInv(Apply(s, step))
  {
    var next := Apply(s, step);
    forall k | 0 <= k < |next.log| ensures LogInv(next, k) { assert LogInv(s, k); }
    forall j | 0 <= j < |next.jobs| ensures JobInv(next, j) { assert JobInv(s, j); }
  }

  /** A second execution of one id within one registration never starts. */
  lemma StepKeepsLogDistinct(s: State, step: Step)
    requires ServerInv(s) && LogDistinct(s.log) && Enabled(s, step)
    ensures LogDistinct(Apply(s, step).log)
  {
    var next := Apply(s, step);
    if |next.log| > |s.log| {
      forall k | 0 <= k < |s.log|
        ensures (s.log[k].registration, s.log[k].id) != (next.log[|s.log|].registration, next.log[|s.log|].id)
      {
        assert LogInv(s, k);
      }
    }
  }

  lemma StepKeepsClient(s: State, step: Step, id: Id)
    requires ServerInv(s) && Enabled(s, step) && id in s.clients && ClientInv(s, id)
    ensures ClientInv(Apply(s, step), id)
  {
    match step
    case NextName =>
      ScanKeepsClient(s, Some(s.scanning.value[1..]), id);
      PickKeepsClient(s.(scanning := Some(s.scanning.value[1..])), s.scanning.value[0], id);
    case Respond(job) => RespondKeepsClient(s, job, id);
    case Unlink(job) => UnlinkKeepsClient(s, job, id);
    case Clear(job) => ClearKeepsClient(s, job, id);
    case _ => OtherStepKeepsClient(s, step, id);
  }

  lemma OtherStepKeepsClient(s: State, step: Step, id: Id)
    requires ServerInv(s) && Enabled(s, step) && id in s.clients && ClientInv(s, id)
    requires !step.NextName? && !step.Respond? && !step.Unlink? && !step.Clear?
    ensures ClientInv(Apply(s, step), id)
  {
    var next := Apply(s, step);
    if next.clients[id].wait.Waiting? {
      forall j | 0 <= j < |next.jobs| ensures JobFits(next, id, j) { assert JobFits(s, id, j); }
    }
  }

  lemma RespondKeepsClient(s: State, job: nat, id: Id)
    requires Enabled(s, Respond(job)) && id in s.clients && ClientInv(s, id)
    ensures ClientInv(RespondTo(s, job), id)
  {
    var next := RespondTo(s, job);
    if s.clients[id].wait.Waiting? {
      assert JobFits(s, id, job);
      forall j | 0 <= j < |next.jobs| ensures JobFits(next, id, j) { assert JobFits(s, id, j); }
    }
  }

  lemma UnlinkKeepsClient(s: State, job: nat, id: Id)
    requires Enabled(s, Unlink(job)) && id in s.clients && ClientInv(s, id)
    ensures ClientInv(Apply(s, Unlink(job)), id)
  {
    var next := Apply(s, Unlink(job));
    if s.clients[id].wait.Waiting? {
      assert JobFits(s, id, job);
      forall j | 0 <= j < |next.jobs| ensures JobFits(next, id, j) { assert JobFits(s, id, j); }
    }
  }

  lemma ClearKeepsClient(s: State, job: nat, id: Id)
    requires Enabled(s, Clear(job)) && id in s.clients && ClientInv(s, id)
    ensures ClientInv(Apply(s, Clear(job)), id)
  {
    var next := Apply(s, Clear(job));
    if s.clients[id].wait.Waiting? {
      forall j | 0 <= j < |next.jobs| ensures JobFits(next, id, j) { assert JobFits(s, id, j); }
    }
  }

  lemma ScanKeepsClient(s: State, scanning: Option<seq<Id>>, id: Id)
    requires id in s.clients && ClientInv(s, id)
    ensures ClientInv(s.(scanning := scanning), id)
  {
    if s.clients[id].wait.Waiting? {
      forall j | 0 <= j < |s.jobs| ensures JobFits(s.(scanning := scanning), id, j) { assert JobFits(s, id, j); }
    }
  }

  lemma PickKeepsClient(s: State, name: Id, id: Id)
    requires id in s.clients && ClientInv(s, id)
    ensures ClientInv(Pick(s, name), id)
  {
    if name !in s.inFlight && name !in s.responses {
      var content := if name in s.requests then s.requests[name] else None;
      if Executes(name, content) {
        var run := Execution(s.registration, name, content.value.argv, content.value.cwd);
        assert Pick(s, name) == Taken(Logged(s, run), name, Ran(|s.log|));
        LoggedKeepsClient(s, run, id);
        TakenKeepsClient(Logged(s, run), name, Ran(|s.log|), id);
      } else {
        TakenKeepsClient(s, name, Refused, id);
      }
    }
  }

  lemma LoggedKeepsClient(s: State, run: Execution, id: Id)
    requires id in s.clients && ClientInv(s, id)
    ensures ClientInv(Logged(s, run), id)
  {
    var next := Logged(s, run);
    if s.clients[id].wait.Waiting? {
      forall j | 0 <= j < |next.jobs| ensures JobFits(next, id, j) { assert JobFits(s, id, j); }
    }
  }

  lemma TakenKeepsClient(s: State, name: Id, answer: Answer, id: Id)
    requires id in s.clients && ClientInv(s, id)
    requires name == id && s.clients[id].wait.Waiting? ==> Fits(s, id, answer)
    ensures ClientInv(Taken(s, name, answer), id)
  {
    var next := Taken(s, name, answer);
    if s.clients[id].wait.Waiting? {
      forall j | 0 <= j < |next.jobs| ensures JobFits(next, id, j) {
        if j < |s.jobs| { assert JobFits(s, id, j); }
      }
    }
  }

  lemma StepKeepsInv(s: State, step: Step)
    requires Inv(s) && Enabled(s, step)
    ensures Inv(Apply(s, step))
  {
    var next := Apply(s, step);
    StepKeepsServerInv(s, step);
    StepKeepsLogDistinct(s, step);
    forall id | id in next.clients ensures ClientInv(next, id) {
      if id in s.clients {
        StepKeepsClient(s, step, id);
      } else {
        forall j | 0 <= j < |s.jobs| ensures s.jobs[j].id != id {
          assert JobInv(s, j);
        }
      }
    }
  }

  // ----- Whole interleavings

  predicate Trace(states: seq<State>, steps: seq<Step>) {
    && |states| == |steps| + 1 && states[0] == EMPTY_STATE
    && forall i :: 0 <= i < |steps| ==> Enabled(states[i], steps[i]) && states[i + 1] == Apply(states[i], steps[i])
  }

  lemma {:induction false} InvAlways(states: seq<State>, steps: seq<Step>, n: nat)
    requires Trace(states, steps) && n < |states|
    ensures Inv(states[n])
  {
    if n > 0 {
      InvAlways(states, steps, n - 1);
      StepKeepsInv(states[n - 1], steps[n - 1]);
    }
  }

  /** Under every interleaving, in every state it passes through. */
  lemma RelayIsSafe(states: seq<State>, steps: seq<Step>, n: nat)
    requires Trace(states, steps) && n < |states|
    // only allowed command lines are executed
    ensures forall k :: 0 <= k < |states[n].log| ==> NamesCommand(states[n].log[k].argv)
    // an id is executed at most once per registration
    ensures LogDistinct(states[n].log)
    // a client that returned got the result of its own command line, or a refusal it earned
    ensures forall id :: id in states[n].clients && states[n].clients[id].wait.Returned? ==>
              Fits(states[n], id, states[n].clients[id].wait.answer)
    // a waiting client's request or response is on disk
    ensures forall id :: IsWaiting(states[n], id) ==> id in states[n].requests || id in states[n].responses
  {
    InvAlways(states, steps, n);
    forall k | 0 <= k < |states[n].log| ensures NamesCommand(states[n].log[k].argv) {
      assert LogInv(states[n], k);
      AllowedExactly(states[n].log[k].argv);
    }
    forall id | id in states[n].clients ensures ClientInv(states[n], id) {}
  }

  lemma NotScanning(states: seq<State>, steps: seq<Step>, n: nat)
    requires Trace(states, steps) && n < |states| && !states[n].registered
    ensures states[n].scanning.None?
  {
    InvAlways(states, steps, n);
  }

  /** No response is there that was not there before. */
  predicate NoNewResponse(before: State, after: State) {
    forall id :: id in after.responses ==> id in before.responses && after.responses[id] == before.responses[id]
  }

  lemma ClosedStepIsSilent(s: State, step: Step)
    requires Enabled(s, step) && !s.registered && s.scanning.None?
    ensures Apply(s, step).log == s.log && NoNewResponse(s, Apply(s, step))
  {
  }

  /** The request file of `id` holds its own id, a working directory, and a command line that may be executed. */
  predicate WellFormed(id: Id, content: Option<Body>) {
    && content.Some? && content.value.id == id && IsRelayId(id)
    && content.value.cwd != "" && NamesCommand(content.value.argv)
  }

  /** What is new to the scan: neither in flight nor answered. */
  predicate Fresh(s: State, id: Id) {
    id !in s.inFlight && id !in s.responses
  }

  /** One turn of a scan executes the fresh request it comes to exactly when that is well-formed, as it was written. */
  lemma PickedExactly(s: State)
    requires Enabled(s, NextName)
    ensures var id := s.scanning.value[0];
            Apply(s, NextName).log
            == if Fresh(s, id) && id in s.requests && WellFormed(id, s.requests[id])
               then s.log + [Execution(s.registration, id, s.requests[id].value.argv, s.requests[id].value.cwd)]
               else s.log
    ensures var id := s.scanning.value[0]; var next := Apply(s, NextName);
            && next.inFlight == s.inFlight + (if Fresh(s, id) then {id} else {})
            && |next.jobs| == |s.jobs| + (if Fresh(s, id) then 1 else 0) && next.jobs[..|s.jobs|] == s.jobs
            && (Fresh(s, id) ==>
                  next.jobs[|s.jobs|] == Job(s.registration, id,
                    if id in s.requests && WellFormed(id, s.requests[id]) then Ran(|s.log|) else Refused, Serving))
  {
    var id := s.scanning.value[0];
    if id in s.requests && s.requests[id].Some? { AllowedExactly(s.requests[id].value.argv); }
  }

  /** While a directory is not registered, nothing is executed there and no response appears. */
  lemma {:induction false} ClosedIsSilent(states: seq<State>, steps: seq<Step>, m: nat, n: nat)
    requires Trace(states, steps) && m <= n < |states|
    requires forall i :: m <= i <= n ==> !states[i].registered
    ensures states[n].log == states[m].log && NoNewResponse(states[m], states[n])
    decreases n
  {
    if m < n {
      ClosedIsSilent(states, steps, m, n - 1);
      NotScanning(states, steps, n - 1);
      ClosedStepIsSilent(states[n - 1], steps[n - 1]);
    }
  }

  lemma Extend(states: seq<State>, steps: seq<Step>, step: Step) returns (states': seq<State>, steps': seq<Step>)
    requires Trace(states, steps) && Enabled(states[|states| - 1], step)
    ensures Trace(states', steps') && |states'| > 1
    ensures states'[|states'| - 1] == Apply(states[|states| - 1], step)
  {
    states', steps' := states + [Apply(states[|states| - 1], step)], steps + [step];
  }

  // ----- Across registrations

  predicate IdsDistinct(log: seq<Execution>) {
    forall k, l :: 0 <= k < l < |log| ==> log[k].id != log[l].id
  }

  /** No request that was executed is still on disk. */
  predicate NothingLeft(s: State) {
    forall k :: 0 <= k < |s.log| ==> s.log[k].id !in s.requests
  }

  /** No id ran twice, and the running registration cannot pick up one that ran. */
  predicate RanOnce(s: State) {
    IdsDistinct(s.log) && (s.registered ==> forall k :: 0 <= k < |s.log| ==> Spent(s, s.log[k].id))
  }

  lemma StepKeepsRanOnce(s: State, step: Step)
    requires ServerInv(s) && RanOnce(s) && Enabled(s, step) && (step.Register? ==> NothingLeft(s))
    ensures RanOnce(Apply(s, step))
  {
    var next := Apply(s, step);
    if step.Clear? { assert JobInv(s, step.job); }
    if next.registered {
      forall k | 0 <= k < |next.log| ensures Spent(next, next.log[k].id) {
        if k < |s.log| { assert LogInv(s, k); }
      }
    }
  }

  /**
    Over any run, however often the directory is registered, an id is executed at most once
    if at every registration nothing that was executed is still on disk.
   */
  lemma {:induction false} OnceUnlessLeft(states: seq<State>, steps: seq<Step>, m: nat, n: nat)
    requires Trace(states, steps) && m <= n < |states| && !states[m].registered && IdsDistinct(states[m].log)
    requires forall i :: m <= i < n && steps[i].Register? ==> NothingLeft(states[i])
    ensures RanOnce(states[n])
    decreases n
  {
    if m < n {
      OnceUnlessLeft(states, steps, m, n - 1);
      InvAlways(states, steps, n - 1);
      StepKeepsRanOnce(states[n - 1], steps[n - 1]);
    }
  }

  lemma {:induction false} NothingYet(states: seq<State>, steps: seq<Step>, n: nat)
    requires Trace(states, steps) && n < |states| && forall i :: 0 <= i < n ==> !steps[i].Register?
    ensures !states[n].registered && states[n].log == []
    decreases n
  {
    if n > 0 {
      NothingYet(states, steps, n - 1);
      NotScanning(states, steps, n - 1);
    }
  }

  /** A directory that is registered at most once, as the program does it, runs no id twice. */
  lemma RegisteredOnceRunsOnce(states: seq<State>, steps: seq<Step>, n: nat)
    requires Trace(states, steps) && n < |states|
    requires forall i, j :: 0 <= i < j < |steps| && steps[i].Register? ==> !steps[j].Register?
    ensures IdsDistinct(states[n].log)
  {
    forall i | 0 <= i < n && steps[i].Register? ensures NothingLeft(states[i]) {
      NothingYet(states, steps, i);
    }
    OnceUnlessLeft(states, steps, 0, n);
  }

  /** A run that goes on from the end of another, through one registration at most. */
  predicate GoesOn(states: seq<State>, steps: seq<Step>, states': seq<State>, steps': seq<Step>) {
    && Trace(states', steps') && |states| <= |states'| && |steps| <= |steps'|
    && states == states'[..|states|] && steps == steps'[..|steps|]
    && forall i :: |steps| <= i < |steps'| ==> !steps'[i].Unregister?
  }

  /** Some way of going on executes an id a second time. */
  ghost predicate CanRunTwice(states: seq<State>, steps: seq<Step>) {
    exists states': seq<State>, steps': seq<Step> ::
      GoesOn(states, steps, states', steps') && !IdsDistinct(states'[|states'| - 1].log)
  }

  /**
    Registering a closed directory again can execute an id twice if and only if an executed
    request is still on disk.
   */
  lemma RunsTwiceExactly(states: seq<State>, steps: seq<Step>)
    requires Trace(states, steps) && !states[|states| - 1].registered && IdsDistinct(states[|states| - 1].log)
    ensures CanRunTwice(states, steps) <==> !NothingLeft(states[|states| - 1])
  {
    var s := states[|states| - 1];
    if NothingLeft(s) {
      forall states': seq<State>, steps': seq<Step> | GoesOn(states, steps, states', steps')
        ensures IdsDistinct(states'[|states'| - 1].log)
      {
        GoesOnOnce(states, steps, states', steps');
      }
    } else {
      var k :| 0 <= k < |s.log| && s.log[k].id in s.requests;
      var states', steps' := LeftoverRunsAgain(states, steps, k);
    }
  }

  lemma GoesOnOnce(states: seq<State>, steps: seq<Step>, states': seq<State>, steps': seq<Step>)
    requires GoesOn(states, steps, states', steps') && Trace(states, steps)
    requires var s := states[|states| - 1]; !s.registered && IdsDistinct(s.log) && NothingLeft(s)
    ensures IdsDistinct(states'[|states'| - 1].log)
  {
    var m := |steps|;
    assert states'[m] == states[m];
    forall i | m <= i < |steps'| && steps'[i].Register? ensures NothingLeft(states'[i]) {
      StaysClean(states', steps', m, i);
    }
    OnceUnlessLeft(states', steps', m, |states'| - 1);
  }

  lemma {:induction false} StaysClean(states: seq<State>, steps: seq<Step>, m: nat, n: nat)
    requires Trace(states, steps) && m <= n < |states| && NothingLeft(states[m])
    requires forall i :: m <= i < n ==> !steps[i].Unregister?
    ensures states[n].registered || NothingLeft(states[n])
    decreases n
  {
    if m < n {
      StaysClean(states, steps, m, n - 1);
      assert ServerInv(states[n - 1]) by { InvAlways(states, steps, n - 1); }
      StepStaysClean(states[n - 1], steps[n - 1]);
    }
  }

  lemma StepStaysClean(s: State, step: Step)
    requires ServerInv(s) && Enabled(s, step) && !step.Unregister? && (s.registered || NothingLeft(s))
    ensures Apply(s, step).registered || NothingLeft(Apply(s, step))
  {
    if !s.registered {
      ClosedStepIsSilent(s, step);
      forall k | 0 <= k < |s.log| ensures s.log[k].id !in Apply(s, step).requests {
        assert LogInv(s, k);
      }
    }
  }

  lemma {:induction false} ListOf(ids: set<Id>) returns (list: seq<Id>)
    ensures (set id | id in list) == ids
  {
    if ids == {} {
      list := [];
    } else {
      var id :| id in ids;
      var rest := ListOf(ids - {id});
      list := [id] + rest;
      assert ids == {id} + (ids - {id});
    }
  }

  /** From a closed directory that still holds an executed request: register, scan, and it runs again. */
  lemma LeftoverRunsAgain(states: seq<State>, steps: seq<Step>, k: nat) returns (states': seq<State>, steps': seq<Step>)
    requires Trace(states, steps) && !states[|states| - 1].registered
    requires k < |states[|states| - 1].log| && states[|states| - 1].log[k].id in states[|states| - 1].requests
    ensures GoesOn(states, steps, states', steps') && !IdsDistinct(states'[|states'| - 1].log)
  {
    var s := states[|states| - 1];
    var id := s.log[k].id;
    InvAlways(states, steps, |states| - 1);
    assert LogInv(s, k);
    var others := ListOf(s.requests.Keys);
    var registered := Apply(s, Register);
    var scanning := Apply(registered, BeginScan([id] + others));
    var picked := Apply(scanning, NextName);
    states' := states + [registered, scanning, picked];
    steps' := steps + [Register, BeginScan([id] + others), NextName];
    TraceGrows(states, steps, Register, BeginScan([id] + others), NextName);
    assert picked.log[k].id == picked.log[|s.log|].id;
  }

  lemma TraceGrows(states: seq<State>, steps: seq<Step>, a: Step, b: Step, c: Step)
    requires Trace(states, steps)
    requires Enabled(states[|states| - 1], a) && Enabled(Apply(states[|states| - 1], a), b)
    requires Enabled(Apply(Apply(states[|states| - 1], a), b), c)
    ensures var one := Apply(states[|states| - 1], a);
            Trace(states + [one, Apply(one, b), Apply(Apply(one, b), c)], steps + [a, b, c])
  {
  }

  /** A request that was executed once, in a directory that was closed before the answer was written. */
  predicate ClosedAfterOneRun(s: State, id: Id) {
    && !s.registered && |s.log| == 1 && s.log[0].id == id
    && s.requests == map[id := Some(Body(id, ["help"], "/"))]
  }

  lemma CloseAfterOneRun(id: Id) returns (states: seq<State>, steps: seq<Step>)
    requires IsRelayId(id)
    ensures Trace(states, steps) && |states| > 0 && ClosedAfterOneRun(states[|states| - 1], id)
  {
    states, steps := [EMPTY_STATE], [];
    states, steps := Extend(states, steps, Register);
    states, steps := Extend(states, steps, Send(id, ["help"], "/"));
    states, steps := Extend(states, steps, BeginScan([id]));
    states, steps := Extend(states, steps, NextName);
    assert |states[|states| - 1].scanning.value| == 0;
    states, steps := Extend(states, steps, EndScan);
    states, steps := Extend(states, steps, Unregister);
  }

  /** Such a state can be reached, so across registrations the same request can be executed again. */
  lemma TwiceAcrossRegistrations(id: Id) returns (states: seq<State>, steps: seq<Step>)
    requires IsRelayId(id)
    ensures Trace(states, steps) && !IdsDistinct(states[|states| - 1].log)
  {
    states, steps := CloseAfterOneRun(id);
    states, steps := LeftoverRunsAgain(states, steps, 0);
  }
}
