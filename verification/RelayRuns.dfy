/**
  What the steps of a run of the relay tell about its states (src/execution/relay-server.ts,
  src/cli/relay-client.ts): what is on disk, who is still waiting, what is in flight, and that
  every exchange can be brought to its end.
 */
module RelayRuns {
  import opened Wrappers
  import opened Relay

  // ----- What is on disk

  /** The step writes the request file of `id`. */
  predicate Writes(step: Step, id: Id) {
    (step.Send? || step.WriteRogue?) && step.id == id
  }

  function Written(step: Step): Option<Body>
    requires step.Send? || step.WriteRogue?
  {
    if step.Send? then Some(Body(step.id, step.argv, step.cwd)) else step.content
  }

  /** The step removes the request file of `id`. */
  predicate Unlinks(s: State, step: Step, id: Id) {
    step.Unlink? && step.job < |s.jobs| && s.jobs[step.job].id == id
  }

  /** The step writes the response file of `id`. */
  predicate Answers(s: State, step: Step, id: Id) {
    step.Respond? && s.registered && step.job < |s.jobs| && s.jobs[step.job].id == id
  }

  /** Step `k` of the first `n` wrote the request of `id`, and none of them has removed it since. */
  predicate WrittenAndKept(states: seq<State>, steps: seq<Step>, n: nat, id: Id, k: nat)
    requires Trace(states, steps) && n < |states|
  {
    k < n && Writes(steps[k], id) && forall l :: k < l < n ==> !Unlinks(states[l], steps[l], id)
  }

  /** Step `k` of the first `n` wrote the response of `id`, and its client has not taken it since. */
  predicate AnsweredAndKept(states: seq<State>, steps: seq<Step>, n: nat, id: Id, k: nat)
    requires Trace(states, steps) && n < |states|
  {
    k < n && Answers(states[k], steps[k], id) && forall l :: k < l < n ==> steps[l] != Read(id)
  }

  lemma FilesOf(s: State, step: Step, id: Id)
    requires Enabled(s, step)
    ensures id in Apply(s, step).requests <==> Writes(step, id) || (id in s.requests && !Unlinks(s, step, id))
    ensures id in Apply(s, step).responses <==> Answers(s, step, id) || (id in s.responses && step != Read(id))
    ensures id in Apply(s, step).used <==> Writes(step, id) || id in s.used
    ensures Writes(step, id) ==> id !in s.used && Apply(s, step).requests[id] == Written(step)
    ensures !Writes(step, id) && id in Apply(s, step).requests ==> Apply(s, step).requests[id] == s.requests[id]
  {
  }

  /** A name counts as used exactly when some step wrote its request. */
  lemma {:induction false} UsedExactly(states: seq<State>, steps: seq<Step>, n: nat, id: Id)
    requires Trace(states, steps) && n < |states|
    ensures id in states[n].used <==> exists k :: 0 <= k < n && Writes(steps[k], id)
  {
    if n > 0 {
      UsedExactly(states, steps, n - 1, id);
      FilesOf(states[n - 1], steps[n - 1], id);
    }
  }

  /** The request of `id` is on disk exactly when it was written and not removed since, and as it was written. */
  lemma {:induction false} RequestsExactly(states: seq<State>, steps: seq<Step>, n: nat, id: Id)
    requires Trace(states, steps) && n < |states|
    ensures id in states[n].requests <==> exists k: nat :: WrittenAndKept(states, steps, n, id, k)
    ensures forall k :: 0 <= k < n && Writes(steps[k], id) && id in states[n].requests ==>
              states[n].requests[id] == Written(steps[k])
  {
    if n > 0 {
      var m := n - 1;
      RequestsExactly(states, steps, m, id);
      UsedExactly(states, steps, m, id);
      FilesOf(states[m], steps[m], id);
      if k: nat :| WrittenAndKept(states, steps, m, id, k) && !Unlinks(states[m], steps[m], id) {
        assert WrittenAndKept(states, steps, n, id, k);
      }
      if Writes(steps[m], id) { assert WrittenAndKept(states, steps, n, id, m); }
      if k: nat :| WrittenAndKept(states, steps, n, id, k) {
        if k < m { assert WrittenAndKept(states, steps, m, id, k) && !Unlinks(states[m], steps[m], id); }
      }
    }
  }

  ghost predicate IsAnswered(states: seq<State>, steps: seq<Step>, n: nat, id: Id)
    requires Trace(states, steps) && n < |states|
  {
    exists k: nat :: AnsweredAndKept(states, steps, n, id, k)
  }

  lemma AnsweredStep(states: seq<State>, steps: seq<Step>, m: nat, n: nat, id: Id)
    requires Trace(states, steps) && n == m + 1 < |states|
    ensures IsAnswered(states, steps, n, id) <==>
              Answers(states[m], steps[m], id) || (IsAnswered(states, steps, m, id) && steps[m] != Read(id))
  {
    if k: nat :| AnsweredAndKept(states, steps, m, id, k) && steps[m] != Read(id) {
      assert AnsweredAndKept(states, steps, n, id, k);
    }
    if Answers(states[m], steps[m], id) { assert AnsweredAndKept(states, steps, n, id, m); }
    if k: nat :| AnsweredAndKept(states, steps, n, id, k) {
      if k < m { assert AnsweredAndKept(states, steps, m, id, k) && steps[m] != Read(id); }
    }
  }

  /** The response of `id` is on disk exactly when it was written and its client has not taken it since. */
  lemma {:induction false} ResponsesExactly(states: seq<State>, steps: seq<Step>, n: nat, id: Id)
    requires Trace(states, steps) && n < |states|
    ensures id in states[n].responses <==> IsAnswered(states, steps, n, id)
  {
    if n > 0 {
      ResponsesExactly(states, steps, n - 1, id);
      FilesOf(states[n - 1], steps[n - 1], id);
      AnsweredStep(states, steps, n - 1, n, id);
    }
  }

  // ----- Who is waiting

  lemma WaitOf(s: State, step: Step, id: Id)
    requires Enabled(s, step) && Inv(s)
    ensures id in Apply(s, step).clients <==> id in s.clients || (step.Send? && step.id == id)
    ensures step.Send? && step.id == id ==> id !in s.clients && IsWaiting(Apply(s, step), id)
    ensures id in s.clients ==>
              Apply(s, step).clients[id].wait == if step == Read(id) then Returned(s.responses[id])
                                                 else if step == GiveUp(id) then GaveUp
                                                 else s.clients[id].wait
  {
    if id in s.clients { assert ClientInv(s, id); }
  }

  /** Step `k` of the first `n` is the client taking its response, and the answer is what it found. */
  predicate Took(states: seq<State>, steps: seq<Step>, n: nat, id: Id, k: nat, answer: Answer)
    requires Trace(states, steps) && n < |states|
  {
    k < n && steps[k] == Read(id) && id in states[k].responses && states[k].responses[id] == answer
  }

  ghost predicate TookIt(states: seq<State>, steps: seq<Step>, n: nat, id: Id, answer: Answer)
    requires Trace(states, steps) && n < |states|
  {
    exists k: nat :: Took(states, steps, n, id, k, answer)
  }

  predicate LeftOff(steps: seq<Step>, n: nat, id: Id)
    requires n <= |steps|
  {
    exists k :: 0 <= k < n && steps[k] == GiveUp(id)
  }

  /** A client has returned, or has given up, exactly when it took that step, and with the answer it found. */
  lemma {:induction false} WaitExactly(states: seq<State>, steps: seq<Step>, n: nat, id: Id)
    requires Trace(states, steps) && n < |states| && id in states[n].clients
    ensures states[n].clients[id].wait.GaveUp? <==> LeftOff(steps, n, id)
    ensures forall answer ::
              states[n].clients[id].wait == Returned(answer) <==> TookIt(states, steps, n, id, answer)
  {
    if n > 0 {
      var m := n - 1;
      InvAlways(states, steps, m);
      WaitOf(states[m], steps[m], id);
      if id in states[m].clients {
        WaitExactly(states, steps, m, id);
        WaitStep(states, steps, m, id);
      } else {
        NotSentYet(states, steps, m, id);
      }
    }
  }

  lemma {:induction false} NotSentYet(states: seq<State>, steps: seq<Step>, n: nat, id: Id)
    requires Trace(states, steps) && n < |states| && id !in states[n].clients
    ensures forall k :: 0 <= k < n ==> steps[k] != Read(id) && steps[k] != GiveUp(id)
  {
    if n > 0 {
      InvAlways(states, steps, n - 1);
      WaitOf(states[n - 1], steps[n - 1], id);
      NotSentYet(states, steps, n - 1, id);
    }
  }

  lemma WaitStep(states: seq<State>, steps: seq<Step>, m: nat, id: Id)
    requires Trace(states, steps) && m + 1 < |states| && Inv(states[m]) && id in states[m].clients
    requires states[m].clients[id].wait.GaveUp? <==> LeftOff(steps, m, id)
    requires forall answer ::
               states[m].clients[id].wait == Returned(answer) <==> TookIt(states, steps, m, id, answer)
    ensures id in states[m + 1].clients
    ensures states[m + 1].clients[id].wait.GaveUp? <==> LeftOff(steps, m + 1, id)
    ensures forall answer ::
              states[m + 1].clients[id].wait == Returned(answer) <==> TookIt(states, steps, m + 1, id, answer)
  {
    WaitOf(states[m], steps[m], id);
    forall answer
      ensures states[m + 1].clients[id].wait == Returned(answer) <==> TookIt(states, steps, m + 1, id, answer)
    {
      TookStep(states, steps, m, m + 1, id, answer);
    }
  }

  lemma TookStep(states: seq<State>, steps: seq<Step>, m: nat, n: nat, id: Id, answer: Answer)
    requires Trace(states, steps) && n == m + 1 < |states|
    ensures TookIt(states, steps, n, id, answer) <==>
              TookIt(states, steps, m, id, answer) || Took(states, steps, n, id, m, answer)
  {
    if k: nat :| Took(states, steps, m, id, k, answer) { assert Took(states, steps, n, id, k, answer); }
    if k: nat :| Took(states, steps, n, id, k, answer) {
      if k < m { assert Took(states, steps, m, id, k, answer); }
    }
  }

  // ----- What is in flight

  /** Job `j` is one of this registration that has not been cleared. */
  predicate Open(s: State, j: nat, id: Id) {
    j < |s.jobs| && s.jobs[j].id == id && s.jobs[j].registration == s.registration && s.jobs[j].stage != Cleared
  }

  /** What is in flight is exactly the open jobs, one for each name. */
  ghost predicate FlightInv(s: State) {
    && (forall id :: id in s.inFlight <==> exists j: nat :: Open(s, j, id))
    && (forall i: nat, j: nat, id :: Open(s, i, id) && Open(s, j, id) ==> i == j)
  }

  lemma StepKeepsFlight(s: State, step: Step)
    requires ServerInv(s) && FlightInv(s) && Enabled(s, step)
    ensures FlightInv(Apply(s, step))
  {
    var next := Apply(s, step);
    match step
    case Register =>
      forall j: nat, id ensures !Open(next, j, id) {
        if j < |s.jobs| { assert JobInv(s, j); }
      }
    case NextName => PickKeepsFlight(s.(scanning := Some(s.scanning.value[1..])), s.scanning.value[0]) by {
      SameFlight(s, s.(scanning := Some(s.scanning.value[1..])));
    }
    case Respond(job) => StagedKeepsFlight(s, next, job);
    case Unlink(job) => StagedKeepsFlight(s, next, job);
    case Clear(job) => ClearKeepsFlight(s, job);
    case _ => SameFlight(s, next);
  }

  lemma SameFlight(s: State, next: State)
    requires FlightInv(s) && next.jobs == s.jobs && next.registration == s.registration && next.inFlight == s.inFlight
    ensures FlightInv(next)
  {
    forall j: nat, id ensures Open(next, j, id) <==> Open(s, j, id) {}
  }

  lemma StagedKeepsFlight(s: State, next: State, job: nat)
    requires FlightInv(s) && next.registration == s.registration && next.inFlight == s.inFlight
    requires job < |s.jobs| && |next.jobs| == |s.jobs|
    requires s.jobs[job].stage != Cleared && next.jobs[job].stage != Cleared
    requires next.jobs == s.jobs[job := s.jobs[job].(stage := next.jobs[job].stage)]
    ensures FlightInv(next)
  {
    forall j: nat, id ensures Open(next, j, id) <==> Open(s, j, id) {}
  }

  lemma ClearKeepsFlight(s: State, job: nat)
    requires FlightInv(s) && Enabled(s, Clear(job))
    ensures FlightInv(Apply(s, Clear(job)))
  {
    var next := Apply(s, Clear(job));
    forall j: nat, id ensures Open(next, j, id) <==> Open(s, j, id) && j != job {}
    forall id ensures id in next.inFlight <==> exists j: nat :: Open(next, j, id) {
      if j: nat :| Open(next, j, id) {
        assert Open(s, j, id);
        assert Open(s, job, id) ==> j == job;
      }
      if id in next.inFlight {
        var j: nat :| Open(s, j, id);
        assert Open(next, j, id);
      }
    }
  }

  lemma PickKeepsFlight(s: State, id: Id)
    requires FlightInv(s)
    ensures FlightInv(Pick(s, id))
  {
    var next := Pick(s, id);
    if next != s {
      var n := |s.jobs|;
      forall j: nat, other ensures Open(next, j, other) <==> Open(s, j, other) || (j == n && other == id) {}
      assert Open(next, n, id);
      forall other ensures other in next.inFlight <==> exists j: nat :: Open(next, j, other) {
        if other in s.inFlight {
          var j: nat :| Open(s, j, other);
          assert Open(next, j, other);
        }
      }
    }
  }

  /** In every state of a run the names in flight are exactly those of the open jobs, and no two of these share one. */
  lemma {:induction false} InFlightExactly(states: seq<State>, steps: seq<Step>, n: nat)
    requires Trace(states, steps) && n < |states|
    ensures FlightInv(states[n])
  {
    if n > 0 {
      InFlightExactly(states, steps, n - 1);
      InvAlways(states, steps, n - 1);
      StepKeepsFlight(states[n - 1], steps[n - 1]);
    }
  }

  // ----- Each job is answered once

  lemma JobMovesOn(s: State, step: Step, j: nat)
    requires Enabled(s, step) && j < |s.jobs|
    ensures var next := Apply(s, step);
            && j < |next.jobs| && next.jobs[j].id == s.jobs[j].id && next.jobs[j].answer == s.jobs[j].answer
            && (s.jobs[j].stage != Serving ==> next.jobs[j].stage != Serving)
  {
  }

  /** A job that is no longer being served never is again, and its name and answer stand. */
  lemma {:induction false} JobsMoveOn(states: seq<State>, steps: seq<Step>, m: nat, n: nat, j: nat)
    requires Trace(states, steps) && m <= n < |states| && j < |states[m].jobs|
    ensures j < |states[n].jobs| && states[n].jobs[j].id == states[m].jobs[j].id
    ensures states[n].jobs[j].answer == states[m].jobs[j].answer
    ensures states[m].jobs[j].stage != Serving ==> states[n].jobs[j].stage != Serving
    decreases n
  {
    if m < n {
      JobsMoveOn(states, steps, m, n - 1, j);
      JobMovesOn(states[n - 1], steps[n - 1], j);
    }
  }

  /** No job writes its response twice. */
  lemma RespondsOnce(states: seq<State>, steps: seq<Step>, k: nat, l: nat, job: nat)
    requires Trace(states, steps) && k < l < |steps| && steps[k] == Respond(job)
    ensures steps[l] != Respond(job)
  {
    JobsMoveOn(states, steps, k + 1, l, job);
  }

  // ----- Every exchange can be brought to its end

  /** The steps can be taken from `s`, one after another. */
  predicate Runs(s: State, steps: seq<Step>)
    decreases |steps|
  {
    steps == [] || (Enabled(s, steps[0]) && Runs(Apply(s, steps[0]), steps[1..]))
  }

  function After(s: State, steps: seq<Step>): State
    requires Runs(s, steps)
    decreases |steps|
  {
    if steps == [] then s else After(Apply(s, steps[0]), steps[1..])
  }

  lemma {:induction false} RunsOn(s: State, a: seq<Step>, b: seq<Step>)
    requires Runs(s, a) && Runs(After(s, a), b)
    ensures Runs(s, a + b) && After(s, a + b) == After(After(s, a), b)
    decreases |a|
  {
    if a == [] {
      assert a + b == b;
    } else {
      assert (a + b)[0] == a[0] && (a + b)[1..] == a[1..] + b;
      RunsOn(Apply(s, a[0]), a[1..], b);
    }
  }

  lemma RunsFirst(s: State, step: Step, rest: seq<Step>)
    requires Enabled(s, step) && Runs(Apply(s, step), rest)
    ensures Runs(s, [step] + rest) && After(s, [step] + rest) == After(Apply(s, step), rest)
  {
    assert ([step] + rest)[1..] == rest;
  }

  /** Steps of the server, or the client of `id` taking its response. */
  predicate ServeOnly(steps: seq<Step>, id: Id) {
    forall step :: step in steps ==> step == Read(id) || !(step.Send? || step.WriteRogue? || step.Read? || step.GiveUp?
                                                         || step.Register? || step.Unregister?)
  }

  /** The server is between two turns. */
  predicate Idle(s: State) {
    s.registered && s.scanning.None? && s.answering.None?
  }

  /** The client has the answer it is due, and no file of the exchange is left behind. */
  predicate Completed(s: State, id: Id) {
    && Idle(s) && id in s.clients && s.clients[id].wait.Returned? && Fits(s, id, s.clients[id].wait.answer)
    && id !in s.requests && id !in s.responses
  }

  ghost predicate AllInv(s: State) {
    Inv(s) && FlightInv(s)
  }

  lemma StepKeepsAll(s: State, step: Step)
    requires AllInv(s) && Enabled(s, step)
    ensures AllInv(Apply(s, step))
  {
    StepKeepsInv(s, step);
    StepKeepsFlight(s, step);
  }

  /** What a scan leaves as it was: the files, the clients, and what was in flight. */
  predicate ScanKeeps(s: State, next: State) {
    && next.requests == s.requests && next.responses == s.responses && next.clients == s.clients
    && s.inFlight <= next.inFlight
  }

  lemma OneName(s: State)
    requires Enabled(s, NextName)
    ensures var next := Apply(s, NextName);
            && ScanKeeps(s, next) && next.registered == s.registered && next.answering == s.answering
            && next.scanning == Some(s.scanning.value[1..])
            && (s.scanning.value[0] in next.inFlight || s.scanning.value[0] in next.responses)
  {
  }

  /** A scan that has begun can be finished, and then every name it listed is in flight or answered. */
  lemma {:induction false} ScanFinishes(s: State, id: Id) returns (steps: seq<Step>)
    requires AllInv(s) && s.scanning.Some? && s.answering.None?
    ensures Runs(s, steps) && ServeOnly(steps, id)
    ensures var next := After(s, steps);
            && AllInv(next) && Idle(next) && ScanKeeps(s, next)
            && forall name :: name in s.scanning.value ==> name in next.inFlight || name in next.responses
    decreases |s.scanning.value|
  {
    if s.scanning.value == [] {
      steps := [EndScan] + [];
      StepKeepsAll(s, EndScan);
      RunsFirst(s, EndScan, []);
    } else {
      OneName(s);
      StepKeepsAll(s, NextName);
      var rest := ScanFinishes(Apply(s, NextName), id);
      steps := [NextName] + rest;
      RunsFirst(s, NextName, rest);
      forall name | name in s.scanning.value
        ensures name in After(s, steps).inFlight || name in After(s, steps).responses
      {
        assert name == s.scanning.value[0] || name in s.scanning.value[1..];
      }
    }
  }

  /** The state after the server has answered job `j` and cleared it. */
  lemma JobCleared(s: State, j: nat, id: Id)
    requires AllInv(s) && Idle(s) && IsWaiting(s, id) && Open(s, j, id) && s.jobs[j].stage.Serving?
    ensures Runs(s, [Respond(j)] + ([Unlink(j)] + ([Clear(j)] + [])))
    ensures var next := After(s, [Respond(j)] + ([Unlink(j)] + ([Clear(j)] + [])));
            && Idle(next) && next.clients == s.clients && next.log == s.log
            && id !in next.requests && id !in next.inFlight
            && id in next.responses && next.responses[id] == s.jobs[j].answer
  {
    var one := Apply(s, Respond(j));
    var two := Apply(one, Unlink(j));
    RunsFirst(two, Clear(j), []);
    RunsFirst(one, Unlink(j), [Clear(j)] + []);
    RunsFirst(s, Respond(j), [Unlink(j)] + ([Clear(j)] + []));
  }

  /** The open job of a waiting client is still being served, and holds the answer it is due. */
  lemma OpenJobOf(s: State, id: Id) returns (j: nat)
    requires AllInv(s) && Idle(s) && IsWaiting(s, id) && id !in s.responses && id in s.inFlight
    ensures Open(s, j, id) && s.jobs[j].stage.Serving? && Fits(s, id, s.jobs[j].answer)
  {
    j :| Open(s, j, id);
    assert JobInv(s, j) && ClientInv(s, id) && JobFits(s, id, j);
  }

  /** The four steps that remain of an exchange whose job is open. */
  lemma OpenJobCompletes(s: State, id: Id) returns (steps: seq<Step>)
    requires AllInv(s) && Idle(s) && IsWaiting(s, id) && id !in s.responses && id in s.inFlight
    ensures Runs(s, steps) && ServeOnly(steps, id)
    ensures Completed(After(s, steps), id) && id !in After(s, steps).inFlight
  {
    var j := OpenJobOf(s, id);
    var serve := [Respond(j)] + ([Unlink(j)] + ([Clear(j)] + []));
    JobCleared(s, j, id);
    RunsFirst(After(s, serve), Read(id), []);
    RunsOn(s, serve, [Read(id)] + []);
    steps := serve + ([Read(id)] + []);
  }

  /** With its request on disk and not in flight, one scan opens the job of an exchange. */
  lemma ScanOpensJob(s: State, id: Id) returns (steps: seq<Step>)
    requires AllInv(s) && Idle(s) && IsWaiting(s, id) && id !in s.responses
    ensures Runs(s, steps) && ServeOnly(steps, id)
    ensures var next := After(s, steps);
            AllInv(next) && Idle(next) && IsWaiting(next, id) && id !in next.responses && id in next.inFlight
  {
    assert ClientInv(s, id);
    var ids := ListOf(s.requests.Keys);
    StepKeepsAll(s, BeginScan(ids));
    var rest := ScanFinishes(Apply(s, BeginScan(ids)), id);
    assert id in ids by { assert id in set name | name in ids; }
    steps := [BeginScan(ids)] + rest;
    RunsFirst(s, BeginScan(ids), rest);
  }

  /**
    Whatever happened before, whenever the server is idle every waiting client can still be
    given the answer it is due, by nothing but the server's own turns and its reading the
    response; its files are gone then, and so is its name from what is in flight, unless an
    earlier answer was still waiting to be read.
   */
  lemma EveryExchangeCanComplete(states: seq<State>, steps: seq<Step>, n: nat, id: Id) returns (more: seq<Step>)
    requires Trace(states, steps) && n < |states| && Idle(states[n]) && IsWaiting(states[n], id)
    ensures Runs(states[n], more) && ServeOnly(more, id) && Completed(After(states[n], more), id)
    ensures id !in states[n].responses ==> id !in After(states[n], more).inFlight
  {
    var s := states[n];
    InvAlways(states, steps, n);
    InFlightExactly(states, steps, n);
    if id in s.responses {
      assert ClientInv(s, id);
      more := [Read(id)] + [];
      RunsFirst(s, Read(id), []);
    } else {
      var scan := ScanOpensJob(s, id);
      var rest := OpenJobCompletes(After(s, scan), id);
      more := scan + rest;
      RunsOn(s, scan, rest);
    }
  }

  /** Whenever the server is neither scanning nor answering, any job can be brought to its end. */
  lemma EveryJobCanFinish(states: seq<State>, steps: seq<Step>, n: nat, j: nat) returns (more: seq<Step>)
    requires Trace(states, steps) && n < |states| && j < |states[n].jobs|
    requires states[n].scanning.None? && states[n].answering.None?
    ensures Runs(states[n], more)
    ensures j < |After(states[n], more).jobs| && After(states[n], more).jobs[j].stage == Cleared
  {
    var s := states[n];
    InvAlways(states, steps, n);
    assert JobInv(s, j);
    match s.jobs[j].stage
    case Cleared => more := [];
    case Serving =>
      var one := Apply(s, Respond(j));
      if s.registered {
        var two := Apply(one, Unlink(j));
        RunsFirst(two, Clear(j), []);
        RunsFirst(one, Unlink(j), [Clear(j)] + []);
        RunsFirst(s, Respond(j), [Unlink(j)] + ([Clear(j)] + []));
        more := [Respond(j)] + ([Unlink(j)] + ([Clear(j)] + []));
      } else {
        RunsFirst(one, Clear(j), []);
        RunsFirst(s, Respond(j), [Clear(j)] + []);
        more := [Respond(j)] + ([Clear(j)] + []);
      }
    case _ =>
      RunsFirst(s, Clear(j), []);
      more := [Clear(j)] + [];
  }

  // ----- What a scan looks at

  /** Step `k` comes to `id` in the scan. */
  predicate Visits(states: seq<State>, steps: seq<Step>, k: nat, id: Id) {
    && k < |steps| < |states| && steps[k] == NextName && states[k].scanning.Some?
    && states[k].scanning.value != [] && states[k].scanning.value[0] == id
  }

  ghost predicate VisitedBetween(states: seq<State>, steps: seq<Step>, b: nat, n: nat, id: Id) {
    exists k: nat :: b < k < n && Visits(states, steps, k, id)
  }

  /** How far a scan that began at step `b` has come by state `n`: the rest of its list is still to be visited. */
  lemma {:induction false} ScanComesAlong(states: seq<State>, steps: seq<Step>, b: nat, n: nat, ids: seq<Id>)
    returns (visited: nat)
    requires Trace(states, steps) && b < n < |states| && steps[b] == BeginScan(ids)
    requires forall l :: b < l < n ==> steps[l] != EndScan
    ensures visited <= |ids| && states[n].scanning == Some(ids[visited..])
    ensures forall p :: 0 <= p < visited ==> VisitedBetween(states, steps, b, n, ids[p])
    decreases n
  {
    if n == b + 1 {
      visited := 0;
    } else {
      var m := n - 1;
      var before := ScanComesAlong(states, steps, b, m, ids);
      visited := before;
      if steps[m] == NextName {
        visited := before + 1;
        assert Visits(states, steps, m, ids[before]);
        assert ids[before..][1..] == ids[before + 1..];
      }
      forall p | 0 <= p < before ensures VisitedBetween(states, steps, b, n, ids[p]) {
        var k: nat :| b < k < m && Visits(states, steps, k, ids[p]);
      }
    }
  }

  /** A scan that has ended has come to every name on its list, and each was in flight or answered then. */
  lemma ScanVisitsAll(states: seq<State>, steps: seq<Step>, b: nat, e: nat, ids: seq<Id>, id: Id) returns (k: nat)
    requires Trace(states, steps) && b < e < |steps| && steps[b] == BeginScan(ids) && steps[e] == EndScan
    requires forall l :: b < l < e ==> steps[l] != EndScan
    requires id in ids
    ensures b < k < e && Visits(states, steps, k, id)
    ensures id in states[k + 1].inFlight || id in states[k + 1].responses
  {
    var visited := ScanComesAlong(states, steps, b, e, ids);
    var p :| 0 <= p < |ids| && ids[p] == id;
    assert VisitedBetween(states, steps, b, e, ids[p]);
    k :| b < k < e && Visits(states, steps, k, ids[p]);
    OneName(states[k]);
  }
}
