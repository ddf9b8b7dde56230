# Verified model of alp-code

alp-code launches coding agents under policy. This project models the parts of it whose
correctness does not depend on I/O and proves what they promise, in Dafny.

- **Write ownership over a path tree** (`Paths`, `Assignment`, `Policy`, `DenyList`,
  `Delegation`, `Launches`). Paths are sequences of names. The program orders them by `within`,
  and on that order rest the assignment algebra, the launch decision, the list of denied siblings
  a runtime is given, and the refusal of two live writers on one path over whole runs of a
  delegation tree, also for runs in which every child was let through by policy. On disk a path
  lies in a subtree when the root is a prefix of it; `within` says so except across a name that
  starts with two dots. Each result is stated in both readings where they differ.
- **Graph searches** (`Registry`, `Workflow`). The depth-first search for delegation cycles and
  the breadth-first search for unreachable workflow states, each proved exact.
- **The relay** (`Relay`, `RelayRuns`). Sandboxed clients and one serving process exchange files;
  every interleaving of their file operations is a run of a state machine.
- **Context across executions** (`ThreadContext`, `Seeding`, `CheckpointJson`, `Continuity`,
  `CompactJournal`). The projection of a Thread's context with its staged cutting, the checkpoint
  the next execution is seeded with, its JSON and its 24 KiB rendering, and the fold of the
  compaction journal.
- **Evidence and usage** (`Evidence`, `Attempts`, `Usage`). Who else could have written, what
  repeated collection can change, collections that throw half-way, and token counting over
  arbitrary slices of a transcript.
- **The installer** (`Update`). Switching the `current` pointer with a roll-back when any step
  fails.

`dafny verify dfyconfig.toml` checks the whole project.

Where a promise does not hold of the code as it stands, the code is modelled as it is, a lemma
gives an input that shows it, and another lemma states exactly when the promise holds:

- the deny list is exact if and only if no listed entry is cut off from all write roots by
  names that start with two dots (`DenyListExact`, `DottedRootIsDenied`), and with exclusions a
  single path is refused rightly if and only if none on the way to it is (`RefusedExactly`);
- a write launch that is not denied keeps out of the protected subtrees if and only if every
  protected root that is comparable with a root of the child is so without a dotted name between
  them (`ProtectedExactly`; `DottedScopeIsGranted` and `DottedProtectionIsIgnored` fail it);
- `ownsPath` agrees with what lies on disk except for paths cut off from every owned root, or
  from every exclusion above them, by dotted names (`OwnershipPartsExactly`, `DottedExclusionLeaks`);
- the overlap test passes over a shared path if and only if two roots meet on disk while the
  workspaces, or all meeting pairs it can see, give it no collision (`OverlapMissesExactly`,
  `DottedSiblingIsMissed`);
- two unrelated writers share a path if and only if one was materialized between the check and
  the snapshot of another that owns one of its paths or, on disk, a check had missed a running
  writer (`MaterializeExact`, `RunExact`, `RacedRunShares`, `DottedSiblingsShare`);
- an observed git change is the target's alone on disk if and only if no rival was overlooked for
  the same reasons (`ObservedOnDiskExactly`);
- an exclusion can swallow an owned root whole: it is refused as covering only when that root
  lies in no other owned root (`ExclusionJudged`, `ExclusionsAcceptedExactly`). Both rest on
  the sorting of scopes before `decide` (`SortedIsParentsFirst`); `decide` alone would let the
  order of the roots decide in exactly the cases that `OrderMattersExactly` names;
- a child can own what its launcher had excluded: down a chain of scoped launchers ownership
  shrinks if and only if every launch repeats the exclusions that touch its roots
  (`OwnershipShrinksExactly`, `ExclusionsAreNotCarried`);
- a relay request can be executed again after its directory was closed and registered anew, if
  and only if an executed request was left on disk (`RunsTwiceExactly`,
  `TwiceAcrossRegistrations`). The three callers of `register` (src/cli/commands/run-main.ts:275,
  src/delegation/delegation-service.ts:617, src/backend/local-supervisor.ts:182) register the
  directory of an execution once, and then no id ever runs twice (`RegisteredOnceRunsOnce`);
- slices count the same lines as one pass, and so the same tokens at any price, if and only if
  every cut is clean: the first line of the slice is skipped exactly for a message that was
  carried before (`AgreementExactly`, `InterruptedMessageCountsTwice`);
- tool calls survive slicing, too, if and only if moreover no line counts at all, or every slice
  that counts none had no tool entry (`ToolCallsAgreeExactly`, `ToolCallLost`);
- a pin of the newest execution survives every cut if and only if it is a next action or no
  other execution already holds its text, although the comment above `bound` says its lines
  never fall (`PinSurvivesExactly`, `RepeatedPinCanBeCut`); next actions above the limit are
  enough to make it fall for every size that counts them (`RepeatedPinIsCut`);
- a verify run is repeated only if the collection it finished in threw, and then always is
  (`RepeatedOnlyAfterThrow`, `ThrownRunIsRepeated`); a record shows every entry that was read if
  and only if no collection that threw had read one (`NothingLostExactly`);
- two lines with one key are of one compaction if and only if neither session extends the other
  past a bar or stands in for its absence, and both are identified in the same way
  (`KeysIdentify`, `SessionsCollideExactly`, `BarsCollide`, `KindsShareSpellings`). A replayed
  line never carries an ordinal (src/context/compact-journal.ts:118-125), so the two ways that
  can meet in a journal are a runtime's id and a time of observation;
- an execution whose policy is unreadable is named as ambiguous unless the first name of the
  target's workspace starts with two dots (`UnreadableIsAmbiguous`).

## Model

| member | source | states |
|---|---|---|
| Paths.WithinIsTheSourceTest | src/policy/workspace-policy.ts:17-21 | On canonical names, the string test on Node's `relative` holds exactly when the root is a prefix of the target and the next name does not start with two dots. |
| Paths.RelativeLeads | src/policy/workspace-policy.ts:17-21 | That string, split at its slashes and followed from the root, leads to the target. |
| Paths.WithinTransitive | src/policy/workspace-policy.ts:17-21 | `within` is transitive, dotted names included. |
| Paths.WithinComparable | src/policy/workspace-policy.ts:17-21 | Two roots of one path are nested one way or the other. |
| Paths.PlainlyIsWithin | src/policy/workspace-policy.ts:17-21 | `within` holds one way or the other exactly for comparable paths without a dotted name after the shorter one. |
| Assignment.SharedRegion | src/execution/assignment.ts:42-53 | Finds a region exactly when the assignments overlap; the region is owned by both sides, and is the meeting point of the first colliding pair of roots in scan order. |
| Assignment.OverlapExact | src/execution/assignment.ts:34-53 | With every write root inside its workspace, an overlap is found if and only if some path is owned by both sides. |
| Assignment.OverlapExactWhateverTheRoots | src/execution/assignment.ts:42-53 | Without that discipline, exactly the shared paths of unrelated workspaces are missed. |
| Assignment.OwnsOnlyExactly | src/execution/assignment.ts:24-32 | As the test reads paths and on disk: among two scopes whose roots are nested, the inner one owns only what the outer one owns if and only if wherever its roots meet an exclusion of the outer one it excluded the meeting point itself. |
| Assignment.ShareOnDiskExactly | src/execution/assignment.ts:34-53 | Two scopes have a path in common on disk if and only if some comparable pair of roots has its deeper one owned by both. |
| Assignment.OverlapMissesExactly | src/execution/assignment.ts:42-53 | The overlap test passes over a path shared on disk if and only if roots meet on disk and the workspaces are not plainly nested or every plainly comparable pair of roots has its deeper one excluded. |
| Assignment.PlainRootsAreNotMissed | src/execution/assignment.ts:42-53 | Between scopes whose roots hold no dotted name, nothing is missed, whatever their exclusions. |
| Assignment.DottedSiblingIsMissed | src/execution/assignment.ts:42-53 | Two scopes of one workspace, the one inside the other, that the test finds disjoint. |
| Assignment.OwnershipPartsExactly | src/execution/assignment.ts:28-32 | `ownsPath` and ownership on disk disagree on a path if and only if it is owned on disk but cut off from every owned root, or owned by the test but cut off from every exclusion above it. |
| Assignment.DottedExclusionLeaks | src/execution/assignment.ts:28-32 | A path inside an excluded subtree, behind a dotted name, that `ownsPath` still counts as owned. |
| Policy.DecideWriteScope | src/policy/policy-engine.ts:134-171 | The entry loop returns the denial of the first failing entry, the workspace asked before the protected roots and the launcher's scope asked last. |
| Policy.DecideExcludeScope | src/policy/policy-engine.ts:179-216 | The exclusion loop returns the denial of the first entry that lies in no owned root or equals the first root that contains it. |
| Policy.DecideParentScope | src/policy/policy-engine.ts:222-246 | Denies exactly when the launcher is scoped and some entry is in none of its roots. |
| Policy.WriteScopeAcceptedExactly | src/policy/policy-engine.ts:128-171 | A write scope is accepted if and only if every single path `within` an entry is `within` the workspace, within no protected root, and within the launcher's scope. |
| Policy.LaunchAcceptedExactly | src/policy/policy-engine.ts:71-126 | A write launch whose paths resolve escapes denial if and only if the role may work at its workspace, every path under the asked-for roots is grantable, every exclusion lies strictly below the first root that contains it, and the workspace is in the launcher's root or project; it needs no approval exactly in the root. |
| Policy.IdentityDecidesExactly | src/policy/workspace-policy.ts:68-117 | A role may work at a path if and only if it is known, the path resolves, it lies in the active workspace when delegated and under a declared read root, and for a write the execution may write and the path lies under a declared write root; each other denial is returned in exactly its own case, read-only before resolution before scope. |
| Policy.RootsAtExactly | src/policy/workspace-policy.ts:37-54 | A path is under the declared roots of a role exactly when some absolute one, or some relative one taken from the active workspace, has it `within`. |
| Policy.ReadLaunchDecidedExactly | src/policy/policy-engine.ts:111-125 | A read launch without scopes is allowed if and only if the role may work there and its target lies in the launcher's root, needs approval for that target if and only if it lies in the project alone, and is denied in every other case. |
| Policy.ReadScopeDenied | src/policy/policy-engine.ts:129-131 | A scope on a read request is denied, as a write scope if there is one. |
| Policy.LaunchIsConfined | src/policy/policy-engine.ts:71-126 | A write launch that is not denied, scoped or not, owns, by `within`, only paths of its workspace, of the role's read and write roots, of the active workspace when delegated, and of the launcher's root or project, within no protected root and within the launcher's scope. |
| Policy.ConfinedOnDisk | src/policy/policy-engine.ts:71-126 | On disk as well, whatever the names, all that lies below its roots lies in the workspace, the role's roots, the launcher's scope and the launcher's root or project. |
| Policy.ProtectedExactly | src/policy/policy-engine.ts:35-43 | Of a write launch that is not denied, nothing below an owned root lies below a protected root on disk if and only if every protected root comparable with an owned root is plainly comparable. |
| Policy.OwnsNothingProtectedExactly | src/policy/policy-engine.ts:35-43 | With its exclusions taken off, the child owns nothing protected on disk if and only if it excluded the deeper of every comparable pair of an owned and a protected root. |
| Policy.DottedScopeIsGranted | src/policy/policy-engine.ts:248-251 | A write scope behind a dotted name inside a protected root is let through. |
| Policy.DottedProtectionIsIgnored | src/policy/policy-engine.ts:248-251 | An unscoped write launch over a protected root with a dotted name is let through. |
| Policy.RegionsOnlyShrink | src/policy/policy-engine.ts:218-246 | Along any chain of launches, what a later child may write lies in the region of every earlier launch from which on all launchers are scoped. |
| Policy.OwnershipShrinksExactly | src/policy/policy-engine.ts:218-246 | As the test reads paths and on disk: down any chain of scoped launchers every later child owns only what every earlier launch owns if and only if each single launch repeats the exclusions of its launcher that touch its roots. |
| Policy.ExclusionsAreNotCarried | src/policy/policy-engine.ts:218-246 | The condition can fail: two launches, neither denied, that hand a child a path its launcher had excluded. |
| Policy.ExclusionLeavesSomething | src/policy/policy-engine.ts:173-216 | After an accepted exclude scope the child owns some path, by the test and on disk, if and only if its write scope was not empty. |
| Policy.TextIsThePath | src/execution/execution-service.ts:203-217 | The string a scope is sorted by is the absolute path. |
| Policy.SortedIsParentsFirst | src/execution/execution-service.ts:203-217 | A write scope, sorted as strings before it is judged, lists every root before the roots inside it. |
| Policy.ExclusionsAcceptedExactly | src/policy/policy-engine.ts:198-213 | For every such scope an exclude scope is accepted if and only if each entry lies strictly below some owned root. |
| Policy.ExclusionJudged | src/policy/policy-engine.ts:198-213 | With parents first, an exclusion is outside when no root contains it, covering exactly when it is an owned root that lies in no other, and accepted otherwise, nested owned roots included. |
| Policy.OrderMattersExactly | src/policy/policy-engine.ts:198-213 | `decide` alone judges an exclusion differently under some reordering of the same roots if and only if it is an owned root that lies strictly inside another. |
| DenyList.Ancestors | src/runtime/permission-rules.ts:95-101 | The climb collects exactly the directories from the workspace down to the parent of some kept root. |
| DenyList.WriteScopeDenyPaths | src/runtime/permission-rules.ts:88-110 | The denied set is exactly the listed entries that are not on the way to or inside a kept root. |
| DenyList.DenyListExact | src/runtime/permission-rules.ts:74-110 | On any tree, with a write root in the workspace, the existing paths at or below a denied entry are exactly those neither inside a write root nor above one, if and only if every listed entry comparable with a root is comparable with some kept root without a name that starts with two dots after the shorter of the two. |
| DenyList.NothingMissed | src/runtime/permission-rules.ts:79-86 | Whatever the names, every existing path outside the roots is at or below a denied entry. |
| DenyList.ExactWithoutDottedNames | src/runtime/permission-rules.ts:88-110 | When no name below the workspace starts with two dots, the list is exact for every scope. |
| DenyList.DottedRootIsDenied | src/runtime/permission-rules.ts:69-72 | With such a name, the way to a write root is itself denied. |
| DenyList.ClaudeDenyPaths | src/runtime/claude-adapter.ts:98-106 | The denied paths of a write launch are exactly the siblings of its write scope, if it has one, and its exclusions. |
| DenyList.RefusedExactly | src/runtime/claude-adapter.ts:90-106 | An existing path of the workspace, private memory aside, is refused exactly when the child neither owns it on disk nor must pass it unexcluded on the way to an owned root, if and only if that is so anyway or every listed entry at or above the path is plainly comparable with a kept root. |
| DenyList.RefusedOnPlainTrees | src/runtime/claude-adapter.ts:90-106 | On trees and scopes without dotted names this is exact for every path, and ownership is that of `ownsPath`. |
| Delegation.RefuseScopeOverlap | src/delegation/delegation-service.ts:661-699 | Refuses exactly when a running writer that is neither the node nor an ancestor overlaps it, and names a region both own. |
| Delegation.StepKeepsInv | src/delegation/delegation-service.ts:546-611 | Every interleaved reserve, check, snapshot or settle keeps: a checked node is clear of all running writers except those materialized since its check. |
| Delegation.MaterializeExact | src/delegation/delegation-service.ts:661-699 | Writing a snapshot keeps all unrelated live writers disjoint if and only if no rival materialized since the check owns one of the node's paths and, on disk, the check missed no running writer. |
| Delegation.RunExact | src/delegation/delegation-service.ts:661-699 | Over any run, as the test reads paths and on disk, unrelated live writers own no common path in any state if and only if no materialization was raced and, on disk, no check had missed a running writer. |
| Delegation.SerialRunsAreSafe | src/delegation/delegation-service.ts:661-699 | With check and snapshot taken as one step, no run ever lets two unrelated live writers own a common path by the test; on disk none does if and only if no check missed a writer, and never while all roots are free of dotted names. |
| Delegation.TurnsAreSerial | src/delegation/delegation-service.ts:505-611 | Delegations that each go from reservation to snapshot or refusal without interruption, with nodes settling in between, form such a run. |
| Delegation.TurnsAreSafe | src/delegation/delegation-service.ts:505-611 | So with delegations taken in turn, from any root with any scopes, unrelated live writers own no common path in any state. |
| Delegation.RacedRunShares | src/delegation/delegation-service.ts:661-667 | Two siblings checked before either has a snapshot end up owning the same path. |
| Delegation.DottedSiblingsShare | src/delegation/delegation-service.ts:684-697 | Two siblings checked one after the other of which one lies inside the other. |
| Delegation.DelegationTree.Delegate | src/delegation/delegation-service.ts:546-611 | An uninterrupted delegation adds one node, running unless some unrelated live writer owns a path of its scope, and keeps all unrelated writers disjoint by the test; a writer it starts shares a path on disk with exactly the missed ones. |
| Delegation.DelegationTree.Settle | src/delegation/delegation-service.ts:682 | Settling a node changes its status only and keeps unrelated writers disjoint. |
| Launches.LaunchedRunsAreSafe | src/delegation/delegation-service.ts:505-611 | Over any run whose children were let through by `decide` under their parent's scope, every child, reader or writer, works in its parent's workspace or the project of that in every state, and every writing child stays in its workspace and its scoped parent's roots in every state, by the test and on disk, and out of protected roots by the test, on disk exactly when they are plainly apart; unrelated live writers own no common path in any state if and only if no materialization was raced and, on disk, no check had missed a running writer. |
| Launches.AcceptedChildRuns | src/delegation/delegation-service.ts:505-611 | A child that policy lets through and whose scope is clear can be brought to run, with just the scope that was accepted. |
| Launches.BranchesShrink | src/delegation/delegation-service.ts:528-536 | In every such state what a writer may write lies, by the test and on disk, in the roots of each ancestor up to which all launchers are scoped. |
| Registry.CycleCheck.Visit | src/agents/registry.ts:329-345 | A visit ends with the agent finished after all its targets and the trail restored, or with a trail that is a real cycle. |
| Registry.AssertNoDelegationCycles | src/agents/registry.ts:322-348 | Terminates, returns normally exactly when the relation has no cycle, and otherwise reports one. |
| Registry.OrderedHasNoCycle | src/agents/registry.ts:341-344 | A relation whose agents can be listed with every target earlier has no cycle. |
| Workflow.Search | src/agent-test/tier1.ts:213-224 | The queue loop terminates with exactly the states that have a transition path from the initial one, and one issue for each undeclared target of a reached state. |
| Workflow.WorkflowIssues | src/agent-test/tier1.ts:207-230 | Reports exactly the declared states without a path, the unknown targets, a missing terminal state and an undeclared initial state; no issue if and only if the workflow is sound. |
| Workflow.SoundCanComplete | src/agent-test/tier1.ts:207-230 | A workflow without issue has a path from its initial state to a terminal one. |
| Relay.RequestIdOfExact | src/execution/relay-protocol.ts:43-65 | A file name is taken for a request with some id exactly when it is the request file of that well-formed id. |
| Relay.AllowedExactly | src/execution/relay-server.ts:58-64 | A command line may be executed if and only if it is a version flag alone, or starts with one of the five commands a session context names. |
| Relay.PickedExactly | src/execution/relay-server.ts:138-166 | One turn of a scan runs a name exactly when it is neither in flight nor answered and its request file has its own id, a working directory and such a command line, adding just that execution as it was written; any other fresh name is refused without running anything. |
| Relay.StepKeepsInv | src/execution/relay-server.ts:138-176 | Every step of client or server keeps the protocol invariant: an execution of the current registration is still in flight or its request is gone, and no exchange is lost. |
| Relay.RelayIsSafe | src/cli/relay-client.ts:60-78 | Under every interleaving only a lone version flag or a line that starts with one of the five commands runs, an id runs at most once per registration, a returned client got the result of its own command line or an earned refusal, and a waiting client's request or response is on disk. |
| Relay.ClosedIsSilent | src/execution/relay-server.ts:170 | While a directory is not registered nothing is executed there and no response appears. |
| Relay.OnceUnlessLeft | src/execution/relay-server.ts:104-176 | Over any run, however often the directory is registered, no id is executed twice if at every registration no executed request is still on disk. |
| Relay.RunsTwiceExactly | src/execution/relay-server.ts:131-145 | Going on from a closed directory through one more registration, some id can be executed twice if and only if an executed request is still on disk. |
| Relay.RegisteredOnceRunsOnce | src/cli/commands/run-main.ts:273-279 | In a directory that is registered at most once no id is ever executed twice. |
| Relay.TwiceAcrossRegistrations | src/execution/relay-server.ts:131-136 | A directory closed before the answer reaches such a state, and the next registration executes its request again. |
| RelayRuns.RequestsExactly | src/execution/relay-server.ts:150-176 | Over any run a request is on disk exactly when a client wrote it and no job of its name has removed it since, with the content that was written. |
| RelayRuns.ResponsesExactly | src/execution/relay-server.ts:170-175 | Over any run a response is on disk exactly when a job of its name wrote it under a registration and its client has not taken it since. |
| RelayRuns.WaitExactly | src/cli/relay-client.ts:60-78 | Over any run a client has returned an answer exactly when it took a response that held it, and has given up exactly when it stopped waiting; otherwise it waits. |
| RelayRuns.InFlightExactly | src/execution/relay-server.ts:138-148 | In every state of a run the names in flight are exactly those of the jobs of this registration that are not finished, and no two such jobs share a name. |
| RelayRuns.RespondsOnce | src/execution/relay-server.ts:150-176 | No job writes its response twice. |
| RelayRuns.ScanFinishes | src/execution/relay-server.ts:138-148 | A scan that has begun can be finished without touching a file or a client, and then every name it listed is in flight or answered. |
| RelayRuns.ScanVisitsAll | src/execution/relay-server.ts:138-148 | Over any run a scan that has ended has come to every name on its list, and each was then in flight or answered. |
| RelayRuns.EveryJobCanFinish | src/execution/relay-server.ts:138-176 | Whenever the server is neither scanning nor answering, any job can be brought to its end, also after its directory was closed. |
| RelayRuns.EveryExchangeCanComplete | src/cli/relay-client.ts:60-78 | Whatever happened before, whenever the server is between two turns every waiting client can be given the answer it is due by turns of the server alone; no file of the exchange is left, and its name is no longer in flight unless an earlier answer was already there. |
| ThreadContext.MergeLines | src/thread/context-projector.ts:128-138 | The loop over added lines equals appending in order while skipping texts already present. |
| ThreadContext.MergeKeeps | src/thread/context-projector.ts:128-138 | A merge keeps the previous lines in front, holds every added text, adds only new texts, and keeps texts distinct. |
| ThreadContext.Bound | src/thread/context-projector.ts:148-176 | The four staged loops cut exactly what cutting one item at a time in the fixed order cuts, with the same count. |
| ThreadContext.CutIsStaged | src/thread/context-projector.ts:140-176 | The result fits or nothing is left to cut; the oldest items of other executions went, each place only after the earlier ones were exhausted, at least three outcomes stay, and the count is the number of items removed. |
| ThreadContext.LastCutWasNeeded | src/thread/context-projector.ts:140-176 | Just before the last cut the snapshot was still too big. |
| ThreadContext.PinSurvivesExactly | src/thread/context-projector.ts:128-176 | In a section without repeated texts, a text the newest execution pins survives the projection that brings it in, for every size function and limit, if and only if it is a next action or no line of another execution holds it. |
| ThreadContext.NewestSurvives | src/thread/context-projector.ts:140-147 | A text the newest execution pins survives any cut unless another execution already holds it. |
| ThreadContext.NewestOutcomeSurvives | src/thread/context-projector.ts:166-169 | The outcome of the newest execution is always the last outcome. |
| ThreadContext.RepeatedPinCanBeCut | src/thread/context-projector.ts:128-176 | For any size and limit, outside the next actions a projection that ends too big has lost every text another execution holds, even one the newest execution pins again. |
| ThreadContext.RepeatedPinIsCut | src/thread/context-projector.ts:140-176 | It does end too big, for every size that counts the characters of next actions, once these exceed the limit. |
| ThreadContext.TextsStayDistinct | src/thread/context-projector.ts:73-138 | Over any run no section ever holds two lines with equal text. |
| ThreadContext.PinsAreConserved | src/thread/context-projector.ts:63-114 | Over any run every non-seed pin of every readable checkpoint is in its section by text unless a cut was reported since; next actions are there whatever was cut. |
| ThreadContext.RunKeepsRecord | src/thread/context-projector.ts:73-114 | Over any run the revision counts the executions, the objective is the last title, the degraded flag tells whether the last checkpoint was readable, and the outcomes are the latest ones, three at least. |
| ThreadContext.LinesAreEarned | src/thread/context-projector.ts:77-86 | Over any run every line of a section is a pin that some execution recorded itself in that section, with its id as source, or says how an execution that was not completed ended. |
| ThreadContext.EndingsAreConserved | src/thread/context-projector.ts:81-86 | Over any run and however hard the cuts, every execution that failed, was cancelled or expired is spoken of as such in the next actions. |
| ThreadContext.LastDelegations | src/thread/context-projector.ts:103-108 | Over any run the delegations are the latest of the last execution's, all of them unless a cut was reported, and never an empty list. |
| Seeding.SeedsCarryTheLines | src/thread/context-types.ts:264-280 | Each section of the opening checkpoint has one pin per line of the snapshot, in order, with the text of that line and marked as a seed. |
| Seeding.OpeningIsTrusted | src/context/checkpoint.ts:81-139 | The opening checkpoint passes the digest and binding checks of a reader if and only if the reader is of the same execution and policy. |
| Seeding.OpeningAcceptedExactly | src/context/checkpoint.ts:17-43 | A reader's schema accepts an opening checkpoint if and only if its execution id, policy hash, date and digest have their form, no line of any section is empty or above 4 KiB, and the whole is within 128 KiB. |
| Seeding.OpeningObjectiveOfRun | src/execution/execution-service.ts:303-310 | Over any run the next execution opens with the last title the run saw as its objective, else with the title of the Thread, else with its task. |
| Seeding.SeedIdsIdentify | src/thread/context-types.ts:257-280 | Two seed pins of any snapshots have the same id if and only if revision, section and place agree. |
| Seeding.SeedIdSpelled | src/thread/context-types.ts:272-274 | That id is spelled with the section's name, for each of the four. |
| Seeding.SeedAddsNothing | src/thread/context-types.ts:257-280 | A checkpoint that opens with the seed projects like its own pins alone. |
| Seeding.SeedRoundTrip | src/thread/context-types.ts:257-280 | An execution that completes with nothing but its seed hands every section on unchanged. |
| Seeding.SeededLinesAreRendered | src/execution/execution-service.ts:303-311 | Every line of the snapshot, of those the rendering did not cut, is a bullet of the text the next execution reads. |
| Seeding.PinsReachTheNextExecution | src/execution/execution-service.ts:303-311 | Over any run, a pin an execution recorded is a bullet of the text every later execution opens with, until a projection reports a cut, next actions whatever was cut, as long as that text itself needs no cut. |
| CompactJournal.KeySpelled | src/context/compact-payload.ts:131-141 | The key is runtime, session, identity and phase under their names, with bars between them. |
| CompactJournal.PairKeyStripsThePhase | src/context/compact-journal.ts:136-139 | For all runtimes, sessions and identities, bars included, the pairing key is the dedupe key without its phase. |
| CompactJournal.KeysEqualExactly | src/context/compact-payload.ts:131-141 | For all inputs, two lines share a key exactly when phase and runtime agree and either sessions and identities read the same or a bar inside one session moves the rest of it into the other's identity. |
| CompactJournal.KeysIdentify | src/context/compact-payload.ts:131-141 | Two lines that share the pairing key are of one compaction if and only if their sessions are separable and their identities are of one kind; lines of one compaction always share it. |
| CompactJournal.SessionsCollideExactly | src/context/compact-payload.ts:139 | Two different sessions can share a key if and only if one is absent and the other is "-", or one is the other followed by a bar and more. |
| CompactJournal.KindsShareSpellings | src/context/compact-payload.ts:131-136 | Within a session an ordinal, a runtime's id and a time of observation share a key exactly when they are spelled alike. |
| CompactJournal.IdentityInOrder | src/context/compact-payload.ts:131-136 | Within a session, the assigned ordinal alone decides which phases pair up; without it the runtime's id, and without that the time of observation. |
| CompactJournal.BarsCollide | src/context/compact-payload.ts:131-141 | For every line whose session holds a bar, another session has a line with the same key. |
| CompactJournal.ReduceCompactJournal | src/context/compact-journal.ts:141-177 | The fold counts completions among first occurrences, and `pending` is the last start with no later matching completion, `lastCompleted` the last completion. |
| CompactJournal.MeaningIsUnique | src/context/compact-journal.ts:141-150 | That meaning determines the state. |
| CompactJournal.DuplicateChangesNothing | src/context/compact-journal.ts:141-145 | Inserting an event whose key was already seen changes nothing, wherever it is inserted. |
| CompactJournal.GenerationCountsKeys | src/context/compact-journal.ts:142-145 | Among normalized events `generation` is the number of distinct completed keys. |
| CheckpointJson.CheckpointReadBack | src/context/checkpoint.ts:26-43 | The text the schema measures determines the checkpoint: a parser reads every checkpoint back from its JSON, whatever its strings hold. |
| CheckpointJson.EscapeSize | src/context/checkpoint.ts:40 | Seven characters take two characters of JSON, the other control characters six, and every other one itself. |
| CheckpointJson.BytesAreUtf8 | src/context/checkpoint.ts:13-15 | The byte length is that of an encoding from which every character can be decoded. |
| Continuity.FewItems | src/context/checkpoint.ts:39-43 | The 128 KiB limit of the schema leaves room for fewer items than the 10,000 cuts the guard allows. |
| Continuity.CutToFit | src/context/continuity.ts:65-71 | The guarded loop stops at the first document that fits, after the fewest cuts, or after the 10,000 cuts its guard allows, and never because of the guard when there are no more items than that. |
| Continuity.CutKeepsOrder | src/context/continuity.ts:29-34 | After any number of cuts every list is a suffix, and a place has lost something only if all earlier places are gone. |
| Continuity.RenderContinuity | src/context/continuity.ts:45-73 | For every accepted checkpoint the rendered text has at most 24 KiB, comes from the fewest cuts that fit, and keeps the cut order. |
| Continuity.KeptPinsAreRendered | src/context/continuity.ts:54-63 | Every pin that was not cut is in the text, as one bullet. |
| Continuity.TextExactly | src/context/continuity.ts:54-63 | After any number of cuts the text is, character by character, the header, the name of the execution, the objective unless it is absent or the interactive sentinel, the lists that are left under their titles with one bullet a pin, and the footer; nothing at all when nothing is left. |
| Usage.ClaudeUsageState.CollectLine | src/runtime/history-usage.ts:60-77 | One line changes counters, seen ids and the first flag as the specification of a line says. |
| Usage.CollectDelta | src/runtime/claude-history-bridge.ts:59-82 | One pass counts the lines past the cursor, and moves the cursor to the end. |
| Usage.SliceIgnoresLaterLines | src/thread/history-bridge.ts:116-119 | Lines appended later change nothing about an earlier slice. |
| Usage.SliceCounts | src/runtime/history-usage.ts:60-77 | A slice of any transcript adds up the lines it counts: the first that carries each id, unless it continues a message at the start of the slice. |
| Usage.CleanCutExactly | src/runtime/history-usage.ts:44-77 | A slice counts the lines that one pass counts there if and only if its cut is clean. |
| Usage.AgreementExactly | src/execution/usage.ts:62-70 | For any transcript and cuts, the accumulated token columns equal those of one pass for every usage the lines may carry, if and only if every cut is clean. |
| Usage.SliceCountsOpened | src/runtime/history-usage.ts:44-77 | Wherever a slice of a contiguous transcript starts, it counts exactly the responses that open in it. |
| Usage.SlicesAgreeWithOnePass | src/execution/usage.ts:62-70 | However a contiguous transcript is cut, the four accumulated token columns equal those of one pass, unknowns included. |
| Usage.SlicedColumns | src/runtime/history-usage.ts:19-33 | Each accumulated column is the sum of that column over the responses of the transcript, each counted once, unknown as soon as one is; nothing is reported exactly when no response opened. |
| Usage.InterruptedMessageCountsTwice | src/runtime/history-usage.ts:63-69 | A cut that is not clean counts a message twice: an error line without id between its blocks, with the cut before it. |
| Usage.ToolCallsAgreeExactly | src/runtime/history-usage.ts:35-38 | For any transcript and cuts, the whole record agrees with one pass for every usage the lines may carry if and only if every cut is clean, and no line counts at all or no slice that counts none yields a tool entry. |
| Usage.ToolCallsOfContiguous | src/runtime/history-usage.ts:35-38 | For a contiguous transcript and its own usages: if and only if no response opened, or no slice in which none opened yields a tool entry. |
| Usage.ToolCallLost | src/runtime/history-usage.ts:35-38 | A message cut before its tool block loses the tool call. |
| Usage.SidechainsAreIgnored | src/runtime/claude-history-bridge.ts:66-73 | However a transcript is cut, what lines outside the main conversation say about tokens changes nothing in the record. |
| Usage.SlicesAccumulate | src/execution/usage.ts:62-70 | The total a budget is judged by is that of the slices of the transcript. |
| Usage.StatusExactly | src/execution/usage.ts:101-114 | A budget is exceeded if and only if the four token columns are known and their sum is above a set ceiling, or the tool column is known and above its set ceiling; it is within if and only if every set ceiling has a known figure that is not above it, or there is no budget. |
| Usage.NeverFalselyWithin | src/execution/usage.ts:101-114 | Once measured usage was not under every ceiling, of tokens or of tool calls, no later slice makes the budget read as within. |
| Usage.ExceededForGood | src/execution/usage.ts:101-114 | Once a ceiling was exceeded, the budget reads as exceeded after any later slices that leave every column known. |
| Evidence.AmbiguousNodes | src/execution/evidence.ts:247-272 | Names exactly the other executions in nested workspaces and overlapping intervals that are not isolated, or write and overlap. |
| Evidence.ActiveTogetherExactly | src/execution/evidence.ts:247-272 | Two executions count as active at the same time exactly when some instant lies in both their intervals, an open end reaching to infinity. |
| Evidence.NamedExactly | src/execution/evidence.ts:247-272 | An execution is named if and only if it is a rival and could have written a path the target owns. |
| Evidence.RanAsMeasuredExactly | src/runtime/capabilities.ts:163-165 | A runtime counts as the measured one exactly when its version is known and begins, part by part between the dots, with the measured version. |
| Evidence.ChangeProvenance | src/execution/evidence.ts:218-239 | The git item is observed if and only if the target is isolated, its runtime is the measured version, and every rival is isolated and read-only or owns no path of the target. |
| Evidence.UnreadableIsAmbiguous | src/execution/evidence.ts:441-453 | An execution whose policy is unreadable is named if and only if it was active at the same time and the first name of the target's workspace, if any, does not start with two dots. |
| Evidence.EvaluateEvidence | src/execution/evidence.ts:306-332 | Satisfied exactly when something was required, the first finished run of every required command exited with 0, and a required change is shown with paths by a producer that could answer; the missing list is exact: a first run with another exit code, or neither a run nor a skip, or no change item that shows paths or could not be answered. |
| Evidence.VerdictExactly | src/execution/evidence.ts:313-330 | The same of each single requirement, over the items alone. |
| Evidence.SatisfiedIsEarned | src/execution/evidence.ts:463-624 | Over any sequence of collections, what is met was seen: each required command exited with 0 in some collection, and some collection saw changed paths in git or in the transcript. |
| Evidence.FirstComparisonStands | src/execution/evidence.ts:508-530 | Over any sequence of collections the one git item has the paths of the first comparison with a baseline, with the provenance of that collection; without a baseline (`NoBaseline`) it says that nobody could answer. |
| Evidence.FirstTranscriptStands | src/execution/evidence.ts:533-559 | Over any sequence of collections the first transcript that shows an entry or usage stands: every entry in order, then the usage, observed only if it was read whole from the measured runtime, with its completeness. |
| Evidence.FirstReadStands | src/execution/evidence.ts:484-488 | In particular the first transcript that can be read stands if it shows something, whatever else was answered before. |
| Evidence.UnreadIsNotFinal | src/execution/evidence.ts:484-488 | As long as no collection could read a transcript the record is not final. |
| Evidence.AnswerableIsFinal | src/execution/evidence.ts:484-488 | One collection in which there is a baseline, the transcript can be read and every required command finishes leaves nothing to ask, whatever was there before. |
| Evidence.HistoryStillAsked | src/execution/evidence.ts:533-537 | Until a transcript shows something, the next collection asks for it again. |
| Evidence.FirstBoundaryStands | src/execution/evidence.ts:561-576 | The one boundary item is that of the first collection, observed exactly if the runtime ran as measured. |
| Evidence.FirstOutputStands | src/execution/evidence.ts:578-585 | The first output that is found while something is still unanswered is the one output item for good. |
| Evidence.FirstExitStands | src/execution/evidence.ts:587-611 | The one item of a required command has the exit code of its first finished run. |
| Evidence.RanExactly | src/execution/evidence.ts:587-611 | Over any sequence of collections the verify run of a command finishes if and only if it is required and could finish in one of them. |
| Evidence.NeverFinished | src/execution/evidence.ts:587-611 | Until a run finishes it has the reason why the last one did not. |
| Evidence.EvidenceFile.Collect | src/execution/evidence.ts:463-624 | One collection leaves the specified record and finishes the specified verify runs. |
| Evidence.OfCollected | src/execution/evidence.ts:489-611 | After a collection the items of each producer are what was kept, if answered, or what it answered now. |
| Evidence.ItemsAreAttested | src/execution/evidence.ts:508-611 | Nothing in a record is invented: over any sequence of collections every item was answered as it stands by a producer, with the provenance that the other executions, the versions and the transcript of that collection give it. |
| Evidence.ObservedOnDiskExactly | src/execution/evidence.ts:247-272 | An observed change is the target's alone on disk if and only if no other execution was overlooked: told apart by a dotted name between the workspaces and not harmless, or a writer whose scope the overlap test misses. |
| Evidence.ObservedMeansUnshared | src/execution/evidence.ts:508-530 | Over any sequence of collections, an observed git change in the record is one that some collection saw while the target was isolated, run as measured, and every rival was isolated and read-only or owned no path of the target; on disk too, if and only if it overlooked none. |
| Evidence.AnsweredForGood | src/execution/evidence.ts:468-473 | Over any sequence of collections an answered git, boundary, output or required verify item stands unchanged. |
| Evidence.VerifiedAtMostOnce | src/execution/evidence.ts:468-473 | Over any sequence of collections each required command finishes a verify run at most once. |
| Evidence.FullyAnsweredIsFinal | src/execution/evidence.ts:484-488 | Once fully answered, later collections change nothing and run nothing. |
| Evidence.SatisfiedIsNeverLost | src/execution/evidence.ts:306-332 | Once every requirement is met, no later collection un-meets one. |
| Attempts.ThrownLeaveNoTrace | src/execution/evidence.ts:612-624 | Over any sequence of collections of which some throw, the record is the one the others alone would leave, so all that is proved of records holds of it. |
| Attempts.RunsInExactly | src/execution/evidence.ts:587-611 | During a collection, thrown or not, the verify run of a command finishes exactly when the command is required before the throw, is still unanswered, and can finish. |
| Attempts.RepeatedOnlyAfterThrow | src/execution/evidence.ts:575-611 | A verify run that finished is repeated only if the collection it finished in threw. |
| Attempts.ThrownRunIsRepeated | src/execution/evidence.ts:575-611 | The next collection that ends repeats every verify run of one that threw. |
| Attempts.RecordShowsTheRest | src/execution/evidence.ts:626-645 | The record shows the stretch of the transcript between what collections that threw had read and the cursor, each entry once and in order. |
| Attempts.NothingLostExactly | src/execution/evidence.ts:626-645 | It shows everything up to the cursor if and only if no collection that threw had read an entry. |
| Update.InstallHome.UpdateBinary | src/install/update.ts:182-235 | It succeeds if and only if the archive, and a root that is already there, is that version built for the target and runs as it, no step fails, and every stale root can be removed; what stands in `versions` is stated for every way it can fail, and `current` is what it was; on success `current` names the new root and exactly the stale roots are gone. |
| Update.VersionNameExactly | src/install/update.ts:156-163 | The names pruning looks at are exactly `v`, three runs of digits and two dots between them. |
| Update.NumberedVersionsArePrunable | src/install/update.ts:156-186 | Every version of three numbers is installed under such a name. |
| Update.InstallHome.PruneVersions | src/install/update.ts:156-163 | It succeeds if and only if every version-named directory that is not kept can be removed, and leaves exactly the others unaltered; otherwise it stops at one that cannot be removed, all others being unaltered or removable and gone. |
| Update.CurrentIsTheLastSuccess | src/install/update.ts:182-235 | Over any sequence of updates and failures `current` names the last successful version, and that root stays usable. |

## Left out

- Path canonicalization and symbolic links: every path is canonical, and a path that cannot be
  resolved is the value `None`.
- Reasons, prompts and other message texts of decisions and errors; the order and sorting of
  lists that the program sorts (denied paths, ambiguous executions).
- Requests other than workspace launches in the policy engine, approvals, memory and skill
  grants, and the registry checks around the cycle search.
- Windows path rules, for which `relative` can return an absolute path.
- DenyList.WriteScopeDenyPaths: an entry created after the listing is outside the snapshot, as
  the program's own comment says.
- Delegation.StepKeepsInv: the graph store, leases, limits and the backend; an execution id is
  its node's position, and a settled or failed node is simply terminal.
- Relay.RelayIsSafe: the server is modelled as steps of a state machine and not as a class,
  because its steps interleave with the clients'; file operations succeed, request ids are
  fresh, only the server writes responses, and what a command prints is identified by its
  execution. That an exchange can always be completed is proved (`RelayRuns`), but no deadline.
- Registration records, process liveness and JSON parsing of relay files; a request file either
  has the fields of a request or is malformed.
- ThreadContext.Bound: the byte size of a snapshot is an arbitrary function, so digests and
  canonical JSON do not appear; run times, runtimes and creation dates of outcomes are dropped.
- CompactJournal.ReduceCompactJournal: reading, rotating and dropping malformed journal lines,
  and the 256-character truncation of whitelisted values.
- Continuity.RenderContinuity: lone surrogates, which JavaScript strings may hold and Dafny
  strings may not.
- Seeding.OpeningIsTrusted: the digest is an arbitrary function; the schema is asked separately.
- The tree-wide usage sum, and the loop of `totalTokens` over its four fixed columns, which is
  one expression here.
- The order of scopes compares strings by code point and not by UTF-16 unit, which makes no
  difference between a string and its own prefix; that the entries of a scope exist is not
  modelled.
- That the lines of one message repeat one usage: usages are arbitrary line by line.
- Usage.CollectDelta: Codex transcripts, whose duplicate filter restarts with every slice, and
  entries other than the count of tool calls; a transcript file that shrinks or is replaced.
- Evidence.EvidenceFile.Collect: what the producers do is a parameter of each collection. A
  collection that throws is modelled in `Attempts` and only after it stored the cursor; one that
  throws earlier changes nothing. Requirements are distinct, as `parseRequiredEvidence` makes
  them. The executions a verify run is ambiguous with, and the usage file, are not modelled.
- Update.InstallHome.UpdateBinary: download, checksum and the install lock; the roll-back and
  the removal of the staging directory succeed; a `current` that is a real directory and not a
  link.
