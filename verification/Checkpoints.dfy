/** The checkpoint of an execution, as both of its readers see it (src/context/checkpoint.ts, src/context/types.ts). */
module Checkpoints {
  import opened Wrappers

  datatype Runtime = Claude | Codex

  /** `FromExecution` marks the pins a checkpoint was seeded with. */
  datatype Source = FromExecution | FromPrincipal | FromAgent
  datatype Pin = Pin(id: string, text: string, source: Source, createdAt: string)
  datatype Checkpoint = Checkpoint(
    executionId: string, policyHash: string, runtime: Option<Runtime>, createdAt: string, updatedAt: string,
    objective: Option<string>, decisions: seq<Pin>, constraints: seq<Pin>, openItems: seq<Pin>, nextActions: seq<Pin>,
    sha256: string)
}
