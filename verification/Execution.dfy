/** What the Executor checks before it starts a command and records when it ends. */
module Execution {
  import opened Prelude
  import opened TaskModel
  import opened Gateway

  datatype Rejection = WorkspaceIdentity | NoSuchEvent | Mismatch | AlreadyConsumed

  predicate MatchesCommand(e: Event, a: AuthorizedCommand) {
    && e.data.CommandAuthorized?
    && e.data.auth.capabilityId == a.capabilityId
    && e.data.auth.argv == a.argv
    && e.data.auth.cwd == a.cwd
    && e.data.auth.timeoutSeconds == a.timeoutSeconds
    && e.data.auth.approvalId == a.approvalId
    && e.data.auth.stopOnExitCodes == a.stopOnExitCodes
  }

  predicate Consumed(events: seq<Event>, sequence: int) {
    exists i :: 0 <= i < |events| && events[i].data.CommandStarted? && events[i].data.authSequence == sequence
  }

  /** `_validate_workspace` then `_validate_authorization`. */
  function Validate(r: Record, a: AuthorizedCommand, snapshot: Snapshot): Option<Rejection>
    requires r.revisions != []
  {
    if !SameWorkspace(r.Current(), snapshot) then Some(WorkspaceIdentity)
    else if a.authSequence < 1 || a.authSequence > |r.events| then Some(NoSuchEvent)
    else if !MatchesCommand(r.events[a.authSequence - 1], a) then Some(Mismatch)
    else if Consumed(r.events, a.authSequence) then Some(AlreadyConsumed)
    else None
  }

  /** What the operating system reports about one launched command. */
  datatype ProcessResult =
    | LaunchFailed
    | Exited(returnCode: int, timedOut: bool, cancelled: bool, truncated: bool)

  function StatusOf(p: ProcessResult): CommandStatus {
    if p.LaunchFailed? then EnvironmentFailure
    else if p.cancelled then Cancelled
    else if p.timedOut then TimedOut
    else if p.truncated then OutputLimitExceeded
    else if p.returnCode == 0 then Succeeded
    else CommandFailure
  }

  function FinishOf(a: AuthorizedCommand, attempt: int, sandbox: bool, p: ProcessResult,
                    stdoutArtifact: string, stderrArtifact: string): Finish {
    Finish(EXECUTOR, a.authSequence, a.capabilityId, attempt, StatusOf(p),
           if p.Exited? then Some(p.returnCode) else None,
           p.Exited? && p.timedOut, p.Exited? && p.cancelled, p.Exited? && p.truncated, sandbox,
           Some(stdoutArtifact), Some(stderrArtifact))
  }
}
