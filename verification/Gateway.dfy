/** The decision a Gateway makes from one record, and the command it hands to the Executor. */
module Gateway {
  import opened Prelude
  import opened TaskModel

  datatype Denial =
    | UnknownCapability | NotRequested | WorkspaceChanged | WriteOutOfScope
    | DeniedByPolicy | DeniedByDeclaration | NetworkDenied | ListenerDenied | EnvironmentDenied
    | ExecutionLimit | RetryBudget | CommandBudget | ApprovalRequired | TaskClosed

  datatype AuthorizedCommand = AuthorizedCommand(
    taskId: string,
    capabilityId: string,
    argv: seq<string>,
    cwd: string,
    timeoutSeconds: int,
    approvalId: Option<string>,
    authSequence: int,
    stopOnExitCodes: seq<int>)

  function EvaluatePolicy(c: Capability, p: ProjectPolicy): Option<Denial> {
    if c.id in p.deniedCapabilities then Some(DeniedByPolicy)
    else if c.approvalPolicy == Deny then Some(DeniedByDeclaration)
    else if c.network !in p.allowedNetwork then Some(NetworkDenied)
    else if c.listener && !p.allowListener then Some(ListenerDenied)
    else if c.environment !in p.allowedEnvironments then Some(EnvironmentDenied)
    else None
  }

  predicate RequiresApproval(c: Capability, p: ProjectPolicy) {
    || c.reversibility == NotReversible
    || c.environment == ProductionEnvironment
    || Production in c.sideEffects || Credentials in c.sideEffects || Irreversible in c.sideEffects
    || !(Elements(c.sideEffects) <= Elements(p.autoApprovedSideEffects))
    || c.approvalPolicy == Ask
  }

  predicate ApprovalFits(a: Approval, r: Record, c: Capability, snapshot: Snapshot, now: int)
    requires r.revisions != []
  {
    && a.taskId == r.Current().taskId
    && a.capabilityId == c.id
    && a.baseSha == r.Current().baseSha == snapshot.baseSha
    && a.worktreePath == snapshot.worktreePath
    && Elements(a.readPaths) == Elements(c.readPaths)
    && Elements(a.writePaths) == Elements(c.writePaths)
    && Elements(a.sideEffects) == Elements(c.sideEffects)
    && a.network == c.network
    && a.listener == c.listener
    && a.environment == c.environment
    && a.expiresAt > now
    && Tally(r.events, UsesOf(a.id)) < a.maxUses
  }

  /** The first approval that fits, in the order they are offered. */
  function FindApproval(approvals: seq<Approval>, r: Record, c: Capability, snapshot: Snapshot, now: int)
    : (found: Option<Approval>)
    requires r.revisions != []
    ensures found.Some? ==> found.value in approvals && ApprovalFits(found.value, r, c, snapshot, now)
    ensures found.None? <==> forall a :: a in approvals ==> !ApprovalFits(a, r, c, snapshot, now)
  {
    if approvals == [] then None
    else if ApprovalFits(approvals[0], r, c, snapshot, now) then Some(approvals[0])
    else FindApproval(approvals[1..], r, c, snapshot, now)
  }

  function Granted(c: Capability, cwd: string, approvalId: Option<string>, revision: int): Authorization {
    Authorization(c.id, c.argv, cwd, c.readPaths, c.writePaths, c.network, c.listener, c.sideEffects,
                  c.environment, approvalId, c.timeoutSeconds, c.stopOnExitCodes, revision)
  }

  /** `authorize` up to the append: the fact it records, or the reason it refuses. */
  function Decide(r: Record, caps: map<string, Capability>, policy: ProjectPolicy, capabilityId: string,
                  approvals: seq<Approval>, snapshot: Snapshot, now: int, cwd: string): Result<Authorization, Denial>
    requires r.revisions != []
  {
    var envelope := r.Current();
    if capabilityId !in caps then Err(UnknownCapability)
    else if capabilityId !in envelope.requestedCapabilities then Err(NotRequested)
    else
      var c := caps[capabilityId];
      var denied := EvaluatePolicy(c, policy);
      if !SameWorkspace(envelope, snapshot) then Err(WorkspaceChanged)
      else if exists p :: p in c.writePaths && !InScope(p, envelope.allowedScope) then Err(WriteOutOfScope)
      else if denied.Some? then Err(denied.value)
      else if Tally(r.events, AuthorizationsOf(c.id)) >= c.maxExecutions then Err(ExecutionLimit)
      else if Tally(r.events, StartsOf(c.id)) >= envelope.retryBudget + 1 then Err(RetryBudget)
      else if envelope.MaxCommands().Some? && Tally(r.events, Authorizations) >= envelope.MaxCommands().value then
        Err(CommandBudget)
      else if !RequiresApproval(c, policy) then Ok(Granted(c, cwd, None, envelope.revision))
      else
        match FindApproval(approvals, r, c, snapshot, now)
        case None => Err(ApprovalRequired)
        case Some(a) => Ok(Granted(c, cwd, Some(a.id), envelope.revision))
  }

  /** The limits that remain when a command is authorized. */
  predicate HasBudget(r: Record, c: Capability)
    requires r.revisions != []
  {
    && Tally(r.events, AuthorizationsOf(c.id)) < c.maxExecutions
    && Tally(r.events, StartsOf(c.id)) <= r.Current().retryBudget
    && (r.Current().MaxCommands().Some? ==> Tally(r.events, Authorizations) < r.Current().MaxCommands().value)
  }

  predicate PolicyAllows(c: Capability, p: ProjectPolicy) {
    && c.id !in p.deniedCapabilities && c.approvalPolicy != Deny
    && c.network in p.allowedNetwork && (c.listener ==> p.allowListener) && c.environment in p.allowedEnvironments
  }

  /** What an authorization needs, in no particular order. */
  predicate Authorizable(r: Record, c: Capability, policy: ProjectPolicy, approvals: seq<Approval>,
                         snapshot: Snapshot, now: int)
    requires r.revisions != []
  {
    && SameWorkspace(r.Current(), snapshot)
    && (forall p :: p in c.writePaths ==> InScope(p, r.Current().allowedScope))
    && PolicyAllows(c, policy) && HasBudget(r, c)
    && (RequiresApproval(c, policy) ==> exists a :: a in approvals && ApprovalFits(a, r, c, snapshot, now))
  }

  /** A command is authorized exactly when all it needs is there, and the fact says on what terms. */
  lemma {:induction false} DecisionMeaning(r: Record, caps: map<string, Capability>, policy: ProjectPolicy, id: string,
                                           approvals: seq<Approval>, snapshot: Snapshot, now: int, cwd: string)
    requires r.revisions != []
    ensures var d := Decide(r, caps, policy, id, approvals, snapshot, now, cwd);
      && (d.Ok? <==>
          id in caps && id in r.Current().requestedCapabilities
          && Authorizable(r, caps[id], policy, approvals, snapshot, now))
      && (d.Ok? ==>
          && d.value.revision == r.Current().revision && d.value.writePaths == caps[id].writePaths
          && (d.value.approvalId.None? <==> !RequiresApproval(caps[id], policy))
          && (d.value.approvalId.Some? ==>
              exists i :: FirstThatFits(approvals, i, d.value.approvalId.value, r, caps[id], snapshot, now)))
  {
    hide ApprovalFits, InScope, SameWorkspace;
    if id in caps && RequiresApproval(caps[id], policy) {
      SearchMeaning(approvals, r, caps[id], snapshot, now);
    }
  }

  /** The approval at `i` fits and none before it does. */
  predicate FirstThatFits(approvals: seq<Approval>, i: int, id: string, r: Record, c: Capability,
                          snapshot: Snapshot, now: int)
    requires r.revisions != []
  {
    && 0 <= i < |approvals| && approvals[i].id == id && ApprovalFits(approvals[i], r, c, snapshot, now)
    && forall j :: 0 <= j < i ==> !ApprovalFits(approvals[j], r, c, snapshot, now)
  }

  lemma {:induction false} SearchMeaning(approvals: seq<Approval>, r: Record, c: Capability,
                                         snapshot: Snapshot, now: int)
    requires r.revisions != []
    ensures var found := FindApproval(approvals, r, c, snapshot, now);
      found.Some? ==> exists i :: FirstThatFits(approvals, i, found.value.id, r, c, snapshot, now)
  {
    hide ApprovalFits;
    if approvals != [] {
      if ApprovalFits(approvals[0], r, c, snapshot, now) {
        assert FirstThatFits(approvals, 0, approvals[0].id, r, c, snapshot, now);
      } else {
        SearchMeaning(approvals[1..], r, c, snapshot, now);
        var found := FindApproval(approvals[1..], r, c, snapshot, now);
        if found.Some? {
          var i :| FirstThatFits(approvals[1..], i, found.value.id, r, c, snapshot, now);
          assert FirstThatFits(approvals, i + 1, found.value.id, r, c, snapshot, now) by {
            forall j | 0 <= j < i + 1 ensures !ApprovalFits(approvals[j], r, c, snapshot, now) {
              if j > 0 { assert approvals[j] == approvals[1..][j - 1]; }
            }
          }
        }
      }
    }
  }

  function CommandFor(taskId: string, a: Authorization, sequence: int): AuthorizedCommand {
    AuthorizedCommand(taskId, a.capabilityId, a.argv, a.cwd, a.timeoutSeconds, a.approvalId,
                      sequence, a.stopOnExitCodes)
  }

  predicate HighRisk(a: Authorization) {
    || Production in a.sideEffects || Credentials in a.sideEffects || Irreversible in a.sideEffects
    || a.environment == ProductionEnvironment
  }
}
