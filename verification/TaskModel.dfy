/**
 The values a task record is made of: envelopes, acceptances, capabilities,
 approvals and events, with the checks their constructors run.
 */
module TaskModel {
  import opened Prelude

  // ---- Envelopes ----

  datatype Requirement = Requirement(id: string, text: string) {
    predicate Valid() { IsIdentifier(id) && !IsBlank(text) }
  }

  datatype Acceptance = Acceptance(
    id: string,
    required: bool,
    covers: seq<string>,
    commandId: string,
    expectedExitCode: int,
    timeoutSeconds: int,
    retryBudget: int,
    evidenceType: string)
  {
    predicate Valid() {
      && IsIdentifier(id) && IsIdentifier(commandId)
      && covers != [] && NoDuplicates(covers)
      && (forall c :: c in covers ==> IsIdentifier(c))
      && timeoutSeconds >= 1 && retryBudget >= 0
      && !IsBlank(evidenceType)
    }
  }

  datatype Number = Int(i: int) | Float(r: real)

  predicate Negative(n: Number) {
    match n
    case Int(i) => i < 0
    case Float(r) => r < 0.0
  }

  datatype IntegrationMode = Observe | Enforced

  datatype Envelope = Envelope(
    schemaVersion: string,
    taskId: string,
    repositoryId: string,
    baseSha: string,
    worktreePath: string,
    initialDirtyState: seq<string>,
    harnessVersion: string,
    configVersion: string,
    goal: string,
    nonGoals: seq<string>,
    requirements: seq<Requirement>,
    allowedScope: seq<string>,
    acceptances: seq<Acceptance>,
    requestedCapabilities: seq<string>,
    timeoutSeconds: int,
    retryBudget: int,
    budget: map<string, Number>,
    integrationMode: IntegrationMode,
    revision: int)
  {
    /** The checks the constructor runs; `replace` runs them again. */
    predicate Valid() {
      && !IsBlank(schemaVersion) && !IsBlank(harnessVersion) && !IsBlank(configVersion)
      && IsIdentifier(taskId) && IsIdentifier(repositoryId)
      && IsFullSha(baseSha) && IsAbsolute(worktreePath)
      && !IsBlank(goal)
      && requirements != [] && (forall r :: r in requirements ==> r.Valid())
      && allowedScope != [] && (forall s :: s in allowedScope ==> s != "")
      && acceptances != [] && (forall a :: a in acceptances ==> a.Valid())
      && timeoutSeconds >= 1 && retryBudget >= 0 && revision >= 1
      && UniqueIds()
      && NoDuplicates(allowedScope) && NoDuplicates(requestedCapabilities)
      && (forall c :: c in requestedCapabilities ==> IsIdentifier(c))
      && CoversKnownRequirements()
      && (forall k :: k in budget ==> k != "" && !Negative(budget[k]))
      && ("max_commands" in budget ==> budget["max_commands"].Int? && budget["max_commands"].i >= 1)
    }

    predicate UniqueIds() {
      && (forall i, j :: 0 <= i < j < |requirements| ==> requirements[i].id != requirements[j].id)
      && (forall i, j :: 0 <= i < j < |acceptances| ==> acceptances[i].id != acceptances[j].id)
    }

    predicate CoversKnownRequirements() {
      forall a, c :: a in acceptances && c in a.covers ==> exists r :: r in requirements && r.id == c
    }

    function RequiredIds(): set<string> {
      set a | a in acceptances && a.required :: a.id
    }

    function MaxCommands(): Option<int> {
      if "max_commands" in budget && budget["max_commands"].Int? then Some(budget["max_commands"].i) else None
    }
  }

  predicate IsIdentifier(s: string) {
    && 1 <= |s| <= 128
    && (IsLetter(s[0]) || IsDigit(s[0]))
    && forall i :: 0 <= i < |s| ==> IsLetter(s[i]) || IsDigit(s[i]) || s[i] == '.' || s[i] == '_' || s[i] == '-'
  }

  predicate IsFullSha(s: string) {
    && (|s| == 40 || |s| == 64)
    && forall i :: 0 <= i < |s| ==> IsDigit(s[i]) || 'a' <= s[i] <= 'f'
  }

  predicate IsAbsolute(path: string) { path != "" && path[0] == '/' }

  // ---- Repository paths ----

  /** A parsed `PurePosixPath`: its root and its components, without "" and ".". */
  datatype PurePath = PurePath(root: string, parts: seq<string>)

  function ParsePath(s: string): PurePath {
    var slashes := LeadingSlashes(s);
    PurePath(if slashes == 0 then "" else if slashes == 2 then "//" else "/", Components(s, ""))
  }

  function LeadingSlashes(s: string): nat {
    if s == "" || s[0] != '/' then 0 else 1 + LeadingSlashes(s[1..])
  }

  function Components(s: string, current: string): seq<string> {
    var here := if current == "" || current == "." then [] else [current];
    if s == "" then here
    else if s[0] == '/' then here + Components(s[1..], "")
    else Components(s[1..], current + [s[0]])
  }

  /** `candidate == scope or candidate.is_relative_to(scope)`. */
  predicate Within(candidate: PurePath, scope: PurePath) {
    candidate.root == scope.root && scope.parts <= candidate.parts
  }

  predicate InScope(path: string, scopes: seq<string>) {
    exists s :: s in scopes && Within(ParsePath(path), ParsePath(s))
  }

  /** The extra test the diff check makes before it looks at the scopes. */
  predicate SafeRelative(path: string) {
    ParsePath(path).root == "" && ".." !in ParsePath(path).parts
  }

  // ---- Capabilities, policy and approvals ----

  datatype NetworkAccess = NoNetwork | Outbound

  datatype SideEffect =
    | FilesystemRead | FilesystemWrite | Network | Listener | DependencyChange
    | Migration | Credentials | Production | Irreversible

  datatype Reversibility = Reversible | Conditional | NotReversible

  datatype Environment = Local | Test | Staging | ProductionEnvironment

  datatype ApprovalPolicy = Auto | Ask | Deny

  datatype Capability = Capability(
    id: string,
    argv: seq<string>,
    cwd: string,
    timeoutSeconds: int,
    readPaths: seq<string>,
    writePaths: seq<string>,
    network: NetworkAccess,
    listener: bool,
    sideEffects: seq<SideEffect>,
    reversibility: Reversibility,
    environment: Environment,
    approvalPolicy: ApprovalPolicy,
    maxExecutions: int,
    stopOnExitCodes: seq<int>)

  datatype ProjectPolicy = ProjectPolicy(
    deniedCapabilities: seq<string>,
    allowedNetwork: seq<NetworkAccess>,
    allowListener: bool,
    allowedEnvironments: seq<Environment>,
    autoApprovedSideEffects: seq<SideEffect>)

  /** The policy every service operation uses. */
  const DEFAULT_POLICY := ProjectPolicy([], [NoNetwork], false, [Local, Test], [FilesystemRead])

  datatype Snapshot = Snapshot(repositoryId: string, baseSha: string, worktreePath: string)

  predicate SameWorkspace(envelope: Envelope, snapshot: Snapshot) {
    && snapshot.repositoryId == envelope.repositoryId
    && snapshot.baseSha == envelope.baseSha
    && snapshot.worktreePath == envelope.worktreePath
  }

  datatype Approval = Approval(
    id: string,
    taskId: string,
    capabilityId: string,
    baseSha: string,
    worktreePath: string,
    readPaths: seq<string>,
    writePaths: seq<string>,
    sideEffects: seq<SideEffect>,
    network: NetworkAccess,
    listener: bool,
    environment: Environment,
    maxUses: int,
    expiresAt: int)

  // ---- Events and records ----

  datatype Authorization = Authorization(
    capabilityId: string,
    argv: seq<string>,
    cwd: string,
    readPaths: seq<string>,
    writePaths: seq<string>,
    network: NetworkAccess,
    listener: bool,
    sideEffects: seq<SideEffect>,
    environment: Environment,
    approvalId: Option<string>,
    timeoutSeconds: int,
    stopOnExitCodes: seq<int>,
    revision: int)

  datatype CommandStatus =
    | Succeeded | CommandFailure | TimedOut | Cancelled | OutputLimitExceeded | EnvironmentFailure

  datatype Finish = Finish(
    producer: string,
    authSequence: int,
    capabilityId: string,
    attempt: int,
    status: CommandStatus,
    exitCode: Option<int>,
    timedOut: bool,
    cancelled: bool,
    outputTruncated: bool,
    sandboxEnforced: bool,
    stdoutArtifact: Option<string>,
    stderrArtifact: Option<string>)

  const EXECUTOR := "adaptive_harness.executor"

  datatype Verification = Verification(
    revision: int,
    acceptances: seq<AcceptanceResult>,
    issues: seq<IssueCode>,
    riskReason: Option<string>)

  datatype EventData =
    | TaskCreated
    | TaskAmended(revision: int)
    | TaskCancelled(reason: string)
    | TaskFinalized(outcome: TaskState, verification: Verification)
    | ModuleActivation(moduleId: string, moduleState: string)
    | ApprovalGranted(approval: Approval)
    | CommandAuthorized(auth: Authorization)
    | CommandStarted(authSequence: int, capabilityId: string, attempt: int)
    | CommandFinished(finish: Finish)

  datatype Event = Event(sequence: int, occurredAt: string, data: EventData)

  datatype TaskState = Draft | Active | Completed | AcceptedWithRisk | Blocked | Failed | Abandoned

  predicate Terminal(s: TaskState) { s != Draft && s != Active }

  const RECORD_SCHEMA_VERSION := "1.0"

  datatype Record = Record(
    schemaVersion: string,
    taskId: string,
    state: TaskState,
    revisions: seq<Envelope>,
    events: seq<Event>)
  {
    function Current(): Envelope
      requires revisions != []
    {
      revisions[|revisions| - 1]
    }
  }

  // ---- What the Completion Gate reports ----

  datatype AcceptanceStatus = Passed | FailedEvidence | Missing | Stale | Untrusted

  datatype AcceptanceResult = AcceptanceResult(
    acceptanceId: string, status: AcceptanceStatus, evidenceSequence: Option<int>)

  datatype IssueCode =
    | LeaseConflict | WorkspaceMismatch | DiffOutOfScope | CommandIncomplete
    | UnapprovedHighRiskOperation | UnsupportedEvidenceType | UntrustedEvidence
    | RequiredAcceptanceFailed | EvidenceMissing | ArtifactEscape | SecretLeak
    | SandboxNotEnforced | RequirementUncovered | RequirementUnverified

  // ---- Counting events ----

  /** The event filters whose matches Gateway and Executor count. */
  datatype Query =
    | Amendments
    | Authorizations
    | AuthorizationsOf(capabilityId: string)
    | StartsOf(capabilityId: string)
    | UsesOf(approvalId: string)

  predicate Matches(q: Query, e: Event) {
    match q
    case Amendments => e.data.TaskAmended?
    case Authorizations => e.data.CommandAuthorized?
    case AuthorizationsOf(c) => e.data.CommandAuthorized? && e.data.auth.capabilityId == c
    case StartsOf(c) => e.data.CommandStarted? && e.data.capabilityId == c
    case UsesOf(a) => e.data.CommandAuthorized? && e.data.auth.approvalId == Some(a)
  }

  function Tally(events: seq<Event>, q: Query): nat {
    if events == [] then 0
    else Tally(events[..|events| - 1], q) + if Matches(q, events[|events| - 1]) then 1 else 0
  }

  lemma TallyAppend(events: seq<Event>, e: Event, q: Query)
    ensures Tally(events + [e], q) == Tally(events, q) + if Matches(q, e) then 1 else 0
  {
    assert (events + [e])[..|events|] == events;
  }

  lemma TallyPrefix(events: seq<Event>, i: nat, q: Query)
    requires i < |events|
    ensures Tally(events[..i + 1], q) == Tally(events[..i], q) + if Matches(q, events[i]) then 1 else 0
  {
    assert events[..i + 1] == events[..i] + [events[i]];
    TallyAppend(events[..i], events[i], q);
  }

  lemma {:induction false} TallyMonotone(events: seq<Event>, i: nat, q: Query)
    requires i <= |events|
    ensures Tally(events[..i], q) <= Tally(events, q)
    decreases |events| - i
  {
    if i == |events| {
      assert events[..i] == events;
    } else {
      TallyPrefix(events, i, q);
      TallyMonotone(events, i + 1, q);
    }
  }
}
