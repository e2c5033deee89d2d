/** Event data as the components write it into a record, and reading it back. */
module EventPayload {
  import opened Prelude
  import opened TaskModel
  import opened JsonValues
  import Verifier

  // ---- Approvals ----

  function EffectName(e: SideEffect): string {
    match e
    case FilesystemRead => "filesystem_read"
    case FilesystemWrite => "filesystem_write"
    case Network => "network"
    case Listener => "listener"
    case DependencyChange => "dependency_change"
    case Migration => "migration"
    case Credentials => "credentials"
    case Production => "production"
    case Irreversible => "irreversible"
  }

  function EffectNamed(name: string): Option<SideEffect> {
    if name == "filesystem_read" then Some(FilesystemRead)
    else if name == "filesystem_write" then Some(FilesystemWrite)
    else if name == "network" then Some(Network)
    else if name == "listener" then Some(Listener)
    else if name == "dependency_change" then Some(DependencyChange)
    else if name == "migration" then Some(Migration)
    else if name == "credentials" then Some(Credentials)
    else if name == "production" then Some(Production)
    else if name == "irreversible" then Some(Irreversible)
    else None
  }

  function FromEffect(e: SideEffect): Json { Text(EffectName(e)) }

  function ToEffect(j: Json): Option<SideEffect> { if j.Text? then EffectNamed(j.text) else None }

  function EnvironmentName(e: Environment): string {
    match e
    case Local => "local"
    case Test => "test"
    case Staging => "staging"
    case ProductionEnvironment => "production"
  }

  function EnvironmentNamed(name: string): Option<Environment> {
    if name == "local" then Some(Local)
    else if name == "test" then Some(Test)
    else if name == "staging" then Some(Staging)
    else if name == "production" then Some(ProductionEnvironment)
    else None
  }

  function NetworkName(n: NetworkAccess): string { if n.NoNetwork? then "none" else "outbound" }

  function NetworkNamed(name: string): Option<NetworkAccess> {
    if name == "none" then Some(NoNetwork) else if name == "outbound" then Some(Outbound) else None
  }

  lemma NetworkReadsBack(n: NetworkAccess)
    ensures NetworkNamed(NetworkName(n)) == Some(n)
  {
  }

  /** `_approval_payload`; the expiry is kept as the instant its text names. */
  function FromApproval(a: Approval): Json {
    Fields(map[
      KApprovalId := Text(a.id), KTaskId := Text(a.taskId), KCapabilityId := Text(a.capabilityId),
      KBaseSha := Text(a.baseSha),
      KWorktreePath := Text(a.worktreePath), KReadPaths := Texts(a.readPaths), KWritePaths := Texts(a.writePaths),
      KSideEffects := FromAll(a.sideEffects, FromEffect), KNetwork := Text(NetworkName(a.network)),
      KListener := Flag(a.listener), KEnvironment := Text(EnvironmentName(a.environment)), KMaxUses := Whole(a.maxUses),
      KExpiresAt := Whole(a.expiresAt)])
  }

  predicate ApprovalShape(j: Json) {
    && j.Fields?
    && j.fields.Keys >= {KApprovalId, KTaskId, KCapabilityId, KBaseSha, KWorktreePath, KReadPaths,
                         KWritePaths, KSideEffects,
                         KNetwork, KListener, KEnvironment, KMaxUses, KExpiresAt}
    && j.fields[KApprovalId].Text? && j.fields[KTaskId].Text? && j.fields[KCapabilityId].Text?
      && j.fields[KBaseSha].Text?
    && j.fields[KWorktreePath].Text? && AreTexts(j.fields[KReadPaths]) && AreTexts(j.fields[KWritePaths])
    && j.fields[KNetwork].Text?
    && j.fields[KListener].Flag? && j.fields[KEnvironment].Text? && j.fields[KMaxUses].Whole?
      && j.fields[KExpiresAt].Whole?
  }

  /** `_approval_from_payload`. */
  function ToApproval(j: Json): Option<Approval> {
    if !ApprovalShape(j) then None
    else
      var f := j.fields;
      var effects := ToAll(f[KSideEffects], ToEffect);
      var network, environment := NetworkNamed(f[KNetwork].text), EnvironmentNamed(f[KEnvironment].text);
      if effects.None? || network.None? || environment.None? then None
      else Some(Approval(f[KApprovalId].text, f[KTaskId].text, f[KCapabilityId].text,
                         f[KBaseSha].text, f[KWorktreePath].text,
                         ReadTexts(f[KReadPaths]), ReadTexts(f[KWritePaths]), effects.value,
                         network.value, f[KListener].flag, environment.value,
                         f[KMaxUses].number, f[KExpiresAt].number))
  }

  lemma EffectsReadBack(effects: seq<SideEffect>)
    ensures ToAll(FromAll(effects, FromEffect), ToEffect) == Some(effects)
  {
    forall i | 0 <= i < |effects| ensures ToEffect(FromEffect(effects[i])) == Some(effects[i]) {
      EffectReadsBack(effects[i]);
    }
    AllReadBack(effects, FromEffect, ToEffect);
  }

  lemma EffectReadsBack(e: SideEffect)
    ensures ToEffect(FromEffect(e)) == Some(e)
  {
  }

  lemma EnvironmentReadsBack(e: Environment)
    ensures EnvironmentNamed(EnvironmentName(e)) == Some(e)
  {
  }

  /** The approval the Gateway reads from an event is the one that was granted. */
  lemma ApprovalReadsBack(a: Approval)
    ensures ToApproval(FromApproval(a)) == Some(a)
  {
    EffectsReadBack(a.sideEffects);
    EnvironmentReadsBack(a.environment);
    TextsReadBack(a.readPaths);
    TextsReadBack(a.writePaths);
    NetworkReadsBack(a.network);
    hide NetworkName, NetworkNamed, EffectName, EffectNamed, EnvironmentName, EnvironmentNamed,
      FromAll, ToAll, Texts, ReadTexts, AreTexts;
  }

  // ---- Authorizations ----

  function FromWhole(i: int): Json { Whole(i) }

  function ToWhole(j: Json): Option<int> { if j.Whole? then Some(j.number) else None }

  lemma WholesReadBack(s: seq<int>)
    ensures ToAll(FromAll(s, FromWhole), ToWhole) == Some(s)
  {
    AllReadBack(s, FromWhole, ToWhole);
  }

  function FromAuthorization(a: Authorization): Json {
    Fields(map[
      KCapabilityId := Text(a.capabilityId), KArgv := Texts(a.argv), KCwd := Text(a.cwd),
      KReadPaths := Texts(a.readPaths), KWritePaths := Texts(a.writePaths), KNetwork := Text(NetworkName(a.network)),
      KListener := Flag(a.listener), KSideEffects := FromAll(a.sideEffects, FromEffect),
      KEnvironment := Text(EnvironmentName(a.environment)), KApprovalId := FromOptionalText(a.approvalId),
      KTimeoutSeconds := Whole(a.timeoutSeconds), KStopOnExitCodes := FromAll(a.stopOnExitCodes, FromWhole),
      KEnvelopeRevision := Whole(a.revision)])
  }

  const AUTHORIZATION_KEYS: set<Key> := {
    KCapabilityId, KArgv, KCwd, KReadPaths, KWritePaths, KNetwork, KListener, KSideEffects, KEnvironment, KApprovalId,
    KTimeoutSeconds, KStopOnExitCodes, KEnvelopeRevision}

  predicate AuthorizationShape(j: Json) {
    && Has(j, AUTHORIZATION_KEYS)
    && j.fields[KCapabilityId].Text? && AreTexts(j.fields[KArgv]) && j.fields[KCwd].Text?
    && AreTexts(j.fields[KReadPaths]) && AreTexts(j.fields[KWritePaths]) && j.fields[KNetwork].Text?
    && j.fields[KListener].Flag? && j.fields[KEnvironment].Text? && IsOptionalText(j.fields[KApprovalId])
    && j.fields[KTimeoutSeconds].Whole? && j.fields[KEnvelopeRevision].Whole?
  }

  function ToAuthorization(j: Json): Option<Authorization> {
    if !AuthorizationShape(j) then None
    else
      var f := j.fields;
      var network, environment := NetworkNamed(f[KNetwork].text), EnvironmentNamed(f[KEnvironment].text);
      var effects, codes := ToAll(f[KSideEffects], ToEffect), ToAll(f[KStopOnExitCodes], ToWhole);
      if network.None? || environment.None? || effects.None? || codes.None? then None
      else Some(Authorization(
        f[KCapabilityId].text, ReadTexts(f[KArgv]), f[KCwd].text, ReadTexts(f[KReadPaths]), ReadTexts(f[KWritePaths]),
        network.value, f[KListener].flag, effects.value, environment.value, ToOptionalText(f[KApprovalId]),
        f[KTimeoutSeconds].number, codes.value, f[KEnvelopeRevision].number))
  }

  lemma AuthorizationFields(a: Authorization)
    ensures Has(FromAuthorization(a), AUTHORIZATION_KEYS)
    ensures var f := FromAuthorization(a).fields;
      (&& f[KCapabilityId] == Text(a.capabilityId) && f[KArgv] == Texts(a.argv) && f[KCwd] == Text(a.cwd)
       && f[KReadPaths] == Texts(a.readPaths) && f[KWritePaths] == Texts(a.writePaths)
       && f[KNetwork] == Text(NetworkName(a.network)) && f[KListener] == Flag(a.listener))
    ensures var f := FromAuthorization(a).fields;
      (&& f[KSideEffects] == FromAll(a.sideEffects, FromEffect)
       && f[KEnvironment] == Text(EnvironmentName(a.environment)) && f[KApprovalId] == FromOptionalText(a.approvalId)
       && f[KTimeoutSeconds] == Whole(a.timeoutSeconds)
       && f[KStopOnExitCodes] == FromAll(a.stopOnExitCodes, FromWhole) && f[KEnvelopeRevision] == Whole(a.revision))
  {
    hide Texts, FromAll, NetworkName, EnvironmentName, FromOptionalText;
  }

  lemma AuthorizationReadsBack(a: Authorization)
    ensures ToAuthorization(FromAuthorization(a)) == Some(a)
  {
    hide FromAuthorization, EffectName, EffectNamed, EnvironmentName, EnvironmentNamed, NetworkName, NetworkNamed;
    hide FromAll, ToAll, Texts, ReadTexts, AreTexts;
    AuthorizationFields(a);
    EffectsReadBack(a.sideEffects);
    EnvironmentReadsBack(a.environment);
    NetworkReadsBack(a.network);
    WholesReadBack(a.stopOnExitCodes);
    TextsReadBack(a.argv);
    TextsReadBack(a.readPaths);
    TextsReadBack(a.writePaths);
  }

  // ---- Finishes ----

  function CommandStatusName(s: CommandStatus): string {
    match s
    case Succeeded => "succeeded"
    case CommandFailure => "command_failure"
    case TimedOut => "timed_out"
    case Cancelled => "cancelled"
    case OutputLimitExceeded => "output_limit_exceeded"
    case EnvironmentFailure => "environment_failure"
  }

  function CommandStatusNamed(name: string): Option<CommandStatus> {
    if name == "succeeded" then Some(Succeeded)
    else if name == "command_failure" then Some(CommandFailure)
    else if name == "timed_out" then Some(TimedOut)
    else if name == "cancelled" then Some(Cancelled)
    else if name == "output_limit_exceeded" then Some(OutputLimitExceeded)
    else if name == "environment_failure" then Some(EnvironmentFailure)
    else None
  }

  lemma CommandStatusReadsBack(s: CommandStatus)
    ensures CommandStatusNamed(CommandStatusName(s)) == Some(s)
  {
  }

  function FromFinish(f: Finish): Json {
    Fields(map[
      KProducer := Text(f.producer), KAuthorizationEventSequence := Whole(f.authSequence),
      KCapabilityId := Text(f.capabilityId), KAttempt := Whole(f.attempt), KStatus := Text(CommandStatusName(f.status)),
      KExitCode := FromOptionalWhole(f.exitCode), KTimedOut := Flag(f.timedOut), KCancelled := Flag(f.cancelled),
      KOutputTruncated := Flag(f.outputTruncated), KSandboxEnforced := Flag(f.sandboxEnforced),
      KStdoutArtifact := FromOptionalText(f.stdoutArtifact), KStderrArtifact := FromOptionalText(f.stderrArtifact)])
  }

  const FINISH_KEYS: set<Key> := {
    KProducer, KAuthorizationEventSequence, KCapabilityId, KAttempt, KStatus, KExitCode, KTimedOut, KCancelled,
    KOutputTruncated, KSandboxEnforced, KStdoutArtifact, KStderrArtifact}

  predicate FinishShape(j: Json) {
    && Has(j, FINISH_KEYS)
    && j.fields[KProducer].Text? && j.fields[KAuthorizationEventSequence].Whole? && j.fields[KCapabilityId].Text?
    && j.fields[KAttempt].Whole? && j.fields[KStatus].Text? && IsOptionalWhole(j.fields[KExitCode])
    && j.fields[KTimedOut].Flag? && j.fields[KCancelled].Flag? && j.fields[KOutputTruncated].Flag?
    && j.fields[KSandboxEnforced].Flag? && IsOptionalText(j.fields[KStdoutArtifact])
    && IsOptionalText(j.fields[KStderrArtifact])
  }

  function ToFinish(j: Json): Option<Finish> {
    if !FinishShape(j) then None
    else
      var f := j.fields;
      var status := CommandStatusNamed(f[KStatus].text);
      if status.None? then None
      else Some(Finish(
        f[KProducer].text, f[KAuthorizationEventSequence].number, f[KCapabilityId].text, f[KAttempt].number,
        status.value, ToOptionalWhole(f[KExitCode]), f[KTimedOut].flag, f[KCancelled].flag, f[KOutputTruncated].flag,
        f[KSandboxEnforced].flag, ToOptionalText(f[KStdoutArtifact]), ToOptionalText(f[KStderrArtifact])))
  }

  lemma FinishFields(f: Finish)
    ensures Has(FromFinish(f), FINISH_KEYS)
    ensures var j := FromFinish(f).fields;
      (&& j[KProducer] == Text(f.producer) && j[KAuthorizationEventSequence] == Whole(f.authSequence)
       && j[KCapabilityId] == Text(f.capabilityId) && j[KAttempt] == Whole(f.attempt)
       && j[KStatus] == Text(CommandStatusName(f.status)) && j[KExitCode] == FromOptionalWhole(f.exitCode))
    ensures var j := FromFinish(f).fields;
      (&& j[KTimedOut] == Flag(f.timedOut) && j[KCancelled] == Flag(f.cancelled)
       && j[KOutputTruncated] == Flag(f.outputTruncated) && j[KSandboxEnforced] == Flag(f.sandboxEnforced)
       && j[KStdoutArtifact] == FromOptionalText(f.stdoutArtifact)
       && j[KStderrArtifact] == FromOptionalText(f.stderrArtifact))
  {
    hide CommandStatusName, FromOptionalText, FromOptionalWhole;
  }

  lemma FinishReadsBack(f: Finish)
    ensures ToFinish(FromFinish(f)) == Some(f)
  {
    hide FromFinish, CommandStatusName, CommandStatusNamed;
    FinishFields(f);
    CommandStatusReadsBack(f.status);
  }

  // ---- Verifications ----

  function StatusNamed(name: string): Option<AcceptanceStatus> {
    if name == "passed" then Some(Passed)
    else if name == "failed" then Some(FailedEvidence)
    else if name == "missing" then Some(Missing)
    else if name == "stale" then Some(Stale)
    else if name == "untrusted" then Some(Untrusted)
    else None
  }

  function FromResult(r: AcceptanceResult): Json {
    Fields(map[KId := Text(r.acceptanceId), KStatus := Text(Verifier.StatusName(r.status)),
               KEvidenceEventSequence := FromOptionalWhole(r.evidenceSequence)])
  }

  predicate ResultShape(j: Json) {
    && Has(j, {KId, KStatus, KEvidenceEventSequence})
    && j.fields[KId].Text? && j.fields[KStatus].Text? && IsOptionalWhole(j.fields[KEvidenceEventSequence])
  }

  function ToResult(j: Json): Option<AcceptanceResult> {
    if !ResultShape(j) || StatusNamed(j.fields[KStatus].text).None? then None
    else Some(AcceptanceResult(j.fields[KId].text, StatusNamed(j.fields[KStatus].text).value,
                               ToOptionalWhole(j.fields[KEvidenceEventSequence])))
  }

  lemma StatusReadsBack(s: AcceptanceStatus)
    ensures StatusNamed(Verifier.StatusName(s)) == Some(s)
  {
  }

  lemma ResultsReadBack(results: seq<AcceptanceResult>)
    ensures ToAll(FromAll(results, FromResult), ToResult) == Some(results)
  {
    forall i | 0 <= i < |results| ensures ToResult(FromResult(results[i])) == Some(results[i]) {
      ResultReadsBack(results[i]);
    }
    AllReadBack(results, FromResult, ToResult);
  }

  lemma ResultReadsBack(r: AcceptanceResult)
    ensures ToResult(FromResult(r)) == Some(r)
  {
    StatusReadsBack(r.status);
    hide Verifier.StatusName, StatusNamed;
  }

  function CodeName(c: IssueCode): string {
    match c
    case LeaseConflict => "lease_conflict"
    case WorkspaceMismatch => "workspace_mismatch"
    case DiffOutOfScope => "diff_out_of_scope"
    case CommandIncomplete => "command_incomplete"
    case UnapprovedHighRiskOperation => "unapproved_high_risk_operation"
    case UnsupportedEvidenceType => "unsupported_evidence_type"
    case UntrustedEvidence => "untrusted_evidence"
    case RequiredAcceptanceFailed => "required_acceptance_failed"
    case EvidenceMissing => "evidence_missing"
    case ArtifactEscape => "artifact_escape"
    case SecretLeak => "secret_leak"
    case SandboxNotEnforced => "sandbox_not_enforced"
    case RequirementUncovered => "requirement_uncovered"
    case RequirementUnverified => "requirement_unverified"
  }

  function EarlyCodeNamed(name: string): Option<IssueCode> {
    if name == "lease_conflict" then Some(LeaseConflict)
    else if name == "workspace_mismatch" then Some(WorkspaceMismatch)
    else if name == "diff_out_of_scope" then Some(DiffOutOfScope)
    else if name == "command_incomplete" then Some(CommandIncomplete)
    else if name == "unapproved_high_risk_operation" then Some(UnapprovedHighRiskOperation)
    else if name == "unsupported_evidence_type" then Some(UnsupportedEvidenceType)
    else if name == "untrusted_evidence" then Some(UntrustedEvidence)
    else None
  }

  function LateCodeNamed(name: string): Option<IssueCode> {
    if name == "required_acceptance_failed" then Some(RequiredAcceptanceFailed)
    else if name == "evidence_missing" then Some(EvidenceMissing)
    else if name == "artifact_escape" then Some(ArtifactEscape)
    else if name == "secret_leak" then Some(SecretLeak)
    else if name == "sandbox_not_enforced" then Some(SandboxNotEnforced)
    else if name == "requirement_uncovered" then Some(RequirementUncovered)
    else if name == "requirement_unverified" then Some(RequirementUnverified)
    else None
  }

  function CodeNamed(name: string): Option<IssueCode> {
    if EarlyCodeNamed(name).Some? then EarlyCodeNamed(name) else LateCodeNamed(name)
  }

  function FromCode(c: IssueCode): Json { Text(CodeName(c)) }

  function ToCode(j: Json): Option<IssueCode> { if j.Text? then CodeNamed(j.text) else None }

  lemma EarlyOrLate(c: IssueCode)
    ensures EarlyCodeNamed(CodeName(c)) in {Some(c), None}
  {
  }

  lemma LateReadsBack(c: IssueCode)
    ensures LateCodeNamed(CodeName(c)) == Some(c) || EarlyCodeNamed(CodeName(c)).Some?
  {
  }

  lemma CodeReadsBack(c: IssueCode)
    ensures ToCode(FromCode(c)) == Some(c)
  {
    hide CodeName, EarlyCodeNamed, LateCodeNamed;
    EarlyOrLate(c);
    LateReadsBack(c);
  }

  lemma CodesReadBack(codes: seq<IssueCode>)
    ensures ToAll(FromAll(codes, FromCode), ToCode) == Some(codes)
  {
    hide FromCode, ToCode;
    forall i | 0 <= i < |codes| ensures ToCode(FromCode(codes[i])) == Some(codes[i]) {
      CodeReadsBack(codes[i]);
    }
    AllReadBack(codes, FromCode, ToCode);
  }

  function FromVerification(v: Verification): Json {
    Fields(map[KEnvelopeRevision := Whole(v.revision), KAcceptances := FromAll(v.acceptances, FromResult),
               KIssues := FromAll(v.issues, FromCode), KRiskReason := FromOptionalText(v.riskReason)])
  }

  predicate VerificationShape(j: Json) {
    && Has(j, {KEnvelopeRevision, KAcceptances, KIssues, KRiskReason})
    && j.fields[KEnvelopeRevision].Whole? && IsOptionalText(j.fields[KRiskReason])
  }

  function ToVerification(j: Json): Option<Verification> {
    if !VerificationShape(j) then None
    else
      var acceptances, issues := ToAll(j.fields[KAcceptances], ToResult), ToAll(j.fields[KIssues], ToCode);
      if acceptances.None? || issues.None? then None
      else Some(Verification(j.fields[KEnvelopeRevision].number, acceptances.value, issues.value,
                             ToOptionalText(j.fields[KRiskReason])))
  }

  lemma VerificationReadsBack(v: Verification)
    ensures ToVerification(FromVerification(v)) == Some(v)
  {
    ResultsReadBack(v.acceptances);
    CodesReadBack(v.issues);
    hide FromAll, ToAll;
  }

  // ---- Every event ----

  function StateName(s: TaskState): string {
    match s
    case Draft => "draft"
    case Active => "active"
    case Completed => "completed"
    case AcceptedWithRisk => "accepted_with_risk"
    case Blocked => "blocked"
    case Failed => "failed"
    case Abandoned => "abandoned"
  }

  function StateNamed(name: string): Option<TaskState> {
    if name == "draft" then Some(Draft)
    else if name == "active" then Some(Active)
    else if name == "completed" then Some(Completed)
    else if name == "accepted_with_risk" then Some(AcceptedWithRisk)
    else if name == "blocked" then Some(Blocked)
    else if name == "failed" then Some(Failed)
    else if name == "abandoned" then Some(Abandoned)
    else None
  }

  lemma StateReadsBack(s: TaskState)
    ensures StateNamed(StateName(s)) == Some(s)
  {
  }

  /** What an event's type says about its data. */
  datatype EventKind =
    | CreatedKind | AmendedKind | CancelledKind | FinalizedKind(outcome: TaskState) | ActivationKind | ApprovalKind
    | AuthorizedKind | StartedKind | FinishedKind

  function KindOf(data: EventData): EventKind {
    match data
    case TaskCreated => CreatedKind
    case TaskAmended(_) => AmendedKind
    case TaskCancelled(_) => CancelledKind
    case TaskFinalized(outcome, _) => FinalizedKind(outcome)
    case ModuleActivation(_, _) => ActivationKind
    case ApprovalGranted(_) => ApprovalKind
    case CommandAuthorized(_) => AuthorizedKind
    case CommandStarted(_, _, _) => StartedKind
    case CommandFinished(_) => FinishedKind
  }

  function KindName(k: EventKind): (name: string)
    ensures name != ""
  {
    match k
    case CreatedKind => "task.created"
    case AmendedKind => "task.amended"
    case CancelledKind => "task.cancelled"
    case FinalizedKind(outcome) => "task." + StateName(outcome)
    case ActivationKind => "module.activation"
    case ApprovalKind => "approval.granted"
    case AuthorizedKind => "command.authorized"
    case StartedKind => "command.started"
    case FinishedKind => "command.finished"
  }

  function PlainKindNamed(name: string): Option<EventKind> {
    if name == "task.created" then Some(CreatedKind)
    else if name == "task.amended" then Some(AmendedKind)
    else if name == "task.cancelled" then Some(CancelledKind)
    else if name == "module.activation" then Some(ActivationKind)
    else if name == "approval.granted" then Some(ApprovalKind)
    else if name == "command.authorized" then Some(AuthorizedKind)
    else if name == "command.started" then Some(StartedKind)
    else if name == "command.finished" then Some(FinishedKind)
    else None
  }

  function KindNamed(name: string): Option<EventKind> {
    if |name| > 5 && StateNamed(name[5..]).Some? then Some(FinalizedKind(StateNamed(name[5..]).value))
    else PlainKindNamed(name)
  }

  lemma KindReadsBack(k: EventKind)
    ensures KindNamed(KindName(k)) == Some(k)
  {
    match k {
      case FinalizedKind(outcome) =>
        StateReadsBack(outcome);
        assert KindName(k)[5..] == StateName(outcome);
      case _ =>
        PlainKindIsNoState(k);
    }
  }

  lemma PlainKindIsNoState(k: EventKind)
    requires !k.FinalizedKind?
    ensures |KindName(k)| > 5 && StateNamed(KindName(k)[5..]).None? && PlainKindNamed(KindName(k)) == Some(k)
  {
  }

  function FromData(data: EventData): Json {
    match data
    case TaskCreated => Fields(map[])
    case TaskAmended(revision) => Fields(map[KRevision := Whole(revision)])
    case TaskCancelled(reason) => Fields(map[KReason := Text(reason)])
    case TaskFinalized(_, v) => FromVerification(v)
    case ModuleActivation(id, state) => Fields(map[KModuleId := Text(id), KState := Text(state)])
    case ApprovalGranted(a) => FromApproval(a)
    case CommandAuthorized(a) => FromAuthorization(a)
    case CommandStarted(sequence, id, attempt) =>
      Fields(map[KAuthorizationEventSequence := Whole(sequence), KCapabilityId := Text(id), KAttempt := Whole(attempt)])
    case CommandFinished(f) => FromFinish(f)
  }

  predicate StartShape(j: Json) {
    && Has(j, {KAuthorizationEventSequence, KCapabilityId, KAttempt})
    && j.fields[KAuthorizationEventSequence].Whole? && j.fields[KCapabilityId].Text? && j.fields[KAttempt].Whole?
  }

  /** The data of an event of this kind; none of a kind or shape no component writes. */
  function ToData(kind: EventKind, j: Json): Option<EventData> {
    match kind
    case CreatedKind => if j.Fields? then Some(TaskCreated) else None
    case AmendedKind =>
      if Has(j, {KRevision}) && j.fields[KRevision].Whole? then Some(TaskAmended(j.fields[KRevision].number)) else None
    case CancelledKind =>
      if Has(j, {KReason}) && j.fields[KReason].Text? then Some(TaskCancelled(j.fields[KReason].text)) else None
    case FinalizedKind(outcome) =>
      var v := ToVerification(j);
      if v.Some? then Some(TaskFinalized(outcome, v.value)) else None
    case ActivationKind =>
      if Has(j, {KModuleId, KState}) && j.fields[KModuleId].Text? && j.fields[KState].Text? then
        Some(ModuleActivation(j.fields[KModuleId].text, j.fields[KState].text))
      else None
    case ApprovalKind =>
      var a := ToApproval(j);
      if a.Some? then Some(ApprovalGranted(a.value)) else None
    case AuthorizedKind =>
      var a := ToAuthorization(j);
      if a.Some? then Some(CommandAuthorized(a.value)) else None
    case StartedKind =>
      if StartShape(j) then
        Some(CommandStarted(j.fields[KAuthorizationEventSequence].number, j.fields[KCapabilityId].text,
                            j.fields[KAttempt].number))
      else None
    case FinishedKind =>
      var f := ToFinish(j);
      if f.Some? then Some(CommandFinished(f.value)) else None
  }

  /** Whatever a component records, reading it gives the same facts. */
  lemma DataReadsBack(data: EventData)
    ensures ToData(KindOf(data), FromData(data)) == Some(data)
  {
    match data {
      case TaskFinalized(_, v) => VerificationReadsBack(v);
      case ApprovalGranted(a) => ApprovalReadsBack(a);
      case CommandAuthorized(a) => AuthorizationReadsBack(a);
      case CommandFinished(f) => FinishReadsBack(f);
      case _ =>
    }
    hide FromVerification, ToVerification, FromApproval, ToApproval, FromAuthorization, ToAuthorization, FromFinish;
    hide ToFinish;
  }
}
