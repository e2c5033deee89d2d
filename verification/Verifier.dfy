/**
 The Completion Gate: the issues each check collects, the outcome they decide, and the
 declarative condition under which a task is completed.
 */
module Verifier {
  import opened Prelude
  import opened TaskModel
  import opened Gateway
  import Texts

  datatype Issue = Issue(code: IssueCode, message: string, waivable: bool)

  /** What resolving one artifact path finds. */
  datatype Artifact = Artifact(escapes: bool, content: string)

  /** Everything the gate reads from outside the record. */
  datatype Probe = Probe(
    snapshot: Snapshot,
    changedPaths: seq<string>,
    artifacts: map<string, Artifact>,
    secrets: seq<string>)

  datatype Outcome = OutcomeRejected | OutcomeCompleted | OutcomeAcceptedWithRisk

  datatype Report = Report(
    revision: int,
    outcome: Outcome,
    acceptances: seq<AcceptanceResult>,
    issues: seq<Issue>,
    riskReason: Option<string>)

  // ---- The checks, each as the issues it appends ----

  function WorkspaceIssues(envelope: Envelope, snapshot: Snapshot): seq<Issue> {
    if SameWorkspace(envelope, snapshot) then []
    else [Issue(WorkspaceMismatch, "repository, base SHA, or worktree identity changed", false)]
  }

  predicate ChangeInScope(path: string, envelope: Envelope) {
    SafeRelative(path) && InScope(path, envelope.allowedScope)
  }

  function DiffIssues(envelope: Envelope, paths: seq<string>): seq<Issue> {
    if paths == [] then []
    else
      DiffIssues(envelope, paths[..|paths| - 1]) +
      if ChangeInScope(paths[|paths| - 1], envelope) then []
      else [Issue(DiffOutOfScope, "changed path is outside allowed scope: " + paths[|paths| - 1], false)]
  }

  predicate HasFinish(events: seq<Event>, authSequence: int) {
    exists i :: 0 <= i < |events| && events[i].data.CommandFinished?
      && events[i].data.finish.authSequence == authSequence
  }

  predicate Incomplete(all: seq<Event>, e: Event) {
    e.data.CommandStarted? && !HasFinish(all, e.data.authSequence)
  }

  function IncompleteIssues(all: seq<Event>, events: seq<Event>): seq<Issue> {
    if events == [] then []
    else
      IncompleteIssues(all, events[..|events| - 1]) +
      if Incomplete(all, events[|events| - 1]) then
        [Issue(CommandIncomplete, "a command started without a terminal event", true)]
      else []
  }

  predicate UnapprovedHighRisk(e: Event) {
    e.data.CommandAuthorized? && HighRisk(e.data.auth) && e.data.auth.approvalId.None?
  }

  function HighRiskIssues(events: seq<Event>): seq<Issue> {
    if events == [] then []
    else
      HighRiskIssues(events[..|events| - 1]) +
      if UnapprovedHighRisk(events[|events| - 1]) then
        [Issue(UnapprovedHighRiskOperation, "high-risk operation lacks a scoped approval", false)]
      else []
  }

  predicate FinishOfCommand(e: Event, commandId: string) {
    e.data.CommandFinished? && e.data.finish.capabilityId == commandId
  }

  /** Position of the last finish of a command: `candidates[-1]`. */
  function LastFinish(events: seq<Event>, commandId: string): (found: Option<nat>)
    ensures found.Some? ==>
      && found.value < |events| && FinishOfCommand(events[found.value], commandId)
      && forall i :: found.value < i < |events| ==> !FinishOfCommand(events[i], commandId)
    ensures found.None? ==> forall i :: 0 <= i < |events| ==> !FinishOfCommand(events[i], commandId)
  {
    if events == [] then None
    else if FinishOfCommand(events[|events| - 1], commandId) then Some(|events| - 1)
    else LastFinish(events[..|events| - 1], commandId)
  }

  predicate HasAuthorization(events: seq<Event>, f: Finish) {
    && 1 <= f.authSequence <= |events|
    && events[f.authSequence - 1].data.CommandAuthorized?
    && events[f.authSequence - 1].data.auth.capabilityId == f.capabilityId
  }

  predicate HasStart(events: seq<Event>, finished: Event)
    requires finished.data.CommandFinished?
  {
    exists i :: 0 <= i < |events|
      && events[i].sequence < finished.sequence
      && events[i].data.CommandStarted?
      && events[i].data.authSequence == finished.data.finish.authSequence
  }

  function ArtifactIssues(a: Acceptance, field: string, path: Option<string>, probe: Probe): seq<Issue> {
    if path.None? then [Issue(EvidenceMissing, "acceptance " + a.id + " lacks " + field, true)]
    else if path.value !in probe.artifacts then
      [Issue(EvidenceMissing, "acceptance artifact does not exist: " + path.value, true)]
    else if probe.artifacts[path.value].escapes then
      [Issue(ArtifactEscape, "acceptance artifact escapes task storage: " + path.value, false)]
    else if exists s :: s in probe.secrets && Texts.Contains(probe.artifacts[path.value].content, s) then
      [Issue(SecretLeak, "secret found in acceptance artifact: " + path.value, false)]
    else []
  }

  function EvidenceIssues(a: Acceptance, f: Finish, probe: Probe): seq<Issue> {
    ArtifactIssues(a, "stdout_artifact", f.stdoutArtifact, probe) +
    ArtifactIssues(a, "stderr_artifact", f.stderrArtifact, probe)
  }

  function SandboxIssues(envelope: Envelope, f: Finish): seq<Issue> {
    if envelope.integrationMode == Enforced && !f.sandboxEnforced then
      [Issue(SandboxNotEnforced, "enforced task evidence lacks an enforced sandbox", false)]
    else []
  }

  predicate ExitAccepted(a: Acceptance, f: Finish) {
    f.status == Succeeded && f.exitCode == Some(a.expectedExitCode) && !f.timedOut && !f.cancelled
  }

  datatype Verdict = Verdict(result: AcceptanceResult, issues: seq<Issue>)

  function StatusName(s: AcceptanceStatus): string {
    match s
    case Passed => "passed"
    case FailedEvidence => "failed"
    case Missing => "missing"
    case Stale => "stale"
    case Untrusted => "untrusted"
  }

  function FailedVerdict(a: Acceptance, status: AcceptanceStatus, sequence: Option<int>, before: seq<Issue>): Verdict {
    Verdict(AcceptanceResult(a.id, status, sequence),
            before + if a.required then
              [Issue(RequiredAcceptanceFailed, "required acceptance " + a.id + " is " + StatusName(status), true)]
            else [])
  }

  function UntrustedVerdict(a: Acceptance, sequence: int, reason: string): Verdict {
    Verdict(AcceptanceResult(a.id, Untrusted, Some(sequence)),
            [Issue(UntrustedEvidence, "acceptance " + a.id + reason, false)])
  }

  /** The verdict on an acceptance whose command last finished at position `i`. */
  function VerifyFinish(r: Record, a: Acceptance, i: nat, probe: Probe): Verdict
    requires r.revisions != [] && i < |r.events| && r.events[i].data.CommandFinished?
  {
    var e := r.events[i];
    var f := e.data.finish;
    if !HasAuthorization(r.events, f) then UntrustedVerdict(a, e.sequence, " has no valid authorization")
    else if r.events[f.authSequence - 1].data.auth.revision != r.Current().revision then
      FailedVerdict(a, Stale, Some(e.sequence), [])
    else if !HasStart(r.events, e) then UntrustedVerdict(a, e.sequence, " has no matching start event")
    else if f.producer != EXECUTOR then UntrustedVerdict(a, e.sequence, " was not produced by Executor")
    else
      var found := EvidenceIssues(a, f, probe) + SandboxIssues(r.Current(), f);
      if found == [] && ExitAccepted(a, f) then Verdict(AcceptanceResult(a.id, Passed, Some(e.sequence)), [])
      else FailedVerdict(a, FailedEvidence, Some(e.sequence), found)
  }

  function VerifyAcceptance(r: Record, a: Acceptance, probe: Probe): Verdict
    requires r.revisions != []
  {
    if a.evidenceType != "command_event" then
      Verdict(AcceptanceResult(a.id, Untrusted, None),
              [Issue(UnsupportedEvidenceType,
                     "acceptance " + a.id + " uses unsupported evidence type " + a.evidenceType, false)])
    else
      match LastFinish(r.events, a.commandId)
      case None => FailedVerdict(a, Missing, None, [])
      case Some(i) => VerifyFinish(r, a, i, probe)
  }

  function Results(r: Record, acceptances: seq<Acceptance>, probe: Probe): (rs: seq<AcceptanceResult>)
    requires r.revisions != []
    ensures |rs| == |acceptances|
    ensures forall i :: 0 <= i < |rs| ==> rs[i] == VerifyAcceptance(r, acceptances[i], probe).result
  {
    if acceptances == [] then []
    else
      Results(r, acceptances[..|acceptances| - 1], probe) +
      [VerifyAcceptance(r, acceptances[|acceptances| - 1], probe).result]
  }

  function AcceptanceIssues(r: Record, acceptances: seq<Acceptance>, probe: Probe): seq<Issue>
    requires r.revisions != []
  {
    if acceptances == [] then []
    else
      AcceptanceIssues(r, acceptances[..|acceptances| - 1], probe) +
      VerifyAcceptance(r, acceptances[|acceptances| - 1], probe).issues
  }

  predicate Covered(q: Requirement, envelope: Envelope) {
    exists a :: a in envelope.acceptances && q.id in a.covers
  }

  /** `result_by_id[id]`: the last result recorded under an id. */
  function ResultFor(results: seq<AcceptanceResult>, id: string): Option<AcceptanceResult> {
    if results == [] then None
    else if results[|results| - 1].acceptanceId == id then Some(results[|results| - 1])
    else ResultFor(results[..|results| - 1], id)
  }

  predicate PassingCover(q: Requirement, envelope: Envelope, results: seq<AcceptanceResult>) {
    exists a :: a in envelope.acceptances && q.id in a.covers
      && ResultFor(results, a.id).Some? && ResultFor(results, a.id).value.status == Passed
  }

  function CoverageIssue(q: Requirement, envelope: Envelope, results: seq<AcceptanceResult>): seq<Issue> {
    if !Covered(q, envelope) then [Issue(RequirementUncovered, "requirement has no acceptance: " + q.id, false)]
    else if !PassingCover(q, envelope, results) then
      [Issue(RequirementUnverified, "requirement lacks passing evidence: " + q.id, true)]
    else []
  }

  function CoverageIssues(requirements: seq<Requirement>, envelope: Envelope,
                          results: seq<AcceptanceResult>): seq<Issue> {
    if requirements == [] then []
    else
      CoverageIssues(requirements[..|requirements| - 1], envelope, results) +
      CoverageIssue(requirements[|requirements| - 1], envelope, results)
  }

  predicate Seen(issues: seq<Issue>, x: Issue) {
    exists y :: y in issues && y.code == x.code && y.message == x.message
  }

  /** Keep the first issue of every code and message. */
  function Deduplicate(issues: seq<Issue>): seq<Issue> {
    if issues == [] then []
    else
      var last := issues[|issues| - 1];
      var earlier := Deduplicate(issues[..|issues| - 1]);
      if Seen(earlier, last) then earlier else earlier + [last]
  }

  function AllIssues(r: Record, probe: Probe): seq<Issue>
    requires r.revisions != []
  {
    var envelope := r.Current();
    WorkspaceIssues(envelope, probe.snapshot) + DiffIssues(envelope, probe.changedPaths) +
    IncompleteIssues(r.events, r.events) + HighRiskIssues(r.events) +
    AcceptanceIssues(r, envelope.acceptances, probe) +
    CoverageIssues(envelope.requirements, envelope, Results(r, envelope.acceptances, probe))
  }

  predicate AllWaivable(issues: seq<Issue>) {
    forall x :: x in issues ==> x.waivable
  }

  function Decision(issues: seq<Issue>, acceptRisk: bool, reason: Option<string>): Outcome {
    if issues == [] then OutcomeCompleted
    else if acceptRisk && reason.Some? && !IsBlank(reason.value) && AllWaivable(issues) then OutcomeAcceptedWithRisk
    else OutcomeRejected
  }

  /** `_verify_with_lease` up to the write. */
  function Evaluate(r: Record, probe: Probe, acceptRisk: bool, reason: Option<string>): Report
    requires r.revisions != []
  {
    var envelope := r.Current();
    var issues := Deduplicate(AllIssues(r, probe));
    Report(envelope.revision, Decision(issues, acceptRisk, reason), Results(r, envelope.acceptances, probe),
           issues, reason)
  }

  function Codes(issues: seq<Issue>): (codes: seq<IssueCode>)
    ensures |codes| == |issues|
    ensures forall i :: 0 <= i < |issues| ==> codes[i] == issues[i].code
  {
    if issues == [] then [] else Codes(issues[..|issues| - 1]) + [issues[|issues| - 1].code]
  }

  function VerificationOf(report: Report): Verification {
    Verification(report.revision, report.acceptances, Codes(report.issues), report.riskReason)
  }

  // ---- The declarative gate ----

  /** The authorize, start, finish chain behind a finish, bound to the current revision. */
  predicate CurrentChain(r: Record, i: nat)
    requires r.revisions != [] && i < |r.events| && r.events[i].data.CommandFinished?
  {
    var f := r.events[i].data.finish;
    && HasAuthorization(r.events, f)
    && r.events[f.authSequence - 1].data.auth.revision == r.Current().revision
    && HasStart(r.events, r.events[i])
    && f.producer == EXECUTOR
  }

  predicate CleanArtifact(path: Option<string>, probe: Probe) {
    && path.Some? && path.value in probe.artifacts
    && !probe.artifacts[path.value].escapes
    && forall s :: s in probe.secrets ==> !Texts.Contains(probe.artifacts[path.value].content, s)
  }

  predicate CleanEvidence(r: Record, f: Finish, probe: Probe)
    requires r.revisions != []
  {
    && CleanArtifact(f.stdoutArtifact, probe) && CleanArtifact(f.stderrArtifact, probe)
    && (r.Current().integrationMode == Enforced ==> f.sandboxEnforced)
  }

  predicate PassesAt(r: Record, a: Acceptance, i: nat, probe: Probe)
    requires r.revisions != [] && i < |r.events| && r.events[i].data.CommandFinished?
  {
    && CurrentChain(r, i)
    && CleanEvidence(r, r.events[i].data.finish, probe)
    && ExitAccepted(a, r.events[i].data.finish)
  }

  /** The acceptance has current, trusted, clean evidence of the expected exit. */
  predicate Passes(r: Record, a: Acceptance, probe: Probe)
    requires r.revisions != []
  {
    && a.evidenceType == "command_event"
    && LastFinish(r.events, a.commandId).Some?
    && PassesAt(r, a, LastFinish(r.events, a.commandId).value, probe)
  }

  predicate TolerableAt(r: Record, i: nat, probe: Probe)
    requires r.revisions != [] && i < |r.events| && r.events[i].data.CommandFinished?
  {
    var f := r.events[i].data.finish;
    && HasAuthorization(r.events, f)
    && (r.events[f.authSequence - 1].data.auth.revision == r.Current().revision ==>
      CurrentChain(r, i) && CleanEvidence(r, f, probe))
  }

  /** The last finish of the command supports no required acceptance, but raises no issue of its own. */
  predicate Tolerable(r: Record, a: Acceptance, probe: Probe)
    requires r.revisions != []
  {
    && a.evidenceType == "command_event"
    && (LastFinish(r.events, a.commandId).Some? ==>
      TolerableAt(r, LastFinish(r.events, a.commandId).value, probe))
  }

  /** Some acceptance that covers the requirement passes. */
  predicate Proved(q: Requirement, r: Record, probe: Probe)
    requires r.revisions != []
  {
    exists a :: a in r.Current().acceptances && q.id in a.covers && Passes(r, a, probe)
  }

  predicate AcceptancesMet(r: Record, acceptances: seq<Acceptance>, probe: Probe)
    requires r.revisions != []
  {
    forall a :: a in acceptances ==> if a.required then Passes(r, a, probe) else Tolerable(r, a, probe)
  }

  /** When a task is completed, without mentioning issues. */
  predicate CompletionGate(r: Record, probe: Probe)
    requires r.revisions != []
  {
    var envelope := r.Current();
    && SameWorkspace(envelope, probe.snapshot)
    && (forall p :: p in probe.changedPaths ==> ChangeInScope(p, envelope))
    && (forall e :: e in r.events ==> !Incomplete(r.events, e))
    && (forall e :: e in r.events ==> !UnapprovedHighRisk(e))
    && AcceptancesMet(r, envelope.acceptances, probe)
    && (forall q :: q in envelope.requirements ==> Proved(q, r, probe))
  }

  /** The part of the gate no risk acceptance can waive: what issues of a non-waivable code say. */
  predicate TrustGate(r: Record, probe: Probe)
    requires r.revisions != []
  {
    var envelope := r.Current();
    && SameWorkspace(envelope, probe.snapshot)
    && (forall p :: p in probe.changedPaths ==> ChangeInScope(p, envelope))
    && (forall e :: e in r.events ==> !UnapprovedHighRisk(e))
    && (forall a :: a in envelope.acceptances ==> Trusted(r, a, probe))
    && (forall q :: q in envelope.requirements ==> Covered(q, envelope))
  }

  /** An artifact that is present neither escapes task storage nor holds a secret. */
  predicate NoLeak(path: Option<string>, probe: Probe) {
    path.Some? && path.value in probe.artifacts ==> CleanArtifact(path, probe)
  }

  predicate TrustedAt(r: Record, i: nat, probe: Probe)
    requires r.revisions != [] && i < |r.events| && r.events[i].data.CommandFinished?
  {
    var f := r.events[i].data.finish;
    && HasAuthorization(r.events, f)
    && (r.events[f.authSequence - 1].data.auth.revision == r.Current().revision ==>
      && CurrentChain(r, i)
      && NoLeak(f.stdoutArtifact, probe) && NoLeak(f.stderrArtifact, probe)
      && (r.Current().integrationMode == Enforced ==> f.sandboxEnforced))
  }

  /** The last finish of the command raises no trust, artifact or sandbox issue. */
  predicate Trusted(r: Record, a: Acceptance, probe: Probe)
    requires r.revisions != []
  {
    && a.evidenceType == "command_event"
    && (LastFinish(r.events, a.commandId).Some? ==>
      TrustedAt(r, LastFinish(r.events, a.commandId).value, probe))
  }
}
