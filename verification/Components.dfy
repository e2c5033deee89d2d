/**
 The components that change state: the task store, the Gateway and Executor that append
 to it, the Verifier with its shared issue list, and the service that serializes them.
 Every method is tied to the record functions whose properties are proved elsewhere.
 */
module Components {
  import opened Prelude
  import opened TaskModel
  import opened Records
  import opened Gateway
  import opened Execution
  import opened Verifier
  import opened Kernel
  import opened Service
  import Texts

  predicate SafeTaskId(id: string) {
    id != "" && forall i :: 0 <= i < |id| ==> IsLetter(id[i]) || IsDigit(id[i]) || id[i] in "._-"
  }

  class TaskStore {
    var records: map<string, Record>

    ghost predicate Valid()
      reads this
    {
      forall id :: id in records ==> SafeTaskId(id) && Loadable(records[id]) && records[id].taskId == id
    }

    constructor ()
      ensures Valid() && records == map[]
    {
      records := map[];
    }

    /** What `load` returns for a task. */
    function Loaded(taskId: string): (r: Result<Record, StoreError>)
      reads this
      ensures r.Ok? <==> SafeTaskId(taskId) && taskId in records
    {
      if !SafeTaskId(taskId) then Err(UnsafeTaskId)
      else if taskId !in records then Err(NotFound)
      else Ok(records[taskId])
    }

    method Load(taskId: string) returns (r: Result<Record, StoreError>)
      requires Valid()
      ensures r == Loaded(taskId)
      ensures r.Ok? ==> Loadable(r.value) && r.value.taskId == taskId
    {
      if !SafeTaskId(taskId) { return Err(UnsafeTaskId); }
      if taskId !in records { return Err(NotFound); }
      r := Ok(records[taskId]);
    }

    /** `_write`. */
    method Write(record: Record)
      requires Valid() && SafeTaskId(record.taskId) && Loadable(record)
      modifies this
      ensures Valid() && records == old(records)[record.taskId := record]
    {
      hide Loadable, SafeTaskId;
      records := records[record.taskId := record];
    }

    method Create(envelope: Envelope, at: string) returns (r: Result<Record, StoreError>)
      requires Valid() && envelope.Valid() && envelope.revision == 1 && at != ""
      modifies this
      ensures Valid()
      ensures !SafeTaskId(envelope.taskId) ==> r == Err(UnsafeTaskId)
      ensures SafeTaskId(envelope.taskId) && envelope.taskId in old(records) ==> r == Err(AlreadyExists)
      ensures SafeTaskId(envelope.taskId) && envelope.taskId !in old(records) ==>
        r == CreateRecord(envelope, at) && r.Ok?
      ensures records == if r.Ok? then old(records)[envelope.taskId := r.value] else old(records)
    {
      if !SafeTaskId(envelope.taskId) { return Err(UnsafeTaskId); }
      if envelope.taskId in records { return Err(AlreadyExists); }
      CreatedIsLoadable(envelope, at);
      r := CreateRecord(envelope, at);
      records := records[envelope.taskId := r.value];
    }

    method Amend(taskId: string, changes: Changes, at: string) returns (r: Result<Record, StoreError>)
      requires Valid() && at != ""
      modifies this
      ensures Valid()
      ensures r == if old(Loaded(taskId)).Ok? then AmendRecord(old(records[taskId]), changes, at)
        else old(Loaded(taskId))
      ensures records == if r.Ok? then old(records)[taskId := r.value] else old(records)
    {
      var record := Load(taskId);
      if record.Err? { return record; }
      assert record.value.revisions != [];
      hide AmendRecord, AmendEnvelope, Loadable;
      AmendedIsLoadable(record.value, changes, at);
      r := AmendRecord(record.value, changes, at);
      if r.Ok? { Write(r.value); }
    }

    method Cancel(taskId: string, reason: string, at: string) returns (r: Result<Record, StoreError>)
      requires Valid() && at != ""
      modifies this
      ensures Valid()
      ensures r == if old(Loaded(taskId)).Ok? then CancelRecord(old(records[taskId]), reason, at)
        else old(Loaded(taskId))
      ensures records == if r.Ok? then old(records)[taskId := r.value] else old(records)
    {
      var record := Load(taskId);
      if record.Err? { return record; }
      hide CancelRecord, Loadable;
      CancelledIsLoadable(record.value, reason, at);
      r := CancelRecord(record.value, reason, at);
      if r.Ok? { Write(r.value); }
    }

    method AppendEvent(taskId: string, data: EventData, at: string) returns (r: Result<Record, StoreError>)
      requires Valid() && at != ""
      modifies this
      ensures Valid()
      ensures r == if old(Loaded(taskId)).Ok? then AppendRecord(old(records[taskId]), data, at) else old(Loaded(taskId))
      ensures records == if r.Ok? then old(records)[taskId := r.value] else old(records)
    {
      var record := Load(taskId);
      if record.Err? { return record; }
      hide AppendRecord, Loadable, Appended;
      AppendedIsLoadable(record.value, data, at);
      r := AppendRecord(record.value, data, at);
      if r.Ok? { Write(r.value); }
    }

    method Finalize(taskId: string, outcome: TaskState, v: Verification, at: string)
      returns (r: Result<Record, StoreError>)
      requires Valid() && at != ""
      modifies this
      ensures Valid()
      ensures r ==
        if outcome != Completed && outcome != AcceptedWithRisk then Err(IllegalOutcome)
        else if old(Loaded(taskId)).Ok? then FinalizeRecord(old(records[taskId]), outcome, v, at)
        else old(Loaded(taskId))
      ensures records == if r.Ok? then old(records)[taskId := r.value] else old(records)
    {
      if outcome != Completed && outcome != AcceptedWithRisk { return Err(IllegalOutcome); }
      var record := Load(taskId);
      if record.Err? { return record; }
      hide FinalizeRecord, Loadable;
      FinalizedIsLoadable(record.value, outcome, v, at);
      r := FinalizeRecord(record.value, outcome, v, at);
      if r.Ok? { Write(r.value); }
    }
  }

  class CapabilityGateway {
    const store: TaskStore
    const world: World

    constructor (store: TaskStore, world: World)
      ensures this.store == store && this.world == world
    {
      this.store := store;
      this.world := world;
    }

    /** Search the offered approvals in order. */
    method SearchApprovals(r: Record, c: Capability, approvals: seq<Approval>, snapshot: Snapshot, time: int)
      returns (found: Option<Approval>)
      requires r.revisions != []
      ensures found == FindApproval(approvals, r, c, snapshot, time)
    {
      for i := 0 to |approvals|
        invariant FindApproval(approvals, r, c, snapshot, time) == FindApproval(approvals[i..], r, c, snapshot, time)
      {
        if ApprovalFits(approvals[i], r, c, snapshot, time) { return Some(approvals[i]); }
      }
      found := None;
    }

    method Authorize(taskId: string, capabilityId: string, approvals: seq<Approval>, snapshot: Snapshot, time: int,
                     cwd: string, at: string) returns (issued: Option<AuthorizedCommand>)
      requires store.Valid() && at != ""
      modifies store
      ensures store.Valid()
      ensures old(store.Loaded(taskId)).Err? ==> issued.None? && store.records == old(store.records)
      ensures old(store.Loaded(taskId)).Ok? ==>
        var r := old(store.records[taskId]);
        var after := AuthorizeRecord(world, r, Action.Authorize(capabilityId, approvals, snapshot, time, cwd), at);
        && store.records == old(store.records)[taskId := after]
        && (issued.Some? <==> after != r)
        && (issued.Some? ==>
          after.events != [] && after.events[|after.events| - 1].data.CommandAuthorized?
            && issued == Some(IssuedCommand(after)))
    {
      var record := store.Load(taskId);
      if record.Err? { return None; }
      var r := record.value;
      assert store.records == store.records[taskId := r] && r.revisions != [];
      var decision := Decide(r, world.caps, world.policy, capabilityId, approvals, snapshot, time, cwd);
      AuthorizedRecord(world, r, Action.Authorize(capabilityId, approvals, snapshot, time, cwd), at);
      hide Decide, Loadable, AppendRecord, AuthorizeRecord, IssuedCommand, CommandFor;
      if decision.Err? { return None; }
      var written := store.AppendEvent(taskId, CommandAuthorized(decision.value), at);
      if written.Err? { return None; }
      issued := Some(CommandFor(taskId, decision.value, |written.value.events|));
    }
  }

  /** The record an authorization leaves, by what was decided and whether it could be appended. */
  lemma AuthorizedRecord(w: World, r: Record, a: Action, at: string)
    requires a.Authorize? && r.revisions != []
    ensures var d := Decide(r, w.caps, w.policy, a.capabilityId, a.approvals, a.snapshot, a.time, a.cwd);
      var after := AuthorizeRecord(w, r, a, at);
      && (d.Err? ==> after == r)
      && (d.Ok? ==>
            var written := AppendRecord(r, CommandAuthorized(d.value), at);
            && (written.Err? ==> after == r)
            && (written.Ok? ==>
                  && after == written.value != r && after.taskId == r.taskId
                  && after.events != [] && after.events[|after.events| - 1].data.CommandAuthorized?
                  && IssuedCommand(after) == CommandFor(r.taskId, d.value, |after.events|)))
  {
    hide Decide, WellFormed;
  }

  /** The process leases, by worktree path. */
  class LeaseTable {
    var held: set<string>

    constructor ()
      ensures held == {}
    {
      held := {};
    }

    method Acquire(path: string) returns (ok: bool)
      modifies this
      ensures ok == (path !in old(held)) && held == old(held) + {path}
    {
      ok := path !in held;
      held := held + {path};
    }

    method Release(path: string)
      modifies this
      ensures held == old(held) - {path}
    {
      held := held - {path};
    }
  }

  class CommandExecutor {
    const store: TaskStore
    const leases: LeaseTable

    constructor (store: TaskStore, leases: LeaseTable)
      ensures this.store == store && this.leases == leases
    {
      this.store := store;
      this.leases := leases;
    }

    /** `execute`: the record after it is the one the lease, start and end steps produce. */
    method Execute(command: AuthorizedCommand, snapshot: Snapshot, lockedSnapshot: Snapshot, fate: Fate, at: string)
      returns (finished: bool)
      requires store.Valid() && at != ""
      modifies store, leases
      ensures store.Valid() && leases.held == old(leases.held)
      ensures old(store.Loaded(command.taskId)).Err? ==> !finished && store.records == old(store.records)
      ensures old(store.Loaded(command.taskId)).Ok? ==>
        var r := old(store.records[command.taskId]);
        if Validate(r, command, snapshot).Some? || snapshot.worktreePath in old(leases.held) then
          !finished && store.records == old(store.records)
        else
          store.records == old(store.records)[command.taskId := ExecutedRecord(r, command, lockedSnapshot, fate, at)]
    {
      finished := false;
      var record := store.Load(command.taskId);
      if record.Err? { return; }
      assert record.value.revisions != [];
      hide Validate, ExecutedRecord, Loadable;
      if Validate(record.value, command, snapshot).Some? { return; }
      if snapshot.worktreePath in leases.held { return; }
      var _ := leases.Acquire(snapshot.worktreePath);
      finished := ExecuteLeased(command, lockedSnapshot, fate, at);
      leases.Release(snapshot.worktreePath);
    }

    /** `_finish`: one terminal event, unless the task was closed meanwhile. */
    method Finish(taskId: string, f: Finish, at: string) returns (finished: bool)
      requires store.Valid() && at != "" && store.Loaded(taskId).Ok?
      modifies store
      ensures store.Valid()
      ensures var r := old(store.records[taskId]);
        store.records == old(store.records)[taskId := Kept(r, AppendRecord(r, CommandFinished(f), at))]
    {
      hide AppendRecord;
      ghost var before := store.records;
      var ended := store.AppendEvent(taskId, CommandFinished(f), at);
      assert ended.Err? ==> before == before[taskId := before[taskId]];
      finished := ended.Ok?;
    }

    /** The body of `execute` under the lease. */
    method ExecuteLeased(command: AuthorizedCommand, snapshot: Snapshot, fate: Fate, at: string)
      returns (finished: bool)
      requires store.Valid() && at != "" && store.Loaded(command.taskId).Ok?
      modifies store
      ensures store.Valid()
      ensures store.records == old(store.records)[command.taskId :=
        ExecutedRecord(old(store.records[command.taskId]), command, snapshot, fate, at)]
    {
      finished := false;
      var record := store.Load(command.taskId);
      ghost var before, r := store.records, record.value;
      assert r.revisions != [] && before == before[command.taskId := r];
      hide Validate, FinishOf, AppendRecord, NextAttempt, TaskStore.Valid, Loadable, Kept;
      if Validate(record.value, command, snapshot).Some? { return; }
      var sandbox := record.value.Current().integrationMode == Enforced;
      var attempt := NextAttempt(record.value, command.capabilityId);
      var started := store.AppendEvent(command.taskId,
                                       CommandStarted(command.authSequence, command.capabilityId, attempt), at);
      if started.Err? || !fate.Ends? { return; }
      var f := FinishOf(command, attempt, sandbox, fate.result, fate.stdoutArtifact, fate.stderrArtifact);
      finished := Finish(command.taskId, f, at);
      SetTwice(before, command.taskId, started.value, store.records[command.taskId]);
    }
  }

  /** The list the checks of one evaluation append to. */
  class IssueList {
    var items: seq<Issue>

    constructor ()
      ensures items == []
    {
      items := [];
    }

    method Append(issue: Issue)
      modifies this
      ensures items == old(items) + [issue]
    {
      items := items + [issue];
    }
  }

  class CompletionVerifier {
    const store: TaskStore
    const leases: LeaseTable

    constructor (store: TaskStore, leases: LeaseTable)
      ensures this.store == store && this.leases == leases
    {
      this.store := store;
      this.leases := leases;
    }

    method CheckWorkspace(envelope: Envelope, snapshot: Snapshot, issues: IssueList)
      modifies issues
      ensures issues.items == old(issues.items) + WorkspaceIssues(envelope, snapshot)
    {
      if snapshot.repositoryId != envelope.repositoryId
         || snapshot.baseSha != envelope.baseSha
         || snapshot.worktreePath != envelope.worktreePath {
        issues.Append(Issue(WorkspaceMismatch, "repository, base SHA, or worktree identity changed", false));
      }
    }

    method CheckDiff(envelope: Envelope, paths: seq<string>, issues: IssueList)
      modifies issues
      ensures issues.items == old(issues.items) + DiffIssues(envelope, paths)
    {
      for i := 0 to |paths|
        invariant issues.items == old(issues.items) + DiffIssues(envelope, paths[..i])
      {
        assert paths[..i + 1][..i] == paths[..i];
        if !ChangeInScope(paths[i], envelope) {
          issues.Append(Issue(DiffOutOfScope, "changed path is outside allowed scope: " + paths[i], false));
        }
      }
      assert paths[..|paths|] == paths;
    }

    method CheckIncompleteCommands(events: seq<Event>, issues: IssueList)
      modifies issues
      ensures issues.items == old(issues.items) + IncompleteIssues(events, events)
    {
      var finished := set e | e in events && e.data.CommandFinished? :: e.data.finish.authSequence;
      for i := 0 to |events|
        invariant issues.items == old(issues.items) + IncompleteIssues(events, events[..i])
      {
        assert events[..i + 1][..i] == events[..i];
        if events[i].data.CommandStarted? && events[i].data.authSequence !in finished {
          issues.Append(Issue(CommandIncomplete, "a command started without a terminal event", true));
        }
      }
      assert events[..|events|] == events;
    }

    method CheckHighRiskApprovals(events: seq<Event>, issues: IssueList)
      modifies issues
      ensures issues.items == old(issues.items) + HighRiskIssues(events)
    {
      for i := 0 to |events|
        invariant issues.items == old(issues.items) + HighRiskIssues(events[..i])
      {
        assert events[..i + 1][..i] == events[..i];
        if !events[i].data.CommandAuthorized? { continue; }
        if HighRisk(events[i].data.auth) && events[i].data.auth.approvalId.None? {
          issues.Append(Issue(UnapprovedHighRiskOperation, "high-risk operation lacks a scoped approval", false));
        }
      }
      assert events[..|events|] == events;
    }

    /** Both artifacts are examined, whatever the first one shows. */
    method CheckArtifacts(a: Acceptance, f: Finish, probe: Probe, issues: IssueList) returns (valid: bool)
      modifies issues
      ensures issues.items == old(issues.items) + EvidenceIssues(a, f, probe)
      ensures valid <==> EvidenceIssues(a, f, probe) == []
    {
      valid := true;
      var fields := [("stdout_artifact", f.stdoutArtifact), ("stderr_artifact", f.stderrArtifact)];
      ghost var found: seq<Issue> := [];
      for i := 0 to 2
        invariant issues.items == old(issues.items) + found
        invariant valid <==> found == []
        invariant i == 0 ==> found == []
        invariant i == 1 ==> found == ArtifactIssues(a, "stdout_artifact", f.stdoutArtifact, probe)
        invariant i == 2 ==> found == EvidenceIssues(a, f, probe)
      {
        var (field, path) := fields[i];
        var next := CheckArtifact(a, field, path, probe, issues);
        found := found + ArtifactIssues(a, field, path, probe);
        valid := valid && next;
      }
    }

    method CheckArtifact(a: Acceptance, field: string, path: Option<string>, probe: Probe, issues: IssueList)
      returns (valid: bool)
      modifies issues
      ensures issues.items == old(issues.items) + ArtifactIssues(a, field, path, probe)
      ensures valid <==> ArtifactIssues(a, field, path, probe) == []
    {
      if path.None? {
        issues.Append(Issue(EvidenceMissing, "acceptance " + a.id + " lacks " + field, true));
        return false;
      }
      if path.value !in probe.artifacts {
        issues.Append(Issue(EvidenceMissing, "acceptance artifact does not exist: " + path.value, true));
        return false;
      }
      var artifact := probe.artifacts[path.value];
      if artifact.escapes {
        issues.Append(Issue(ArtifactEscape, "acceptance artifact escapes task storage: " + path.value, false));
        return false;
      }
      valid := true;
      if exists s :: s in probe.secrets && Texts.Contains(artifact.content, s) {
        issues.Append(Issue(SecretLeak, "secret found in acceptance artifact: " + path.value, false));
        valid := false;
      }
    }

    method FailAcceptance(a: Acceptance, status: AcceptanceStatus, sequence: Option<int>, issues: IssueList)
      returns (result: AcceptanceResult)
      modifies issues
      ensures result == FailedVerdict(a, status, sequence, []).result
      ensures issues.items == old(issues.items) + FailedVerdict(a, status, sequence, []).issues
    {
      if a.required {
        issues.Append(Issue(RequiredAcceptanceFailed, "required acceptance " + a.id + " is " + StatusName(status),
                            true));
      }
      result := AcceptanceResult(a.id, status, sequence);
    }

    method CheckAcceptance(r: Record, a: Acceptance, probe: Probe, issues: IssueList) returns (result: AcceptanceResult)
      requires r.revisions != []
      modifies issues
      ensures result == VerifyAcceptance(r, a, probe).result
      ensures issues.items == old(issues.items) + VerifyAcceptance(r, a, probe).issues
    {
      if a.evidenceType != "command_event" {
        issues.Append(Issue(UnsupportedEvidenceType,
                            "acceptance " + a.id + " uses unsupported evidence type " + a.evidenceType, false));
        return AcceptanceResult(a.id, Untrusted, None);
      }
      var last := LastFinish(r.events, a.commandId);
      if last.None? {
        result := FailAcceptance(a, Missing, None, issues);
        return;
      }
      result := CheckFinish(r, a, last.value, probe, issues);
    }

    method CheckFinish(r: Record, a: Acceptance, i: nat, probe: Probe, issues: IssueList)
      returns (result: AcceptanceResult)
      requires r.revisions != [] && i < |r.events| && r.events[i].data.CommandFinished?
      modifies issues
      ensures result == VerifyFinish(r, a, i, probe).result
      ensures issues.items == old(issues.items) + VerifyFinish(r, a, i, probe).issues
    {
      var e := r.events[i];
      var f := e.data.finish;
      if !HasAuthorization(r.events, f) {
        issues.Append(Issue(UntrustedEvidence, "acceptance " + a.id + " has no valid authorization", false));
        return AcceptanceResult(a.id, Untrusted, Some(e.sequence));
      }
      if r.events[f.authSequence - 1].data.auth.revision != r.Current().revision {
        result := FailAcceptance(a, Stale, Some(e.sequence), issues);
        return;
      }
      if !HasStart(r.events, e) {
        issues.Append(Issue(UntrustedEvidence, "acceptance " + a.id + " has no matching start event", false));
        return AcceptanceResult(a.id, Untrusted, Some(e.sequence));
      }
      if f.producer != EXECUTOR {
        issues.Append(Issue(UntrustedEvidence, "acceptance " + a.id + " was not produced by Executor", false));
        return AcceptanceResult(a.id, Untrusted, Some(e.sequence));
      }
      var valid := CheckArtifacts(a, f, probe, issues);
      if r.Current().integrationMode == Enforced && !f.sandboxEnforced {
        issues.Append(Issue(SandboxNotEnforced, "enforced task evidence lacks an enforced sandbox", false));
        valid := false;
      }
      if valid && ExitAccepted(a, f) { return AcceptanceResult(a.id, Passed, Some(e.sequence)); }
      result := FailAcceptance(a, FailedEvidence, Some(e.sequence), issues);
    }

    method CheckRequirementCoverage(envelope: Envelope, results: seq<AcceptanceResult>, issues: IssueList)
      modifies issues
      ensures issues.items == old(issues.items) + CoverageIssues(envelope.requirements, envelope, results)
    {
      var requirements := envelope.requirements;
      for i := 0 to |requirements|
        invariant issues.items == old(issues.items) + CoverageIssues(requirements[..i], envelope, results)
      {
        assert requirements[..i + 1][..i] == requirements[..i];
        if !Covered(requirements[i], envelope) {
          issues.Append(Issue(RequirementUncovered, "requirement has no acceptance: " + requirements[i].id, false));
          continue;
        }
        if !PassingCover(requirements[i], envelope, results) {
          issues.Append(Issue(RequirementUnverified, "requirement lacks passing evidence: " + requirements[i].id,
                              true));
        }
      }
      assert requirements[..|requirements|] == requirements;
    }

    /** Keep the first issue of every code and message, with a set of the keys seen. */
    method DeduplicateIssues(issues: seq<Issue>) returns (unique: seq<Issue>)
      ensures unique == Deduplicate(issues)
    {
      unique := [];
      var seen: set<(IssueCode, string)> := {};
      for i := 0 to |issues|
        invariant unique == Deduplicate(issues[..i])
        invariant forall code, message :: (code, message) in seen <==>
          exists y :: y in unique && y.code == code && y.message == message
      {
        assert issues[..i + 1][..i] == issues[..i];
        var key := (issues[i].code, issues[i].message);
        if key !in seen {
          unique := unique + [issues[i]];
          seen := seen + {key};
        }
      }
      assert issues[..|issues|] == issues;
    }

    /** `_verify_with_lease` up to the write. */
    method Judge(r: Record, probe: Probe, acceptRisk: bool, reason: Option<string>) returns (report: Report)
      requires r.revisions != []
      ensures report == Evaluate(r, probe, acceptRisk, reason)
    {
      var envelope := r.Current();
      var issues := new IssueList();
      CheckWorkspace(envelope, probe.snapshot, issues);
      assert issues.items == WorkspaceIssues(envelope, probe.snapshot);
      CheckDiff(envelope, probe.changedPaths, issues);
      CheckIncompleteCommands(r.events, issues);
      CheckHighRiskApprovals(r.events, issues);
      ghost var early := issues.items;
      var results := CheckAcceptances(r, envelope.acceptances, probe, issues);
      CheckRequirementCoverage(envelope, results, issues);
      assert issues.items == AllIssues(r, probe) by {
        assert early == WorkspaceIssues(envelope, probe.snapshot) + DiffIssues(envelope, probe.changedPaths) +
                        IncompleteIssues(r.events, r.events) + HighRiskIssues(r.events);
      }
      var unique := DeduplicateIssues(issues.items);
      report := Report(envelope.revision, Decision(unique, acceptRisk, reason), results, unique, reason);
    }

    method CheckAcceptances(r: Record, acceptances: seq<Acceptance>, probe: Probe, issues: IssueList)
      returns (results: seq<AcceptanceResult>)
      requires r.revisions != []
      modifies issues
      ensures results == Results(r, acceptances, probe)
      ensures issues.items == old(issues.items) + AcceptanceIssues(r, acceptances, probe)
    {
      hide VerifyAcceptance;
      results := [];
      for i := 0 to |acceptances|
        invariant results == Results(r, acceptances[..i], probe)
        invariant issues.items == old(issues.items) + AcceptanceIssues(r, acceptances[..i], probe)
      {
        assert acceptances[..i + 1][..i] == acceptances[..i];
        var result := CheckAcceptance(r, acceptances[i], probe, issues);
        results := results + [result];
      }
      assert acceptances[..|acceptances|] == acceptances;
    }

    /** `verify`: a held lease rejects; otherwise only a legal outcome is written, and a rejection writes nothing. */
    method Verify(taskId: string, probe: Probe, acceptRisk: bool, reason: Option<string>, at: string)
      returns (report: Option<Report>)
      requires store.Valid() && at != ""
      modifies store, leases
      ensures store.Valid() && leases.held == old(leases.held)
      ensures old(store.Loaded(taskId)).Err? ==> report.None? && store.records == old(store.records)
      ensures old(store.Loaded(taskId)).Ok? ==>
        var r := old(store.records[taskId]);
        if r.Current().worktreePath in old(leases.held) then
          && report == Some(Report(r.Current().revision, OutcomeRejected, [], [LeaseIssue()], reason))
          && store.records == old(store.records)
        else
          && report == Some(Evaluate(r, probe, acceptRisk, reason))
          && store.records == old(store.records)[taskId := CloseRecord(r, report.value, at)]
    {
      hide Evaluate, CloseRecord;
      var record := store.Load(taskId);
      if record.Err? { return None; }
      var r := record.value;
      var worktree := r.Current().worktreePath;
      if worktree in leases.held {
        return Some(Report(r.Current().revision, OutcomeRejected, [], [LeaseIssue()], reason));
      }
      var _ := leases.Acquire(worktree);
      report := JudgeAndClose(taskId, r, probe, acceptRisk, reason, at);
      leases.Release(worktree);
    }

    method JudgeAndClose(taskId: string, r: Record, probe: Probe, acceptRisk: bool, reason: Option<string>, at: string)
      returns (report: Option<Report>)
      requires store.Valid() && at != "" && store.Loaded(taskId) == Ok(r)
      modifies store
      ensures store.Valid()
      ensures report == Some(Evaluate(r, probe, acceptRisk, reason))
      ensures store.records == old(store.records)[taskId := CloseRecord(r, report.value, at)]
    {
      var judged := Judge(r, probe, acceptRisk, reason);
      var _ := Close(taskId, judged, at);
      report := Some(judged);
    }

    method Close(taskId: string, judged: Report, at: string) returns (written: bool)
      requires store.Valid() && at != "" && store.Loaded(taskId).Ok?
      modifies store
      ensures store.Valid()
      ensures store.records == old(store.records)[taskId := CloseRecord(old(store.records[taskId]), judged, at)]
      ensures written ==> !judged.outcome.OutcomeRejected?
    {
      ghost var before := store.records;
      ghost var r := before[taskId];
      if judged.outcome.OutcomeRejected? {
        assert before == before[taskId := r];
        return false;
      }
      var finalized := store.Finalize(taskId, StateFor(judged.outcome), VerificationOf(judged), at);
      assert finalized == FinalizeRecord(r, StateFor(judged.outcome), VerificationOf(judged), at);
      assert finalized.Err? ==> before == before[taskId := r];
      written := finalized.Ok?;
    }
  }

  lemma SetTwice<K, V>(m: map<K, V>, k: K, a: V, b: V)
    ensures m[k := a][k := b] == m[k := b]
  {
  }

  function LeaseIssue(): Issue {
    Issue(LeaseConflict, "workspace lease is held by another operation", false)
  }
}
