/** The service that runs Gateway, Executor and store operations one after another under the clone lock. */
module TaskServices {
  import opened Prelude
  import opened TaskModel
  import opened Records
  import opened Gateway
  import opened Execution
  import opened Kernel
  import opened Service
  import opened Components
  import Completion

  class TaskService {
    const store: TaskStore
    const leases: LeaseTable

    constructor (store: TaskStore, leases: LeaseTable)
      ensures this.store == store && this.leases == leases
    {
      this.store := store;
      this.leases := leases;
    }

    /** The approvals the record grants for one capability, oldest first. */
    method CollectApprovals(events: seq<Event>, capabilityId: string) returns (approvals: seq<Approval>)
      ensures approvals == RecordedApprovals(events, capabilityId)
    {
      approvals := [];
      for i := 0 to |events|
        invariant approvals == RecordedApprovals(events[..i], capabilityId)
      {
        assert events[..i + 1][..i] == events[..i];
        if !events[i].data.ApprovalGranted? || events[i].data.approval.capabilityId != capabilityId { continue; }
        approvals := approvals + [events[i].data.approval];
      }
      assert events[..|events|] == events;
    }

    /** The authorization half: the Gateway decides over the approvals the record grants. */
    method Issue(world: World, taskId: string, ghost op: Operation, capabilityId: string,
                 snapshot: Snapshot, time: int, cwd: string,
                 at: string) returns (issued: Option<AuthorizedCommand>)
      requires store.Valid() && at != "" && store.Loaded(taskId).Ok?
      requires op.RunCapability? && op.capabilityId == capabilityId && op.snapshot == snapshot
      requires op.time == time && op.cwd == cwd
      modifies store
      ensures store.Valid()
      ensures var r := old(store.records[taskId]);
        var authorized := AuthorizeRecord(world, r, AuthorizeStep(world, r, op, at).action, at);
        && store.records == old(store.records)[taskId := authorized]
        && (issued.Some? <==> authorized != r)
        && (issued.Some? ==>
          && authorized.events != [] && authorized.events[|authorized.events| - 1].data.CommandAuthorized?
          && issued == Some(IssuedCommand(authorized)))
    {
      var record := store.Load(taskId);
      var approvals := CollectApprovals(record.value.events, capabilityId);
      var gateway := new CapabilityGateway(store, world);
      issued := gateway.Authorize(taskId, capabilityId, approvals, snapshot, time, cwd, at);
    }

    /** Read the declarations, authorize, then execute what was authorized; `actual` is how far the operation got. */
    method RunCapability(world: World, taskId: string, capabilityId: string, snapshot: Snapshot, time: int, cwd: string,
                         lockedSnapshot: Snapshot, fate: Fate, at: string) returns (finished: bool, ghost actual: Fate)
      requires store.Valid() && at != "" && store.Loaded(taskId).Ok?
      modifies store, leases
      ensures store.Valid() && leases.held == old(leases.held)
      ensures actual == fate || actual == DiesAfterAuthorize
      ensures var r := old(store.records[taskId]);
        (&& snapshot.worktreePath !in old(leases.held)
         && SameWorkspace(r.Current(), snapshot)
         && !Consumed(r.events, |r.events| + 1)) ==> actual == fate
      ensures store.records == old(store.records)[taskId :=
        RunRecord(world, old(store.records[taskId]),
                  Operation.RunCapability(capabilityId, snapshot, time, cwd, lockedSnapshot, actual), at)]
    {
      ghost var before := store.records;
      ghost var r := before[taskId];
      ghost var op := Operation.RunCapability(capabilityId, snapshot, time, cwd, lockedSnapshot, fate);
      ghost var authorized := AuthorizeRecord(world, r, AuthorizeStep(world, r, op, at).action, at);
      actual := fate;
      finished := false;
      RunRecordCases(world, r, op, at);
      RunRecordCases(world, r, op.(fate := DiesAfterAuthorize), at);
      var issued := Issue(world, taskId, op, capabilityId, snapshot, time, cwd, at);
      if issued.None? || fate.DiesAfterAuthorize? { return; }
      IssuedIsValid(world, r, op, at);
      ghost var ran;
      finished, ran := ExecuteIssued(issued.value, snapshot, lockedSnapshot, fate, at);
      actual := if ran then fate else DiesAfterAuthorize;
      SetTwice(before, taskId, authorized, store.records[taskId]);
    }

    /** The execution half; `ran` says that the Executor took the lease. */
    method ExecuteIssued(command: AuthorizedCommand, snapshot: Snapshot, lockedSnapshot: Snapshot,
                         fate: Fate, at: string)
      returns (finished: bool, ghost ran: bool)
      requires store.Valid() && at != "" && store.Loaded(command.taskId).Ok?
      modifies store, leases
      ensures store.Valid() && leases.held == old(leases.held)
      ensures var r := old(store.records[command.taskId]);
        && (ran <==> snapshot.worktreePath !in old(leases.held) && Validate(r, command, snapshot).None?)
        && store.records == old(store.records)[command.taskId :=
          if ran then ExecutedRecord(r, command, lockedSnapshot, fate, at) else r]
    {
      ghost var before := store.records;
      ghost var r := before[command.taskId];
      assert before == before[command.taskId := r];
      ran := snapshot.worktreePath !in leases.held && Validate(r, command, snapshot).None?;
      var executor := new CommandExecutor(store, leases);
      finished := executor.Execute(command, snapshot, lockedSnapshot, fate, at);
    }

    /** The acceptances an amendment declares for added capabilities, in order. */
    method ExtendAcceptances(current: Envelope, added: seq<string>) returns (acceptances: seq<Acceptance>)
      ensures acceptances == MoreAcceptances(current, added)
    {
      acceptances := current.acceptances;
      var existing := set a | a in acceptances :: a.commandId;
      var covered := RequirementIds(current.requirements);
      for i := 0 to |added|
        invariant acceptances == MoreAcceptances(current, added[..i])
      {
        assert added[..i + 1][..i] == added[..i];
        if added[i] !in existing {
          acceptances := acceptances +
            [CommandAcceptance(|acceptances| + 1, covered, added[i], current.timeoutSeconds, current.retryBudget)];
        }
      }
      assert added[..|added|] == added;
    }

    method AmendTask(world: World, taskId: string, goal: Option<string>, addScope: seq<string>,
                     addCapabilities: seq<string>, at: string)
      returns (accepted: bool)
      requires store.Valid() && at != "" && store.Loaded(taskId).Ok?
      modifies store
      ensures store.Valid()
      ensures store.records == old(store.records)[taskId :=
        Perform(world, old(store.records[taskId]), Operation.AmendTask(goal, addScope, addCapabilities), at)]
    {
      ghost var before := store.records;
      ghost var r := before[taskId];
      assert before == before[taskId := r];
      var record := store.Load(taskId);
      var current := record.value.Current();
      AmendTaskCases(world, r, Operation.AmendTask(goal, addScope, addCapabilities), at);
      hide Next, AmendRecord, Loadable, Perform, Steps, Run, Unique, MoreAcceptances;
      if exists c :: c in addCapabilities && c !in world.caps { return false; }
      if goal.None? && addScope == [] && addCapabilities == [] { return false; }
      var scope := if addScope == [] then None else Some(Unique(current.allowedScope + addScope));
      var acceptances := None;
      var capabilities := None;
      if addCapabilities != [] {
        var extended := ExtendAcceptances(current, addCapabilities);
        acceptances := Some(extended);
        capabilities := Some(Unique(current.requestedCapabilities + addCapabilities));
      }
      var changes := Changes(None, None, None, None, None, goal, None, None, scope, acceptances, capabilities,
                             None, None, None, None, false);
      var written := store.Amend(taskId, changes, at);
      accepted := written.Ok?;
    }
  }

  /** An amendment of nothing, or of unknown capabilities, writes nothing. */
  lemma AmendTaskCases(w: World, r: Record, op: Operation, at: string)
    requires r.revisions != [] && op.AmendTask?
    ensures Perform(w, r, op, at) ==
      if (op.goal.None? && op.addScope == [] && op.addCapabilities == [])
         || exists c :: c in op.addCapabilities && c !in w.caps then r
      else Kept(r, AmendRecord(r, AmendmentFor(r.Current(), op.goal, op.addScope, op.addCapabilities), at))
  {
    var steps := Steps(w, r, op, at);
    hide AmendmentFor, AmendRecord, Next;
    if steps != [] {
      RunOne(State(r, Idle), steps[0]);
      Completion.NextAmend(State(r, Idle), steps[0]);
    }
  }

  // ---- Why the service methods perform exactly the modelled steps ----

  /** What `run_capability` writes is what the modelled operation performs. */
  lemma RunRecordIsPerformed(w: World, r: Record, op: Operation, at: string)
    requires r.revisions != [] && op.RunCapability?
    ensures RunRecord(w, r, op, at) == Perform(w, r, op, at)
  {
    var s := State(r, Idle);
    var first := AuthorizeStep(w, r, op, at);
    var authorized := AuthorizeRecord(w, r, first.action, at);
    RunOne(s, first);
    if authorized != r && !op.fate.DiesAfterAuthorize? {
      AuthorizedEndsInAuthorization(w, r, first.action, at);
      var command := IssuedCommand(authorized);
      RunConcat(s, [first], ExecuteSteps(w, command, op.leaseSnapshot, op.fate, at));
      ExecuteStepsWrite(w, authorized, command, op.leaseSnapshot, op.fate, at);
    }
  }

  lemma RunRecordCases(w: World, r: Record, op: Operation, at: string)
    requires r.revisions != [] && op.RunCapability?
    ensures var authorized := AuthorizeRecord(w, r, AuthorizeStep(w, r, op, at).action, at);
      if authorized == r || op.fate.DiesAfterAuthorize? then RunRecord(w, r, op, at) == authorized
      else
        && authorized.events != [] && authorized.events[|authorized.events| - 1].data.CommandAuthorized?
        && RunRecord(w, r, op, at) ==
           ExecutedRecord(authorized, IssuedCommand(authorized), op.leaseSnapshot, op.fate, at)
  {
    if AuthorizeRecord(w, r, AuthorizeStep(w, r, op, at).action, at) != r {
      AuthorizedEndsInAuthorization(w, r, AuthorizeStep(w, r, op, at).action, at);
    }
  }

  /** A command just issued is accepted by the Executor while the workspace is the same. */
  lemma IssuedIsValid(w: World, r: Record, op: Operation, at: string)
    requires Loadable(r) && op.RunCapability?
    requires AuthorizeRecord(w, r, AuthorizeStep(w, r, op, at).action, at) != r
    ensures var authorized := AuthorizeRecord(w, r, AuthorizeStep(w, r, op, at).action, at);
      && authorized.events != [] && authorized.events[|authorized.events| - 1].data.CommandAuthorized?
      && authorized.revisions == r.revisions
      && (SameWorkspace(r.Current(), op.snapshot) && !Consumed(r.events, |r.events| + 1) ==>
        Validate(authorized, IssuedCommand(authorized), op.snapshot).None?)
  {
    assert r.revisions != [];
    var a := AuthorizeStep(w, r, op, at).action;
    AuthorizedEndsInAuthorization(w, r, a, at);
    DecidedForCurrent(w, r, a);
    hide Decide, AuthorizeRecord, RecordedApprovals, FindApproval, Validate, Consumed, SameWorkspace, Loadable;
    var fact := Decide(r, w.caps, w.policy, a.capabilityId, a.approvals, a.snapshot, a.time, a.cwd).value;
    if SameWorkspace(r.Current(), op.snapshot) && !Consumed(r.events, |r.events| + 1) {
      NewCommandIsValid(r, fact, op.snapshot, at);
    }
  }

  lemma NewCommandIsValid(r: Record, fact: Authorization, snapshot: Snapshot, at: string)
    requires r.revisions != [] && SameWorkspace(r.Current(), snapshot) && !Consumed(r.events, |r.events| + 1)
    ensures var authorized := Appended(r, CommandAuthorized(fact), at);
      Validate(authorized, CommandFor(r.taskId, fact, |r.events| + 1), snapshot).None?
  {
  }

  lemma DecidedForCurrent(w: World, r: Record, a: Action)
    requires a.Authorize? && r.revisions != []
    ensures var d := Decide(r, w.caps, w.policy, a.capabilityId, a.approvals, a.snapshot, a.time, a.cwd);
      d.Ok? ==> d.value.revision == r.Current().revision
  {
  }
}
