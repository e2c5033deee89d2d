/** What every service session keeps: budgets, retry limits, approvals and the acceptance contract. */
module Budgets {
  import opened Prelude
  import opened TaskModel
  import opened Records
  import opened Gateway
  import opened Execution
  import opened Verifier
  import opened Kernel
  import opened Completion
  import opened Service

  // ---- Approvals ----

  /** The grant covers the recorded command exactly. */
  predicate GrantCovers(g: Approval, id: string, a: Authorization) {
    && g.id == id && g.capabilityId == a.capabilityId
    && Elements(g.readPaths) == Elements(a.readPaths)
    && Elements(g.writePaths) == Elements(a.writePaths)
    && Elements(g.sideEffects) == Elements(a.sideEffects)
    && g.network == a.network && g.listener == a.listener && g.environment == a.environment
  }

  predicate GrantedAt(events: seq<Event>, j: int, a: Authorization) {
    && 0 <= j < |events| && events[j].data.ApprovalGranted?
    && a.approvalId.Some? && GrantCovers(events[j].data.approval, a.approvalId.value, a)
  }

  /** An authorization that names an approval has an earlier matching grant with a use left. */
  ghost predicate ApprovalOk(before: seq<Event>, e: Event) {
    e.data.CommandAuthorized? && e.data.auth.approvalId.Some? ==>
      exists j :: GrantedAt(before, j, e.data.auth)
        && Tally(before, UsesOf(e.data.auth.approvalId.value)) < before[j].data.approval.maxUses
  }

  ghost predicate ApprovalsOk(events: seq<Event>) {
    events == [] ||
    (ApprovalsOk(events[..|events| - 1]) && ApprovalOk(events[..|events| - 1], events[|events| - 1]))
  }

  lemma ApprovalsAppend(events: seq<Event>, e: Event)
    requires ApprovalsOk(events) && ApprovalOk(events, e)
    ensures ApprovalsOk(events + [e])
  {
    assert (events + [e])[..|events|] == events;
  }

  lemma {:induction false} ApprovalsAt(events: seq<Event>, i: nat)
    requires ApprovalsOk(events) && i < |events|
    ensures ApprovalOk(events[..i], events[i])
  {
    var n := |events| - 1;
    if i < n {
      ApprovalsAt(events[..n], i);
      assert events[..n][..i] == events[..i];
    }
  }

  /** Every approval offered to the Gateway was granted in the record. */
  lemma {:induction false} RecordedWereGranted(events: seq<Event>, capabilityId: string, g: Approval)
    requires g in RecordedApprovals(events, capabilityId)
    ensures exists j :: 0 <= j < |events| && events[j].data.ApprovalGranted? && events[j].data.approval == g
  {
    var n := |events| - 1;
    if g in RecordedApprovals(events[..n], capabilityId) {
      RecordedWereGranted(events[..n], capabilityId, g);
      var j :| 0 <= j < n && events[..n][j].data.ApprovalGranted? && events[..n][j].data.approval == g;
      assert events[j] == events[..n][j];
    } else {
      assert events[n].data.approval == g;
    }
  }

  // ---- The acceptance contract of a service task ----

  predicate ServiceAcceptance(a: Acceptance) {
    a.required && a.expectedExitCode == 0 && a.evidenceType == "command_event"
  }

  /** Every requested capability has an acceptance, and each one demands a success of its command. */
  predicate Contract(e: Envelope) {
    && (forall a :: a in e.acceptances ==> ServiceAcceptance(a))
    && (forall c :: c in e.requestedCapabilities ==> HasCommand(e.acceptances, c))
  }

  lemma StartContract(q: StartRequest)
    ensures Contract(StartEnvelope(q))
  {
    var e := StartEnvelope(q);
    forall c | c in e.requestedCapabilities ensures HasCommand(e.acceptances, c) {
      var i :| 0 <= i < |e.requestedCapabilities| && e.requestedCapabilities[i] == c;
      assert e.acceptances[i] in e.acceptances;
    }
  }

  lemma {:induction false} MoreAcceptancesKeep(base: Envelope, added: seq<string>)
    requires forall a :: a in base.acceptances ==> ServiceAcceptance(a)
    ensures base.acceptances <= MoreAcceptances(base, added)
    ensures forall a :: a in MoreAcceptances(base, added) ==> ServiceAcceptance(a)
    ensures forall c :: c in added ==> HasCommand(MoreAcceptances(base, added), c)
  {
    if added != [] {
      var n := |added| - 1;
      var sofar := MoreAcceptances(base, added[..n]);
      var all := MoreAcceptances(base, added);
      MoreAcceptancesKeep(base, added[..n]);
      assert sofar <= all;
      forall c | c in added ensures HasCommand(all, c) {
        if c in added[..n] {
          CommandsSurvive(sofar, all, c);
        } else if HasCommand(base.acceptances, c) {
          CommandsSurvive(base.acceptances, all, c);
        } else {
          assert all[|sofar|] in all;
        }
      }
    }
  }

  lemma CommandsSurvive(fewer: seq<Acceptance>, more: seq<Acceptance>, c: string)
    requires fewer <= more && HasCommand(fewer, c)
    ensures HasCommand(more, c)
  {
    var a :| a in fewer && a.commandId == c;
    var i :| 0 <= i < |fewer| && fewer[i] == a;
    assert more[i] == a;
  }

  lemma AmendmentContract(current: Envelope, goal: Option<string>, addScope: seq<string>, addCapabilities: seq<string>)
    requires Contract(current)
    ensures var e := Replace(current, AmendmentFor(current, goal, addScope, addCapabilities));
      && Contract(e) && e.retryBudget == current.retryBudget && e.budget == current.budget
  {
    var e := Replace(current, AmendmentFor(current, goal, addScope, addCapabilities));
    MoreAcceptancesKeep(current, addCapabilities);
    if addCapabilities != [] {
      var all := MoreAcceptances(current, addCapabilities);
      forall c | c in e.requestedCapabilities ensures HasCommand(all, c) {
        assert c in Elements(e.requestedCapabilities);
        assert c in current.requestedCapabilities + addCapabilities;
        if c in current.requestedCapabilities {
          CommandsSurvive(current.acceptances, all, c);
        }
      }
    }
  }

  // ---- Limits ----

  /** The most executions any declaration in force allows, for some capabilities. */
  type Limits = map<string, nat>

  predicate Permits(limits: Limits, w: World) {
    forall c :: c in limits && c in w.caps ==> w.caps[c].maxExecutions <= limits[c]
  }

  predicate WithinLimits(limits: Limits, r: Record)
    requires r.revisions != []
  {
    && (forall c :: c in limits ==> Tally(r.events, AuthorizationsOf(c)) <= limits[c])
    && (r.Current().MaxCommands().Some? ==> Tally(r.events, Authorizations) <= r.Current().MaxCommands().value)
  }

  ghost predicate WithinRetries(r: Record)
    requires r.revisions != []
  {
    forall c {:trigger StartsOf(c)} :: Tally(r.events, StartsOf(c)) <= r.Current().retryBudget + 1
  }

  ghost predicate Disciplined(limits: Limits, r: Record) {
    && r.revisions != []
    && Contract(r.Current())
    && WithinLimits(limits, r)
    && WithinRetries(r)
    && ApprovalsOk(r.events)
  }

  /** Appending an event that is no authorization and no start. */
  lemma QuietAppend(limits: Limits, r: Record, e: Event)
    requires Disciplined(limits, r) && !e.data.CommandAuthorized? && !IsStart(e)
    ensures Disciplined(limits, r.(events := r.events + [e]))
  {
    var after := r.(events := r.events + [e]);
    forall c | c in limits ensures Tally(after.events, AuthorizationsOf(c)) <= limits[c] {
      TallyAppend(r.events, e, AuthorizationsOf(c));
    }
    forall c {:trigger StartsOf(c)} ensures Tally(after.events, StartsOf(c)) <= r.Current().retryBudget + 1 {
      TallyAppend(r.events, e, StartsOf(c));
    }
    TallyAppend(r.events, e, Authorizations);
    ApprovalsAppend(r.events, e);
  }

  lemma StartAppend(limits: Limits, r: Record, e: Event)
    requires Disciplined(limits, r) && IsStart(e)
    requires Tally(r.events, StartsOf(e.data.capabilityId)) <= r.Current().retryBudget
    ensures Disciplined(limits, r.(events := r.events + [e]))
  {
    var after := r.(events := r.events + [e]);
    forall c | c in limits ensures Tally(after.events, AuthorizationsOf(c)) <= limits[c] {
      TallyAppend(r.events, e, AuthorizationsOf(c));
    }
    forall c {:trigger StartsOf(c)} ensures Tally(after.events, StartsOf(c)) <= r.Current().retryBudget + 1 {
      TallyAppend(r.events, e, StartsOf(c));
    }
    TallyAppend(r.events, e, Authorizations);
    ApprovalsAppend(r.events, e);
  }

  /** What an accepted service authorization knew about the record it extends. */
  lemma DecisionFacts(w: World, r: Record, op: Operation, at: string)
    requires w.Valid() && r.revisions != [] && op.RunCapability?
    requires AuthorizeRecord(w, r, AuthorizeStep(w, r, op, at).action, at) != r
    ensures var a := AuthorizeStep(w, r, op, at).action;
      var d := Decide(r, w.caps, w.policy, a.capabilityId, a.approvals, a.snapshot, a.time, a.cwd);
      && d.Ok? && AuthorizeRecord(w, r, a, at) == Appended(r, CommandAuthorized(d.value), at)
      && d.value.capabilityId == op.capabilityId && op.capabilityId in w.caps
      && Tally(r.events, AuthorizationsOf(op.capabilityId)) < w.caps[op.capabilityId].maxExecutions
      && Tally(r.events, StartsOf(op.capabilityId)) <= r.Current().retryBudget
      && (r.Current().MaxCommands().Some? ==> Tally(r.events, Authorizations) < r.Current().MaxCommands().value)
      && ApprovalOk(r.events, Event(|r.events| + 1, at, CommandAuthorized(d.value)))
  {
    var a := AuthorizeStep(w, r, op, at).action;
    AuthorizedEndsInAuthorization(w, r, a, at);
    var d := Decide(r, w.caps, w.policy, a.capabilityId, a.approvals, a.snapshot, a.time, a.cwd);
    var c := w.caps[op.capabilityId];
    if d.value.approvalId.Some? {
      var g := FindApproval(a.approvals, r, c, a.snapshot, a.time).value;
      RecordedWereGranted(r.events, op.capabilityId, g);
      var j :| 0 <= j < |r.events| && r.events[j].data.ApprovalGranted? && r.events[j].data.approval == g;
      assert GrantedAt(r.events, j, d.value);
    }
  }

  lemma AuthorizationAppend(limits: Limits, r: Record, e: Event)
    requires Disciplined(limits, r) && e.data.CommandAuthorized? && ApprovalOk(r.events, e)
    requires e.data.auth.capabilityId in limits ==>
      Tally(r.events, AuthorizationsOf(e.data.auth.capabilityId)) < limits[e.data.auth.capabilityId]
    requires r.Current().MaxCommands().Some? ==> Tally(r.events, Authorizations) < r.Current().MaxCommands().value
    ensures Disciplined(limits, r.(events := r.events + [e]))
  {
    var after := r.(events := r.events + [e]);
    forall c | c in limits ensures Tally(after.events, AuthorizationsOf(c)) <= limits[c] {
      TallyAppend(r.events, e, AuthorizationsOf(c));
    }
    forall c {:trigger StartsOf(c)} ensures Tally(after.events, StartsOf(c)) <= r.Current().retryBudget + 1 {
      TallyAppend(r.events, e, StartsOf(c));
    }
    TallyAppend(r.events, e, Authorizations);
    ApprovalsAppend(r.events, e);
  }

  lemma ExecuteKeeps(limits: Limits, r: Record, after: Record, command: AuthorizedCommand)
    requires Disciplined(limits, r) && after == r.(events := after.events)
    requires ExecutedEvents(r.events, after.events, command)
    requires Tally(r.events, StartsOf(command.capabilityId)) <= r.Current().retryBudget
    ensures Disciplined(limits, after)
  {
    if after.events != r.events {
      if s :| StartFor(s, command) && after.events == r.events + [s] {
        StartAppend(limits, r, s);
      } else {
        var s, f :| StartFor(s, command) && FinishFor(f, command) && after.events == r.events + [s] + [f];
        StartAppend(limits, r, s);
        QuietAppend(limits, r.(events := r.events + [s]), f);
      }
    }
  }

  /** The execution half of `run_capability`. */
  lemma ExecutionKeeps(limits: Limits, w: World, r: Record, command: AuthorizedCommand, op: Operation, at: string)
    requires w.Valid() && Disciplined(limits, r) && at != "" && op.RunCapability? && !op.fate.DiesAfterAuthorize?
    requires Tally(r.events, StartsOf(command.capabilityId)) <= r.Current().retryBudget
    ensures Disciplined(limits, Run(State(r, Idle), ExecuteSteps(w, command, op.leaseSnapshot, op.fate, at)).record)
  {
    assert r.revisions != [];
    hide Disciplined, Run, ExecuteSteps, ExecutedEvents, LegalRun;
    var rest := ExecuteSteps(w, command, op.leaseSnapshot, op.fate, at);
    ExecuteEffect(w, r, command, op.leaseSnapshot, op.fate, at);
    RunKeepsIdentity(State(r, Idle), rest);
    ExecuteKeeps(limits, r, Run(State(r, Idle), rest).record, command);
  }

  /** The authorization half. */
  lemma AuthorizationKeeps(limits: Limits, w: World, r: Record, op: Operation, at: string)
    requires w.Valid() && Permits(limits, w) && Disciplined(limits, r) && at != "" && op.RunCapability?
    ensures var authorized := AuthorizeRecord(w, r, AuthorizeStep(w, r, op, at).action, at);
      && Disciplined(limits, authorized)
      && (authorized != r ==>
            && authorized.events != [] && authorized.events[|authorized.events| - 1].data.CommandAuthorized?
            && IssuedCommand(authorized).capabilityId == op.capabilityId
            && Tally(authorized.events, StartsOf(op.capabilityId)) <= authorized.Current().retryBudget)
  {
    assert r.revisions != [];
    hide Disciplined, Decide, ApprovalOk, RecordedApprovals;
    var authorized := AuthorizeRecord(w, r, AuthorizeStep(w, r, op, at).action, at);
    if authorized != r {
      DecisionFacts(w, r, op, at);
      var e := authorized.events[|r.events|];
      AuthorizationAppend(limits, r, e);
      TallyAppend(r.events, e, StartsOf(op.capabilityId));
    }
  }

  lemma RunCapabilityKeeps(limits: Limits, w: World, r: Record, op: Operation, at: string)
    requires w.Valid() && Permits(limits, w) && Disciplined(limits, r) && at != "" && op.RunCapability?
    ensures Disciplined(limits, Perform(w, r, op, at))
  {
    assert r.revisions != [];
    AuthorizationKeeps(limits, w, r, op, at);
    var s := State(r, Idle);
    var first := AuthorizeStep(w, r, op, at);
    var authorized := AuthorizeRecord(w, r, first.action, at);
    NextAuthorize(s, first);
    hide Disciplined, Next, AuthorizeRecord, Evaluate, ExecuteSteps, Run;
    RunOne(s, first);
    if authorized != r && !op.fate.DiesAfterAuthorize? {
      var command := IssuedCommand(authorized);
      RunConcat(s, [first], ExecuteSteps(w, command, op.leaseSnapshot, op.fate, at));
      ExecutionKeeps(limits, w, authorized, command, op, at);
    }
  }

  lemma NextKeepsIdentity(s: State, step: Step)
    requires s.record.revisions != []
    ensures Next(s, step).record.taskId == s.record.taskId
    ensures Next(s, step).record.schemaVersion == s.record.schemaVersion
  {
  }

  lemma {:induction false} RunKeepsIdentity(s: State, steps: seq<Step>)
    requires s.record.revisions != []
    ensures Run(s, steps).record.taskId == s.record.taskId
    ensures Run(s, steps).record.schemaVersion == s.record.schemaVersion
    decreases |steps|
  {
    if steps != [] {
      var n := |steps| - 1;
      RunKeepsIdentity(s, steps[..n]);
      NextKeepsIdentity(Run(s, steps[..n]), steps[n]);
    }
  }

  lemma AmendmentIsReplace(e: Envelope, c: Changes)
    ensures AmendEnvelope(e, c).Ok? ==> AmendEnvelope(e, c).value == Replace(e, c)
  {
  }

  /** The record `amend` writes, if it writes one. */
  predicate Amended(r: Record, after: Record, changes: Changes, at: string)
    requires r.revisions != []
  {
    var e := Replace(r.Current(), changes);
    after == r.(revisions := r.revisions + [e],
                events := r.events + [Event(|r.events| + 1, at, TaskAmended(e.revision))])
  }

  lemma AmendmentWrites(r: Record, changes: Changes, at: string)
    requires r.revisions != []
    ensures var kept := Kept(r, AmendRecord(r, changes, at)); kept == r || Amended(r, kept, changes, at)
  {
    AmendmentIsReplace(r.Current(), changes);
    hide AmendEnvelope, WellFormed, Replace;
  }

  lemma AmendTaskWrites(w: World, r: Record, op: Operation, at: string)
    requires r.revisions != [] && op.AmendTask?
    ensures var after := Perform(w, r, op, at);
      after == r || Amended(r, after, AmendmentFor(r.Current(), op.goal, op.addScope, op.addCapabilities), at)
  {
    var changes := AmendmentFor(r.Current(), op.goal, op.addScope, op.addCapabilities);
    var steps := Steps(w, r, op, at);
    hide AmendmentFor, Amended, AmendRecord, Evaluate;
    if steps != [] {
      RunOne(State(r, Idle), steps[0]);
      AmendmentWrites(r, changes, at);
    }
  }

  /** The limits depend on the current envelope only through its contract and its budgets. */
  lemma RevisedIsDisciplined(limits: Limits, r: Record, e: Envelope)
    requires Disciplined(limits, r) && Contract(e)
    requires e.retryBudget == r.Current().retryBudget && e.budget == r.Current().budget
    ensures Disciplined(limits, r.(revisions := r.revisions + [e]))
  {
    hide Contract, ApprovalsOk;
  }

  lemma AmendTaskKeeps(limits: Limits, w: World, r: Record, op: Operation, at: string)
    requires Disciplined(limits, r) && at != "" && op.AmendTask?
    ensures Disciplined(limits, Perform(w, r, op, at))
  {
    assert r.revisions != [] && Contract(r.Current());
    hide Disciplined, Contract, AmendmentFor, Perform, Replace;
    AmendTaskWrites(w, r, op, at);
    var after := Perform(w, r, op, at);
    if after != r {
      AmendmentContract(r.Current(), op.goal, op.addScope, op.addCapabilities);
      var e := Replace(r.Current(), AmendmentFor(r.Current(), op.goal, op.addScope, op.addCapabilities));
      var ev := Event(|r.events| + 1, at, TaskAmended(e.revision));
      QuietAppend(limits, r, ev);
      RevisedIsDisciplined(limits, r.(events := r.events + [ev]), e);
    }
  }

  predicate QuietChange(r: Record, after: Record, e: Event, closed: TaskState) {
    !e.data.CommandAuthorized? && !IsStart(e) && after == r.(events := r.events + [e], state := closed)
  }

  /** At most one event that is no authorization and no start. */
  ghost predicate QuietAppended(r: Record, after: Record) {
    after == r || exists e: Event, closed: TaskState :: QuietChange(r, after, e, closed)
  }

  /** A step that only notes or cancels appends at most one quiet event. */
  lemma RecordStepAppends(r: Record, step: Step)
    requires r.revisions != [] && !OnCommands(step.action) && !step.action.Amend?
    ensures QuietAppended(r, Next(State(r, Idle), step).record)
  {
    var s := State(r, Idle);
    var after := Next(s, step).record;
    RecordStepCases(s, step);
    if after != r {
      var e := after.events[|r.events|];
      assert QuietChange(r, after, e, after.state);
    }
  }

  lemma RecordStepDisciplined(limits: Limits, r: Record, step: Step)
    requires Disciplined(limits, r) && !OnCommands(step.action) && !step.action.Amend?
    ensures Disciplined(limits, Next(State(r, Idle), step).record)
  {
    assert r.revisions != [];
    hide Next, Disciplined, QuietAppended;
    RecordStepAppends(r, step);
    QuietKeeps(limits, r, Next(State(r, Idle), step).record);
  }

  lemma VerifyTaskKeeps(limits: Limits, w: World, r: Record, op: Operation, at: string)
    requires w.Valid() && Disciplined(limits, r) && at != "" && op.VerifyTask?
    ensures Disciplined(limits, Perform(w, r, op, at))
  {
    assert r.revisions != [];
    hide Evaluate, Disciplined, Next, Steps, Perform, Run, LegalRun, CloseRecord, QuietAppended;
    VerifyIsARun(w, r, op, at);
    ClosingIsQuiet(r, Evaluate(r, op.probe, op.acceptRisk, op.reason), at);
    QuietKeeps(limits, r, Perform(w, r, op, at));
  }

  lemma ClosingIsQuiet(r: Record, report: Report, at: string)
    ensures QuietAppended(r, CloseRecord(r, report, at))
  {
    hide WellFormed, VerificationOf;
    var after := CloseRecord(r, report, at);
    if after != r { assert QuietChange(r, after, after.events[|r.events|], after.state); }
  }

  lemma QuietKeeps(limits: Limits, r: Record, after: Record)
    requires Disciplined(limits, r) && QuietAppended(r, after)
    ensures Disciplined(limits, after)
  {
    hide Disciplined;
    if after != r {
      var e: Event, closed: TaskState :| QuietChange(r, after, e, closed);
      QuietAppend(limits, r, e);
      RestatedIsDisciplined(limits, r.(events := r.events + [e]), closed);
    }
  }

  /** No limit depends on the state of the task. */
  lemma RestatedIsDisciplined(limits: Limits, r: Record, closed: TaskState)
    requires Disciplined(limits, r)
    ensures Disciplined(limits, r.(state := closed))
  {
  }

  lemma OtherOperationKeeps(limits: Limits, w: World, r: Record, op: Operation, at: string)
    requires Disciplined(limits, r) && at != "" && !op.RunCapability? && !op.AmendTask? && !op.VerifyTask?
    ensures Disciplined(limits, Perform(w, r, op, at))
  {
    hide Next, Evaluate, AmendmentFor, RecordedApprovals;
    var steps := Steps(w, r, op, at);
    RunOne(State(r, Idle), steps[0]);
    RecordStepDisciplined(limits, r, steps[0]);
  }

  lemma PerformKeeps(limits: Limits, w: World, r: Record, op: Operation, at: string)
    requires w.Valid() && Permits(limits, w) && Disciplined(limits, r) && at != ""
    ensures Disciplined(limits, Perform(w, r, op, at))
  {
    if op.RunCapability? { RunCapabilityKeeps(limits, w, r, op, at); }
    else if op.AmendTask? { AmendTaskKeeps(limits, w, r, op, at); }
    else if op.VerifyTask? { VerifyTaskKeeps(limits, w, r, op, at); }
    else { OtherOperationKeeps(limits, w, r, op, at); }
  }

  // ---- Whole sessions ----

  /** A record as the service's `start` first writes it. */
  predicate Started(r: Record, q: StartRequest, at: string) {
    at != "" && StartEnvelope(q).Valid() && CreateRecord(StartEnvelope(q), at) == Ok(r)
  }

  lemma StartedIsDisciplined(limits: Limits, r: Record, q: StartRequest, at: string)
    requires Started(r, q, at)
    ensures Disciplined(limits, r) && Initial(State(r, Idle))
  {
    StartContract(q);
    var e := r.events[0];
    assert r.events == [] + [e];
    forall x {:trigger Tally(r.events, x)} ensures x != Amendments ==> Tally(r.events, x) == 0 {
      TallyAppend([], e, x);
    }
    ApprovalsAppend([], e);
  }

  /** The declarations loaded by any operation allow no more than the limits. */
  predicate PermitsAll(limits: Limits, ops: seq<Timed>) {
    forall i :: 0 <= i < |ops| ==> Permits(limits, ops[i].world)
  }

  lemma {:induction false} SessionKeeps(limits: Limits, r: Record, ops: seq<Timed>)
    requires Disciplined(limits, r) && ClockedOps(ops) && PermitsAll(limits, ops)
    ensures Disciplined(limits, Session(r, ops))
    decreases |ops|
  {
    if ops != [] {
      var n := |ops| - 1;
      SessionKeeps(limits, r, ops[..n]);
      PerformKeeps(limits, ops[n].world, Session(r, ops[..n]), ops[n].op, ops[n].at);
    }
  }

  /** Budgets and retry limits hold after every session, whichever operations died part-way and however the
      declarations change between them. */
  lemma SessionBudgets(limits: Limits, r: Record, q: StartRequest, at: string, ops: seq<Timed>, c: string)
    requires Started(r, q, at) && ClockedOps(ops) && PermitsAll(limits, ops) && c in limits
    ensures var end := Session(r, ops);
      && Tally(end.events, AuthorizationsOf(c)) <= limits[c]
      && Tally(end.events, StartsOf(c)) <= end.Current().retryBudget + 1
      && (end.Current().MaxCommands().Some? ==> Tally(end.events, Authorizations) <= end.Current().MaxCommands().value)
  {
    StartedIsDisciplined(limits, r, q, at);
    SessionKeeps(limits, r, ops);
  }

  /** An authorization that names an approval follows a matching grant, within its uses. */
  lemma SessionApprovals(r: Record, q: StartRequest, at: string, ops: seq<Timed>, i: nat) returns (j: nat)
    requires Started(r, q, at) && ClockedOps(ops)
    requires var ev := Session(r, ops).events;
      i < |ev| && ev[i].data.CommandAuthorized? && ev[i].data.auth.approvalId.Some?
    ensures var ev := Session(r, ops).events;
      && j < i && GrantedAt(ev, j, ev[i].data.auth)
      && Tally(ev[..i + 1], UsesOf(ev[i].data.auth.approvalId.value)) <= ev[j].data.approval.maxUses
  {
    StartedIsDisciplined(map[], r, q, at);
    SessionKeeps(map[], r, ops);
    var ev := Session(r, ops).events;
    ApprovalsAt(ev, i);
    var x :| GrantedAt(ev[..i], x, ev[i].data.auth)
      && Tally(ev[..i], UsesOf(ev[i].data.auth.approvalId.value)) < ev[..i][x].data.approval.maxUses;
    j := x;
    TallyPrefix(ev, i, UsesOf(ev[i].data.auth.approvalId.value));
  }

  predicate OnlyGrant(events: seq<Event>, g: Approval) {
    forall j :: 0 <= j < |events| && events[j].data.ApprovalGranted? && events[j].data.approval.id == g.id ==>
      events[j].data.approval == g
  }

  /** With unique approval ids, an approval is never used more than `maxUses` times in all. */
  lemma {:induction false} UsesNeverExceedGrant(events: seq<Event>, g: Approval)
    requires ApprovalsOk(events) && OnlyGrant(events, g) && g.maxUses >= 0
    ensures Tally(events, UsesOf(g.id)) <= g.maxUses
    decreases |events|
  {
    if events != [] {
      var n := |events| - 1;
      assert OnlyGrant(events[..n], g) by {
        forall j | 0 <= j < n && events[..n][j].data.ApprovalGranted? && events[..n][j].data.approval.id == g.id
          ensures events[..n][j].data.approval == g
        {
          assert events[j] == events[..n][j];
        }
      }
      UsesNeverExceedGrant(events[..n], g);
      if Matches(UsesOf(g.id), events[n]) {
        var j :| GrantedAt(events[..n], j, events[n].data.auth)
          && Tally(events[..n], UsesOf(g.id)) < events[..n][j].data.approval.maxUses;
        assert events[j] == events[..n][j];
      }
    }
  }

  /** In every session an approval whose id is granted once is used at most its maximum number of times. */
  lemma SessionUses(r: Record, q: StartRequest, at: string, ops: seq<Timed>, g: Approval)
    requires Started(r, q, at) && ClockedOps(ops) && g.maxUses >= 0
    requires OnlyGrant(Session(r, ops).events, g)
    ensures Tally(Session(r, ops).events, UsesOf(g.id)) <= g.maxUses
  {
    StartedIsDisciplined(map[], r, q, at);
    SessionKeeps(map[], r, ops);
    hide Session;
    UsesNeverExceedGrant(Session(r, ops).events, g);
  }

  /** A task the service completed: the last run of every requested capability is a fresh success. */
  lemma SessionCompletedIsFresh(r: Record, q: StartRequest, at: string, ops: seq<Timed>, c: string)
    requires Started(r, q, at) && ClockedOps(ops)
    requires Session(r, ops).state == Completed && c in Session(r, ops).Current().requestedCapabilities
    ensures FreshEvidence(Session(r, ops).events, c)
  {
    var end := Session(r, ops);
    StartedIsDisciplined(map[], r, q, at);
    SessionKeeps(map[], r, ops);
    assert Contract(end.Current());
    hide Started, Disciplined, Session, SessionSteps, Initial, Run, LegalRun, FreshEvidence;
    SessionIsARun(r, ops);
    SessionIsUndisturbed(r, ops);
    UndisturbedIsFresh(State(r, Idle), SessionSteps(r, ops));
    var a :| a in end.Current().acceptances && a.commandId == c;
    assert ServiceAcceptance(a);
  }
}
