/**
 The locked service operations, each as the component steps it performs, and what only
 their serialization guarantees: budgets, retries and approvals.
 */
module Service {
  import opened Prelude
  import opened TaskModel
  import opened Records
  import opened Gateway
  import opened Execution
  import opened Verifier
  import opened Kernel
  import opened Completion

  // ---- Starting and amending a task ----

  function Decimal(n: nat): string {
    if n < 10 then [Digit(n)] else Decimal(n / 10) + [Digit(n % 10)]
  }

  function Digit(n: nat): char
    requires n < 10
  {
    ['0', '1', '2', '3', '4', '5', '6', '7', '8', '9'][n]
  }

  function RequirementIds(requirements: seq<Requirement>): (ids: seq<string>)
    ensures |ids| == |requirements|
    ensures forall i :: 0 <= i < |ids| ==> ids[i] == requirements[i].id
  {
    if requirements == [] then []
    else RequirementIds(requirements[..|requirements| - 1]) + [requirements[|requirements| - 1].id]
  }

  /** The acceptance the service declares for a capability. */
  function CommandAcceptance(index: nat, covers: seq<string>, capabilityId: string, timeout: int,
                             retries: int): Acceptance {
    Acceptance("acceptance-" + Decimal(index), true, covers, capabilityId, 0, timeout, retries, "command_event")
  }

  function StartAcceptances(selected: seq<string>, covers: seq<string>, timeout: int,
                            retries: int): (a: seq<Acceptance>)
    ensures |a| == |selected|
    ensures forall i :: 0 <= i < |a| ==> a[i] == CommandAcceptance(i + 1, covers, selected[i], timeout, retries)
  {
    if selected == [] then []
    else
      StartAcceptances(selected[..|selected| - 1], covers, timeout, retries) +
      [CommandAcceptance(|selected|, covers, selected[|selected| - 1], timeout, retries)]
  }

  function StartRequirements(texts: seq<string>): seq<Requirement> {
    if texts == [] then []
    else StartRequirements(texts[..|texts| - 1]) + [Requirement("requirement-" + Decimal(|texts|), texts[|texts| - 1])]
  }

  datatype StartRequest = StartRequest(
    taskId: string,
    goal: string,
    allowedScope: seq<string>,
    requirements: seq<string>,
    selected: seq<string>,
    timeoutSeconds: int,
    retryBudget: int,
    snapshot: Snapshot,
    dirtyState: seq<string>,
    harnessVersion: string,
    configVersion: string,
    mode: IntegrationMode)

  function Max(a: int, b: int): int { if a < b then b else a }

  /** The envelope `start` builds once the selected capabilities are known to be declared. */
  function StartEnvelope(q: StartRequest): Envelope {
    var requirements := StartRequirements(if q.requirements == [] then [q.goal] else q.requirements);
    Envelope("1.0", q.taskId, q.snapshot.repositoryId, q.snapshot.baseSha, q.snapshot.worktreePath, q.dirtyState,
             q.harnessVersion, q.configVersion, q.goal, [], requirements, q.allowedScope,
             StartAcceptances(q.selected, RequirementIds(requirements), q.timeoutSeconds, q.retryBudget),
             q.selected, q.timeoutSeconds, q.retryBudget,
             map["max_commands" := Int(Max(1, |q.selected| * (q.retryBudget + 1)))], q.mode, 1)
  }

  /** `tuple(dict.fromkeys(items))`: first occurrences, in order. */
  function Unique(items: seq<string>): (u: seq<string>)
    ensures Elements(u) == Elements(items)
  {
    if items == [] then []
    else
      var last := items[|items| - 1];
      var u := Unique(items[..|items| - 1]);
      ElementsOfAppend(items[..|items| - 1], last);
      ElementsOfAppend(u, last);
      assert items == items[..|items| - 1] + [last];
      assert last in u <==> last in Elements(u);
      if last in u then u else u + [last]
  }

  predicate HasCommand(acceptances: seq<Acceptance>, capabilityId: string) {
    exists a :: a in acceptances && a.commandId == capabilityId
  }

  /** The acceptances an amendment appends: one per added capability without a command in the old envelope. */
  function MoreAcceptances(base: Envelope, added: seq<string>): seq<Acceptance> {
    if added == [] then base.acceptances
    else
      var last := added[|added| - 1];
      var sofar := MoreAcceptances(base, added[..|added| - 1]);
      if HasCommand(base.acceptances, last) then sofar
      else sofar + [CommandAcceptance(|sofar| + 1, RequirementIds(base.requirements), last,
                                      base.timeoutSeconds, base.retryBudget)]
  }

  function AmendmentFor(current: Envelope, goal: Option<string>, addScope: seq<string>,
                        addCapabilities: seq<string>): Changes {
    Changes(None, None, None, None, None, goal, None, None,
            if addScope == [] then None else Some(Unique(current.allowedScope + addScope)),
            if addCapabilities == [] then None else Some(MoreAcceptances(current, addCapabilities)),
            if addCapabilities == [] then None else Some(Unique(current.requestedCapabilities + addCapabilities)),
            None, None, None, None, false)
  }

  // ---- Service operations ----

  /** How far `run_capability` gets before it ends, is refused or dies. */
  datatype Fate =
    | DiesAfterAuthorize
    | DiesWhileRunning
    | Ends(result: ProcessResult, stdoutArtifact: string, stderrArtifact: string)

  datatype Operation =
    | RunCapability(capabilityId: string, snapshot: Snapshot, time: int, cwd: string,
                    leaseSnapshot: Snapshot, fate: Fate)
    | AmendTask(goal: Option<string>, addScope: seq<string>, addCapabilities: seq<string>)
    | Cancel(cancelReason: string)
    | GrantApproval(approval: Approval, grantSnapshot: Snapshot)
    | RecordActivation(moduleId: string, moduleState: string)
    | VerifyTask(probe: Probe, acceptRisk: bool, reason: Option<string>)

  function RecordedApprovals(events: seq<Event>, capabilityId: string): seq<Approval> {
    if events == [] then []
    else
      var e := events[|events| - 1];
      RecordedApprovals(events[..|events| - 1], capabilityId) +
      if e.data.ApprovalGranted? && e.data.approval.capabilityId == capabilityId then [e.data.approval] else []
  }

  function AuthorizeStep(w: World, r: Record, op: Operation, at: string): Step
    requires op.RunCapability?
  {
    Step(Authorize(op.capabilityId, RecordedApprovals(r.events, op.capabilityId), op.snapshot, op.time, op.cwd), at, w)
  }

  /** The command an accepted authorization returns: its event is the last one written. */
  function IssuedCommand(r: Record): AuthorizedCommand
    requires r.events != [] && r.events[|r.events| - 1].data.CommandAuthorized?
  {
    CommandFor(r.taskId, r.events[|r.events| - 1].data.auth, |r.events|)
  }

  function ExecuteSteps(w: World, command: AuthorizedCommand, snapshot: Snapshot, fate: Fate, at: string): seq<Step> {
    [Step(Lease(command, snapshot), at, w), Step(Action.Start, at, w),
     Step(if fate.Ends? then End(fate.result, fate.stdoutArtifact, fate.stderrArtifact) else Crash, at, w)]
  }

  lemma AuthorizedEndsInAuthorization(w: World, r: Record, a: Action, at: string)
    requires a.Authorize? && r.revisions != [] && AuthorizeRecord(w, r, a, at) != r
    ensures var d := Decide(r, w.caps, w.policy, a.capabilityId, a.approvals, a.snapshot, a.time, a.cwd);
      && d.Ok? && !Terminal(r.state)
      && AuthorizeRecord(w, r, a, at) == Appended(r, CommandAuthorized(d.value), at)
  {
  }

  /** The component steps of one operation; amendments that name unknown capabilities or nothing perform none. */
  function Steps(w: World, r: Record, op: Operation, at: string): seq<Step>
    requires r.revisions != []
  {
    match op
    case RunCapability(_, _, _, _, leaseSnapshot, fate) =>
      var first := AuthorizeStep(w, r, op, at);
      var authorized := AuthorizeRecord(w, r, first.action, at);
      if authorized == r || fate.DiesAfterAuthorize? then [first]
      else
        AuthorizedEndsInAuthorization(w, r, first.action, at);
        [first] + ExecuteSteps(w, IssuedCommand(authorized), leaseSnapshot, fate, at)
    case AmendTask(goal, addScope, addCapabilities) =>
      if goal.None? && addScope == [] && addCapabilities == [] then []
      else if exists c :: c in addCapabilities && c !in w.caps then []
      else [Step(Amend(AmendmentFor(r.Current(), goal, addScope, addCapabilities)), at, w)]
    case Cancel(reason) => [Step(CancelTask(reason), at, w)]
    case GrantApproval(g, snapshot) => [Step(Approve(g, snapshot), at, w)]
    case RecordActivation(id, state) => [Step(Activate(id, state), at, w)]
    case VerifyTask(probe, acceptRisk, reason) =>
      [Step(Judge(probe, acceptRisk, reason, Evaluate(r, probe, acceptRisk, reason)), at, w), Step(Close, at, w)]
  }

  /** The record `run_capability` writes, in closed form. */
  function RunRecord(w: World, r: Record, op: Operation, at: string): Record
    requires r.revisions != [] && op.RunCapability?
  {
    var first := AuthorizeStep(w, r, op, at);
    var authorized := AuthorizeRecord(w, r, first.action, at);
    if authorized == r || op.fate.DiesAfterAuthorize? then authorized
    else
      AuthorizedEndsInAuthorization(w, r, first.action, at);
      ExecutedRecord(authorized, IssuedCommand(authorized), op.leaseSnapshot, op.fate, at)
  }

  /** One locked operation on an idle task. */
  function Perform(w: World, r: Record, op: Operation, at: string): (after: Record)
    requires r.revisions != []
    ensures after.revisions != []
  {
    Run(State(r, Idle), Steps(w, r, op, at)).record
  }

  /** An operation, its moment, and the declarations and policy it loads. */
  datatype Timed = Timed(op: Operation, at: string, world: World)

  function PerformTimed(r: Record, t: Timed): (after: Record)
    requires r.revisions != []
    ensures after.revisions != []
  {
    Perform(t.world, r, t.op, t.at)
  }

  /** A session: locked operations in any order, each of which may die part-way. */
  function Session(r: Record, ops: seq<Timed>): (after: Record)
    requires r.revisions != []
    ensures after.revisions != []
    decreases |ops|
  {
    if ops == [] then r
    else PerformTimed(Session(r, ops[..|ops| - 1]), ops[|ops| - 1])
  }

  function SessionSteps(r: Record, ops: seq<Timed>): seq<Step>
    requires r.revisions != []
    decreases |ops|
  {
    if ops == [] then []
    else
      var n := |ops| - 1;
      SessionSteps(r, ops[..n]) + Steps(ops[n].world, Session(r, ops[..n]), ops[n].op, ops[n].at)
  }

  predicate ClockedOps(ops: seq<Timed>) {
    forall i :: 0 <= i < |ops| ==> ops[i].at != "" && ops[i].world.Valid()
  }

  // ---- A session is a component run ----

  lemma {:induction false} RunConcat(s: State, a: seq<Step>, b: seq<Step>)
    requires s.record.revisions != []
    ensures Run(s, a + b) == Run(Run(s, a), b)
    ensures LegalRun(s, a) && LegalRun(Run(s, a), b) ==> LegalRun(s, a + b)
    decreases |b|
  {
    hide Next, LegalStep;
    if b == [] {
      assert a + b == a;
    } else {
      var n := |b| - 1;
      RunConcat(s, a, b[..n]);
      assert (a + b)[..|a + b| - 1] == a + b[..n];
    }
  }

  lemma RunOne(s: State, step: Step)
    requires s.record.revisions != []
    ensures Run(s, [step]) == Next(s, step)
    ensures LegalRun(s, [step]) <==> LegalStep(s, step)
  {
    assert [step][..0] == [];
    assert Run(s, []) == s;
  }

  lemma RunThree(s: State, a: Step, b: Step, c: Step)
    requires s.record.revisions != []
    ensures var s1 := Next(s, a); var s2 := Next(s1, b);
      && s1.record.revisions != [] && s2.record.revisions != []
      && Run(s, [a, b, c]) == Next(s2, c)
      && (LegalStep(s, a) && LegalStep(s1, b) && LegalStep(s2, c) ==> LegalRun(s, [a, b, c]))
  {
    NextKeepsRevisions(s, a);
    RunOne(s, a);
    RunOne(Next(s, a), b);
    NextKeepsRevisions(Next(s, a), b);
    RunOne(Next(Next(s, a), b), c);
    RunConcat(s, [a], [b]);
    RunConcat(s, [a] + [b], [c]);
    assert [a] + [b] + [c] == [a, b, c];
  }

  /** Executing an issued command appends nothing, a start, or a start and its finish. */
  lemma ExecuteEffect(w: World, r: Record, command: AuthorizedCommand, snapshot: Snapshot, fate: Fate, at: string)
    requires w.Valid() && r.revisions != [] && at != "" && !fate.DiesAfterAuthorize?
    ensures var steps := ExecuteSteps(w, command, snapshot, fate, at); var end := Run(State(r, Idle), steps);
      && LegalRun(State(r, Idle), steps)
      && end.phase.Idle? && end.record.revisions == r.revisions && end.record.state == r.state
      && ExecutedEvents(r.events, end.record.events, command)
  {
    hide Validate, Run, LegalRun, World.Valid;
    var steps := ExecuteSteps(w, command, snapshot, fate, at);
    RunThree(State(r, Idle), steps[0], steps[1], steps[2]);
  }

  /** The record an execution writes, in closed form. */
  function ExecutedRecord(r: Record, command: AuthorizedCommand, snapshot: Snapshot, fate: Fate, at: string): Record
    requires r.revisions != []
  {
    if Validate(r, command, snapshot).Some? then r
    else
      var attempt := NextAttempt(r, command.capabilityId);
      var started := AppendRecord(r, CommandStarted(command.authSequence, command.capabilityId, attempt), at);
      if started.Err? then r
      else if !fate.Ends? then started.value
      else
        var f := FinishOf(command, attempt, r.Current().integrationMode == Enforced, fate.result,
                          fate.stdoutArtifact, fate.stderrArtifact);
        Kept(started.value, AppendRecord(started.value, CommandFinished(f), at))
  }

  lemma ExecuteStepsWrite(w: World, r: Record, command: AuthorizedCommand, snapshot: Snapshot, fate: Fate, at: string)
    requires r.revisions != []
    ensures Run(State(r, Idle), ExecuteSteps(w, command, snapshot, fate, at)) ==
            State(ExecutedRecord(r, command, snapshot, fate, at), Idle)
  {
    var steps := ExecuteSteps(w, command, snapshot, fate, at);
    if Validate(r, command, snapshot).Some? {
      RejectedRuns(State(r, Idle), steps[0], steps[1], steps[2]);
    } else {
      LeasedRuns(State(r, Idle), steps[0], steps[1], steps[2], fate);
    }
    hide Validate, Next, Run, AppendRecord, FinishOf, NextAttempt;
    RunThree(State(r, Idle), steps[0], steps[1], steps[2]);
  }

  predicate AnExecution(lease: Step, start: Step, end: Step) {
    lease.action.Lease? && start.action.Start? && (end.action.End? || end.action.Crash?)
  }

  lemma RejectedRuns(s: State, lease: Step, start: Step, end: Step)
    requires s.record.revisions != [] && s.phase.Idle? && AnExecution(lease, start, end)
    requires Validate(s.record, lease.action.command, lease.action.snapshot).Some?
    ensures Next(s, lease) == Next(s, start) == Next(s, end) == s
  {
    hide Validate;
  }

  lemma LeasedRuns(s: State, lease: Step, start: Step, end: Step, fate: Fate)
    requires s.record.revisions != [] && s.phase.Idle? && AnExecution(lease, start, end)
    requires Validate(s.record, lease.action.command, lease.action.snapshot).None?
    requires lease.at == start.at == end.at && (fate.Ends? <==> end.action.End?)
    requires fate.Ends? ==> end.action == End(fate.result, fate.stdoutArtifact, fate.stderrArtifact)
    ensures Next(s, lease).record.revisions != [] && Next(Next(s, lease), start).record.revisions != []
    ensures Next(Next(Next(s, lease), start), end) ==
      State(ExecutedRecord(s.record, lease.action.command, lease.action.snapshot, fate, lease.at), Idle)
  {
    hide Validate, WellFormed, FinishOf, NextAttempt;
  }

  predicate StartFor(e: Event, command: AuthorizedCommand) {
    e.data.CommandStarted? && e.data.capabilityId == command.capabilityId && e.data.authSequence == command.authSequence
  }

  ghost predicate ExecutedEvents(before: seq<Event>, after: seq<Event>, command: AuthorizedCommand) {
    || after == before
    || (exists s :: StartFor(s, command) && after == before + [s])
    || (exists s, f :: StartFor(s, command) && FinishFor(f, command) && after == before + [s] + [f])
  }

  predicate FinishFor(e: Event, command: AuthorizedCommand) {
    e.data.CommandFinished? && e.data.finish.capabilityId == command.capabilityId
      && e.data.finish.authSequence == command.authSequence
  }

  /** Every operation is a legal component run that frees the lease. */
  lemma PerformIsARun(w: World, r: Record, op: Operation, at: string)
    requires w.Valid() && r.revisions != [] && at != ""
    ensures var steps := Steps(w, r, op, at);
      && LegalRun(State(r, Idle), steps)
      && Run(State(r, Idle), steps) == State(Perform(w, r, op, at), Idle)
  {
    var s := State(r, Idle);
    var steps := Steps(w, r, op, at);
    if op.RunCapability? {
      RunCapabilityIsARun(w, r, op, at);
    } else if op.VerifyTask? {
      VerifyIsARun(w, r, op, at);
    } else if |steps| == 1 {
      RunOne(s, steps[0]);
      SingleStepStaysIdle(w, r, op, at);
    }
  }

  lemma PerformIsRun(w: World, r: Record, op: Operation, at: string)
    requires r.revisions != []
    ensures Perform(w, r, op, at) == Run(State(r, Idle), Steps(w, r, op, at)).record
  {
    hide Run, Steps;
  }

  lemma RunTwo(s: State, a: Step, b: Step)
    requires s.record.revisions != []
    ensures Next(s, a).record.revisions != [] && Run(s, [a, b]) == Next(Next(s, a), b)
    ensures LegalStep(s, a) && LegalStep(Next(s, a), b) ==> LegalRun(s, [a, b])
  {
    hide Next, LegalStep;
    NextKeepsRevisions(s, a);
    RunOne(s, a);
    RunOne(Next(s, a), b);
    RunConcat(s, [a], [b]);
    assert [a] + [b] == [a, b];
  }

  lemma VerifySteps(w: World, r: Record, op: Operation, at: string)
    requires w.Valid() && r.revisions != [] && at != "" && op.VerifyTask?
    ensures var report := Evaluate(r, op.probe, op.acceptRisk, op.reason);
      var judge := Step(Judge(op.probe, op.acceptRisk, op.reason, report), at, w);
      && Steps(w, r, op, at) == [judge, Step(Close, at, w)]
      && LegalStep(State(r, Idle), judge) && LegalStep(State(r, Judged(r, report)), Step(Close, at, w))
  {
    hide Evaluate;
  }

  /** Under the lock the Verifier closes the record it judged. */
  lemma VerifyIsARun(w: World, r: Record, op: Operation, at: string)
    requires w.Valid() && r.revisions != [] && at != "" && op.VerifyTask?
    ensures var steps := Steps(w, r, op, at);
      && LegalRun(State(r, Idle), steps)
      && Run(State(r, Idle), steps) == State(Perform(w, r, op, at), Idle)
      && Perform(w, r, op, at) == CloseRecord(r, Evaluate(r, op.probe, op.acceptRisk, op.reason), at)
  {
    hide *;
    var report := Evaluate(r, op.probe, op.acceptRisk, op.reason);
    var judge := Step(Judge(op.probe, op.acceptRisk, op.reason, report), at, w);
    var close := Step(Close, at, w);
    VerifySteps(w, r, op, at);
    PerformIsRun(w, r, op, at);
    NextJudge(State(r, Idle), judge);
    NextClose(State(r, Judged(r, report)), close);
    RunTwo(State(r, Idle), judge, close);
  }

  lemma SingleStepStaysIdle(w: World, r: Record, op: Operation, at: string)
    requires w.Valid() && r.revisions != [] && at != "" && !op.RunCapability? && |Steps(w, r, op, at)| == 1
    ensures var step := Steps(w, r, op, at)[0];
      LegalStep(State(r, Idle), step) && Next(State(r, Idle), step).phase.Idle?
  {
    hide Evaluate, AmendRecord, CloseRecord, AppendRecord, CancelRecord, GrantAccepted, AmendmentFor;
  }

  lemma NextAuthorize(s: State, step: Step)
    requires s.record.revisions != [] && step.action.Authorize?
    ensures Next(s, step) == s.(record := AuthorizeRecord(step.world, s.record, step.action, step.at))
    ensures AuthorizeRecord(step.world, s.record, step.action, step.at).revisions == s.record.revisions
  {
    hide Decide;
  }

  lemma RunCapabilityIsARun(w: World, r: Record, op: Operation, at: string)
    requires w.Valid() && r.revisions != [] && at != "" && op.RunCapability?
    ensures var steps := Steps(w, r, op, at);
      && LegalRun(State(r, Idle), steps)
      && Run(State(r, Idle), steps) == State(Perform(w, r, op, at), Idle)
  {
    hide Next, AuthorizeRecord, Run, LegalRun, ExecuteSteps, Evaluate, ExecutedEvents;
    var s := State(r, Idle);
    var first := AuthorizeStep(w, r, op, at);
    var authorized := AuthorizeRecord(w, r, first.action, at);
    RunOne(s, first);
    NextAuthorize(s, first);
    if authorized == r || op.fate.DiesAfterAuthorize? {
      assert Steps(w, r, op, at) == [first];
    } else {
      AuthorizedEndsInAuthorization(w, r, first.action, at);
      var command := IssuedCommand(authorized);
      ExecuteEffect(w, authorized, command, op.leaseSnapshot, op.fate, at);
      RunConcat(s, [first], ExecuteSteps(w, command, op.leaseSnapshot, op.fate, at));
    }
  }

  /** Every session is a legal interleaving of component steps, so all their invariants hold of it. */
  lemma {:induction false} SessionIsARun(r: Record, ops: seq<Timed>)
    requires r.revisions != [] && ClockedOps(ops)
    ensures LegalRun(State(r, Idle), SessionSteps(r, ops))
    ensures Run(State(r, Idle), SessionSteps(r, ops)) == State(Session(r, ops), Idle)
    decreases |ops|
  {
    if ops != [] {
      var n := |ops| - 1;
      SessionIsARun(r, ops[..n]);
      var before := Session(r, ops[..n]);
      PerformIsARun(ops[n].world, before, ops[n].op, ops[n].at);
      RunConcat(State(r, Idle), SessionSteps(r, ops[..n]), Steps(ops[n].world, before, ops[n].op, ops[n].at));
    }
  }

  // ---- A session never amends a task the Verifier judges ----

  predicate NeverJudges(steps: seq<Step>) {
    forall i :: 0 <= i < |steps| ==> !steps[i].action.Judge?
  }

  lemma {:induction false} QuietStepsDoNotJudge(a: seq<Step>, b: seq<Step>)
    requires Undisturbed(a) && !Judging(a) && NeverJudges(b)
    ensures Undisturbed(a + b) && !Judging(a + b)
    decreases |b|
  {
    if b == [] {
      assert a + b == a;
    } else {
      var n := |b| - 1;
      QuietStepsDoNotJudge(a, b[..n]);
      assert (a + b)[..|a + b| - 1] == a + b[..n];
    }
  }

  lemma JudgeThenClose(a: seq<Step>, judge: Step, close: Step)
    requires Undisturbed(a) && judge.action.Judge? && close.action.Close?
    ensures Undisturbed(a + [judge, close]) && !Judging(a + [judge, close])
  {
    assert (a + [judge])[..|a|] == a;
    assert (a + [judge, close])[..|a| + 1] == a + [judge];
  }

  lemma StepsNeverJudge(w: World, r: Record, op: Operation, at: string)
    requires r.revisions != [] && !op.VerifyTask?
    ensures NeverJudges(Steps(w, r, op, at))
  {
    hide AuthorizeRecord, AmendmentFor, IssuedCommand;
  }

  /** The lock keeps every amendment out of a verification. */
  lemma {:induction false} SessionIsUndisturbed(r: Record, ops: seq<Timed>)
    requires r.revisions != []
    ensures Undisturbed(SessionSteps(r, ops)) && !Judging(SessionSteps(r, ops))
    decreases |ops|
  {
    if ops != [] {
      var n := |ops| - 1;
      SessionIsUndisturbed(r, ops[..n]);
      var sofar, before := SessionSteps(r, ops[..n]), Session(r, ops[..n]);
      var steps := Steps(ops[n].world, before, ops[n].op, ops[n].at);
      if ops[n].op.VerifyTask? {
        JudgeThenClose(sofar, steps[0], steps[1]);
        assert steps == [steps[0], steps[1]];
      } else {
        StepsNeverJudge(ops[n].world, before, ops[n].op, ops[n].at);
        QuietStepsDoNotJudge(sofar, steps);
      }
    }
  }
}
