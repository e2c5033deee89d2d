/**
 The task lifecycle as a state machine over one canonical record. Gateway, Executor,
 Verifier and the store act in any order; the workspace lease is held from validation
 to the end of a command and from the Verifier's load to its write, and a crash
 releases it between any two writes.
 */
module Kernel {
  import opened Prelude
  import opened TaskModel
  import opened Records
  import opened Gateway
  import opened Execution
  import opened Verifier

  datatype World = World(caps: map<string, Capability>, policy: ProjectPolicy) {
    predicate Valid() {
      forall c :: c in caps ==> caps[c].id == c && caps[c].maxExecutions >= 1
    }
  }

  datatype Phase =
    | Idle
    | Leased(command: AuthorizedCommand, attempt: int, sandbox: bool)
    | Running(command: AuthorizedCommand, attempt: int, sandbox: bool)
    | Judged(basis: Record, report: Report)

  datatype State = State(record: Record, phase: Phase)

  datatype Action =
    | Authorize(capabilityId: string, approvals: seq<Approval>, snapshot: Snapshot, time: int, cwd: string)
    | Lease(command: AuthorizedCommand, snapshot: Snapshot)
    | Start
    | End(result: ProcessResult, stdoutArtifact: string, stderrArtifact: string)
    | Crash
    | Amend(changes: Changes)
    | CancelTask(cancelReason: string)
    | Approve(approval: Approval, snapshot: Snapshot)
    | Activate(moduleId: string, moduleState: string)
    | Judge(probe: Probe, acceptRisk: bool, reason: Option<string>, report: Report)
    | Close

  /** A step, the moment it is made, and the declarations and policy in force then. */
  datatype Step = Step(action: Action, at: string, world: World)

  function Kept(r: Record, written: Result<Record, StoreError>): Record {
    if written.Ok? then written.value else r
  }

  /** `authorize`: the decision and the append are one step. */
  function AuthorizeRecord(w: World, r: Record, a: Action, at: string): Record
    requires a.Authorize? && r.revisions != []
  {
    match Decide(r, w.caps, w.policy, a.capabilityId, a.approvals, a.snapshot, a.time, a.cwd)
    case Err(_) => r
    case Ok(fact) => Kept(r, AppendRecord(r, CommandAuthorized(fact), at))
  }

  function NextAttempt(r: Record, capabilityId: string): int {
    1 + Tally(r.events, StartsOf(capabilityId))
  }

  function LeasePhase(r: Record, a: Action): Phase
    requires a.Lease? && r.revisions != []
  {
    if Validate(r, a.command, a.snapshot).Some? then Idle
    else Leased(a.command, NextAttempt(r, a.command.capabilityId), r.Current().integrationMode == Enforced)
  }

  /** `grant_approval`: the reviewed scope must still be the declared one. */
  predicate GrantAccepted(w: World, r: Record, g: Approval, snapshot: Snapshot)
    requires r.revisions != []
  {
    && g.maxUses >= 1
    && g.taskId == r.taskId
    && g.capabilityId in w.caps && g.capabilityId in r.Current().requestedCapabilities
    && SameWorkspace(r.Current(), snapshot)
    && var c := w.caps[g.capabilityId];
       && g.baseSha == snapshot.baseSha && g.worktreePath == snapshot.worktreePath
       && g.readPaths == c.readPaths && g.writePaths == c.writePaths && g.sideEffects == c.sideEffects
       && g.network == c.network && g.listener == c.listener && g.environment == c.environment
  }

  function StateFor(o: Outcome): TaskState
    requires !o.OutcomeRejected?
  {
    if o.OutcomeCompleted? then Completed else AcceptedWithRisk
  }

  /** What `verify` does with its report: only a legal outcome is written. */
  function CloseRecord(r: Record, report: Report, at: string): (closed: Record)
    ensures closed.revisions == r.revisions
  {
    if report.outcome.OutcomeRejected? then r
    else Kept(r, FinalizeRecord(r, StateFor(report.outcome), VerificationOf(report), at))
  }

  function Next(s: State, step: Step): State
    requires s.record.revisions != []
  {
    var r := s.record;
    match step.action
    case Authorize(_, _, _, _, _) => s.(record := AuthorizeRecord(step.world, r, step.action, step.at))
    case Lease(_, _) => if s.phase.Idle? then s.(phase := LeasePhase(r, step.action)) else s
    case Start =>
      if !s.phase.Leased? then s
      else
        var p := s.phase;
        var started :=
          AppendRecord(r, CommandStarted(p.command.authSequence, p.command.capabilityId, p.attempt), step.at);
        if started.Ok? then State(started.value, Running(p.command, p.attempt, p.sandbox)) else State(r, Idle)
    case End(result, out, err) =>
      if !s.phase.Running? then s
      else
        var p := s.phase;
        var f := FinishOf(p.command, p.attempt, p.sandbox, result, out, err);
        State(Kept(r, AppendRecord(r, CommandFinished(f), step.at)), Idle)
    case Crash => State(r, Idle)
    case Amend(c) => s.(record := Kept(r, AmendRecord(r, c, step.at)))
    case CancelTask(reason) => s.(record := Kept(r, CancelRecord(r, reason, step.at)))
    case Approve(g, snapshot) =>
      if GrantAccepted(step.world, r, g, snapshot) then
        s.(record := Kept(r, AppendRecord(r, ApprovalGranted(g), step.at)))
        else s
    case Activate(id, state) => s.(record := Kept(r, AppendRecord(r, ModuleActivation(id, state), step.at)))
    case Judge(_, _, _, report) => if s.phase.Idle? then s.(phase := Judged(r, report)) else s
    case Close => if s.phase.Judged? then State(CloseRecord(r, s.phase.report, step.at), Idle) else s
  }

  // ---- The history every run produces ----

  predicate IsStart(e: Event) { e.data.CommandStarted? }

  predicate StartsCommand(e: Event, authSequence: int, capabilityId: string, attempt: int) {
    IsStart(e) && e.data.authSequence == authSequence && e.data.capabilityId == capabilityId
      && e.data.attempt == attempt
  }

  predicate AuthorizedAt(events: seq<Event>, sequence: int, capabilityId: string) {
    && 1 <= sequence <= |events|
    && events[sequence - 1].data.CommandAuthorized?
    && events[sequence - 1].data.auth.capabilityId == capabilityId
  }

  /** The latest start in `events`, at position `i`, is of the given command. */
  ghost predicate LatestStart(events: seq<Event>, i: int, authSequence: int, capabilityId: string, attempt: int) {
    && 0 <= i < |events| && StartsCommand(events[i], authSequence, capabilityId, attempt)
    && forall k :: i < k < |events| ==> !IsStart(events[k])
  }

  /** What an event may be, given all events before it. */
  ghost predicate EventOk(before: seq<Event>, e: Event) {
    && e.sequence == |before| + 1
    && match e.data
       case TaskAmended(n) => n == 2 + Tally(before, Amendments)
       case CommandAuthorized(a) =>
         a.revision == 1 + Tally(before, Amendments) && (HighRisk(a) ==> a.approvalId.Some?)
       case CommandStarted(s, c, n) =>
         AuthorizedAt(before, s, c) && !Consumed(before, s) && n == 1 + Tally(before, StartsOf(c))
       case CommandFinished(f) =>
         && f.producer == EXECUTOR
         && (f.status == Succeeded ==> f.exitCode == Some(0) && !f.timedOut && !f.cancelled)
         && !HasFinish(before, f.authSequence)
         && exists i :: LatestStart(before, i, f.authSequence, f.capabilityId, f.attempt)
       case _ => true
  }

  ghost predicate History(events: seq<Event>) {
    events == [] ||
    (History(events[..|events| - 1]) && EventOk(events[..|events| - 1], events[|events| - 1]))
  }

  lemma HistoryAppend(events: seq<Event>, e: Event)
    requires History(events) && EventOk(events, e)
    ensures History(events + [e])
  {
    assert (events + [e])[..|events|] == events;
  }

  lemma {:induction false} HistoryAt(events: seq<Event>, i: nat)
    requires History(events) && i < |events|
    ensures EventOk(events[..i], events[i])
  {
    var n := |events| - 1;
    if i < n {
      HistoryAt(events[..n], i);
      assert events[..n][..i] == events[..i];
    }
  }

  ghost predicate PhaseOk(events: seq<Event>, p: Phase) {
    match p
    case Idle => true
    case Leased(c, n, _) =>
      && AuthorizedAt(events, c.authSequence, c.capabilityId)
      && !Consumed(events, c.authSequence)
      && n == 1 + Tally(events, StartsOf(c.capabilityId))
    case Running(c, n, _) =>
      && !HasFinish(events, c.authSequence)
      && exists i :: LatestStart(events, i, c.authSequence, c.capabilityId, n)
    case Judged(_, _) => true
  }

  predicate EventInScope(e: Event, scopes: seq<string>) {
    e.data.CommandAuthorized? ==> forall p :: p in e.data.auth.writePaths ==> InScope(p, scopes)
  }

  /** Every write path ever authorized is inside these scopes. */
  predicate WritesInScope(events: seq<Event>, scopes: seq<string>) {
    forall i :: 0 <= i < |events| ==> EventInScope(events[i], scopes)
  }

  ghost predicate Invariant(s: State) {
    && Loadable(s.record)
    && History(s.record.events)
    && |s.record.revisions| == 1 + Tally(s.record.events, Amendments)
    && PhaseOk(s.record.events, s.phase)
    && WritesInScope(s.record.events, s.record.Current().allowedScope)
  }

  // ---- One step keeps the invariant ----

  /** An appended event that is neither a start, a finish nor an amendment. */
  lemma AppendKeepsPhase(events: seq<Event>, e: Event, p: Phase)
    requires PhaseOk(events, p)
    requires !IsStart(e) && !e.data.CommandFinished?
    ensures PhaseOk(events + [e], p)
  {
    var after := events + [e];
    assert forall i :: 0 <= i < |events| ==> after[i] == events[i];
    if p.Leased? {
      TallyAppend(events, e, StartsOf(p.command.capabilityId));
      assert !Consumed(after, p.command.authSequence);
    } else if p.Running? {
      var i :| LatestStart(events, i, p.command.authSequence, p.command.capabilityId, p.attempt);
      assert LatestStart(after, i, p.command.authSequence, p.command.capabilityId, p.attempt);
      assert !HasFinish(after, p.command.authSequence);
    }
  }

  /** Any store append of a lawful event that leaves the current phase lawful. */
  lemma AppendKeepsInvariant(s: State, data: EventData, at: string, p: Phase)
    requires Invariant(s) && at != "" && !Terminal(s.record.state)
    requires !data.TaskAmended?
    requires EventOk(s.record.events, Event(|s.record.events| + 1, at, data))
    requires PhaseOk(Appended(s.record, data, at).events, p)
    requires EventInScope(Event(|s.record.events| + 1, at, data), s.record.Current().allowedScope)
    ensures Invariant(State(Appended(s.record, data, at), p))
    ensures Grows(s.record, Appended(s.record, data, at))
  {
    AppendedIsLoadable(s.record, data, at);
    var e := Event(|s.record.events| + 1, at, data);
    HistoryAppend(s.record.events, e);
    TallyAppend(s.record.events, e, Amendments);
  }

  lemma DecisionIsLawful(r: Record, w: World, a: Action)
    requires a.Authorize? && w.Valid() && r.revisions != []
    requires Decide(r, w.caps, w.policy, a.capabilityId, a.approvals, a.snapshot, a.time, a.cwd).Ok?
    ensures var fact := Decide(r, w.caps, w.policy, a.capabilityId, a.approvals, a.snapshot, a.time, a.cwd).value;
      && fact.revision == r.Current().revision
      && fact.capabilityId == a.capabilityId
      && (HighRisk(fact) ==> fact.approvalId.Some?)
      && forall p :: p in fact.writePaths ==> InScope(p, r.Current().allowedScope)
  {
  }

  lemma AuthorizeKeeps(s: State, step: Step)
    requires step.world.Valid() && Invariant(s) && step.at != "" && step.action.Authorize?
    ensures Invariant(Next(s, step)) && Grows(s.record, Next(s, step).record)
  {
    var r, a := s.record, step.action;
    var d := Decide(r, step.world.caps, step.world.policy, a.capabilityId, a.approvals, a.snapshot, a.time, a.cwd);
    if d.Ok? && !Terminal(r.state) {
      DecisionIsLawful(r, step.world, a);
      AppendedIsLoadable(r, CommandAuthorized(d.value), step.at);
      var e := Event(|r.events| + 1, step.at, CommandAuthorized(d.value));
      AppendKeepsPhase(r.events, e, s.phase);
      AppendKeepsInvariant(s, CommandAuthorized(d.value), step.at, s.phase);
    }
  }

  lemma StartKeeps(s: State, step: Step)
    requires Invariant(s) && step.at != "" && step.action.Start?
    ensures Invariant(Next(s, step)) && Grows(s.record, Next(s, step).record)
  {
    if s.phase.Leased? && !Terminal(s.record.state) {
      var c := s.phase.command;
      var data := CommandStarted(c.authSequence, c.capabilityId, s.phase.attempt);
      var e := Event(|s.record.events| + 1, step.at, data);
      var after := s.record.events + [e];
      AppendedIsLoadable(s.record, data, step.at);
      assert !HasFinish(after, c.authSequence) by {
        if HasFinish(s.record.events, c.authSequence) {
          FinishImpliesConsumed(s.record.events, c.authSequence);
        }
      }
      assert LatestStart(after, |s.record.events|, c.authSequence, c.capabilityId, s.phase.attempt);
      AppendKeepsInvariant(s, data, step.at, Running(c, s.phase.attempt, s.phase.sandbox));
    }
  }

  /** A finished authorization was started, so an unconsumed one has no finish. */
  lemma FinishImpliesConsumed(events: seq<Event>, sequence: int)
    requires History(events) && HasFinish(events, sequence)
    ensures Consumed(events, sequence)
  {
    var j :| 0 <= j < |events| && events[j].data.CommandFinished? && events[j].data.finish.authSequence == sequence;
    HistoryAt(events, j);
    var f := events[j].data.finish;
    var i :| LatestStart(events[..j], i, f.authSequence, f.capabilityId, f.attempt);
    assert events[i] == events[..j][i];
  }

  lemma EndKeeps(s: State, step: Step)
    requires Invariant(s) && step.at != "" && step.action.End?
    ensures Invariant(Next(s, step)) && Grows(s.record, Next(s, step).record)
  {
    if s.phase.Running? && !Terminal(s.record.state) {
      var p, a := s.phase, step.action;
      var f := FinishOf(p.command, p.attempt, p.sandbox, a.result, a.stdoutArtifact, a.stderrArtifact);
      AppendedIsLoadable(s.record, CommandFinished(f), step.at);
      AppendKeepsInvariant(s, CommandFinished(f), step.at, Idle);
    }
  }

  lemma WiderScopeKeepsWrites(events: seq<Event>, narrow: seq<string>, wide: seq<string>)
    requires WritesInScope(events, narrow) && Elements(narrow) <= Elements(wide)
    ensures WritesInScope(events, wide)
  {
    forall i | 0 <= i < |events| ensures EventInScope(events[i], wide) {
      assert EventInScope(events[i], narrow);
      if events[i].data.CommandAuthorized? {
        forall p | p in events[i].data.auth.writePaths ensures InScope(p, wide) {
          ScopeIsMonotone(p, narrow, wide);
        }
      }
    }
  }

  lemma AmendKeeps(s: State, step: Step)
    requires Invariant(s) && step.at != "" && step.action.Amend?
    ensures Invariant(Next(s, step)) && Grows(s.record, Next(s, step).record)
  {
    hide AmendEnvelope, PhaseOk, Envelope.Valid, Loadable, InScope;
    var r, c := s.record, step.action.changes;
    AmendedIsLoadable(r, c, step.at);
    var written := AmendRecord(r, c, step.at);
    if written.Ok? {
      var amended := AmendEnvelope(r.Current(), c).value;
      AmendmentIsMonotone(r.Current(), c);
      var e := Event(|r.events| + 1, step.at, TaskAmended(amended.revision));
      HistoryAppend(r.events, e);
      TallyAppend(r.events, e, Amendments);
      AppendKeepsPhase(r.events, e, s.phase);
      WiderScopeKeepsWrites(r.events, r.Current().allowedScope, amended.allowedScope);
    }
  }

  lemma QuietAppendKeeps(s: State, data: EventData, at: string)
    requires Invariant(s) && at != ""
    requires data.TaskCancelled? || data.TaskFinalized? || data.ApprovalGranted? || data.ModuleActivation?
    requires !Terminal(s.record.state)
    ensures Invariant(s.(record := Appended(s.record, data, at)))
    ensures Grows(s.record, Appended(s.record, data, at))
  {
    var e := Event(|s.record.events| + 1, at, data);
    AppendKeepsPhase(s.record.events, e, s.phase);
    AppendKeepsInvariant(s, data, at, s.phase);
  }

  lemma ClosingKeeps(s: State, data: EventData, at: string, closed: TaskState)
    requires Invariant(s) && at != "" && !Terminal(s.record.state)
    requires data.TaskCancelled? || data.TaskFinalized?
    ensures Invariant(s.(record := Appended(s.record, data, at).(state := closed)))
    ensures Grows(s.record, Appended(s.record, data, at).(state := closed))
  {
    hide History, PhaseOk, WritesInScope, Envelope.Valid, Extends, SameImmutableFields, Tally;
    QuietAppendKeeps(s, data, at);
  }

  lemma FinalizeKeeps(s: State, outcome: Outcome, v: Verification, at: string)
    requires Invariant(s) && at != "" && !outcome.OutcomeRejected?
    ensures var kept := Kept(s.record, FinalizeRecord(s.record, StateFor(outcome), v, at));
      Invariant(s.(record := kept)) && Grows(s.record, kept)
  {
    FinalizedIsLoadable(s.record, StateFor(outcome), v, at);
    if !Terminal(s.record.state) {
      ClosingKeeps(s, TaskFinalized(StateFor(outcome), v), at, StateFor(outcome));
    }
  }

  lemma CloseKeeps(s: State, report: Report, at: string)
    requires Invariant(s) && at != ""
    ensures var closed := CloseRecord(s.record, report, at);
      Invariant(State(closed, Idle)) && Grows(s.record, closed)
  {
    if !report.outcome.OutcomeRejected? {
      FinalizeKeeps(s, report.outcome, VerificationOf(report), at);
    }
  }

  lemma CancelKeeps(s: State, reason: string, at: string)
    requires Invariant(s) && at != ""
    ensures var kept := Kept(s.record, CancelRecord(s.record, reason, at));
      Invariant(s.(record := kept)) && Grows(s.record, kept)
  {
    CancelledIsLoadable(s.record, reason, at);
    if !Terminal(s.record.state) {
      ClosingKeeps(s, TaskCancelled(reason), at, Abandoned);
    }
  }

  lemma NoteKeeps(s: State, data: EventData, at: string)
    requires Invariant(s) && at != ""
    requires data.ApprovalGranted? || data.ModuleActivation?
    ensures var kept := Kept(s.record, AppendRecord(s.record, data, at));
      Invariant(s.(record := kept)) && Grows(s.record, kept)
  {
    AppendedIsLoadable(s.record, data, at);
    if !Terminal(s.record.state) {
      QuietAppendKeeps(s, data, at);
    }
  }

  predicate OnCommands(a: Action) {
    a.Authorize? || a.Lease? || a.Start? || a.End? || a.Crash?
  }

  lemma CommandStepKeeps(s: State, step: Step)
    requires step.world.Valid() && Invariant(s) && step.at != "" && OnCommands(step.action)
    ensures Invariant(Next(s, step)) && Grows(s.record, Next(s, step).record)
  {
    if step.action.Authorize? { AuthorizeKeeps(s, step); }
    else if step.action.Lease? { LeaseKeeps(s, step); }
    else if step.action.Start? { StartKeeps(s, step); }
    else if step.action.End? { EndKeeps(s, step); }
  }

  /** A record step either changes nothing or writes what one store operation returned. */
  lemma RecordStepCases(s: State, step: Step)
    requires s.record.revisions != [] && !OnCommands(step.action) && !step.action.Amend?
    ensures var r, a, n := s.record, step.action, Next(s, step);
      || n == s
      || (a.CancelTask? && n == s.(record := Kept(r, CancelRecord(r, a.cancelReason, step.at))))
      || (a.Approve? && n == s.(record := Kept(r, AppendRecord(r, ApprovalGranted(a.approval), step.at))))
      || (a.Activate?
          && n == s.(record := Kept(r, AppendRecord(r, ModuleActivation(a.moduleId, a.moduleState), step.at))))
      || (a.Judge? && s.phase.Idle? && n == s.(phase := Judged(r, a.report)))
      || (a.Close? && s.phase.Judged? && n == State(CloseRecord(r, s.phase.report, step.at), Idle))
  {
  }

  lemma RecordStepKeeps(s: State, step: Step)
    requires Invariant(s) && step.at != "" && !OnCommands(step.action) && !step.action.Amend?
    ensures Invariant(Next(s, step)) && Grows(s.record, Next(s, step).record)
  {
    RecordStepCases(s, step);
    var a := step.action;
    match a {
      case CancelTask(reason) => CancelKeeps(s, reason, step.at);
      case Approve(g, _) => NoteKeeps(s, ApprovalGranted(g), step.at);
      case Activate(id, state) => NoteKeeps(s, ModuleActivation(id, state), step.at);
      case Judge(_, _, _, _) =>
      case Close => if s.phase.Judged? { CloseKeeps(s, s.phase.report, step.at); }
    }
  }

  /** Every component step, accepted or refused, keeps the invariant and only extends the record. */
  lemma NextKeeps(s: State, step: Step)
    requires step.world.Valid() && Invariant(s) && step.at != ""
    ensures Invariant(Next(s, step)) && Grows(s.record, Next(s, step).record)
  {
    if OnCommands(step.action) { CommandStepKeeps(s, step); }
    else if step.action.Amend? { AmendKeeps(s, step); }
    else { RecordStepKeeps(s, step); }
  }

  lemma LeaseKeeps(s: State, step: Step)
    requires Invariant(s) && step.action.Lease?
    ensures Invariant(Next(s, step)) && Next(s, step).record == s.record
  {
  }

  // ---- Whole runs ----

  function Run(s: State, steps: seq<Step>): (end: State)
    requires s.record.revisions != []
    ensures end.record.revisions != []
    decreases |steps|
  {
    if steps == [] then s
    else
      var before := Run(s, steps[..|steps| - 1]);
      NextKeepsRevisions(before, steps[|steps| - 1]);
      Next(before, steps[|steps| - 1])
  }

  lemma NextKeepsRevisions(s: State, step: Step)
    requires s.record.revisions != []
    ensures Next(s, step).record.revisions != []
  {
  }

  /** A report is the Verifier's own evaluation of the record it has loaded. */
  ghost predicate LegalStep(s: State, step: Step)
    requires s.record.revisions != []
  {
    && step.at != "" && step.world.Valid()
    && (step.action.Judge? ==>
      step.action.report == Evaluate(s.record, step.action.probe, step.action.acceptRisk, step.action.reason))
  }

  ghost predicate LegalRun(s: State, steps: seq<Step>)
    requires s.record.revisions != []
    decreases |steps|
  {
    steps != [] ==>
      var n := |steps| - 1;
      LegalRun(s, steps[..n]) && LegalStep(Run(s, steps[..n]), steps[n])
  }

  /** The state a newly created record starts in. */
  predicate Initial(s: State) {
    && s.phase.Idle?
    && |s.record.revisions| == 1
    && s.record.revisions[0].Valid() && s.record.revisions[0].revision == 1
    && s.record.events != [] && s.record.events[0].occurredAt != ""
    && CreateRecord(s.record.revisions[0], s.record.events[0].occurredAt) == Ok(s.record)
  }

  lemma InitialRecord(s: State)
    requires Initial(s)
    ensures Loadable(s.record) && s.record.revisions != []
    ensures s.record.events == [Event(1, s.record.events[0].occurredAt, TaskCreated)]
  {
    hide Envelope.Valid, WellFormed;
    CreatedIsLoadable(s.record.revisions[0], s.record.events[0].occurredAt);
  }

  lemma FirstEvent(at: string)
    ensures var events := [Event(1, at, TaskCreated)]; History(events) && Tally(events, Amendments) == 0
  {
    var e := Event(1, at, TaskCreated);
    HistoryAppend([], e);
    TallyAppend([], e, Amendments);
    assert [] + [e] == [e];
  }

  lemma InitialInvariant(s: State)
    requires Initial(s)
    ensures Invariant(s)
  {
    InitialRecord(s);
    FirstEvent(s.record.events[0].occurredAt);
    hide Loadable, History, CreateRecord, Envelope.Valid;
  }

  /** In every interleaving of component steps and crashes the invariant holds and history only grows. */
  lemma {:induction false} RunKeeps(s: State, steps: seq<Step>)
    requires Invariant(s) && LegalRun(s, steps)
    ensures Invariant(Run(s, steps)) && Grows(s.record, Run(s, steps).record)
    decreases |steps|
  {
    if steps != [] {
      var n := |steps| - 1;
      RunKeeps(s, steps[..n]);
      NextKeeps(Run(s, steps[..n]), steps[n]);
      GrowsTransitive(s.record, Run(s, steps[..n]).record, Run(s, steps).record);
    }
  }
}
