/** What every run keeps of a record, and what it takes the service's lock to keep. */
module Histories {
  import opened Prelude
  import opened TaskModel
  import opened Records
  import opened Gateway
  import opened Execution
  import opened Verifier
  import opened Kernel
  import opened Completion
  import opened Service

  // ---- Boundaries, histories and terminal states ----

  /** Every write path ever authorized is inside the scope of the envelope current at the end. */
  lemma AuthorizedWritesStayInScope(s: State, steps: seq<Step>, i: nat, path: string)
    requires Initial(s) && LegalRun(s, steps)
    requires var ev := Run(s, steps).record.events;
      i < |ev| && ev[i].data.CommandAuthorized? && path in ev[i].data.auth.writePaths
    ensures InScope(path, Run(s, steps).record.Current().allowedScope)
  {
    InitialInvariant(s);
    RunKeeps(s, steps);
    hide Run, LegalRun, InScope, Loadable, History, PhaseOk;
    assert EventInScope(Run(s, steps).record.events[i], Run(s, steps).record.Current().allowedScope);
  }

  /** A later record extends an earlier one, and so do its acceptances, capabilities and scope. */
  lemma BoundariesOnlyGrow(s: State, steps: seq<Step>, more: seq<Step>)
    requires Initial(s) && LegalRun(s, steps) && LegalRun(Run(s, steps), more)
    ensures var earlier, later := Run(s, steps).record, Run(Run(s, steps), more).record;
      && Grows(earlier, later) && Extends(earlier.Current(), later.Current())
      && (Terminal(earlier.state) ==> later == earlier)
      && Loadable(later)
  {
    hide Extends, Invariant, Grows, Next, LegalStep;
    InitialInvariant(s);
    RunKeeps(s, steps);
    RunKeeps(Run(s, steps), more);
    LaterExtends(Run(s, steps), Run(Run(s, steps), more));
  }

  lemma LaterExtends(earlier: State, later: State)
    requires Invariant(earlier) && Invariant(later) && Grows(earlier.record, later.record)
    ensures Extends(earlier.record.Current(), later.record.Current()) && Loadable(later.record)
    ensures Terminal(earlier.record.state) ==> later.record == earlier.record
  {
    assert Loadable(later.record) && earlier.record.revisions != [];
    hide Extends, History, PhaseOk, WritesInScope, Envelope.Valid, SameImmutableFields, Tally;
    var n := |earlier.record.revisions|;
    RevisionsOnlyExtend(later.record, n - 1, |later.record.revisions| - 1);
    assert later.record.revisions[n - 1] == earlier.record.Current();
  }

  // ---- What is authorized and what is started ----

  /** An event past the end of a lawful history is started by none of its events. */
  lemma FutureIsNotConsumed(events: seq<Event>, sequence: int)
    requires History(events) && sequence > |events|
    ensures !Consumed(events, sequence)
  {
    forall i | 0 <= i < |events| && IsStart(events[i]) ensures events[i].data.authSequence != sequence {
      StartIsAuthorized(events, i);
    }
  }

  predicate UnusedAt(events: seq<Event>, i: int, id: string) {
    0 <= i < |events| && AuthorizedAt(events, i + 1, id) && !Consumed(events, i + 1)
  }

  /** The capability has an authorization nothing has started. */
  predicate HasUnused(events: seq<Event>, id: string) {
    exists i :: 0 <= i < |events| && UnusedAt(events, i, id)
  }

  /** The authorizations of the capability nothing has started. */
  function Unused(events: seq<Event>, id: string): set<int> {
    set i | 0 <= i < |events| && UnusedAt(events, i, id)
  }

  lemma ConsumedBy(events: seq<Event>, e: Event, sequence: int)
    ensures Consumed(events + [e], sequence) <==>
      Consumed(events, sequence) || (IsStart(e) && e.data.authSequence == sequence)
  {
    var after := events + [e];
    assert after[|events|] == e;
    if Consumed(events, sequence) {
      var i :| 0 <= i < |events| && events[i].data.CommandStarted? && events[i].data.authSequence == sequence;
      assert after[i] == events[i];
    }
  }

  /** What one more event leaves unused: what was, but for what it starts, and itself if it authorizes. */
  lemma UnusedAfter(events: seq<Event>, e: Event, id: string, i: int)
    requires History(events)
    ensures UnusedAt(events + [e], i, id) <==>
      || (UnusedAt(events, i, id) && !(IsStart(e) && e.data.authSequence == i + 1))
      || (i == |events| && e.data.CommandAuthorized? && e.data.auth.capabilityId == id)
  {
    ConsumedBy(events, e, i + 1);
    if i == |events| { FutureIsNotConsumed(events, i + 1); }
  }

  predicate Authorizes(e: Event, id: string) {
    e.data.CommandAuthorized? && e.data.auth.capabilityId == id
  }

  predicate Starts(e: Event, id: string) {
    IsStart(e) && e.data.capabilityId == id
  }

  lemma UnusedAfterAuthorization(events: seq<Event>, e: Event, id: string)
    requires History(events) && Authorizes(e, id)
    ensures Unused(events + [e], id) == Unused(events, id) + {|events|}
  {
    hide History, Consumed, AuthorizedAt, UnusedAt;
    forall i ensures i in Unused(events + [e], id) <==> i in Unused(events, id) + {|events|} {
      UnusedAfter(events, e, id, i);
    }
  }

  lemma UnusedAfterStart(events: seq<Event>, e: Event, id: string)
    requires History(events) && EventOk(events, e) && Starts(e, id)
    ensures e.data.authSequence - 1 in Unused(events, id)
    ensures Unused(events + [e], id) == Unused(events, id) - {e.data.authSequence - 1}
  {
    assert UnusedAt(events, e.data.authSequence - 1, id);
    hide History, EventOk, Consumed, AuthorizedAt, UnusedAt;
    forall i ensures i in Unused(events + [e], id) <==> i in Unused(events, id) - {e.data.authSequence - 1} {
      UnusedAfter(events, e, id, i);
    }
  }

  lemma UnusedAfterOther(events: seq<Event>, e: Event, id: string)
    requires History(events) && EventOk(events, e) && !Authorizes(e, id) && !Starts(e, id)
    ensures Unused(events + [e], id) == Unused(events, id)
  {
    assert IsStart(e) ==> !UnusedAt(events, e.data.authSequence - 1, id);
    hide History, EventOk, Consumed, AuthorizedAt, UnusedAt;
    forall i ensures i in Unused(events + [e], id) <==> i in Unused(events, id) {
      UnusedAfter(events, e, id, i);
      if 0 <= i < |events + [e]| && UnusedAt(events, i, id) { UnusedIsWithin(events, i, id); }
    }
  }

  lemma UnusedIsWithin(events: seq<Event>, i: int, id: string)
    requires UnusedAt(events, i, id)
    ensures 0 <= i < |events|
  {
  }

  lemma UnusedCount(events: seq<Event>, e: Event, id: string)
    requires History(events) && EventOk(events, e)
    ensures |Unused(events + [e], id)| ==
      |Unused(events, id)| + (if Authorizes(e, id) then 1 else 0) - (if Starts(e, id) then 1 else 0)
  {
    hide History, EventOk, Unused;
    if Authorizes(e, id) {
      UnusedAfterAuthorization(events, e, id);
      UnusedIsEarlier(events, id);
    } else if Starts(e, id) {
      UnusedAfterStart(events, e, id);
    } else {
      UnusedAfterOther(events, e, id);
    }
  }

  /** Every authorization is started or unused, and none is started twice. */
  lemma {:induction false} AuthorizationsBalance(events: seq<Event>, id: string)
    requires History(events)
    ensures Tally(events, AuthorizationsOf(id)) == Tally(events, StartsOf(id)) + |Unused(events, id)|
    decreases |events|
  {
    if events == [] {
      NothingUnused(id);
    } else {
      var n := |events| - 1;
      var before, e := events[..n], events[n];
      assert History(before) && EventOk(before, e) && events == before + [e];
      hide History, EventOk, Unused, Tally;
      AuthorizationsBalance(before, id);
      UnusedCount(before, e, id);
      TallyAppend(before, e, AuthorizationsOf(id));
      TallyAppend(before, e, StartsOf(id));
    }
  }

  lemma NothingUnused(id: string)
    ensures Unused([], id) == {} && Tally([], AuthorizationsOf(id)) == Tally([], StartsOf(id)) == 0
  {
  }

  lemma UnusedIsEarlier(events: seq<Event>, id: string)
    ensures |events| !in Unused(events, id)
  {
  }

  /** At most one event is written, and an authorization only by the Gateway. */
  ghost predicate WritesOne(s: State, step: Step, after: Record)
    requires s.record.revisions != []
  {
    var events := s.record.events;
    after.events == events ||
    (&& |after.events| == |events| + 1 && after.events[..|events|] == events
     && (after.events[|events|].data.CommandAuthorized? ==>
         GrantedFor(s.record, step, after.events[|events|].data.auth)))
  }

  /** The Gateway granted what the step asks for: executions and retries were left. */
  predicate GrantedFor(r: Record, step: Step, a: Authorization)
    requires r.revisions != []
  {
    && step.action.Authorize? && a.capabilityId == step.action.capabilityId && a.capabilityId in step.world.caps
    && Tally(r.events, AuthorizationsOf(a.capabilityId)) < step.world.caps[a.capabilityId].maxExecutions
    && Tally(r.events, StartsOf(a.capabilityId)) <= r.Current().retryBudget
  }

  lemma AppendWritesOne(s: State, step: Step, data: EventData)
    requires s.record.revisions != [] && !data.CommandAuthorized?
    ensures WritesOne(s, step, Kept(s.record, AppendRecord(s.record, data, step.at)))
  {
    hide WellFormed, Tally;
  }

  lemma AmendWritesOne(s: State, step: Step, c: Changes)
    requires s.record.revisions != []
    ensures WritesOne(s, step, Kept(s.record, AmendRecord(s.record, c, step.at)))
  {
    hide AmendEnvelope, WellFormed, Tally;
  }

  lemma CancelWritesOne(s: State, step: Step, reason: string)
    requires s.record.revisions != []
    ensures WritesOne(s, step, Kept(s.record, CancelRecord(s.record, reason, step.at)))
  {
    hide IsBlank, WellFormed, Tally;
  }

  lemma CloseWritesOne(s: State, step: Step, report: Report)
    requires s.record.revisions != []
    ensures WritesOne(s, step, CloseRecord(s.record, report, step.at))
  {
    hide VerificationOf, WellFormed, Tally;
  }

  lemma AuthorizeWritesOne(s: State, step: Step)
    requires step.world.Valid() && s.record.revisions != [] && step.action.Authorize?
    ensures WritesOne(s, step, AuthorizeRecord(step.world, s.record, step.action, step.at))
  {
    var r, a := s.record, step.action;
    if AuthorizeRecord(step.world, r, a, step.at) != r {
      AuthorizedEndsInAuthorization(step.world, r, a, step.at);
      DecisionMeaning(r, step.world.caps, step.world.policy, a.capabilityId, a.approvals, a.snapshot, a.time, a.cwd);
      DecisionIsLawful(r, step.world, a);
      hide Decide, AuthorizeRecord, Tally, ApprovalFits, InScope;
    }
  }

  lemma StepWritesOne(s: State, step: Step)
    requires step.world.Valid() && s.record.revisions != []
    ensures WritesOne(s, step, Next(s, step).record)
  {
    match step.action {
      case Authorize(_, _, _, _, _) => AuthorizeWritesOne(s, step);
      case Start =>
        if s.phase.Leased? {
          var p := s.phase;
          AppendWritesOne(s, step, CommandStarted(p.command.authSequence, p.command.capabilityId, p.attempt));
        }
      case End(result, out, err) =>
        if s.phase.Running? {
          var p := s.phase;
          AppendWritesOne(s, step, CommandFinished(FinishOf(p.command, p.attempt, p.sandbox, result, out, err)));
        }
      case Amend(c) => AmendWritesOne(s, step, c);
      case CancelTask(reason) => CancelWritesOne(s, step, reason);
      case Approve(g, _) => AppendWritesOne(s, step, ApprovalGranted(g));
      case Activate(id, state) => AppendWritesOne(s, step, ModuleActivation(id, state));
      case Close => if s.phase.Judged? { CloseWritesOne(s, step, s.phase.report); }
      case _ =>
    }
    hide AuthorizeRecord, AmendRecord, CancelRecord, AppendRecord, GrantAccepted, CloseRecord,
      FinishOf, Validate, Tally;
  }

  /** A step writes at most one authorization of the capability, when it asks for it and the Gateway grants it. */
  lemma AuthorizesAtMostOne(s: State, step: Step, id: string)
    requires step.world.Valid() && s.record.revisions != []
    ensures var before, after := Tally(s.record.events, AuthorizationsOf(id)),
      Tally(Next(s, step).record.events, AuthorizationsOf(id));
      && before <= after <= before + 1
      && (after != before ==>
            && step.action.Authorize? && step.action.capabilityId == id && id in step.world.caps
            && before < step.world.caps[id].maxExecutions
            && Tally(s.record.events, StartsOf(id)) <= s.record.Current().retryBudget)
  {
    var events, after := s.record.events, Next(s, step).record.events;
    hide Next, Tally, World.Valid;
    StepWritesOne(s, step);
    if after != events {
      assert after == after[..|events|] + [after[|events|]];
      TallyAppend(events, after[|events|], AuthorizationsOf(id));
    }
  }

  // ---- Exactly when the starts of a capability stay within a limit ----

  predicate NeverAuthorizes(steps: seq<Step>, id: string) {
    forall i :: 0 <= i < |steps| ==> !(steps[i].action.Authorize? && steps[i].action.capabilityId == id)
  }

  /** Without a further request the authorizations stay as they are. */
  lemma {:induction false} AuthorizationsStay(s: State, steps: seq<Step>, id: string)
    requires Invariant(s) && LegalRun(s, steps) && NeverAuthorizes(steps, id)
    ensures Tally(Run(s, steps).record.events, AuthorizationsOf(id)) == Tally(s.record.events, AuthorizationsOf(id))
    decreases |steps|
  {
    if steps != [] {
      var n := |steps| - 1;
      var before := Run(s, steps[..n]);
      AuthorizationsStay(s, steps[..n], id);
      assert steps[n].world.Valid() && Run(s, steps) == Next(before, steps[n]);
      hide Run, LegalRun, Next, Tally, Invariant, World.Valid;
      AuthorizesAtMostOne(before, steps[n], id);
    }
  }

  const NOTHING_DECLARED := World(map[], DEFAULT_POLICY)

  /** Lease, start and lose one issued command. */
  function StartAndCrash(c: AuthorizedCommand, snapshot: Snapshot, at: string): seq<Step> {
    ExecuteSteps(NOTHING_DECLARED, c, snapshot, DiesWhileRunning, at)
  }

  /** An unstarted command whose authorization is on record passes the Executor's checks. */
  lemma IssuedPasses(r: Record, i: nat, snapshot: Snapshot)
    requires Loadable(r) && History(r.events) && SameWorkspace(r.Current(), snapshot)
    requires i < |r.events| && r.events[i].data.CommandAuthorized? && !Consumed(r.events, i + 1)
    ensures Validate(r, CommandFor(r.taskId, r.events[i].data.auth, i + 1), snapshot).None?
  {
  }

  lemma StartAndCrashEffect(r: Record, c: AuthorizedCommand, snapshot: Snapshot, at: string)
    requires r.revisions != [] && at != "" && !Terminal(r.state) && Validate(r, c, snapshot).None?
    requires Loadable(r)
    ensures var steps, n := StartAndCrash(c, snapshot, at), NextAttempt(r, c.capabilityId);
      && LegalRun(State(r, Idle), steps)
      && Run(State(r, Idle), steps) ==
         State(Appended(r, CommandStarted(c.authSequence, c.capabilityId, n), at), Idle)
  {
    var data := CommandStarted(c.authSequence, c.capabilityId, NextAttempt(r, c.capabilityId));
    AppendedIsLoadable(r, data, at);
    assert NOTHING_DECLARED.Valid();
    hide Run, LegalRun, Validate, NextAttempt, Loadable, WellFormed, ExecuteSteps, ExecutedEvents;
    ExecuteEffect(NOTHING_DECLARED, r, c, snapshot, DiesWhileRunning, at);
    ExecuteStepsWrite(NOTHING_DECLARED, r, c, snapshot, DiesWhileRunning, at);
  }

  function WorkspaceOf(e: Envelope): Snapshot { Snapshot(e.repositoryId, e.baseSha, e.worktreePath) }

  function IssuedAt(r: Record, i: nat): AuthorizedCommand
    requires i < |r.events| && r.events[i].data.CommandAuthorized?
  {
    CommandFor(r.taskId, r.events[i].data.auth, i + 1)
  }

  lemma StartsIssued(r: Record, i: nat, id: string, at: string)
    requires i < |r.events| && Authorizes(r.events[i], id)
    ensures var c := IssuedAt(r, i); var data :=
      CommandStarted(c.authSequence, c.capabilityId, NextAttempt(r, c.capabilityId));
      && c.capabilityId == id && c.authSequence == i + 1
      && Appended(r, data, at).events == r.events + [Event(|r.events| + 1, at, data)]
      && Appended(r, data, at).state == r.state && Appended(r, data, at).revisions == r.revisions
      && Starts(Event(|r.events| + 1, at, data), id)
  {
    hide NextAttempt;
  }

  /** One unused authorization starts, and is unused no more. */
  lemma StartOneUnused(r: Record, id: string, i: nat, at: string) returns (steps: seq<Step>)
    requires Invariant(State(r, Idle)) && !Terminal(r.state) && at != "" && i in Unused(r.events, id)
    ensures LegalRun(State(r, Idle), steps) && NeverAuthorizes(steps, id)
    ensures var end := Run(State(r, Idle), steps);
      && end.phase.Idle? && !Terminal(end.record.state) && Invariant(end) && end.record.revisions == r.revisions
      && Unused(end.record.events, id) == Unused(r.events, id) - {i}
  {
    hide *;
    OfUnused(r, id, i);
    var c := IssuedAt(r, i);
    StartsIssued(r, i, id, at);
    steps := StartAndCrash(c, WorkspaceOf(r.Current()), at);
    PassesInWorkspace(r, i);
    var data := CommandStarted(c.authSequence, c.capabilityId, NextAttempt(r, c.capabilityId));
    StartAndCrashEffect(r, c, WorkspaceOf(r.Current()), at);
    RunKeeps(State(r, Idle), steps);
    AppendedHistory(r, data, at);
    UnusedAfterStart(r.events, Event(|r.events| + 1, at, data), id);
    StartsOnly(c, WorkspaceOf(r.Current()), at, id);
  }

  lemma StartsOnly(c: AuthorizedCommand, snapshot: Snapshot, at: string, id: string)
    ensures NeverAuthorizes(StartAndCrash(c, snapshot, at), id)
  {
  }

  lemma PassesInWorkspace(r: Record, i: nat)
    requires r.revisions != [] && Loadable(r) && History(r.events)
    requires i < |r.events| && r.events[i].data.CommandAuthorized? && !Consumed(r.events, i + 1)
    ensures Validate(r, IssuedAt(r, i), WorkspaceOf(r.Current())).None?
  {
    hide Loadable, History, Consumed, Validate;
    IssuedPasses(r, i, WorkspaceOf(r.Current()));
  }

  lemma OfUnused(r: Record, id: string, i: int)
    requires Invariant(State(r, Idle)) && i in Unused(r.events, id)
    ensures r.revisions != [] && Loadable(r) && History(r.events)
    ensures 0 <= i < |r.events| && Authorizes(r.events[i], id) && r.events[i].data.CommandAuthorized?
    ensures !Consumed(r.events, i + 1)
  {
  }

  lemma AppendedHistory(r: Record, data: EventData, at: string)
    requires Invariant(State(Appended(r, data, at), Idle))
    ensures EventOk(r.events, Event(|r.events| + 1, at, data))
  {
    var after := Appended(r, data, at).events;
    assert after[..|r.events|] == r.events;
    HistoryAt(after, |r.events|);
  }

  /** All that is authorized can start, one after the other. */
  lemma {:induction false} StartEveryUnused(r: Record, id: string, at: string) returns (steps: seq<Step>)
    requires Invariant(State(r, Idle)) && !Terminal(r.state) && at != ""
    ensures LegalRun(State(r, Idle), steps) && NeverAuthorizes(steps, id)
    ensures Run(State(r, Idle), steps).record.revisions == r.revisions
    ensures Tally(Run(State(r, Idle), steps).record.events, StartsOf(id)) == Tally(r.events, AuthorizationsOf(id))
    decreases |Unused(r.events, id)|
  {
    var s := State(r, Idle);
    assert r.revisions != [] && History(r.events) && Run(s, []) == s && LegalRun(s, []);
    hide *;
    if Unused(r.events, id) == {} {
      steps := [];
      NeverInNone(id);
      AuthorizationsBalance(r.events, id);
    } else {
      var i: int :| i in Unused(r.events, id);
      OfUnused(r, id, i);
      var one := StartOneUnused(r, id, i, at);
      var r1 := Run(s, one).record;
      AuthorizationsStay(s, one, id);
      var rest := StartEveryUnused(r1, id, at);
      RunConcat(s, one, rest);
      NeverInEither(one, rest, id);
      steps := one + rest;
    }
  }

  lemma NeverInNone(id: string)
    ensures NeverAuthorizes([], id)
  {
  }

  lemma NeverInEither(a: seq<Step>, b: seq<Step>, id: string)
    requires NeverAuthorizes(a, id) && NeverAuthorizes(b, id)
    ensures NeverAuthorizes(a + b, id)
  {
  }

  lemma StartsWithinAuthorizations(s: State, steps: seq<Step>, id: string)
    requires Invariant(s) && LegalRun(s, steps)
    ensures var events := Run(s, steps).record.events;
      Tally(events, StartsOf(id)) <= Tally(events, AuthorizationsOf(id))
  {
    assert s.record.revisions != [];
    RunKeeps(s, steps);
    assert History(Run(s, steps).record.events);
    hide Run, LegalRun, History, Tally, Unused;
    AuthorizationsBalance(Run(s, steps).record.events, id);
  }

  /** Every run without a further request keeps the starts of the capability within the limit. */
  ghost predicate StaysWithin(s: State, id: string, limit: int)
    requires s.record.revisions != []
  {
    forall steps :: LegalRun(s, steps) && NeverAuthorizes(steps, id) ==>
      Tally(Run(s, steps).record.events, StartsOf(id)) <= limit
  }

  /** Between components the starts of a capability stay within a limit exactly when its authorizations do. */
  lemma StartsStayWithinExactly(s: State, id: string, limit: int)
    requires Invariant(s) && s.phase.Idle? && !Terminal(s.record.state)
    ensures StaysWithin(s, id, limit) <==> Tally(s.record.events, AuthorizationsOf(id)) <= limit
  {
    assert s.record.revisions != [];
    var all := StartEveryUnused(s.record, id, "now");
    assert s == State(s.record, Idle);
    forall steps | LegalRun(s, steps) && NeverAuthorizes(steps, id)
      ensures Tally(Run(s, steps).record.events, StartsOf(id)) <= Tally(s.record.events, AuthorizationsOf(id))
    {
      AuthorizationsStay(s, steps, id);
      StartsWithinAuthorizations(s, steps, id);
    }
    hide Run, LegalRun, Tally, Invariant;
  }

  /** No declaration of the run allows more executions of the capability than this. */
  predicate ExecutionsWithin(steps: seq<Step>, id: string, most: nat) {
    forall i :: 0 <= i < |steps| && id in steps[i].world.caps ==> steps[i].world.caps[id].maxExecutions <= most
  }

  /** In every run the declared executions of a capability bound its authorizations, and so its starts; when they are
      no more than the retries and one, that limit holds between components too. */
  lemma {:induction false} ExecutionsBoundStarts(s: State, steps: seq<Step>, id: string, most: nat)
    requires Initial(s) && s.record.revisions != [] && LegalRun(s, steps) && ExecutionsWithin(steps, id, most)
    ensures var r := Run(s, steps).record;
      && Tally(r.events, AuthorizationsOf(id)) <= most
      && Tally(r.events, StartsOf(id)) <= most
      && (most <= r.Current().retryBudget + 1 ==> Tally(r.events, StartsOf(id)) <= r.Current().retryBudget + 1)
    decreases |steps|
  {
    InitialInvariant(s);
    StartsWithinAuthorizations(s, steps, id);
    if steps == [] {
      FirstTally(s, id);
    } else {
      var n := |steps| - 1;
      ExecutionsBoundStarts(s, steps[..n], id, most);
      assert LegalStep(Run(s, steps[..n]), steps[n]) && Run(s, steps) == Next(Run(s, steps[..n]), steps[n]);
      hide Run, LegalRun, Next, Tally, Invariant, Initial;
      ExecutionsStep(Run(s, steps[..n]), steps[n], id, most);
    }
  }

  lemma ExecutionsStep(s: State, step: Step, id: string, most: nat)
    requires s.record.revisions != [] && LegalStep(s, step)
    requires id in step.world.caps ==> step.world.caps[id].maxExecutions <= most
    requires Tally(s.record.events, AuthorizationsOf(id)) <= most
    ensures Tally(Next(s, step).record.events, AuthorizationsOf(id)) <= most
  {
    assert step.world.Valid();
    hide *;
    AuthorizesAtMostOne(s, step, id);
  }

  lemma FirstTally(s: State, id: string)
    requires Initial(s)
    ensures Tally(s.record.events, AuthorizationsOf(id)) == 0
  {
    InitialRecord(s);
    assert s.record.events[..0] == [];
    hide Initial;
  }

  // ---- A condition on the requests ----

  /** A component asks for the capability only while no earlier authorization of it is unused. */
  ghost predicate Careful(s: State, steps: seq<Step>, id: string)
    requires s.record.revisions != []
    decreases |steps|
  {
    steps != [] ==>
      var n := |steps| - 1;
      && Careful(s, steps[..n], id)
      && (steps[n].action.Authorize? && steps[n].action.capabilityId == id ==>
            Unused(Run(s, steps[..n]).record.events, id) == {})
  }

  /** No envelope of the run allows more than this many retries. */
  ghost predicate RetriesWithin(s: State, steps: seq<Step>, budget: int)
    requires s.record.revisions != []
    decreases |steps|
  {
    && Run(s, steps).record.Current().retryBudget <= budget
    && (steps != [] ==> RetriesWithin(s, steps[..|steps| - 1], budget))
  }

  /** A request made over no unused authorization is only granted within the retries. */
  lemma CarefulStep(s: State, step: Step, id: string, budget: int)
    requires Invariant(s) && LegalStep(s, step) && s.record.Current().retryBudget <= budget
    requires Tally(s.record.events, AuthorizationsOf(id)) <= budget + 1
    requires step.action.Authorize? && step.action.capabilityId == id ==> Unused(s.record.events, id) == {}
    ensures Tally(Next(s, step).record.events, AuthorizationsOf(id)) <= budget + 1
  {
    assert s.record.revisions != [] && History(s.record.events) && step.world.Valid();
    hide *;
    AuthorizesAtMostOne(s, step, id);
    AuthorizationsBalance(s.record.events, id);
  }

  /** In every interleaving of such requests the starts stay within the most retries any envelope of the run allows. */
  lemma {:induction false} CarefulRunsStayWithinRetries(s: State, steps: seq<Step>, id: string, budget: int)
    requires Initial(s) && s.record.revisions != [] && LegalRun(s, steps)
    requires Careful(s, steps, id) && RetriesWithin(s, steps, budget)
    ensures Tally(Run(s, steps).record.events, AuthorizationsOf(id)) <= budget + 1
    ensures Tally(Run(s, steps).record.events, StartsOf(id)) <= budget + 1
    decreases |steps|
  {
    InitialInvariant(s);
    StartsWithinAuthorizations(s, steps, id);
    if steps == [] {
      InitialBudget(s, budget);
      FirstTally(s, id);
    } else {
      var n := |steps| - 1;
      RunKeeps(s, steps[..n]);
      RetriesNow(s, steps[..n], budget);
      CarefulRunsStayWithinRetries(s, steps[..n], id, budget);
      CarefulStep(Run(s, steps[..n]), steps[n], id, budget);
    }
  }

  lemma RetriesNow(s: State, steps: seq<Step>, budget: int)
    requires s.record.revisions != [] && RetriesWithin(s, steps, budget)
    ensures Run(s, steps).record.Current().retryBudget <= budget
  {
  }

  lemma InitialBudget(s: State, budget: int)
    requires Initial(s) && s.record.revisions != [] && RetriesWithin(s, [], budget)
    ensures 0 <= budget
  {
    assert Run(s, []) == s;
  }
}
