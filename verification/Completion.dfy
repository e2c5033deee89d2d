/** What holds of every history the component steps produce, and of every completed task. */
module Completion {
  import opened Prelude
  import opened TaskModel
  import opened Records
  import opened Gateway
  import opened Execution
  import opened Verifier
  import opened GateProof
  import opened Kernel

  // ---- Each authorization is used once, in order ----

  lemma StartedOnce(events: seq<Event>, i: nat, j: nat)
    requires History(events) && i < j < |events| && IsStart(events[i]) && IsStart(events[j])
    ensures events[i].data.authSequence != events[j].data.authSequence
  {
    HistoryAt(events, j);
    assert events[..j][i] == events[i];
  }

  lemma FinishedOnce(events: seq<Event>, i: nat, j: nat)
    requires History(events) && i < j < |events| && events[i].data.CommandFinished? && events[j].data.CommandFinished?
    ensures events[i].data.finish.authSequence != events[j].data.finish.authSequence
  {
    HistoryAt(events, j);
    assert events[..j][i] == events[i];
  }

  /** A start follows an authorization of its capability. */
  lemma StartIsAuthorized(events: seq<Event>, i: nat)
    requires History(events) && i < |events| && IsStart(events[i])
    ensures 1 <= events[i].data.authSequence <= i
    ensures AuthorizedAt(events, events[i].data.authSequence, events[i].data.capabilityId)
  {
    HistoryAt(events, i);
  }

  predicate StartOfSequence(e: Event, authSequence: int) {
    IsStart(e) && e.data.authSequence == authSequence
  }

  /** A finish follows exactly one start, of the same authorization, capability and attempt, with no start between. */
  lemma FinishFollowsItsStart(events: seq<Event>, j: nat) returns (i: nat)
    requires History(events) && j < |events| && events[j].data.CommandFinished?
    ensures i < j
    ensures var f := events[j].data.finish; StartsCommand(events[i], f.authSequence, f.capabilityId, f.attempt)
    ensures forall k :: i < k < j ==> !IsStart(events[k])
    ensures forall k :: 0 <= k < |events| && StartOfSequence(events[k], events[j].data.finish.authSequence) ==> k == i
  {
    HistoryAt(events, j);
    var f := events[j].data.finish;
    var x :| LatestStart(events[..j], x, f.authSequence, f.capabilityId, f.attempt);
    i := x;
    forall k | i < k < j ensures !IsStart(events[k]) {
      assert events[..j][k] == events[k];
    }
    forall k | 0 <= k < |events| && StartOfSequence(events[k], f.authSequence) ensures k == i {
      if k < i { StartedOnce(events, k, i); } else if i < k { StartedOnce(events, i, k); }
    }
  }

  /** Attempts of a capability are numbered 1, 2, ... in the order they start. */
  lemma AttemptsAreNumbered(events: seq<Event>, i: nat)
    requires History(events) && i < |events| && IsStart(events[i])
    ensures events[i].data.attempt == Tally(events[..i + 1], StartsOf(events[i].data.capabilityId))
    ensures 1 <= events[i].data.attempt <= Tally(events, StartsOf(events[i].data.capabilityId))
  {
    HistoryAt(events, i);
    var q := StartsOf(events[i].data.capabilityId);
    TallyPrefix(events, i, q);
    TallyMonotone(events, i + 1, q);
  }

  // ---- Executor evidence is never untrusted ----

  lemma SequencesArePositions(events: seq<Event>, i: nat)
    requires History(events) && i < |events|
    ensures events[i].sequence == i + 1
  {
    HistoryAt(events, i);
  }

  lemma FinishHasChain(events: seq<Event>, j: nat)
    requires History(events) && j < |events| && events[j].data.CommandFinished?
    ensures HasAuthorization(events, events[j].data.finish)
    ensures HasStart(events, events[j])
    ensures events[j].data.finish.producer == EXECUTOR
  {
    var i := FinishFollowsItsStart(events, j);
    StartIsAuthorized(events, i);
    HistoryAt(events, j);
    SequencesArePositions(events, i);
    SequencesArePositions(events, j);
  }

  predicate CommandEvidence(acceptances: seq<Acceptance>) {
    forall a :: a in acceptances ==> a.evidenceType == "command_event"
  }

  predicate Lacks(issues: seq<Issue>, code: IssueCode) {
    forall x :: x in issues ==> x.code != code
  }

  lemma EvidenceIsNeverUntrusted(r: Record, a: Acceptance, f: Finish, probe: Probe)
    requires r.revisions != []
    ensures Lacks(EvidenceIssues(a, f, probe) + SandboxIssues(r.Current(), f), UntrustedEvidence)
  {
  }

  lemma VerdictNeverUntrusted(r: Record, a: Acceptance, probe: Probe)
    requires r.revisions != [] && History(r.events) && a.evidenceType == "command_event"
    ensures Lacks(VerifyAcceptance(r, a, probe).issues, UntrustedEvidence)
    ensures VerifyAcceptance(r, a, probe).result.status != Untrusted
  {
    var last := LastFinish(r.events, a.commandId);
    if last.Some? {
      var f := r.events[last.value].data.finish;
      FinishHasChain(r.events, last.value);
      EvidenceIsNeverUntrusted(r, a, f, probe);
    }
    hide History, EvidenceIssues, SandboxIssues, HasAuthorization, HasStart, ExitAccepted, LastFinish;
  }

  lemma {:induction false} AcceptanceIssuesNeverUntrusted(r: Record, acceptances: seq<Acceptance>, probe: Probe)
    requires r.revisions != [] && History(r.events) && CommandEvidence(acceptances)
    ensures Lacks(AcceptanceIssues(r, acceptances, probe), UntrustedEvidence)
  {
    if acceptances != [] {
      var n := |acceptances| - 1;
      AcceptanceIssuesNeverUntrusted(r, acceptances[..n], probe);
      VerdictNeverUntrusted(r, acceptances[n], probe);
    }
  }

  lemma NoUnapprovedHighRisk(events: seq<Event>)
    requires History(events)
    ensures HighRiskIssues(events) == []
  {
    forall e | e in events ensures !UnapprovedHighRisk(e) {
      var i :| 0 <= i < |events| && events[i] == e;
      HistoryAt(events, i);
    }
    HighRiskIssuesMeaning(events);
  }

  /** The trust issues never fire on a history Gateway and Executor made. */
  lemma TrustIssuesNeverFire(s: State, steps: seq<Step>, probe: Probe)
    requires Initial(s) && LegalRun(s, steps)
    requires CommandEvidence(Run(s, steps).record.Current().acceptances)
    ensures var r := Run(s, steps).record;
      && HighRiskIssues(r.events) == []
      && Lacks(AcceptanceIssues(r, r.Current().acceptances, probe), UntrustedEvidence)
  {
    InitialInvariant(s);
    RunKeeps(s, steps);
    var r := Run(s, steps).record;
    NoUnapprovedHighRisk(r.events);
    AcceptanceIssuesNeverUntrusted(r, r.Current().acceptances, probe);
  }

  /** A success the Executor records has exit code 0, so no other expectation can pass. */
  lemma OnlyZeroExitPasses(r: Record, a: Acceptance, probe: Probe)
    requires r.revisions != [] && History(r.events) && Passes(r, a, probe)
    ensures a.expectedExitCode == 0
  {
    HistoryAt(r.events, LastFinish(r.events, a.commandId).value);
  }

  // ---- Freshness of a completed task ----

  predicate StartsCapability(e: Event, capabilityId: string) {
    IsStart(e) && e.data.capabilityId == capabilityId
  }

  /** The last start of the capability, at `i`, ended at `j` in a success. */
  ghost predicate LastStartSucceeded(events: seq<Event>, capabilityId: string, i: int, j: int) {
    && 0 <= i < j < |events|
    && StartsCapability(events[i], capabilityId)
    && (forall k :: i < k < |events| ==> !StartsCapability(events[k], capabilityId))
    && events[j].data.CommandFinished?
    && events[j].data.finish.authSequence == events[i].data.authSequence
    && events[j].data.finish.status == Succeeded
    && events[j].data.finish.exitCode == Some(0)
  }

  /** The authorization comes before position `i` and after the last amendment. */
  predicate AuthorizedSinceAmendment(events: seq<Event>, sequence: int, i: int) {
    && 1 <= sequence <= i <= |events|
    && events[sequence - 1].data.CommandAuthorized?
    && forall q :: sequence - 1 <= q < |events| ==> !events[q].data.TaskAmended?
  }

  ghost predicate FreshEvidence(events: seq<Event>, capabilityId: string) {
    exists i, j ::
      && LastStartSucceeded(events, capabilityId, i, j)
      && AuthorizedSinceAmendment(events, events[i].data.authSequence, i)
      && events[events[i].data.authSequence - 1].data.auth.capabilityId == capabilityId
  }

  lemma NoAmendmentSince(events: seq<Event>, p: nat)
    requires p <= |events| && Tally(events[..p], Amendments) == Tally(events, Amendments)
    ensures forall q :: p <= q < |events| ==> !events[q].data.TaskAmended?
  {
    forall q | p <= q < |events| ensures !events[q].data.TaskAmended? {
      TallyPrefix(events, q, Amendments);
      assert events[..q][..p] == events[..p];
      TallyMonotone(events[..q], p, Amendments);
      TallyMonotone(events, q + 1, Amendments);
    }
  }

  /** A required acceptance that passes, in a history where every start finished, is fresh evidence. */
  lemma PassingIsFresh(r: Record, a: Acceptance, probe: Probe)
    requires r.revisions != [] && History(r.events)
    requires r.Current().revision == 1 + Tally(r.events, Amendments)
    requires Passes(r, a, probe)
    requires forall e :: e in r.events ==> !Incomplete(r.events, e)
    ensures FreshEvidence(r.events, a.commandId)
  {
    var ev := r.events;
    var j := LastFinish(ev, a.commandId).value;
    var f := ev[j].data.finish;
    var i := FinishFollowsItsStart(ev, j);
    StartIsAuthorized(ev, i);
    HistoryAt(ev, j);
    forall k | i < k < |ev| ensures !StartsCapability(ev[k], a.commandId) {
      if StartsCapability(ev[k], a.commandId) {
        assert ev[k] in ev;
        var m :| 0 <= m < |ev| && ev[m].data.CommandFinished?
          && ev[m].data.finish.authSequence == ev[k].data.authSequence;
        assert StartOfSequence(ev[k], ev[m].data.finish.authSequence);
        var own := FinishFollowsItsStart(ev, m);
        assert own == k;
        assert FinishOfCommand(ev[m], a.commandId);
      }
    }
    var p := f.authSequence - 1;
    HistoryAt(ev, p);
    NoAmendmentSince(ev, p);
    assert LastStartSucceeded(ev, a.commandId, i, j);
    assert AuthorizedSinceAmendment(ev, ev[i].data.authSequence, i);
  }

  /** Every command a required acceptance names has fresh evidence. */
  ghost predicate Fresh(r: Record)
    requires r.revisions != []
  {
    forall a :: a in r.Current().acceptances && a.required ==> FreshEvidence(r.events, a.commandId)
  }

  lemma GateIsFresh(r: Record, probe: Probe)
    requires r.revisions != [] && History(r.events) && r.Current().revision == 1 + Tally(r.events, Amendments)
    requires CompletionGate(r, probe)
    ensures Fresh(r)
  {
    forall a | a in r.Current().acceptances && a.required ensures FreshEvidence(r.events, a.commandId) {
      PassingIsFresh(r, a, probe);
    }
  }

  // ---- From the report to the write ----

  /** From position `n` on nothing was started or finished. */
  predicate QuietSince(events: seq<Event>, n: nat) {
    forall k :: n <= k < |events| ==> !IsStart(events[k]) && !events[k].data.CommandFinished?
  }

  /** `later` extends `earlier` without a start or a finish. */
  predicate QuietlyExtends(earlier: Record, later: Record) {
    && earlier.revisions <= later.revisions && earlier.events <= later.events
    && QuietSince(later.events, |earlier.events|)
    && |earlier.revisions| == 1 + Tally(earlier.events, Amendments)
    && |later.revisions| == 1 + Tally(later.events, Amendments)
  }

  /** Evidence stays fresh while nothing is started or amended. */
  lemma FreshnessLasts(earlier: Record, later: Record, capabilityId: string)
    requires QuietlyExtends(earlier, later) && |earlier.revisions| == |later.revisions|
    requires FreshEvidence(earlier.events, capabilityId)
    ensures FreshEvidence(later.events, capabilityId)
  {
    var events, after := earlier.events, later.events;
    var i, j :|
      && LastStartSucceeded(events, capabilityId, i, j)
      && AuthorizedSinceAmendment(events, events[i].data.authSequence, i)
      && events[events[i].data.authSequence - 1].data.auth.capabilityId == capabilityId;
    assert after[..|events|] == events;
    NoAmendmentSince(after, |events|);
    assert LastStartSucceeded(after, capabilityId, i, j);
    assert AuthorizedSinceAmendment(after, after[i].data.authSequence, i);
  }

  lemma {:induction false} AmendedBetween(events: seq<Event>, n: nat)
    requires n <= |events| && Tally(events[..n], Amendments) < Tally(events, Amendments)
    ensures exists q :: n <= q < |events| && events[q].data.TaskAmended?
    decreases |events| - n
  {
    assert events[..|events|] == events;
    TallyPrefix(events, n, Amendments);
    if !events[n].data.TaskAmended? { AmendedBetween(events, n + 1); }
  }

  /** After an amendment nothing is fresh until something is started again. */
  lemma AmendmentStales(earlier: Record, later: Record, capabilityId: string)
    requires QuietlyExtends(earlier, later) && |earlier.revisions| < |later.revisions|
    ensures !FreshEvidence(later.events, capabilityId)
  {
    var n := |earlier.events|;
    assert later.events[..n] == earlier.events;
    AmendedBetween(later.events, n);
    var q :| n <= q < |later.events| && later.events[q].data.TaskAmended?;
    forall i, j | LastStartSucceeded(later.events, capabilityId, i, j)
      ensures !AuthorizedSinceAmendment(later.events, later.events[i].data.authSequence, i)
    {
      assert i < n;
    }
  }

  /** The event that closed the task names the envelope revision that is current. */
  predicate ClosedOnCurrent(r: Record)
    requires r.revisions != []
  {
    && r.events != [] && r.events[|r.events| - 1].data.TaskFinalized?
    && r.events[|r.events| - 1].data.verification.revision == r.Current().revision
  }

  predicate NothingRequired(r: Record)
    requires r.revisions != []
  {
    forall a :: a in r.Current().acceptances ==> !a.required
  }

  /** The report in the Verifier's hands is of an earlier record, since which nothing was started or finished. */
  ghost predicate ReportHolds(s: State) {
    s.phase.Judged? ==>
      && s.phase.basis.revisions != []
      && QuietlyExtends(s.phase.basis, s.record)
      && s.phase.report.revision == |s.phase.basis.revisions|
      && (s.phase.report.outcome == OutcomeCompleted ==> Fresh(s.phase.basis))
  }

  lemma JudgingHolds(s: State, a: Action)
    requires Invariant(s) && a.Judge? && a.report == Evaluate(s.record, a.probe, a.acceptRisk, a.reason)
    ensures ReportHolds(State(s.record, Judged(s.record, a.report)))
  {
    JudgedRecord(s);
    JudgedRevision(s.record, a);
    hide Invariant, Evaluate, Fresh, ReportHolds, Envelope.UniqueIds, History, Tally;
    CompletedVerdictIsFresh(s.record, a);
    JudgedHolds(s.record, a.report);
  }

  lemma JudgedHolds(r: Record, report: Report)
    requires r.revisions != [] && |r.revisions| == 1 + Tally(r.events, Amendments)
    requires report.revision == |r.revisions|
    requires report.outcome == OutcomeCompleted ==> Fresh(r)
    ensures ReportHolds(State(r, Judged(r, report)))
  {
    hide Fresh, Tally;
  }

  lemma CompletedVerdictIsFresh(r: Record, a: Action)
    requires r.revisions != [] && r.Current().UniqueIds() && History(r.events)
    requires r.Current().revision == 1 + Tally(r.events, Amendments)
    requires a.Judge? && a.report == Evaluate(r, a.probe, a.acceptRisk, a.reason)
    ensures a.report.outcome == OutcomeCompleted ==> Fresh(r)
  {
    hide Evaluate, CompletionGate, TrustGate, IsBlank, Tally, Fresh, Envelope.UniqueIds, History;
    OutcomeIsTheGate(r, a.probe, a.acceptRisk, a.reason);
    if a.report.outcome == OutcomeCompleted { GateIsFresh(r, a.probe); }
  }

  lemma JudgedRecord(s: State)
    requires Invariant(s)
    ensures var r := s.record;
      && r.revisions != [] && r.Current().UniqueIds() && History(r.events)
      && r.Current().revision == |r.revisions| == 1 + Tally(r.events, Amendments)
  {
    hide History, PhaseOk, WritesInScope, Tally;
  }

  lemma JudgedRevision(r: Record, a: Action)
    requires a.Judge? && r.revisions != [] && a.report == Evaluate(r, a.probe, a.acceptRisk, a.reason)
    ensures a.report.revision == r.Current().revision
  {
    hide AllIssues, Deduplicate, Results, Decision;
  }

  /** A step that keeps the lease with the Verifier writes at most one event, no start and no finish. */
  predicate QuietStep(before: Record, after: Record) {
    && before.revisions <= after.revisions && before.events <= after.events
    && QuietSince(after.events, |before.events|)
  }

  lemma AppendIsQuiet(r: Record, data: EventData, at: string)
    requires !data.CommandStarted? && !data.CommandFinished?
    ensures var after := Kept(r, AppendRecord(r, data, at)); QuietStep(r, after) && after.revisions == r.revisions
  {
    hide WellFormed;
  }

  lemma AuthorizeIsQuiet(w: World, r: Record, a: Action, at: string)
    requires a.Authorize? && r.revisions != []
    ensures var after := AuthorizeRecord(w, r, a, at); QuietStep(r, after) && after.revisions == r.revisions
  {
    var d := Decide(r, w.caps, w.policy, a.capabilityId, a.approvals, a.snapshot, a.time, a.cwd);
    hide Decide, AppendRecord, QuietStep;
    if d.Ok? {
      AppendIsQuiet(r, CommandAuthorized(d.value), at);
    } else {
      SameIsQuiet(r);
    }
  }

  lemma SameIsQuiet(r: Record)
    ensures QuietStep(r, r)
  {
  }

  lemma CancelIsQuiet(r: Record, reason: string, at: string)
    ensures var after := Kept(r, CancelRecord(r, reason, at)); QuietStep(r, after) && after.revisions == r.revisions
  {
    hide WellFormed, IsBlank;
  }

  lemma AmendIsQuiet(r: Record, c: Changes, at: string)
    requires r.revisions != []
    ensures QuietStep(r, Kept(r, AmendRecord(r, c, at)))
  {
    hide AmendEnvelope, WellFormed;
  }

  lemma StepWhileJudged(s: State, step: Step)
    requires step.world.Valid() && Invariant(s) && step.at != "" && s.phase.Judged?
    ensures var n := Next(s, step);
      if step.action.Close? || step.action.Crash? then n.phase.Idle?
      else n.phase == s.phase && QuietStep(s.record, n.record)
    ensures !step.action.Amend? && !step.action.Close? ==> Next(s, step).record.revisions == s.record.revisions
  {
    var r := s.record;
    assert r.revisions != [];
    SameIsQuiet(r);
    match step.action {
      case Authorize(_, _, _, _, _) => AuthorizeIsQuiet(step.world, r, step.action, step.at);
      case Amend(c) => AmendIsQuiet(r, c, step.at);
      case CancelTask(reason) => CancelIsQuiet(r, reason, step.at);
      case Approve(g, _) => AppendIsQuiet(r, ApprovalGranted(g), step.at);
      case Activate(id, state) => AppendIsQuiet(r, ModuleActivation(id, state), step.at);
      case _ =>
    }
    hide QuietStep, Invariant, AuthorizeRecord, AmendRecord, CancelRecord, AppendRecord, GrantAccepted, CloseRecord;
  }

  lemma QuietStepKeepsReport(s: State, n: State)
    requires ReportHolds(s) && n.phase == s.phase && QuietStep(s.record, n.record)
    requires |n.record.revisions| == 1 + Tally(n.record.events, Amendments)
    ensures ReportHolds(n)
  {
    hide Fresh;
  }

  lemma JudgedStepKeepsReport(s: State, step: Step)
    requires step.world.Valid() && Invariant(s) && step.at != "" && ReportHolds(s) && s.phase.Judged?
    ensures ReportHolds(Next(s, step))
  {
    assert s.record.revisions != [];
    hide Next, QuietStep, ReportHolds, Invariant;
    NextKeeps(s, step);
    StepWhileJudged(s, step);
    var n := Next(s, step);
    AmendmentsCounted(n);
    if n.phase == s.phase { QuietStepKeepsReport(s, n); } else { IdleHolds(n); }
  }

  lemma NextJudge(s: State, step: Step)
    requires s.record.revisions != [] && step.action.Judge? && s.phase.Idle?
    ensures Next(s, step) == State(s.record, Judged(s.record, step.action.report))
  {
  }

  lemma NextClose(s: State, step: Step)
    requires s.record.revisions != [] && step.action.Close? && s.phase.Judged?
    ensures Next(s, step) == State(CloseRecord(s.record, s.phase.report, step.at), Idle)
  {
    hide CloseRecord;
  }

  lemma NextAmend(s: State, step: Step)
    requires s.record.revisions != [] && step.action.Amend?
    ensures Next(s, step) == s.(record := Kept(s.record, AmendRecord(s.record, step.action.changes, step.at)))
  {
    hide AmendRecord;
  }

  lemma StepKeepsReport(s: State, step: Step)
    requires step.world.Valid() && Invariant(s) && LegalStep(s, step) && ReportHolds(s)
    ensures ReportHolds(Next(s, step))
  {
    assert s.record.revisions != [] && step.at != "";
    hide Next, ReportHolds, Invariant, Evaluate;
    if s.phase.Judged? {
      JudgedStepKeepsReport(s, step);
    } else if step.action.Judge? && s.phase.Idle? {
      NextJudge(s, step);
      JudgingHolds(s, step.action);
    } else {
      OnlyJudgeJudges(s, step);
      IdleHolds(Next(s, step));
    }
  }

  lemma IdleHolds(s: State)
    requires !s.phase.Judged?
    ensures ReportHolds(s)
  {
  }

  lemma AmendmentsCounted(s: State)
    requires Invariant(s)
    ensures |s.record.revisions| == 1 + Tally(s.record.events, Amendments)
  {
  }

  lemma OnlyJudgeJudges(s: State, step: Step)
    requires s.record.revisions != [] && !s.phase.Judged? && !(step.action.Judge? && s.phase.Idle?)
    ensures !Next(s, step).phase.Judged?
  {
    hide AuthorizeRecord, AmendRecord, CancelRecord, AppendRecord, GrantAccepted, Validate, FinishOf, CloseRecord;
  }

  lemma ClosedAsCompleted(s: State, report: Report, at: string)
    requires Invariant(s) && s.record.state != Completed && at != ""
    requires CloseRecord(s.record, report, at).state == Completed
    ensures report.outcome == OutcomeCompleted
    ensures CloseRecord(s.record, report, at) ==
      Appended(s.record, TaskFinalized(Completed, VerificationOf(report)), at).(state := Completed)
  {
  }

  /** Closing is one more event since the report. */
  lemma ClosingExtends(s: State, at: string)
    requires Invariant(s) && ReportHolds(s) && s.phase.Judged? && s.record.state != Completed && at != ""
    requires CloseRecord(s.record, s.phase.report, at).state == Completed
    ensures var r := CloseRecord(s.record, s.phase.report, at);
      && r.revisions == s.record.revisions && QuietlyExtends(s.phase.basis, r) && Fresh(s.phase.basis)
      && r.Current().revision == |r.revisions|
      && (ClosedOnCurrent(r) <==> s.phase.report.revision == |r.revisions|)
  {
    JudgedRecord(s);
    ClosedAsCompleted(s, s.phase.report, at);
    assert VerificationOf(s.phase.report).revision == s.phase.report.revision;
    hide Invariant, CloseRecord, Fresh, VerificationOf, QuietlyExtends, ClosedOnCurrent;
    FinalEventExtends(s.phase.basis, s.record, VerificationOf(s.phase.report), at);
  }

  lemma FinalEventExtends(b: Record, r: Record, v: Verification, at: string)
    requires QuietlyExtends(b, r) && r.revisions != []
    ensures var closed := Appended(r, TaskFinalized(Completed, v), at).(state := Completed);
      QuietlyExtends(b, closed) && (ClosedOnCurrent(closed) <==> v.revision == r.Current().revision)
  {
    TallyAppend(r.events, Event(|r.events| + 1, at, TaskFinalized(Completed, v)), Amendments);
    hide Tally;
  }

  lemma CompletingIsFreshExactly(s: State, at: string)
    requires Invariant(s) && ReportHolds(s) && s.phase.Judged? && s.record.state != Completed && at != ""
    requires CloseRecord(s.record, s.phase.report, at).state == Completed
    ensures var r := CloseRecord(s.record, s.phase.report, at);
      Fresh(r) <==> ClosedOnCurrent(r) || NothingRequired(r)
  {
    ClosingExtends(s, at);
    var b, r := s.phase.basis, CloseRecord(s.record, s.phase.report, at);
    assert b.revisions <= r.revisions && |b.revisions| == s.phase.report.revision;
    hide CloseRecord, FreshEvidence, QuietlyExtends, Invariant;
    if ClosedOnCurrent(r) {
      assert b.revisions == r.revisions;
      forall a | a in r.Current().acceptances && a.required ensures FreshEvidence(r.events, a.commandId) {
        FreshnessLasts(b, r, a.commandId);
      }
    } else {
      forall a | a in r.Current().acceptances && a.required ensures !FreshEvidence(r.events, a.commandId) {
        AmendmentStales(b, r, a.commandId);
      }
    }
  }

  /** Only the Verifier's write completes a task. */
  lemma OnlyCloseCompletes(s: State, step: Step)
    requires step.world.Valid() && Invariant(s) && step.at != "" && s.record.state != Completed
    requires Next(s, step).record.state == Completed
    ensures step.action.Close? && s.phase.Judged?
    ensures Next(s, step).record == CloseRecord(s.record, s.phase.report, step.at)
  {
    var r := s.record;
    assert r.revisions != [];
    match step.action {
      case Authorize(_, _, _, _, _) => AuthorizeKeepsState(step.world, r, step.action, step.at);
      case Start => if s.phase.Leased? { StartKeepsState(r, s.phase, step.at); }
      case End(result, out, err) => if s.phase.Running? { EndKeepsState(r, s.phase, step); }
      case Amend(c) => AmendKeepsState(r, c, step.at);
      case CancelTask(reason) => CancelAbandons(r, reason, step.at);
      case Approve(g, _) => AppendKeepsState(r, ApprovalGranted(g), step.at);
      case Activate(id, state) => AppendKeepsState(r, ModuleActivation(id, state), step.at);
      case _ =>
    }
    hide Invariant, AuthorizeRecord, AmendRecord, CancelRecord, AppendRecord, GrantAccepted, CloseRecord, FinishOf;
  }

  lemma AppendKeepsState(r: Record, data: EventData, at: string)
    ensures Kept(r, AppendRecord(r, data, at)).state == r.state
  {
    hide WellFormed;
  }

  lemma AuthorizeKeepsState(w: World, r: Record, a: Action, at: string)
    requires a.Authorize? && r.revisions != []
    ensures AuthorizeRecord(w, r, a, at).state == r.state
  {
    hide Decide, WellFormed;
  }

  lemma StartKeepsState(r: Record, p: Phase, at: string)
    requires p.Leased?
    ensures var data := CommandStarted(p.command.authSequence, p.command.capabilityId, p.attempt);
      Kept(r, AppendRecord(r, data, at)).state == r.state
  {
    hide WellFormed;
  }

  lemma EndKeepsState(r: Record, p: Phase, step: Step)
    requires p.Running? && step.action.End?
    ensures var f := FinishOf(p.command, p.attempt, p.sandbox, step.action.result, step.action.stdoutArtifact,
                              step.action.stderrArtifact);
      Kept(r, AppendRecord(r, CommandFinished(f), step.at)).state == r.state
  {
    hide WellFormed, FinishOf;
  }

  lemma AmendKeepsState(r: Record, c: Changes, at: string)
    requires r.revisions != []
    ensures Kept(r, AmendRecord(r, c, at)).state == r.state
  {
    hide AmendEnvelope, WellFormed;
  }

  lemma CancelAbandons(r: Record, reason: string, at: string)
    ensures Kept(r, CancelRecord(r, reason, at)).state in {r.state, Abandoned}
  {
    hide WellFormed, IsBlank;
  }

  lemma {:induction false} RunHoldsReport(s: State, steps: seq<Step>)
    requires Initial(s) && LegalRun(s, steps)
    ensures Invariant(Run(s, steps)) && ReportHolds(Run(s, steps))
    decreases |steps|
  {
    InitialInvariant(s);
    RunKeeps(s, steps);
    if steps != [] {
      var n := |steps| - 1;
      RunHoldsReport(s, steps[..n]);
      hide Invariant, ReportHolds, Next, LegalStep;
      StepKeepsReport(Run(s, steps[..n]), steps[n]);
    }
  }

  lemma CompletedStays(s: State, step: Step)
    requires step.world.Valid() && Invariant(s) && step.at != "" && s.record.state == Completed
    ensures Next(s, step).record == s.record
  {
    NextKeeps(s, step);
  }

  /** In every interleaving of components, amendments and crashes a completed task has fresh evidence for all it
      requires exactly when the revision the Verifier judged is still the current one. */
  lemma {:induction false} CompletedIsFresh(s: State, steps: seq<Step>)
    requires Initial(s) && LegalRun(s, steps)
    ensures var r := Run(s, steps).record;
      r.state == Completed ==> (Fresh(r) <==> ClosedOnCurrent(r) || NothingRequired(r))
    decreases |steps|
  {
    if steps != [] {
      var n := |steps| - 1;
      var before := Run(s, steps[..n]);
      RunHoldsReport(s, steps[..n]);
      CompletedIsFresh(s, steps[..n]);
      assert steps[n].at != "";
      hide Next, Invariant, ReportHolds, Fresh, ClosedOnCurrent, NothingRequired, LegalRun;
      if before.record.state == Completed {
        CompletedStays(before, steps[n]);
      } else if Run(s, steps).record.state == Completed {
        OnlyCloseCompletes(before, steps[n]);
        CompletingIsFreshExactly(before, steps[n].at);
      }
    } else {
      InitialRecord(s);
    }
  }

  // ---- When no amendment comes between the report and the write ----

  /** The Verifier was asked to judge and has neither written nor died since. */
  predicate Judging(steps: seq<Step>) {
    steps != [] &&
    var last := steps[|steps| - 1].action;
    last.Judge? || (!last.Close? && !last.Crash? && Judging(steps[..|steps| - 1]))
  }

  /** No amendment is made while the Verifier judges. */
  predicate Undisturbed(steps: seq<Step>) {
    steps == [] ||
    (Undisturbed(steps[..|steps| - 1]) && (steps[|steps| - 1].action.Amend? ==> !Judging(steps[..|steps| - 1])))
  }

  /** The report in the Verifier's hands is of the current revision. */
  predicate OnCurrent(s: State, steps: seq<Step>) {
    s.phase.Judged? ==> Judging(steps) && s.phase.basis.revisions == s.record.revisions
  }

  lemma StepOnCurrent(s: State, steps: seq<Step>, step: Step)
    requires step.world.Valid() && Invariant(s) && step.at != "" && OnCurrent(s, steps)
    requires step.action.Amend? ==> !Judging(steps)
    ensures OnCurrent(Next(s, step), steps + [step])
  {
    assert (steps + [step])[..|steps|] == steps;
    assert s.record.revisions != [];
    if s.phase.Judged? {
      StepWhileJudged(s, step);
    } else if step.action.Judge? && s.phase.Idle? {
      assert Next(s, step).record == s.record;
    } else {
      OnlyJudgeJudges(s, step);
    }
  }

  lemma {:induction false} UndisturbedIsCurrent(s: State, steps: seq<Step>)
    requires Initial(s) && LegalRun(s, steps) && Undisturbed(steps)
    ensures OnCurrent(Run(s, steps), steps)
    ensures Run(s, steps).record.state == Completed ==> ClosedOnCurrent(Run(s, steps).record)
    decreases |steps|
  {
    hide *;
    InitialRecord(s);
    if steps == [] {
      InitialIsCurrent(s);
    } else {
      var n := |steps| - 1;
      LastOfRun(s, steps);
      assert steps == steps[..n] + [steps[n]];
      var before := Run(s, steps[..n]);
      UndisturbedIsCurrent(s, steps[..n]);
      RunHoldsReport(s, steps[..n]);
      StepOnCurrent(before, steps[..n], steps[n]);
      StepClosesOnCurrent(before, steps[..n], steps[n]);
    }
  }

  lemma InitialIsCurrent(s: State)
    requires Initial(s) && s.record.revisions != []
    ensures OnCurrent(Run(s, []), []) && Run(s, []).record.state != Completed
  {
    hide Envelope.Valid, WellFormed;
  }

  lemma LastOfRun(s: State, steps: seq<Step>)
    requires s.record.revisions != [] && steps != [] && LegalRun(s, steps) && Undisturbed(steps)
    ensures var n := |steps| - 1; var before := Run(s, steps[..n]);
      && LegalRun(s, steps[..n]) && Undisturbed(steps[..n])
      && Run(s, steps) == Next(before, steps[n])
      && steps[n].at != "" && steps[n].world.Valid() && (steps[n].action.Amend? ==> !Judging(steps[..n]))
  {
    hide Next, Judging, Evaluate;
  }

  lemma StepClosesOnCurrent(s: State, steps: seq<Step>, step: Step)
    requires step.world.Valid() && Invariant(s) && step.at != "" && ReportHolds(s) && OnCurrent(s, steps)
    requires s.record.state == Completed ==> ClosedOnCurrent(s.record)
    ensures Next(s, step).record.revisions != []
    ensures Next(s, step).record.state == Completed ==> ClosedOnCurrent(Next(s, step).record)
  {
    assert s.record.revisions != [];
    assert s.phase.Judged? ==> s.phase.report.revision == |s.record.revisions|;
    NextKeepsRevisions(s, step);
    hide Next, Invariant, ReportHolds, ClosedOnCurrent, OnCurrent;
    if s.record.state == Completed {
      CompletedStays(s, step);
    } else if Next(s, step).record.state == Completed {
      OnlyCloseCompletes(s, step);
      ClosingExtends(s, step.at);
    }
  }

  /** Without an amendment between the report and the write, a completed task has fresh evidence for all it requires. */
  lemma UndisturbedIsFresh(s: State, steps: seq<Step>)
    requires Initial(s) && LegalRun(s, steps) && Undisturbed(steps)
    ensures Run(s, steps).record.state == Completed ==> Fresh(Run(s, steps).record)
  {
    UndisturbedIsCurrent(s, steps);
    CompletedIsFresh(s, steps);
  }
}
