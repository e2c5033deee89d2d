/**
 Two concrete runs: one between components that goes past the retry limit, and one that amends
 a task between the Verifier's report and its write.
 */
module Witnesses {
  import opened Prelude
  import opened TaskModel
  import opened Records
  import opened Gateway
  import opened Execution
  import opened Verifier
  import opened GateProof
  import opened Kernel
  import opened Completion
  import opened Service
  import opened Histories
  import TaskServices

  /** A capability that reads nothing, writes nothing and may run twice. */
  const CHECK := Capability("c", ["true"], ".", 1, [], [], NoNetwork, false, [], Reversible, Local, Auto, 2, [])

  const WORLD := World(map["c" := CHECK], DEFAULT_POLICY)

  function Sha(): (s: string)
    ensures IsFullSha(s)
  {
    seq(40, _ => 'a')
  }

  /** A task that requires one success of the capability, allows no retry and has no command budget. */
  function TaskEnvelope(): Envelope {
    Envelope("1.0", "t", "r", Sha(), "/w", [], "1", "1", "g", [], [Requirement("q", "x")], ["src"],
             [Acceptance("a", true, ["q"], "c", 0, 1, 0, "command_event")], ["c"], 1, 0, map[], Observe, 1)
  }

  function Workspace(): Snapshot { Snapshot("r", Sha(), "/w") }

  function Created(): Record {
    Record(RECORD_SCHEMA_VERSION, "t", Draft, [TaskEnvelope()], [Event(1, "now", TaskCreated)])
  }

  lemma EnvelopeIsValid()
    ensures TaskEnvelope().Valid()
  {
    var e := TaskEnvelope();
    NamesAreValid();
    EvidenceIsNamed();
    hide IsIdentifier, IsBlank, IsFullSha;
    assert e.requirements[0].Valid() && e.acceptances[0].Valid();
    assert forall r :: r in e.requirements ==> r == e.requirements[0];
    assert forall a :: a in e.acceptances ==> a == e.acceptances[0];
    hide Requirement.Valid, Acceptance.Valid;
    assert e.CoversKnownRequirements() && e.UniqueIds();
  }

  lemma NamesAreValid()
    ensures IsIdentifier("t") && IsIdentifier("r") && IsIdentifier("q") && IsIdentifier("a") && IsIdentifier("c")
    ensures !IsBlank("1") && !IsBlank("g") && !IsBlank("x")
  {
    assert "1"[0] == '1' && "g"[0] == 'g' && "x"[0] == 'x';
  }

  lemma EvidenceIsNamed()
    ensures !IsBlank("command_event") && !IsBlank("1.0")
  {
    assert "command_event"[0] == 'c' && "1.0"[0] == '1';
  }

  lemma CreatedIsInitial()
    ensures Initial(State(Created(), Idle)) && Loadable(Created()) && Invariant(State(Created(), Idle))
  {
    EnvelopeIsValid();
    CreatedIsLoadable(TaskEnvelope(), "now");
    hide Envelope.Valid;
    InitialInvariant(State(Created(), Idle));
  }

  function Ask(): Step {
    Step(Authorize("c", [], Workspace(), 0, "/w"), "now", WORLD)
  }

  function Fact(): Authorization { Granted(CHECK, "/w", None, 1) }

  /** The Gateway accepts the request while the capability has run neither twice nor past its retries. */
  lemma Accepts(r: Record)
    requires Loadable(r) && r.revisions == [TaskEnvelope()] && r.state == Draft
    requires Tally(r.events, AuthorizationsOf("c")) < 2 && Tally(r.events, StartsOf("c")) == 0
    ensures AuthorizeRecord(WORLD, r, Ask().action, "now") == Appended(r, CommandAuthorized(Fact()), "now")
    ensures Loadable(Appended(r, CommandAuthorized(Fact()), "now"))
  {
    AppendedIsLoadable(r, CommandAuthorized(Fact()), "now");
    hide Loadable, WellFormed, Tally, AppendRecord, IsFullSha;
    assert r.Current() == TaskEnvelope() && r.Current().MaxCommands() == None;
    assert Decide(r, WORLD.caps, WORLD.policy, "c", [], Workspace(), 0, "/w") == Ok(Fact());
  }

  lemma FirstTallies()
    ensures Tally(Created().events, AuthorizationsOf("c")) == 0 && Tally(Created().events, StartsOf("c")) == 0
  {
    assert Created().events[..0] == [];
  }

  function AskedTwice(): Record {
    Created().(events := Created().events + [Event(2, "now", CommandAuthorized(Fact()))]
                                          + [Event(3, "now", CommandAuthorized(Fact()))])
  }

  lemma BothAreAccepted()
    ensures LegalRun(State(Created(), Idle), [Ask(), Ask()])
    ensures Run(State(Created(), Idle), [Ask(), Ask()]) == State(AskedTwice(), Idle)
    ensures Tally(AskedTwice().events, AuthorizationsOf("c")) == 2
  {
    var r, s, ask := Created(), State(Created(), Idle), Ask();
    var r1 := Appended(r, CommandAuthorized(Fact()), "now");
    assert r1.events == r.events + [Event(2, "now", CommandAuthorized(Fact()))] && r1.state == Draft;
    assert Appended(r1, CommandAuthorized(Fact()), "now") == AskedTwice();
    assert r.revisions == r1.revisions == [TaskEnvelope()] && WORLD.Valid();
    assert LegalStep(s, ask) && LegalStep(State(r1, Idle), ask);
    assert AskedTwice().events == r1.events + [Event(3, "now", CommandAuthorized(Fact()))];
    assert forall i: int :: Matches(AuthorizationsOf("c"), Event(i, "now", CommandAuthorized(Fact())));
    assert forall i: int :: !Matches(StartsOf("c"), Event(i, "now", CommandAuthorized(Fact())));
    assert ask.at == "now" && ask.world == WORLD && ask.action.Authorize? && r.state == Draft;
    hide *;
    CreatedIsInitial();
    FirstTallies();
    Accepts(r);
    TallyAppend(r.events, Event(2, "now", CommandAuthorized(Fact())), AuthorizationsOf("c"));
    TallyAppend(r.events, Event(2, "now", CommandAuthorized(Fact())), StartsOf("c"));
    Accepts(r1);
    TallyAppend(r1.events, Event(3, "now", CommandAuthorized(Fact())), AuthorizationsOf("c"));
    NextAuthorize(s, ask);
    NextAuthorize(State(r1, Idle), ask);
    RunTwo(s, ask, ask);
  }

  lemma AskedTwiceIsOpen()
    ensures !Terminal(AskedTwice().state) && AskedTwice().revisions == [TaskEnvelope()]
    ensures AskedTwice().Current().retryBudget == 0
  {
  }

  /** From a task just created, with no retry allowed, components can start one capability twice. */
  lemma RetryLimitIsPassed() returns (steps: seq<Step>)
    ensures Initial(State(Created(), Idle)) && LegalRun(State(Created(), Idle), steps)
    ensures var end := Run(State(Created(), Idle), steps).record;
      end.revisions == [TaskEnvelope()] && end.Current().retryBudget == 0 && Tally(end.events, StartsOf("c")) == 2
  {
    var s, asks := State(Created(), Idle), [Ask(), Ask()];
    assert s.record.revisions != [];
    hide *;
    CreatedIsInitial();
    BothAreAccepted();
    AskedTwiceIsOpen();
    RunKeeps(s, asks);
    var starts := StartEveryUnused(AskedTwice(), "c", "now");
    RunConcat(s, asks, starts);
    steps := asks + starts;
  }

  // ---- An amendment between the report and the write ----

  function RunIt(): Operation {
    RunCapability("c", Workspace(), 0, "/w", Workspace(), Ends(Exited(0, false, false, false), "out", "err"))
  }

  function Finished(): Finish {
    Finish(EXECUTOR, 2, "c", 1, Succeeded, Some(0), false, false, false, false, Some("out"), Some("err"))
  }

  /** The record after one successful run of the capability. */
  function Ran(): Record {
    Created().(events := [Event(1, "now", TaskCreated), Event(2, "now", CommandAuthorized(Fact())),
                          Event(3, "now", CommandStarted(2, "c", 1)), Event(4, "now", CommandFinished(Finished()))])
  }

  lemma NothingIsGranted()
    ensures AuthorizeStep(WORLD, Created(), RunIt(), "now") == Ask()
  {
    assert Created().events[..0] == [];
    assert RecordedApprovals(Created().events, "c") == [];
  }

  lemma RunsOnce()
    ensures Perform(WORLD, Created(), RunIt(), "now") == Ran() && Loadable(Ran())
  {
    var r, op, ask := Created(), RunIt(), Ask();
    var r1 := Appended(r, CommandAuthorized(Fact()), "now");
    assert IssuedCommand(r1) == CommandFor("t", Fact(), 2) && op.RunCapability? && op.fate.Ends?;
    assert r1.events == r.events + [Event(2, "now", CommandAuthorized(Fact()))] && r.revisions != [];
    assert r.revisions == [TaskEnvelope()] && r.state == Draft && ask.at == "now";
    assert !Matches(StartsOf("c"), Event(2, "now", CommandAuthorized(Fact())));
    hide *;
    NothingIsGranted();
    CreatedIsInitial();
    FirstTallies();
    Accepts(r);
    TallyAppend(r.events, Event(2, "now", CommandAuthorized(Fact())), StartsOf("c"));
    assert r1 != r;
    TaskServices.RunRecordCases(WORLD, r, op, "now");
    TaskServices.RunRecordIsPerformed(WORLD, r, op, "now");
    Executes(r1);
  }

  lemma Validates(r1: Record)
    requires r1 == Appended(Created(), CommandAuthorized(Fact()), "now")
    ensures Validate(r1, CommandFor("t", Fact(), 2), Workspace()).None?
  {
    assert r1.events[1].data == CommandAuthorized(Fact());
    hide IsFullSha, Loadable;
  }

  /** An execution that is not disturbed writes its start and its finish. */
  lemma ExecutesInFull(r: Record, c: AuthorizedCommand, snapshot: Snapshot, fate: Fate, at: string)
    requires Loadable(r) && !Terminal(r.state) && at != "" && fate.Ends? && Validate(r, c, snapshot).None?
    ensures var started := CommandStarted(c.authSequence, c.capabilityId, NextAttempt(r, c.capabilityId));
      var f := FinishOf(c, NextAttempt(r, c.capabilityId), r.Current().integrationMode == Enforced, fate.result,
                        fate.stdoutArtifact, fate.stderrArtifact);
      && ExecutedRecord(r, c, snapshot, fate, at) == Appended(Appended(r, started, at), CommandFinished(f), at)
      && Loadable(ExecutedRecord(r, c, snapshot, fate, at))
  {
    var started := CommandStarted(c.authSequence, c.capabilityId, NextAttempt(r, c.capabilityId));
    var f := FinishOf(c, NextAttempt(r, c.capabilityId), r.Current().integrationMode == Enforced, fate.result,
                      fate.stdoutArtifact, fate.stderrArtifact);
    assert r.revisions != [];
    hide Loadable, WellFormed, Validate, NextAttempt, FinishOf;
    AppendedIsLoadable(r, started, at);
    AppendedIsLoadable(Appended(r, started, at), CommandFinished(f), at);
  }

  lemma Executes(r1: Record)
    requires r1 == Appended(Created(), CommandAuthorized(Fact()), "now") && Loadable(r1)
    requires Tally(r1.events, StartsOf("c")) == 0
    ensures ExecutedRecord(r1, CommandFor("t", Fact(), 2), RunIt().leaseSnapshot, RunIt().fate, "now") == Ran()
    ensures Loadable(Ran())
  {
    hide Loadable, Tally, Validate, ExecutedRecord;
    Validates(r1);
    assert !Terminal(r1.state) && r1.Current().integrationMode == Observe && RunIt().leaseSnapshot == Workspace();
    assert NextAttempt(r1, "c") == 1;
    var started, finished := CommandStarted(2, "c", 1), CommandFinished(Finished());
    assert r1.events + [Event(3, "now", started)] + [Event(4, "now", finished)] == Ran().events;
    assert FinishOf(CommandFor("t", Fact(), 2), 1, false, Exited(0, false, false, false), "out", "err") == Finished();
    hide TaskEnvelope, Workspace, FinishOf, NextAttempt;
    ExecutesInFull(r1, CommandFor("t", Fact(), 2), RunIt().leaseSnapshot, RunIt().fate, "now");
  }

  /** What the Verifier finds: the workspace unchanged and both artifacts in place. */
  function Found(): Probe {
    Probe(Workspace(), [], map["out" := Artifact(false, ""), "err" := Artifact(false, "")], [])
  }

  lemma GateHolds()
    ensures CompletionGate(Ran(), Found())
  {
    var r, a := Ran(), TaskEnvelope().acceptances[0];
    assert r.events[3].data == CommandFinished(Finished()) && r.events[2].data.CommandStarted?;
    assert HasFinish(r.events, 2);
    assert LastFinish(r.events, "c") == Some(3);
    assert PassesAt(r, a, 3, Found());
    assert Proved(Requirement("q", "x"), r, Found()) by { assert a in r.Current().acceptances; }
    hide IsFullSha, LastFinish, PassesAt;
  }

  function JudgedReport(): Report { Evaluate(Ran(), Found(), false, None) }

  function NewGoal(): Changes {
    Changes(None, None, None, None, None, Some("h"), None, None, None, None, None, None, None, None, None, false)
  }

  function AmendedEnvelope(): Envelope { TaskEnvelope().(goal := "h", revision := 2) }

  function AmendedRecord(): Record {
    Appended(Ran(), TaskAmended(2), "now").(revisions := [TaskEnvelope(), AmendedEnvelope()])
  }

  lemma AmendedIsValid()
    ensures AmendedEnvelope().Valid() && Replace(TaskEnvelope(), NewGoal()) == AmendedEnvelope()
  {
    EnvelopeIsValid();
    assert !IsBlank("h") by { assert "h"[0] == 'h'; }
    var e, f := TaskEnvelope(), AmendedEnvelope();
    assert f.requirements == e.requirements && f.acceptances == e.acceptances;
    hide IsIdentifier, IsBlank, IsFullSha, Requirement.Valid, Acceptance.Valid, TaskEnvelope;
  }

  lemma GoalAmends(e: Envelope)
    requires Replace(e, NewGoal()).Valid()
    ensures AmendEnvelope(e, NewGoal()) == Ok(Replace(e, NewGoal()))
  {
    hide Envelope.Valid;
  }

  lemma AmendmentIsWritten(r: Record, c: Changes, e: Envelope, at: string)
    requires Loadable(r) && !Terminal(r.state) && at != "" && AmendEnvelope(r.Current(), c) == Ok(e)
    ensures var after := Appended(r, TaskAmended(e.revision), at).(revisions := r.revisions + [e]);
      AmendRecord(r, c, at) == Ok(after) && Loadable(after)
  {
    assert r.revisions != [];
    hide Loadable, WellFormed, AmendEnvelope;
    AmendedIsLoadable(r, c, at);
  }

  lemma GoalIsAmended()
    ensures AmendRecord(Ran(), NewGoal(), "now") == Ok(AmendedRecord()) && Loadable(AmendedRecord())
  {
    RunsOnce();
    AmendedIsValid();
    GoalAmends(TaskEnvelope());
    assert Ran().revisions == [TaskEnvelope()] && !Terminal(Ran().state);
    assert Ran().Current() == TaskEnvelope() && AmendedEnvelope().revision == 2;
    assert [TaskEnvelope()] + [AmendedEnvelope()] == [TaskEnvelope(), AmendedEnvelope()];
    hide Loadable, TaskEnvelope, Envelope.Valid, Ran, Replace, Perform, AmendEnvelope, AmendRecord;
    hide NewGoal, AmendedEnvelope, Appended;
    AmendmentIsWritten(Ran(), NewGoal(), AmendedEnvelope(), "now");
  }

  function ClosedRecord(): Record {
    Appended(AmendedRecord(), TaskFinalized(Completed, VerificationOf(JudgedReport())), "now").(state := Completed)
  }

  lemma ReportCompletes()
    ensures JudgedReport().outcome == OutcomeCompleted && JudgedReport().revision == 1
  {
    GateHolds();
    EnvelopeIsValid();
    assert Ran().Current() == TaskEnvelope() && TaskEnvelope().revision == 1 && TaskEnvelope().UniqueIds();
    JudgedRevision(Ran(), Judge(Found(), false, None, JudgedReport()));
    hide Evaluate, CompletionGate, TrustGate, TaskEnvelope, Envelope.Valid, Envelope.UniqueIds, Ran, Found, IsBlank;
    OutcomeIsTheGate(Ran(), Found(), false, None);
  }

  lemma ReportCloses()
    ensures CloseRecord(AmendedRecord(), JudgedReport(), "now") == ClosedRecord()
  {
    ReportCompletes();
    GoalIsAmended();
    assert !Terminal(AmendedRecord().state);
    hide JudgedReport, AmendRecord, Loadable, WellFormed, AmendedRecord, VerificationOf, Ran, NewGoal;
    FinalizedIsLoadable(AmendedRecord(), Completed, VerificationOf(JudgedReport()), "now");
  }

  function JudgeIt(): Step { Step(Judge(Found(), false, None, JudgedReport()), "now", WORLD) }

  /** The two steps of the Verifier and the amendment between them. */
  function Disturbed(): seq<Step> {
    [JudgeIt(), Step(Amend(NewGoal()), "now", WORLD), Step(Close, "now", WORLD)]
  }

  lemma JudgeIsLegal()
    ensures Ran().revisions != [] && LegalStep(State(Ran(), Idle), JudgeIt())
  {
    hide Evaluate, Found;
  }

  lemma Closes()
    ensures LegalRun(State(Ran(), Idle), Disturbed())
    ensures Run(State(Ran(), Idle), Disturbed()) == State(ClosedRecord(), Idle)
  {
    GoalIsAmended();
    ReportCloses();
    JudgeIsLegal();
    var s := State(Ran(), Idle);
    var judge, amend, close := JudgeIt(), Step(Amend(NewGoal()), "now", WORLD), Step(Close, "now", WORLD);
    assert AmendedRecord().revisions != [] && Disturbed() == [judge, amend, close];
    assert judge.action.Judge? && judge.action.report == JudgedReport();
    hide Evaluate, AmendRecord, CloseRecord, Loadable, AmendedRecord, ClosedRecord, Ran, JudgedReport, Found, NewGoal;
    hide Next, Run, LegalRun, JudgeIt, Disturbed;
    var s1, s2 := State(Ran(), Judged(Ran(), JudgedReport())), State(AmendedRecord(), Judged(Ran(), JudgedReport()));
    NextJudge(s, judge);
    NextAmend(s1, amend);
    NextClose(s2, close);
    RunThree(s, judge, amend, close);
  }

  lemma ClosedIsStale()
    ensures ClosedRecord().state == Completed && ClosedRecord().revisions != []
    ensures !ClosedOnCurrent(ClosedRecord()) && !NothingRequired(ClosedRecord())
  {
    ReportCompletes();
    assert VerificationOf(JudgedReport()).revision == 1;
    hide JudgedReport, VerificationOf, Ran;
    assert TaskEnvelope().acceptances[0] in ClosedRecord().Current().acceptances;
  }

  /** Without the lock a task can be completed without fresh evidence for what it requires. */
  lemma StaleTaskIsCompleted() returns (steps: seq<Step>)
    ensures WORLD.Valid() && Initial(State(Created(), Idle)) && LegalRun(State(Created(), Idle), steps)
    ensures var end := Run(State(Created(), Idle), steps).record; end.state == Completed && !Fresh(end)
  {
    var s, op := State(Created(), Idle), RunIt();
    assert WORLD.Valid() && s.record.revisions != [];
    hide *;
    CreatedIsInitial();
    RunsOnce();
    Closes();
    ClosedIsStale();
    PerformIsARun(WORLD, s.record, op, "now");
    var run := Steps(WORLD, s.record, op, "now");
    RunConcat(s, run, Disturbed());
    steps := run + Disturbed();
    CompletedIsFresh(s, steps);
  }
}
