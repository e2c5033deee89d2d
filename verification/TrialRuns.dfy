/** What every reachable module lock satisfies. */
module TrialRuns {
  import opened Prelude
  import opened Trials

  datatype Operation =
    | StartTrial(id: string, matching: int, resolved: Option<Resolved>)
    | RecordResult(id: string, result: TrialResult)
    | Promote(id: string)
    | Rollback(id: string)
    | Enable(resolved: Option<Resolved>, policy: Option<string>)
    | Disable(id: string)

  function Plan(d: Lock, op: Operation): Result<Lock, TrialError> {
    match op
    case StartTrial(id, matching, resolved) => PlanTrial(d, id, matching, resolved)
    case RecordResult(id, result) => PlanResult(d, id, result)
    case Promote(id) => PlanPromote(d, id)
    case Rollback(id) => PlanRollback(d, id)
    case Enable(resolved, policy) => PlanEnable(d, resolved, policy)
    case Disable(id) => PlanDisable(d, id)
  }

  /** The registry returns the manifest of the module asked for, with a cost that is not negative. */
  predicate Resolves(op: Operation) {
    op.StartTrial? && op.resolved.Some? ==> op.resolved.value.id == op.id && op.resolved.value.runtimeSeconds >= 0.0
  }

  function Perform(d: Lock, op: Operation): Lock {
    if Plan(d, op).Ok? then Plan(d, op).value else d
  }

  function Run(d: Lock, ops: seq<Operation>): Lock {
    if ops == [] then d else Perform(Run(d, ops[..|ops| - 1]), ops[|ops| - 1])
  }

  // ---- The invariant ----

  const STARTED := [Proposed, Approved, InTrial]

  predicate HistoryOk(t: Trial) {
    match t.state
    case InTrial => t.history == STARTED
    case Promoted => t.history == STARTED + [Promoted]
    case Rejected => t.history == STARTED + [Rejected]
    case RolledBack => t.history == STARTED + [RolledBack] || t.history == STARTED + [Promoted] + [RolledBack]
    case _ => false
  }

  predicate DistinctTasks(results: seq<TrialResult>) {
    forall i, j :: 0 <= i < j < |results| ==> results[i].taskId != results[j].taskId
  }

  predicate TrialOk(t: Trial) {
    && t.matching >= 1 && t.remaining >= 0 && t.remaining + |t.results| == t.matching
    && DistinctTasks(t.results)
    && (t.state.Rejected? <==> Spent(t.results) > t.budget)
    && (t.state.Promoted? ==> t.remaining == 0 && 2 * Beneficial(t.results) > |t.results|)
    && HistoryOk(t)
    && (t.previous.Some? ==> t.previous.value.id == t.moduleId)
  }

  predicate Closed(t: Trial) { t.state in {Rejected, RolledBack} }

  /** Only the latest trial of a module can be open. */
  predicate LatestOnly(trials: seq<Trial>) {
    forall i, j :: 0 <= i < j < |trials| && trials[i].moduleId == trials[j].moduleId ==> Closed(trials[i])
  }

  predicate OpenIsLocked(d: Lock) {
    forall i :: 0 <= i < |d.trials| && Open(d.trials[i]) ==> Entry(d.modules, d.trials[i].moduleId).Some?
  }

  predicate LockOk(d: Lock) {
    && UniqueIds(d.modules)
    && (forall i :: 0 <= i < |d.trials| ==> TrialOk(d.trials[i]))
    && LatestOnly(d.trials)
    && OpenIsLocked(d)
  }

  // ---- Each operation keeps it ----

  lemma TrialStarts(d: Lock, op: Operation)
    requires LockOk(d) && op.StartTrial? && Resolves(op) && Plan(d, op).Ok?
    ensures LockOk(Plan(d, op).value)
  {
    var m := op.resolved.value;
    NewTrialIsOk(d, op.id, op.matching, m);
    UpsertMeaning(d.modules, ItemFor(m, m.policy));
    hide Upsert, Entry, NewTrial, TrialOk, ItemFor;
    var after := Plan(d, op).value;
    AppendKeeps(d, NewTrial(d, op.id, op.matching, m), after.modules);
  }

  lemma NewTrialIsOk(d: Lock, id: string, matching: int, m: Resolved)
    requires m.runtimeSeconds >= 0.0 && matching >= 1
    ensures TrialOk(NewTrial(d, id, matching, m)) && NewTrial(d, id, matching, m).moduleId == id
  {
    BudgetIsNatural(m.runtimeSeconds, matching);
    EntryMeaning(d.modules, id);
    hide Entry, Budget;
  }

  /** Appending the one open trial of a module that had none. */
  lemma AppendKeeps(d: Lock, t: Trial, modules: seq<LockedItem>)
    requires LockOk(d) && TrialOk(t) && UniqueIds(modules) && Entry(modules, t.moduleId).Some?
    requires forall k :: 0 <= k < |d.trials| && d.trials[k].moduleId == t.moduleId ==> !Open(d.trials[k])
    requires forall id :: id != t.moduleId ==> Entry(modules, id) == Entry(d.modules, id)
    ensures LockOk(Lock(modules, d.trials + [t]))
  {
    hide Entry;
    forall k | 0 <= k < |d.trials| ensures !Open(d.trials[k]) ==> Closed(d.trials[k]) { assert TrialOk(d.trials[k]); }
    hide TrialOk, Open, Closed;
    var after := d.trials + [t];
    assert forall k :: 0 <= k < |d.trials| ==> after[k] == d.trials[k];
  }

  lemma BudgetIsNatural(seconds: real, matching: int)
    requires seconds >= 0.0 && matching >= 1
    ensures Budget(seconds, matching) >= 0
  {
    assert seconds * 1000.0 >= 0.0;
    assert seconds * 1000.0 * (matching as real) >= 0.0;
  }

  lemma ResultKeepsTrial(t: Trial, r: TrialResult)
    requires TrialOk(t) && t.state.InTrial? && t.remaining != 0
    requires forall k :: 0 <= k < |t.results| ==> t.results[k].taskId != r.taskId
    ensures TrialOk(WithResult(t, r))
  {
  }

  /** Replacing one open trial by one of the same module that is no more open than it. */
  lemma ReplaceKeeps(d: Lock, i: nat, t: Trial, modules: seq<LockedItem>)
    requires LockOk(d) && i < |d.trials| && Open(d.trials[i])
    requires TrialOk(t) && t.moduleId == d.trials[i].moduleId
    requires UniqueIds(modules)
    requires Open(t) ==> Entry(modules, t.moduleId).Some?
    requires forall id :: id != t.moduleId ==> Entry(modules, id) == Entry(d.modules, id)
    ensures LockOk(Lock(modules, d.trials[i := t]))
  {
    hide TrialOk, Entry;
    forall k | 0 <= k < |d.trials| && k != i && d.trials[k].moduleId == t.moduleId ensures !Open(d.trials[k]) {
      if k < i { assert Closed(d.trials[k]); }
    }
  }

  lemma ResultRecorded(d: Lock, op: Operation)
    requires LockOk(d) && op.RecordResult? && Plan(d, op).Ok?
    ensures LockOk(Plan(d, op).value)
  {
    var i := ActiveTrial(d.trials, op.id).value;
    ResultKeepsTrial(d.trials[i], op.result);
    ReplaceKeeps(d, i, WithResult(d.trials[i], op.result), d.modules);
  }

  lemma TrialPromoted(d: Lock, op: Operation)
    requires LockOk(d) && op.Promote? && Plan(d, op).Ok?
    ensures LockOk(Plan(d, op).value)
  {
    var i := ActiveTrial(d.trials, op.id).value;
    WithEnabledMeaning(d.modules, op.id, true);
    ReplaceKeeps(d, i, d.trials[i].(state := Promoted, history := d.trials[i].history + [Promoted]),
                 WithEnabled(d.modules, op.id, true));
  }

  lemma TrialRolledBack(d: Lock, op: Operation)
    requires LockOk(d) && op.Rollback? && Plan(d, op).Ok?
    ensures LockOk(Plan(d, op).value)
    ensures var t := d.trials[LatestTrial(d.trials, op.id).value];
      && Entry(Plan(d, op).value.modules, op.id) == t.previous
      && forall other :: other != op.id ==> Entry(Plan(d, op).value.modules, other) == Entry(d.modules, other)
  {
    var i := LatestTrial(d.trials, op.id).value;
    var t := d.trials[i];
    assert TrialOk(t);
    RollbackMeaning(d.modules, op.id, t.previous);
    ReplaceKeeps(d, i, t.(state := RolledBack, history := t.history + [RolledBack]), Plan(d, op).value.modules);
  }

  lemma ModulesChanged(d: Lock, op: Operation)
    requires LockOk(d) && (op.Enable? || op.Disable?) && Plan(d, op).Ok?
    ensures LockOk(Plan(d, op).value)
  {
    if op.Enable? {
      var m := op.resolved.value;
      UpsertMeaning(d.modules, ItemFor(m, if op.policy.Some? then op.policy.value else m.policy));
    } else {
      WithEnabledMeaning(d.modules, op.id, false);
    }
    hide TrialOk, Upsert, Entry, WithEnabled;
  }

  lemma PlanKeeps(d: Lock, op: Operation)
    requires LockOk(d) && Resolves(op) && Plan(d, op).Ok?
    ensures LockOk(Plan(d, op).value)
  {
    hide Plan, LockOk;
    match op {
      case StartTrial(_, _, _) => TrialStarts(d, op);
      case RecordResult(_, _) => ResultRecorded(d, op);
      case Promote(_) => TrialPromoted(d, op);
      case Rollback(_) => TrialRolledBack(d, op);
      case _ => ModulesChanged(d, op);
    }
  }

  /** In every reachable lock the invariant holds. */
  lemma {:induction false} RunKeeps(d: Lock, ops: seq<Operation>)
    requires LockOk(d) && forall i :: 0 <= i < |ops| ==> Resolves(ops[i])
    ensures LockOk(Run(d, ops))
  {
    if ops != [] {
      hide LockOk, Plan;
      var n := |ops| - 1;
      RunKeeps(d, ops[..n]);
      if Plan(Run(d, ops[..n]), ops[n]).Ok? { PlanKeeps(Run(d, ops[..n]), ops[n]); }
    }
  }

  // ---- Consequences ----

  /** A module has at most one open trial, and the active trial found is its latest. */
  lemma OpenTrialIsLatest(d: Lock, i: nat)
    requires LockOk(d) && i < |d.trials| && Open(d.trials[i])
    ensures LatestTrial(d.trials, d.trials[i].moduleId) == Some(i)
    ensures forall j :: 0 <= j < |d.trials| && j != i && d.trials[j].moduleId == d.trials[i].moduleId ==>
      !Open(d.trials[j])
    ensures d.trials[i].state.InTrial? <==> ActiveTrial(d.trials, d.trials[i].moduleId) == Some(i)
  {
    var id := d.trials[i].moduleId;
    forall j | 0 <= j < |d.trials| && j != i && d.trials[j].moduleId == id ensures j < i && Closed(d.trials[j]) {
      assert i < j ==> Closed(d.trials[i]);
    }
  }

  /** In a reachable lock a promotion never fails for want of an entry. */
  lemma PromotionFindsItsModule(d: Lock, id: string)
    requires LockOk(d)
    ensures PlanPromote(d, id) != Err(NotLocked)
  {
  }

  /** What the pre-trial entry of each recorded trial is never changes. */
  lemma PreviousIsFixed(d: Lock, op: Operation, k: nat)
    requires k < |d.trials|
    ensures k < |Perform(d, op).trials|
    ensures Perform(d, op).trials[k].previous == d.trials[k].previous
    ensures Perform(d, op).trials[k].moduleId == d.trials[k].moduleId
  {
    hide Upsert, Without, WithEnabled;
  }

  lemma {:induction false} PreviousStaysFixed(d: Lock, ops: seq<Operation>, k: nat)
    requires k < |d.trials|
    ensures k < |Run(d, ops).trials|
    ensures Run(d, ops).trials[k].previous == d.trials[k].previous
  {
    if ops != [] {
      hide Perform;
      PreviousStaysFixed(d, ops[..|ops| - 1], k);
      PreviousIsFixed(Run(d, ops[..|ops| - 1]), ops[|ops| - 1], k);
    }
  }

  /** Rolling back a trial, whatever happened since it started, restores the entry its module had before it. */
  lemma RollbackRestoresPreTrialEntry(d: Lock, start: Operation, ops: seq<Operation>)
    requires LockOk(d) && start.StartTrial? && Resolves(start) && Plan(d, start).Ok?
    requires forall i :: 0 <= i < |ops| ==> Resolves(ops[i])
    requires var later := Run(Plan(d, start).value, ops);
      LatestTrial(later.trials, start.id) == Some(|d.trials|) && PlanRollback(later, start.id).Ok?
    ensures var later := Run(Plan(d, start).value, ops);
      var after := PlanRollback(later, start.id).value;
      && Entry(after.modules, start.id) == Entry(d.modules, start.id)
      && forall other :: other != start.id ==> Entry(after.modules, other) == Entry(later.modules, other)
  {
    hide LockOk, Run, Entry, Without;
    var began := Plan(d, start).value;
    PlanKeeps(d, start);
    assert |began.trials| == |d.trials| + 1 && began.trials[|d.trials|].previous == Entry(d.modules, start.id);
    hide Plan, PlanRollback, LatestTrial;
    RunKeeps(began, ops);
    PreviousStaysFixed(began, ops, |d.trials|);
    PlanOfRollback(Run(began, ops), start.id);
    TrialRolledBack(Run(began, ops), Rollback(start.id));
  }

  lemma PlanOfRollback(d: Lock, id: string)
    ensures Plan(d, Rollback(id)) == PlanRollback(d, id)
  {
  }
}
