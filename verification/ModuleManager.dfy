/** The manager that loads the lock document, edits the loaded copy and plans its replacement. */
module ModuleManagers {
  import opened Prelude
  import opened Trials
  import opened TrialRuns

  /** A reviewed replacement of the lock document. */
  datatype ModulePlan = ModulePlan(before: Lock, after: Lock)

  /** The loaded document: a private copy whose lists are edited in place. */
  class Document {
    var modules: seq<LockedItem>
    var trials: seq<Trial>

    constructor (lock: Lock)
      ensures Value() == lock
    {
      modules := lock.modules;
      trials := lock.trials;
    }

    function Value(): Lock
      reads this
    {
      Lock(modules, trials)
    }

    /** `_upsert` on the module list. */
    method Put(item: LockedItem)
      modifies this
      ensures modules == Upsert(old(modules), item) && trials == old(trials)
    {
      var kept: seq<LockedItem> := [];
      for i := 0 to |modules|
        invariant modules == old(modules) && trials == old(trials)
        invariant kept == Without(modules[..i], item.id)
      {
        assert modules[..i + 1][..i] == modules[..i];
        if modules[i].id != item.id { kept := kept + [modules[i]]; }
      }
      assert modules[..|modules|] == modules;
      modules := SortById(kept + [item]);
    }

    method AppendTrial(t: Trial)
      modifies this
      ensures trials == old(trials) + [t] && modules == old(modules)
    {
      trials := trials + [t];
    }

    method SetTrial(i: nat, t: Trial)
      requires i < |trials|
      modifies this
      ensures trials == old(trials)[i := t] && modules == old(modules)
    {
      trials := trials[i := t];
    }

    /** `_locked_item(...)["enabled"] = enabled`. */
    method SetEnabled(id: string, enabled: bool) returns (found: bool)
      modifies this
      ensures trials == old(trials)
      ensures found <==> Entry(old(modules), id).Some?
      ensures modules == WithEnabled(old(modules), id, enabled)
    {
      for i := 0 to |modules|
        invariant modules == old(modules) && trials == old(trials)
        invariant Entry(modules, id) == Entry(modules[i..], id)
        invariant WithEnabled(modules, id, enabled) == modules[..i] + WithEnabled(modules[i..], id, enabled)
      {
        hide WithEnabled, Entry;
        if modules[i].id == id {
          EnabledHere(modules, i, id, enabled);
          modules := modules[i := modules[i].(enabled := Some(enabled))];
          return true;
        }
        EnabledLater(modules, i, id, enabled);
      }
      assert modules[|modules|..] == [] && modules[..|modules|] + [] == modules;
      found := false;
    }

    /** `_active_trial`: search backwards for a trial of the module in state `trial`. */
    method FindActive(id: string) returns (found: Option<nat>)
      ensures found == ActiveTrial(trials, id)
    {
      var i := |trials|;
      assert trials[..i] == trials;
      while i > 0
        invariant i <= |trials|
        invariant ActiveTrial(trials, id) == ActiveTrial(trials[..i], id)
      {
        i := i - 1;
        assert trials[..i + 1][..i] == trials[..i];
        if trials[i].moduleId == id && trials[i].state.InTrial? { return Some(i); }
      }
      found := None;
    }

    method FindLatest(id: string) returns (found: Option<nat>)
      ensures found == LatestTrial(trials, id)
    {
      var i := |trials|;
      assert trials[..i] == trials;
      while i > 0
        invariant i <= |trials|
        invariant LatestTrial(trials, id) == LatestTrial(trials[..i], id)
      {
        i := i - 1;
        assert trials[..i + 1][..i] == trials[..i];
        if trials[i].moduleId == id { return Some(i); }
      }
      found := None;
    }

    method Restore(id: string, previous: Option<LockedItem>)
      modifies this
      ensures trials == old(trials)
      ensures modules == Without(old(modules), id) + (if previous.Some? then [previous.value] else [])
    {
      var kept: seq<LockedItem> := [];
      for i := 0 to |modules|
        invariant modules == old(modules) && trials == old(trials)
        invariant kept == Without(modules[..i], id)
      {
        assert modules[..i + 1][..i] == modules[..i];
        if modules[i].id != id { kept := kept + [modules[i]]; }
      }
      assert modules[..|modules|] == modules;
      modules := if previous.Some? then kept + [previous.value] else kept;
    }
  }

  lemma EnabledHere(items: seq<LockedItem>, i: nat, id: string, enabled: bool)
    requires i < |items| && items[i].id == id
    ensures Entry(items[i..], id).Some?
    ensures items[..i] + WithEnabled(items[i..], id, enabled) == items[i := items[i].(enabled := Some(enabled))]
  {
    assert items[i..][1..] == items[i + 1..];
  }

  lemma EnabledLater(items: seq<LockedItem>, i: nat, id: string, enabled: bool)
    requires i < |items| && items[i].id != id
    ensures Entry(items[i..], id) == Entry(items[i + 1..], id)
    ensures items[..i] + WithEnabled(items[i..], id, enabled) ==
            items[..i + 1] + WithEnabled(items[i + 1..], id, enabled)
  {
    assert items[i..][1..] == items[i + 1..];
    var later := WithEnabled(items[i + 1..], id, enabled);
    assert items[..i] + ([items[i]] + later) == items[..i + 1] + later;
  }

  /** `sum(item["overhead_ms"] for item in results)` and the count of beneficial results. */
  method Totals(results: seq<TrialResult>) returns (spent: int, beneficial: nat)
    ensures spent == Spent(results) && beneficial == Beneficial(results)
  {
    spent, beneficial := 0, 0;
    for i := 0 to |results|
      invariant spent == Spent(results[..i]) && beneficial == Beneficial(results[..i])
    {
      assert results[..i + 1][..i] == results[..i];
      spent := spent + results[i].overhead;
      if results[i].beneficial { beneficial := beneficial + 1; }
    }
    assert results[..|results|] == results;
  }

  class ModuleManager {
    var stored: Lock

    constructor (lock: Lock)
      ensures stored == lock
    {
      stored := lock;
    }

    method StartTrial(id: string, matching: int, resolved: Option<Resolved>) returns (r: Result<ModulePlan, TrialError>)
      ensures PlansLike(stored, r, PlanTrial(stored, id, matching, resolved))
    {
      hide Upsert, Entry;
      if matching < 1 { return Err(NoMatchingTask); }
      var document := new Document(stored);
      if exists k :: 0 <= k < |document.trials| && document.trials[k].moduleId == id && Open(document.trials[k]) {
        return Err(AlreadyActive);
      }
      var previous := Entry(document.modules, id);
      if resolved.None? { return Err(UnknownModule); }
      var m := resolved.value;
      document.Put(ItemFor(m, m.policy));
      document.AppendTrial(Trial(id, InTrial, matching, matching, [], previous,
                                 Budget(m.runtimeSeconds, matching), [Proposed, Approved, InTrial]));
      r := Ok(ModulePlan(stored, document.Value()));
    }

    method RecordResult(id: string, result: TrialResult) returns (r: Result<ModulePlan, TrialError>)
      ensures PlansLike(stored, r, PlanResult(stored, id, result))
    {
      if result.taskId == "" || result.evidence == "" { return Err(EmptyResult); }
      if result.overhead < 0 { return Err(NegativeOverhead); }
      var document := new Document(stored);
      var i := document.FindActive(id);
      if i.None? { return Err(NoActiveTrial); }
      var t := document.trials[i.value];
      if t.remaining == 0 { return Err(AllResultsIn); }
      if exists k :: 0 <= k < |t.results| && t.results[k].taskId == result.taskId { return Err(DuplicateTask); }
      t := t.(results := t.results + [result], remaining := t.remaining - 1);
      var spent, _ := Totals(t.results);
      if spent > t.budget { t := t.(state := Rejected, history := t.history + [Rejected]); }
      document.SetTrial(i.value, t);
      r := Ok(ModulePlan(stored, document.Value()));
    }

    method Promote(id: string) returns (r: Result<ModulePlan, TrialError>)
      ensures PlansLike(stored, r, PlanPromote(stored, id))
    {
      var document := new Document(stored);
      var i := document.FindActive(id);
      if i.None? { return Err(NoActiveTrial); }
      var t := document.trials[i.value];
      if t.remaining != 0 { return Err(TasksRemaining); }
      var _, beneficial := Totals(t.results);
      if beneficial as real <= |t.results| as real / 2.0 { return Err(NoBenefit); }
      document.SetTrial(i.value, t.(state := Promoted, history := t.history + [Promoted]));
      var found := document.SetEnabled(id, true);
      r := if found then Ok(ModulePlan(stored, document.Value())) else Err(NotLocked);
    }

    method Rollback(id: string) returns (r: Result<ModulePlan, TrialError>)
      ensures PlansLike(stored, r, PlanRollback(stored, id))
    {
      var document := new Document(stored);
      var i := document.FindLatest(id);
      if i.None? { return Err(NoTrial); }
      var t := document.trials[i.value];
      if t.state in {Rejected, RolledBack} { return Err(TrialClosed); }
      document.Restore(id, t.previous);
      document.SetTrial(i.value, t.(state := RolledBack, history := t.history + [RolledBack]));
      r := Ok(ModulePlan(stored, document.Value()));
    }

    method Enable(resolved: Option<Resolved>, policy: Option<string>) returns (r: Result<ModulePlan, TrialError>)
      ensures PlansLike(stored, r, PlanEnable(stored, resolved, policy))
    {
      if resolved.None? { return Err(UnknownModule); }
      var document := new Document(stored);
      document.Put(ItemFor(resolved.value, if policy.Some? then policy.value else resolved.value.policy));
      r := Ok(ModulePlan(stored, document.Value()));
    }

    method Disable(id: string) returns (r: Result<ModulePlan, TrialError>)
      ensures PlansLike(stored, r, PlanDisable(stored, id))
    {
      var document := new Document(stored);
      var found := document.SetEnabled(id, false);
      r := if found then Ok(ModulePlan(stored, document.Value())) else Err(NotLocked);
    }

    /** `apply`: the transaction refuses a plan whose reviewed bytes are no longer those stored. */
    method Apply(plan: ModulePlan) returns (applied: bool)
      modifies this
      ensures applied <==> plan.before == plan.after || old(stored) == plan.before
      ensures stored == AfterPlan(old(stored), plan)
    {
      if plan.before == plan.after { return true; }
      if stored != plan.before { return false; }
      stored := plan.after;
      applied := true;
    }
  }

  /** A method plans what the operation on the stored lock computes, and fails with the same error. */
  predicate PlansLike(stored: Lock, r: Result<ModulePlan, TrialError>, planned: Result<Lock, TrialError>) {
    if planned.Err? then r == Err(planned.error) else r == Ok(ModulePlan(stored, planned.value))
  }

  // ---- Plans applied late ----

  /** What `Apply` leaves stored. */
  function AfterPlan(stored: Lock, plan: ModulePlan): Lock {
    if stored == plan.before then plan.after else stored
  }

  function AfterPlans(stored: Lock, reviewed: seq<Reviewed>): Lock {
    if reviewed == [] then stored
    else AfterPlan(AfterPlans(stored, reviewed[..|reviewed| - 1]), reviewed[|reviewed| - 1].plan)
  }

  /** A plan, the operation it was made by, and how many plans had been applied when it was made. */
  datatype Reviewed = Reviewed(op: Operation, madeAfter: nat, plan: ModulePlan)

  /** Every plan was made for the lock stored at some earlier moment, and applied when it may be stale. */
  predicate MadeEarlier(stored: Lock, reviewed: seq<Reviewed>) {
    forall i :: 0 <= i < |reviewed| ==> MadeFor(stored, reviewed, i)
  }

  predicate MadeFor(stored: Lock, reviewed: seq<Reviewed>, i: nat)
    requires i < |reviewed|
  {
    && reviewed[i].madeAfter <= i && Resolves(reviewed[i].op)
    && reviewed[i].plan.before == AfterPlans(stored, reviewed[..reviewed[i].madeAfter])
    && Plan(reviewed[i].plan.before, reviewed[i].op) == Ok(reviewed[i].plan.after)
  }

  /** Any number of plans, fresh or stale, applied in any order keep the lock lawful. */
  lemma {:induction false} AppliedPlansStayLawful(stored: Lock, reviewed: seq<Reviewed>)
    requires LockOk(stored) && MadeEarlier(stored, reviewed)
    ensures LockOk(AfterPlans(stored, reviewed))
    decreases |reviewed|
  {
    if reviewed != [] {
      var n := |reviewed| - 1;
      var last := reviewed[n];
      assert MadeFor(stored, reviewed, n);
      EarlierPlans(stored, reviewed, n);
      EarlierPlans(stored, reviewed, last.madeAfter);
      hide LockOk, Plan;
      AppliedPlansStayLawful(stored, reviewed[..n]);
      AppliedPlansStayLawful(stored, reviewed[..last.madeAfter]);
      PlanKeeps(last.plan.before, last.op);
    }
  }

  lemma EarlierPlans(stored: Lock, reviewed: seq<Reviewed>, n: nat)
    requires MadeEarlier(stored, reviewed) && n <= |reviewed|
    ensures MadeEarlier(stored, reviewed[..n])
  {
    hide Plan, AfterPlans;
    forall i | 0 <= i < n ensures MadeFor(stored, reviewed[..n], i) {
      assert MadeFor(stored, reviewed, i);
      assert reviewed[..n][..reviewed[i].madeAfter] == reviewed[..reviewed[i].madeAfter];
    }
  }
}
