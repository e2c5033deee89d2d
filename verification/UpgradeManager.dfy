/** The manager that records a recovery point before it applies an upgrade, and marks it after a rollback. */
module UpgradeManagers {
  import opened Prelude
  import opened Transaction
  import opened RepositoryTransactions
  import opened Upgrades

  datatype UpgradePlan = UpgradePlan(isUpgrade: bool, recoveryId: string, changes: seq<Change>)

  /** How far an operation got: refused at once, nothing to do, stopped before the transaction, or through it. */
  datatype Progress = WrongPlan | NoChange | Stopped(recorded: bool) | Through(outcome: Outcome, marked: bool)

  class UpgradeManager {
    const transaction: RepositoryTransaction
    var points: map<string, Recovery>
    /** The changes each recovery point was made from. */
    ghost var made: map<string, seq<Change>>

    ghost predicate Valid()
      reads this
    {
      && made.Keys == points.Keys
      && forall id :: id in points ==>
        points[id].id == id && Reviewed(made[id]) && points[id].changes == ItemsOf(made[id])
    }

    constructor (transaction: RepositoryTransaction)
      ensures this.transaction == transaction && points == map[] && Valid()
    {
      this.transaction := transaction;
      points := map[];
      made := map[];
    }

    /** `_changes`. */
    method CollectChanges(candidates: seq<Candidate>) returns (changes: seq<Change>)
      ensures changes == ChangesFor(transaction.disk, candidates)
    {
      changes := [];
      for i := 0 to |candidates|
        invariant changes == ChangesFor(transaction.disk, candidates[..i])
      {
        assert candidates[..i + 1][..i] == candidates[..i];
        var before := ContentAt(transaction.disk, candidates[i].path);
        if before != Some(candidates[i].after) {
          changes := changes + [Change(candidates[i].path, before, candidates[i].after)];
        }
      }
      assert candidates[..|candidates|] == candidates;
    }

    /** `apply`: the recovery point is on disk before the first file changes. */
    method Apply(plan: UpgradePlan, transactionId: string) returns (p: Progress)
      requires Valid() && Reviewed(plan.changes)
      modifies this, transaction
      ensures Valid()
      ensures p.WrongPlan? <==> !plan.isUpgrade
      ensures p.NoChange? <==> plan.isUpgrade && plan.changes == []
      ensures p.Through? ==>
        ApplyRelation(old(transaction.disk), transaction.disk, plan.changes, p.outcome) && !p.marked
      ensures !p.Through? ==> transaction.disk == old(transaction.disk)
      ensures points == if p.Through? || (p.Stopped? && p.recorded)
                        then old(points)[plan.recoveryId := Recovery(plan.recoveryId, false, ItemsOf(plan.changes))]
                        else old(points)
    {
      if !plan.isUpgrade { return WrongPlan; }
      if plan.changes == [] { return NoChange; }
      var recorded := *;
      if recorded {
        points := points[plan.recoveryId := Recovery(plan.recoveryId, false, ItemsOf(plan.changes))];
        made := made[plan.recoveryId := plan.changes];
      }
      var stops := *;
      if stops || !recorded { return Stopped(recorded); }
      var o := transaction.Apply(plan.changes, transactionId);
      p := Through(o, false);
    }

    /** `plan_rollback` of a named point: the first file that cannot be rolled back decides the error. */
    method PlanRollbackOf(id: string) returns (r: Result<UpgradePlan, RollbackError>)
      ensures var planned := PlanRollback(transaction.disk, points, id);
        r == if planned.Err? then Err(planned.error) else Ok(UpgradePlan(false, points[id].id, planned.value))
    {
      if !SafeId(id) { return Err(UnsafeId); }
      if id !in points { return Err(UnknownPoint); }
      if points[id].rolledBack { return Err(AlreadyRolledBack); }
      var items := points[id].changes;
      var changes: seq<Change> := [];
      for i := 0 to |items|
        invariant RollbackChanges(transaction.disk, items[..i]) == Ok(changes)
      {
        assert items[..i + 1][..i] == items[..i];
        var next := RollbackItem(transaction.disk, items[i]);
        if next.Err? {
          EarlyError(transaction.disk, items, i, next.error);
          return Err(next.error);
        }
        changes := changes + next.value;
      }
      assert items[..|items|] == items;
      r := Ok(UpgradePlan(false, points[id].id, changes));
    }

    /** `apply_rollback`: the point is marked only after the files are back. */
    method ApplyRollback(plan: UpgradePlan, transactionId: string) returns (p: Progress)
      requires Valid() && Reviewed(plan.changes)
      modifies this, transaction
      ensures Valid()
      ensures p.WrongPlan? <==> plan.isUpgrade
      ensures p.WrongPlan? ==> transaction.disk == old(transaction.disk)
      ensures p.WrongPlan? || p.Through?
      ensures p.Through? ==> ApplyRelation(old(transaction.disk), transaction.disk, plan.changes, p.outcome)
      ensures p.Through? && p.marked ==>
        && (p.outcome.Applied? || p.outcome.Nothing?) && SafeId(plan.recoveryId) && plan.recoveryId in old(points)
        && points == old(points)[plan.recoveryId := old(points)[plan.recoveryId].(rolledBack := true)]
      ensures (p.Through? && !p.marked) || p.WrongPlan? ==> points == old(points)
    {
      if plan.isUpgrade { return WrongPlan; }
      var o := transaction.Apply(plan.changes, transactionId);
      if !o.Applied? && !o.Nothing? { return Through(o, false); }
      if !SafeId(plan.recoveryId) || plan.recoveryId !in points { return Through(o, false); }
      var marked := *;
      if marked { points := points[plan.recoveryId := points[plan.recoveryId].(rolledBack := true)]; }
      p := Through(o, marked);
    }
  }

  lemma {:induction false} EarlyError(d: Disk, items: seq<RecoveryItem>, i: nat, e: RollbackError)
    requires i < |items| && RollbackChanges(d, items[..i]).Ok? && RollbackItem(d, items[i]) == Err(e)
    ensures RollbackChanges(d, items) == Err(e)
    decreases |items|
  {
    var n := |items| - 1;
    if i < n {
      assert items[..n][..i] == items[..i];
      EarlyError(d, items[..n], i, e);
    }
  }

  /** A marked point is refused, and so is one whose files are back though the mark was lost. */
  lemma WorksAtMostOnce(d: Disk, points: map<string, Recovery>, id: string, changes: seq<Change>)
    requires id in points && points[id].changes == ItemsOf(changes)
    requires Reviewed(changes) && changes != [] && Undoable(changes)
    requires points[id].rolledBack || forall i :: 0 <= i < |changes| ==>
      ContentAt(d, changes[i].path) == changes[i].before
    ensures PlanRollback(d, points, id).Err?
    ensures SafeId(id) && !points[id].rolledBack ==> PlanRollback(d, points, id) == Err(FileChanged)
  {
    if !points[id].rolledBack { RolledBackOnce(d, changes); }
  }
}
