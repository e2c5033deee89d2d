/** `StorageMigrator.apply` and a bound write, as sequences of the steps of the storage protocol. */
module StorageMigrators {
  import opened Prelude
  import opened Storage

  datatype MigrationStep = Copy(path: Path) | Install | Switch | CleanUp

  type MigrationFaults = MigrationStep -> Fault

  datatype Applied = Migrated | MigrationRefused | MigrationFailed

  /** No step before the mode change fails. */
  predicate Undisturbed(items: map<Path, Item>, faults: MigrationFaults) {
    (forall p :: p in items ==> faults(Copy(p)).Fine?) && faults(Install).Fine? && faults(Switch).Fine?
  }

  lemma RunLast(s: State, actions: seq<Action>, a: Action)
    ensures Run(s, actions + [a]) == Next(Run(s, actions), a)
  {
    assert (actions + [a])[..|actions|] == actions;
  }

  class StorageMigrator {
    var state: State
    ghost var trace: seq<Action>
    ghost const start: State

    ghost predicate Valid()
      reads this
    {
      state == Run(start, trace) && Invariant(state)
    }

    constructor (initial: State)
      requires Initial(initial)
      ensures Valid() && state == initial && trace == [] && start == initial
    {
      state := initial;
      trace := [];
      start := initial;
    }

    /** One step of the protocol. */
    method Do(a: Action)
      requires Valid()
      modifies this
      ensures Valid() && state == Next(old(state), a) && trace == old(trace) + [a]
    {
      NextKeeps(state, a);
      RunLast(start, trace, a);
      hide Next, Run, Invariant;
      state := Next(state, a);
      trace := trace + [a];
    }

    /** `apply`: refused plans change nothing, and a plan that stands is migrated unless a step fails. */
    method Apply(plan: Plan, faults: MigrationFaults, rest: Tree) returns (r: Applied)
      requires Valid() && state.phase.Free?
      modifies this
      ensures Valid() && state.phase.Free? && state.committed == old(state).committed
      ensures r.MigrationRefused? <==> !PlanStands(old(state), plan)
      ensures r.MigrationRefused? ==> state == old(state)
      ensures r.Migrated? ==> state.mode == plan.targetMode && Held(state.trees, state.mode) == old(state).committed
      ensures r.Migrated? ==> state.trees == if plan.reuseTarget then old(state).trees
                                             else old(state).trees[plan.targetMode := old(state).committed]
      ensures PlanStands(old(state), plan) && Undisturbed(plan.items, faults) ==> r.Migrated?
      // a failed migration whose failing step had no effect leaves everything as it was
      ensures r.MigrationFailed? && !faults(Install).FailsAfter? && !faults(Switch).FailsAfter? &&
              !faults(CleanUp).FailsBefore? ==>
        state == old(state)
    {
      hide Invariant, PlanStands, Held;
      ghost var before := state;
      var stands := PlanStands(state, plan);
      Do(AcquireMigration(plan));
      assert PlanStands(state, plan) == PlanStands(before, plan) by { SameChecks(before, state, plan); }
      Do(CheckPlan);
      if !stands { return MigrationRefused; }
      if plan.reuseTarget {
        r := Reuse(plan, faults);
      } else {
        TargetIsNew(before, plan);
        var ok := CopyAndSwitch(plan, faults, rest);
        r := if ok then Migrated else MigrationFailed;
      }
      HoldsCommitted(state);
    }

    /** A rollback to a placement that still holds the same records. */
    method Reuse(plan: Plan, faults: MigrationFaults) returns (r: Applied)
      requires Valid() && state.phase == Reusing(plan)
      modifies this
      ensures Valid()
      ensures r == if faults(Switch).Fine? then Migrated else MigrationFailed
      ensures state ==
        old(state).(phase := Free, mode := if faults(Switch).FailsBefore? then old(state).mode else plan.targetMode)
      ensures Held(old(state).trees, plan.targetMode) == old(state).committed
    {
      SwitchKeeps(state, faults(Switch));
      Do(SetMode(faults(Switch)));
      r := if faults(Switch).Fine? then Migrated else MigrationFailed;
    }

    /** Copy, verify, install and switch; on a failure clean up. */
    method CopyAndSwitch(plan: Plan, faults: MigrationFaults, rest: Tree) returns (ok: bool)
      requires Valid() && state.phase == Copying(plan, map[], plan.items.Keys)
      requires state.mode == plan.sourceMode && plan.targetMode !in state.trees
      modifies this
      ensures Valid() && state.phase.Free? && state.committed == old(state).committed
      ensures ok <==> Undisturbed(plan.items, faults)
      ensures ok ==> state == old(state).(mode := plan.targetMode, phase := Free,
                                          trees := old(state).trees[plan.targetMode := old(state).committed])
      ensures !ok && !faults(Install).FailsAfter? && !faults(Switch).FailsAfter? && !faults(CleanUp).FailsBefore? ==>
        state == old(state).(phase := Free)
    {
      hide Invariant, Next, PhaseOk, Manifest;
      ghost var before := state;
      ok := CopyItems(plan, faults);
      if ok {
        ok := Verify();
        ok := InstallTarget(faults(Install));
      }
      if ok {
        ok := SwitchMode(faults(Switch));
      }
      if !ok {
        Undo(faults(CleanUp), rest);
        assert before.trees[plan.targetMode := before.committed] - {plan.targetMode} == before.trees;
      }
    }

    method InstallTarget(f: Fault) returns (ok: bool)
      requires Valid() && state.phase.Verified?
      modifies this
      ensures Valid() && ok == f.Fine?
      ensures var p := old(state).phase.plan;
        state == old(state).(trees := if f.FailsBefore? then old(state).trees
                                      else old(state).trees[p.targetMode := old(state).phase.temporary],
                             phase := if ok then Installed(p) else Failing(p, false))
    {
      Do(Rename(f));
      ok := f.Fine?;
    }

    method SwitchMode(f: Fault) returns (ok: bool)
      requires Valid() && state.phase.Installed?
      modifies this
      ensures Valid() && ok == f.Fine?
      ensures var p := old(state).phase.plan;
        state == old(state).(mode := if f.FailsBefore? then old(state).mode else p.targetMode,
                             phase := if ok then Free else Failing(p, true))
    {
      Do(SetMode(f));
      ok := f.Fine?;
    }

    /** The `except` block: the target is only deleted while the stored mode still names the source. */
    method Undo(f: Fault, rest: Tree)
      requires Valid() && state.phase.Failing?
      modifies this
      ensures Valid() && state.phase.Free? && state.mode == old(state).mode && state.committed == old(state).committed
      ensures var p, installed := old(state).phase.plan, old(state).phase.installed;
        !f.FailsBefore? ==>
          state.trees == if installed && old(state).mode == p.sourceMode then old(state).trees - {p.targetMode}
            else old(state).trees
    {
      Do(Cleanup(f, rest));
    }

    /** `_copy_items`: one file after the other, until one cannot be copied. */
    method CopyItems(plan: Plan, faults: MigrationFaults) returns (ok: bool)
      requires Valid() && state.phase == Copying(plan, map[], plan.items.Keys)
      modifies this
      ensures Valid() && state == old(state).(phase := state.phase)
      ensures ok <==> forall p :: p in plan.items ==> faults(Copy(p)).Fine?
      ensures ok ==> state.phase.Copying? && state.phase.plan == plan && state.phase.left == {}
      ensures !ok ==> state.phase == Failing(plan, false)
    {
      ghost var before := state;
      while state.phase.left != {}
        invariant Valid() && state == before.(phase := state.phase)
        invariant state.phase.Copying? && state.phase.plan == plan && state.phase.left <= plan.items.Keys
        invariant forall p :: p in plan.items && p !in state.phase.left ==> faults(Copy(p)).Fine?
        decreases |state.phase.left|
      {
        var p :| p in state.phase.left;
        SourceHas(state, p);
        Do(CopyOne(p, faults(Copy(p))));
        if !faults(Copy(p)).Fine? { return false; }
      }
      ok := true;
    }

    /** The copy is compared with the reviewed manifest; after a complete copy that always holds. */
    method Verify() returns (ok: bool)
      requires Valid() && state.phase.Copying? && state.phase.left == {}
      modifies this
      ensures Valid() && ok
      ensures state == old(state).(phase := Verified(old(state).phase.plan, old(state).committed))
    {
      CompleteCopyVerifies(state);
      ok := Manifest(state.phase.temporary) == Ok(state.phase.plan.items);
      Do(VerifyCopy);
    }

    /** A writer bound to `root` writes one file under the lock, if the placement is still its own. */
    method WriteBound(root: Place, path: Path, entry: Entry) returns (written: bool)
      requires Valid() && state.phase.Free?
      modifies this
      ensures Valid() && state.phase.Free?
      ensures written <==> root == At(old(state).mode)
      ensures state == if !written then old(state)
                       else old(state).(trees := old(state).trees[old(state).mode :=
                                                                  old(state).committed[path := entry]],
                                        committed := old(state).committed[path := entry])
    {
      Do(AcquireWriter(root));
      Do(CheckBinding);
      written := state.phase.Writing?;
      if written {
        Do(Put(path, entry));
        Do(Release);
      }
    }
  }

  lemma HoldsCommitted(s: State)
    requires Invariant(s)
    ensures Held(s.trees, s.mode) == s.committed
  {
  }

  lemma SameChecks(a: State, b: State, plan: Plan)
    requires b == a.(phase := b.phase)
    ensures PlanStands(a, plan) == PlanStands(b, plan)
  {
  }

  lemma TargetIsNew(s: State, plan: Plan)
    requires PlanStands(s, plan) && !plan.reuseTarget
    ensures s.mode == plan.sourceMode && plan.targetMode !in s.trees
  {
  }

  lemma SourceHas(s: State, p: Path)
    requires Invariant(s) && s.phase.Copying? && p in s.phase.left
    ensures p in Held(s.trees, s.mode)
  {
    var source := Held(s.trees, s.mode);
    assert Manifest(source).value.Keys <= source.Keys;
  }
}
