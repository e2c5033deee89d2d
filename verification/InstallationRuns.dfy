/** What updates and rollbacks amount to together. */
module InstallationRuns {
  import opened Prelude
  import opened Installation
  import opened SelfManagers

  /** The manifest an update writes always passes the checks of a rollback. */
  lemma UpdatedCanRollBack(before: Disk, after: Disk, version: string, archive: Archive,
                           staged: string, pending: set<string>)
    requires UpdateRelation(before, after, version, archive, staged, pending)
    ensures RollbackPossible(after)
    ensures RuntimeSlot(after, after.previous) == RuntimeSlot(before, before.current)
  {
    var m, active := VerifiedManifest(before).value, RuntimeSlot(before, before.current).value;
    assert RuntimeSlot(after, after.previous) == Some(active);
    assert RuntimeSlot(after, after.current) == Some(staged);
    assert Verifies(after, m, active);
  }

  /** An update followed by a rollback is an inverse on everything that is not a leftover. */
  lemma RollbackInvertsUpdate(before: Disk, updated: Disk, after: Disk, version: string,
                              archive: Archive, staged: string,
                              retired: set<string>, pending: set<string>)
    requires UpdateRelation(before, updated, version, archive, staged, retired)
    requires RollbackRelation(updated, after, pending)
    ensures after.current == before.current && after.launcher == before.launcher
    ensures VerifiedManifest(after) == VerifiedManifest(before)
    ensures after.previous == NoPointer
    ensures var active := RuntimeSlot(before, before.current).value;
      after.slots[active] == before.slots[active]
    ensures pending <= {staged}
    ensures after.slots.Keys - pending - retired ==
            before.slots.Keys - Removable(RuntimeSlot(before, before.previous),
                                          RuntimeSlot(before, before.current).value) - retired
  {
    UpdatedCanRollBack(before, updated, version, archive, staged, retired);
    var active, older := RuntimeSlot(before, before.current).value, RuntimeSlot(before, before.previous);
    assert before.current == SlotPath(active);
    assert RuntimeSlot(updated, updated.current) == Some(staged);
    assert after.slots.Keys - pending == updated.slots.Keys - {staged};
    var gone := Removable(older, active);
    assert updated.slots.Keys - retired == (before.slots.Keys + {staged}) - gone;
    assert (updated.slots.Keys - {staged}) - retired == (updated.slots.Keys - retired) - {staged}
      == before.slots.Keys - gone;
    assert retired <= gone;
    assert (before.slots.Keys - gone) - retired == before.slots.Keys - gone;
  }

  // ---- Runs of successful operations ----

  datatype Change =
    | Updated(version: string, archive: Archive, staged: string, pending: set<string>)
    | RolledBack(pending: set<string>)

  predicate Changes(before: Disk, after: Disk, c: Change) {
    match c
    case Updated(version, archive, staged, pending) => UpdateRelation(before, after, version, archive, staged, pending)
    case RolledBack(pending) => RollbackRelation(before, after, pending)
  }

  /** `disks` are the states between the successful operations `changes`. */
  predicate History(disks: seq<Disk>, changes: seq<Change>) {
    && |disks| == |changes| + 1
    && forall i :: 0 <= i < |changes| ==> Changes(disks[i], disks[i + 1], changes[i])
  }

  /** The slots reported as cleanup pending. */
  function Pending(changes: seq<Change>): set<string> {
    if changes == [] then {} else Pending(changes[..|changes| - 1]) + changes[|changes| - 1].pending
  }

  lemma UpdateKeepsSlots(before: Disk, after: Disk, version: string, archive: Archive,
                         staged: string, pending: set<string>)
    requires Healthy(before) && UpdateRelation(before, after, version, archive, staged, pending)
    ensures Healthy(after) && Named(after) <= after.slots.Keys
    ensures after.slots.Keys - Named(after) <= (before.slots.Keys - Named(before)) + pending
    ensures VerifiedManifest(after).value.identity == VerifiedManifest(before).value.identity
  {
    UpdatedCanRollBack(before, after, version, archive, staged, pending);
    var active, older := RuntimeSlot(before, before.current).value, RuntimeSlot(before, before.previous);
    assert RuntimeSlot(after, after.current) == Some(staged);
    assert Named(after) == {staged, active};
    assert Named(before) == {active} + if older.Some? then {older.value} else {};
    assert after.slots.Keys - pending == (before.slots.Keys + {staged}) - Removable(older, active);
    forall x | x in after.slots.Keys - Named(after) && x !in pending ensures x in before.slots.Keys - Named(before) {
      assert x in after.slots.Keys - pending;
    }
  }

  lemma RollbackKeepsSlots(before: Disk, after: Disk, pending: set<string>)
    requires Healthy(before) && RollbackRelation(before, after, pending)
    ensures Healthy(after) && Named(after) <= after.slots.Keys
    ensures after.slots.Keys - Named(after) <= (before.slots.Keys - Named(before)) + pending
    ensures VerifiedManifest(after).value.identity == VerifiedManifest(before).value.identity
  {
    var active, target := RuntimeSlot(before, before.current).value, RuntimeSlot(before, before.previous).value;
    assert RuntimeSlot(after, after.previous) == None && RuntimeSlot(after, after.current) == Some(target);
    assert Named(after) == {target} && Named(before) == {active, target};
    assert after.slots.Keys - pending == before.slots.Keys - {active};
    forall x | x in after.slots.Keys - Named(after) && x !in pending ensures x in before.slots.Keys - Named(before) {
      assert x in after.slots.Keys - pending;
    }
  }

  lemma ChangeKeepsSlots(before: Disk, after: Disk, c: Change)
    requires Healthy(before) && Changes(before, after, c)
    ensures Healthy(after) && Named(after) <= after.slots.Keys
    ensures after.slots.Keys - Named(after) <= (before.slots.Keys - Named(before)) + c.pending
    ensures VerifiedManifest(after).value.identity == VerifiedManifest(before).value.identity
    ensures after.launcher == before.launcher
  {
    match c
    case Updated(version, archive, staged, pending) =>
      UpdateKeepsSlots(before, after, version, archive, staged, pending);
    case RolledBack(pending) =>
      RollbackKeepsSlots(before, after, pending);
  }

  /** Over any run the slots are current, previous and those reported as pending, and nothing named is ever missing. */
  lemma {:induction false} RunKeepsSlots(disks: seq<Disk>, changes: seq<Change>)
    requires History(disks, changes)
    requires Healthy(disks[0]) && disks[0].slots.Keys == Named(disks[0])
    ensures var d := disks[|changes|];
      && Healthy(d)
      && Named(d) <= d.slots.Keys <= Named(d) + Pending(changes)
      && d.launcher == disks[0].launcher
      && VerifiedManifest(d).value.identity == VerifiedManifest(disks[0]).value.identity
    decreases |changes|
  {
    if changes != [] {
      var n := |changes| - 1;
      RunKeepsSlots(disks[..n + 1], changes[..n]);
      ChangeKeepsSlots(disks[n], disks[n + 1], changes[n]);
    }
  }

  /** Without leftovers the slots are exactly the named ones. */
  lemma RunWithoutLeftovers(disks: seq<Disk>, changes: seq<Change>)
    requires History(disks, changes) && Pending(changes) == {}
    requires Healthy(disks[0]) && disks[0].slots.Keys == Named(disks[0])
    ensures disks[|changes|].slots.Keys == Named(disks[|changes|])
  {
    RunKeepsSlots(disks, changes);
  }

  // ---- What the rollback's late flags cost ----

  /** A failed rollback either leaves everything as it began, or cannot be repeated: the pointers name one version. */
  lemma FailedRollbackIsUndoneOrFinal(before: Disk, faults: Faults)
    requires RollbackPossible(before) && !RollbackCommits(faults)
    ensures var now := FailedRollback(before, faults);
      && (now == before <==> FailureUndone(faults))
      && (RollbackPossible(now) <==> now == before)
      && VerifiedManifest(now).Some?
  {
    var now := FailedRollback(before, faults);
    var active, target := RuntimeSlot(before, before.current).value, RuntimeSlot(before, before.previous).value;
    assert before.current == SlotPath(active) && before.previous == SlotPath(target);
    if now.current == before.previous {
      assert RuntimeSlot(now, now.current) == Some(target);
      assert Verifies(now, before.slots[target].manifest.value, target);
    }
  }

  /** A switch that raises after its effect is not undone: the other version stays current and verified. */
  lemma LateSwitchIsNotUndone(before: Disk, faults: Faults)
    requires RollbackPossible(before) && faults(SwitchCurrent).FailsAfter?
    ensures !RollbackCommits(faults)
    ensures var now := FailedRollback(before, faults);
      && now == before.(current := before.previous) && now != before
      && VerifiedManifest(now) == before.slots[RuntimeSlot(before, before.previous).value].manifest
      && !RollbackPossible(now)
  {
    var now := FailedRollback(before, faults);
    var target := RuntimeSlot(before, before.previous).value;
    assert RuntimeSlot(now, now.current) == Some(target);
    assert Verifies(now, before.slots[target].manifest.value, target);
  }
}
