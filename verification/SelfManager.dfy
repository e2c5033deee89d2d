/** Update, rollback and their recovery, step by step under injected faults. */
module SelfManagers {
  import opened Prelude
  import opened Installation

  class SelfManager {
    var disk: Disk

    constructor (disk: Disk)
      ensures this.disk == disk
    {
      this.disk := disk;
    }

    /** `_atomic_runtime_pointer(runtime, ...)`. */
    method PointCurrent(slot: string, f: Fault) returns (raised: bool)
      modifies this
      ensures disk == if f.FailsBefore? then old(disk) else old(disk).(current := SlotPath(slot))
      ensures raised == !f.Fine?
    {
      if !f.FailsBefore? { disk := disk.(current := SlotPath(slot)); }
      raised := !f.Fine?;
    }

    /** `_atomic_runtime_pointer(backup, ...)`. */
    method PointPrevious(slot: string, f: Fault) returns (raised: bool)
      modifies this
      ensures disk == if f.FailsBefore? then old(disk) else old(disk).(previous := SlotPath(slot))
      ensures raised == !f.Fine?
    {
      if !f.FailsBefore? { disk := disk.(previous := SlotPath(slot)); }
      raised := !f.Fine?;
    }

    method UnlinkPrevious(f: Fault) returns (raised: bool)
      modifies this
      ensures disk == if f.FailsBefore? then old(disk) else old(disk).(previous := NoPointer)
      ensures raised == !f.Fine?
    {
      if !f.FailsBefore? { disk := disk.(previous := NoPointer); }
      raised := !f.Fine?;
    }

    /** `rmtree` of a slot; failing early it may have removed any part of the contents. */
    method RemoveSlot(slot: string, f: Fault) returns (raised: bool)
      requires slot in disk.slots
      modifies this
      ensures disk == old(disk).(slots := if f.FailsBefore? then old(disk).slots[slot := Directory(None, None)]
                                          else old(disk).slots - {slot})
      ensures raised == !f.Fine?
    {
      disk := disk.(slots := if f.FailsBefore? then disk.slots[slot := Directory(None, None)] else disk.slots - {slot});
      raised := !f.Fine?;
    }

    method WriteSlot(slot: string, content: Slot, f: Fault) returns (raised: bool)
      modifies this
      ensures disk == if f.FailsBefore? then old(disk) else old(disk).(slots := old(disk).slots[slot := content])
      ensures raised == !f.Fine?
    {
      if !f.FailsBefore? { disk := disk.(slots := disk.slots[slot := content]); }
      raised := !f.Fine?;
    }

    /** The new slot, once extracted and given its manifest. */
    static function NewSlot(m: Manifest, version: string, archive: Archive): Slot {
      if archive.executable.None? then Directory(None, None)
      else Directory(archive.executable, Some(UpdatedManifest(m, version, archive.executable.value, archive)))
    }

    /** Extract, check and describe the staged slot. */
    method Stage(m: Manifest, version: string, archive: Archive, staged: string, faults: Faults) returns (raised: bool)
      requires staged in disk.slots && disk.slots[staged].Directory?
      modifies this
      ensures staged in disk.slots && disk.slots[staged].Directory?
      ensures disk == old(disk).(slots := old(disk).slots[staged := disk.slots[staged]])
      ensures !raised ==> disk.slots[staged] == NewSlot(m, version, archive)
      ensures !raised ==> archive.executable.Some? && archive.executable.value.reports == version
      ensures (&& faults(Extract).Fine? && faults(CheckStaged).Fine? && faults(WriteManifest).Fine?
               && archive.executable.Some? && archive.executable.value.reports == version) ==> !raised
    {
      ghost var before := disk;
      assert disk == before.(slots := before.slots[staged := before.slots[staged]]);
      if archive.executable.None? { return true; }
      raised := WriteSlot(staged, Directory(archive.executable, None), faults(Extract));
      if raised { return; }
      if !faults(CheckStaged).Fine? || archive.executable.value.reports != version { return true; }
      raised := WriteSlot(staged, NewSlot(m, version, archive), faults(WriteManifest));
    }

    /** `_replace` with the checks of `_update_locked` that depend on the installation. */
    method Update(version: string, archive: Archive, staged: string, faults: Faults) returns (r: Ending)
      requires staged !in disk.slots && staged != "." && staged != ".." && disk.previous != SlotPath(staged)
      modifies this
      // a failure whose recovery steps have effect leaves everything as it began
      ensures r.Refused? || r.Failed? ==> disk == old(disk)
      ensures r.FailedUnrestored? && RecoveryEffective(faults) ==> disk == old(disk)
      // whatever fails, a pointer never names a removed or damaged slot
      ensures Healthy(old(disk)) ==> PointersWhole(old(disk), disk, version, archive, staged)
      ensures r.Done? ==> UpdateRelation(old(disk), disk, version, archive, staged, r.cleanupPending)
      // and without faults a good archive is installed
      ensures (&& Healthy(old(disk)) && VerifiedManifest(old(disk)).value.version != version
               && archive.executable.Some? && archive.executable.value.reports == version
               && (forall s :: faults(s).Fine?)) ==> r == Done({})
    {
      var m := VerifiedManifest(disk);
      if m.None? || m.value.version == version { return Refused; }
      ghost var before := disk;
      var active := RuntimeSlot(disk, disk.current).value;
      disk := disk.(slots := disk.slots[staged := Directory(None, None)]);
      var raised, older, switchStarted, previousChanged := Switch(m.value, version, archive, staged, active, faults);
      if raised {
        assert before.slots == before.slots[staged := disk.slots[staged]] - {staged};
        r := RecoverUpdate(active, older, staged, switchStarted, previousChanged, faults);
        return;
      }
      ghost var switched := disk;
      var pending := RetireOlder(older, active, faults);
      SwitchedIsUpdated(before, switched, disk, version, archive, staged, older, pending);
      r := Done(pending);
    }

    /** The guarded body of an update; each flag is set before the pointer it guards is moved. */
    method Switch(m: Manifest, version: string, archive: Archive, staged: string, active: string, faults: Faults)
      returns (raised: bool, older: Option<string>, switchStarted: bool, previousChanged: bool)
      requires staged in disk.slots && disk.slots[staged].Directory? && staged != active
      requires RuntimeSlot(disk, disk.current) == Some(active) && staged != "." && staged != ".."
      requires disk.previous != SlotPath(staged)
      modifies this
      ensures disk.launcher == old(disk).launcher
      ensures staged in disk.slots && disk.slots == old(disk).slots[staged := disk.slots[staged]]
      ensures disk.current == old(disk).current || (switchStarted && disk.current == SlotPath(staged))
      ensures disk.previous == old(disk).previous || (previousChanged && disk.previous == SlotPath(active))
      ensures previousChanged ==>
        older == RuntimeSlot(old(disk), old(disk).previous) && (older.None? ==> old(disk).previous.NoPointer?)
      ensures disk.current == SlotPath(staged) ==> disk.slots[staged] == NewSlot(m, version, archive)
      ensures !raised ==>
        && archive.executable.Some? && VerifiedManifest(disk).Some?
        && older == RuntimeSlot(old(disk), old(disk).previous)
        && disk == old(disk).(current := SlotPath(staged), previous := SlotPath(active),
                              slots := old(disk).slots[staged := NewSlot(m, version, archive)])
      ensures (&& (forall s :: faults(s).Fine?)
               && archive.executable.Some? && archive.executable.value.reports == version
               && disk.launcher.Some? && Sha256(disk.launcher.value) == m.identity.launcherSha
               && (old(disk).previous.NoPointer? || RuntimeSlot(old(disk), old(disk).previous).Some?)) ==> !raised
    {
      raised := Stage(m, version, archive, staged, faults);
      previousChanged := false;
      switchStarted := false;
      older := None;
      if !raised && !disk.previous.NoPointer? {
        older := RuntimeSlot(disk, disk.previous);
        raised := older.None?;
      }
      if !raised {
        previousChanged := true;
        raised := PointPrevious(active, faults(SwitchPrevious));
      }
      if !raised {
        switchStarted := true;
        raised := PointCurrent(staged, faults(SwitchCurrent));
      }
      raised := raised || !faults(CheckLauncher).Fine? || LauncherReports(disk) != Some(version);
      raised := raised || !faults(VerifyAgain).Fine? || VerifiedManifest(disk).None?;
    }

    /** Remove the slot the previous pointer used to name; what cannot be removed is reported. */
    method RetireOlder(older: Option<string>, active: string, faults: Faults) returns (pending: set<string>)
      requires older.Some? ==> older.value in disk.slots
      modifies this
      ensures disk == old(disk).(slots := disk.slots)
      ensures Retired(old(disk).slots, disk.slots, Removable(older, active), pending)
      ensures faults(RemoveOld).Fine? ==> pending == {}
    {
      pending := {};
      if older.Some? && older.value != active {
        var raised := RemoveSlot(older.value, faults(RemoveOld));
        if raised { pending := {older.value}; }
      }
    }

    /** The `except` block of an update. */
    method RecoverUpdate(active: string, older: Option<string>, staged: string, switchStarted: bool,
                         previousChanged: bool,
                         faults: Faults) returns (r: Ending)
      requires staged in disk.slots
      modifies this
      ensures disk.launcher == old(disk).launcher
      ensures disk.current ==
        if switchStarted && !faults(RestoreCurrent).FailsBefore? then SlotPath(active) else old(disk).current
      ensures disk.previous ==
        if previousChanged && !faults(RestorePrevious).FailsBefore? then
          (if older.None? then NoPointer else SlotPath(older.value))
        else old(disk).previous
      ensures disk.slots ==
        if disk.current == SlotPath(staged) then old(disk).slots
        else if faults(RemoveStaged).FailsBefore? then old(disk).slots[staged := Directory(None, None)]
        else old(disk).slots - {staged}
      ensures r.Failed? || r.FailedUnrestored?
      ensures r.Failed? ==> !faults(RemoveStaged).FailsBefore? || disk.current == SlotPath(staged)
      ensures r.Failed? ==>
        (switchStarted ==> faults(RestoreCurrent).Fine?) && (previousChanged ==> faults(RestorePrevious).Fine?)
    {
      var incomplete := false;
      if switchStarted {
        incomplete := PointCurrent(active, faults(RestoreCurrent));
      }
      if previousChanged {
        var raised: bool;
        if older.None? {
          raised := UnlinkPrevious(faults(RestorePrevious));
        } else {
          raised := PointPrevious(older.value, faults(RestorePrevious));
        }
        incomplete := incomplete || raised;
      }
      if disk.current != SlotPath(staged) {
        var raised := RemoveSlot(staged, faults(RemoveStaged));
        if raised { return FailedUnrestored; }
      }
      r := if incomplete then FailedUnrestored else Failed;
    }

    /** `_rollback_locked`. */
    method Rollback(faults: Faults) returns (r: Ending)
      modifies this
      ensures r.Refused? <==> !RollbackPossible(old(disk))
      ensures r.Refused? ==> disk == old(disk)
      ensures r.Done? <==> RollbackPossible(old(disk)) && RollbackCommits(faults)
      ensures r.Done? ==> RollbackRelation(old(disk), disk, r.cleanupPending)
      ensures r.Done? && faults(RemoveOld).Fine? ==> r.cleanupPending == {}
      // a failed rollback leaves everything as it began exactly when the failing step had no effect of its own
      ensures r.Failed? || r.FailedUnrestored? ==> (disk == old(disk) <==> FailureUndone(faults))
      ensures r.Failed? || r.FailedUnrestored? ==> disk == FailedRollback(old(disk), faults)
      ensures r.Failed? || r.FailedUnrestored? ==> BothNameOldSlots(old(disk), disk)
    {
      if !RollbackPossible(disk) { return Refused; }
      ghost var before := disk;
      var active := RuntimeSlot(disk, disk.current).value;
      var target := RuntimeSlot(disk, disk.previous).value;
      assert disk.current == SlotPath(active) && disk.previous == SlotPath(target);
      var raised, currentChanged, backupConsumed := SwitchBack(active, target, faults);
      if raised {
        r := RecoverRollback(active, target, currentChanged, backupConsumed, faults);
        return;
      }
      ghost var switched := disk;
      var pending := RetireOlder(Some(active), target, faults);
      SwitchedIsRolledBack(before, switched, disk, pending);
      r := Done(pending);
    }

    /** The guarded body of a rollback; each flag is set after the step it records. */
    method SwitchBack(active: string, target: string, faults: Faults)
      returns (raised: bool, currentChanged: bool, backupConsumed: bool)
      requires RollbackPossible(disk)
      requires RuntimeSlot(disk, disk.current) == Some(active) && RuntimeSlot(disk, disk.previous) == Some(target)
      modifies this
      ensures raised <==> !RollbackCommits(faults)
      ensures currentChanged <==> faults(SwitchCurrent).Fine?
      ensures backupConsumed <==> !raised
      ensures disk == old(disk).(
        current := if faults(SwitchCurrent).FailsBefore? then old(disk).current else SlotPath(target),
        previous := if currentChanged && faults(CheckLauncher).Fine? && faults(VerifyAgain).Fine?
                       && !faults(ConsumePrevious).FailsBefore? then NoPointer else old(disk).previous)
    {
      currentChanged, backupConsumed := false, false;
      raised := PointCurrent(target, faults(SwitchCurrent));
      if !raised {
        currentChanged := true;
        var m := disk.slots[target].manifest.value;
        raised := !faults(CheckLauncher).Fine? || LauncherReports(disk) != Some(m.version);
      }
      raised := raised || !faults(VerifyAgain).Fine? || VerifiedManifest(disk).None?;
      if !raised {
        raised := UnlinkPrevious(faults(ConsumePrevious));
        if !raised { backupConsumed := true; }
      }
    }

    /** The `except` block of a rollback. */
    method RecoverRollback(active: string, target: string, currentChanged: bool, backupConsumed: bool, faults: Faults)
      returns (r: Ending)
      modifies this
      ensures disk.launcher == old(disk).launcher && disk.slots == old(disk).slots
      ensures disk.current ==
        if currentChanged && !faults(RestoreCurrent).FailsBefore? then SlotPath(active) else old(disk).current
      ensures disk.previous ==
        if backupConsumed && !faults(RestorePrevious).FailsBefore? then SlotPath(target) else old(disk).previous
      ensures r.Failed? || r.FailedUnrestored?
      ensures r.Failed? <==>
        (currentChanged ==> faults(RestoreCurrent).Fine?) && (backupConsumed ==> faults(RestorePrevious).Fine?)
    {
      var incomplete := false;
      if currentChanged {
        incomplete := PointCurrent(active, faults(RestoreCurrent));
      }
      if backupConsumed {
        var raised := PointPrevious(target, faults(RestorePrevious));
        incomplete := incomplete || raised;
      }
      r := if incomplete then FailedUnrestored else Failed;
    }
  }

  /** Every guarded step of a rollback runs. */
  predicate RollbackCommits(faults: Faults) {
    && faults(SwitchCurrent).Fine? && faults(CheckLauncher).Fine?
    && faults(VerifyAgain).Fine? && faults(ConsumePrevious).Fine?
  }

  /** A rollback fails at a step that changed nothing itself, and what earlier steps changed is put back. */
  predicate FailureUndone(faults: Faults) {
    if !faults(SwitchCurrent).Fine? then faults(SwitchCurrent).FailsBefore?
    else
      && !faults(RestoreCurrent).FailsBefore?
      && (faults(CheckLauncher).Fine? && faults(VerifyAgain).Fine? ==> faults(ConsumePrevious).FailsBefore?)
  }

  /** What a failed rollback leaves: only a switch that returned is undone, and a consumed pointer never is. */
  function FailedRollback(before: Disk, faults: Faults): Disk {
    var switched, returned := !faults(SwitchCurrent).FailsBefore?, faults(SwitchCurrent).Fine?;
    var restored := returned && !faults(RestoreCurrent).FailsBefore?;
    var consumed := returned && faults(CheckLauncher).Fine? && faults(VerifyAgain).Fine?
                    && !faults(ConsumePrevious).FailsBefore?;
    before.(current := if switched && !restored then before.previous else before.current,
            previous := if consumed then NoPointer else before.previous)
  }

  /** A failed rollback touches no slot, and each pointer names a slot that was named before or is gone. */
  predicate BothNameOldSlots(before: Disk, now: Disk) {
    && now.slots == before.slots && now.launcher == before.launcher
    && now.current in {before.current, before.previous}
    && now.previous in {before.previous, NoPointer}
  }

  lemma SwitchedIsRolledBack(before: Disk, switched: Disk, after: Disk, pending: set<string>)
    requires RollbackPossible(before)
    requires switched == before.(current := before.previous, previous := NoPointer)
    requires after == switched.(slots := after.slots)
    requires var active, target := RuntimeSlot(before, before.current).value,
      RuntimeSlot(before, before.previous).value;
      Retired(switched.slots, after.slots, Removable(Some(active), target), pending)
    ensures RollbackRelation(before, after, pending)
  {
    var active, target := RuntimeSlot(before, before.current).value, RuntimeSlot(before, before.previous).value;
    var gone := Removable(Some(active), target);
    assert gone == {active} && target !in gone;
    assert RuntimeSlot(after, after.current) == Some(target);
    assert Verifies(after, before.slots[target].manifest.value, target);
  }

  /** The slot an operation gives up: the one a pointer used to name, unless it is still active. */
  function Removable(older: Option<string>, active: string): set<string> {
    if older.Some? && older.value != active then {older.value} else {}
  }

  /** All slots but the given ones are untouched, and those are gone or pending. */
  predicate Retired(before: map<string, Slot>, after: map<string, Slot>, gone: set<string>, pending: set<string>) {
    && pending <= gone
    && after.Keys - pending == before.Keys - gone
    && forall s :: s in before && s !in gone ==> s in after && after[s] == before[s]
  }

  lemma SwitchedIsUpdated(before: Disk, switched: Disk, after: Disk, version: string, archive: Archive, staged: string,
                          older: Option<string>, pending: set<string>)
    requires VerifiedManifest(before).Some? && VerifiedManifest(before).value.version != version
    requires staged !in before.slots && archive.executable.Some? && older == RuntimeSlot(before, before.previous)
    requires var m, active := VerifiedManifest(before).value, RuntimeSlot(before, before.current).value;
      && switched == before.(current := SlotPath(staged), previous := SlotPath(active),
                             slots := before.slots[staged := SelfManager.NewSlot(m, version, archive)])
      && VerifiedManifest(switched).Some?
      && after == switched.(slots := after.slots)
      && Retired(switched.slots, after.slots, Removable(older, active), pending)
    ensures UpdateRelation(before, after, version, archive, staged, pending)
  {
    var m, active := VerifiedManifest(before).value, RuntimeSlot(before, before.current).value;
    var gone := Removable(older, active);
    assert staged !in gone && active !in gone;
    assert RuntimeSlot(after, after.current) == Some(staged);
    assert VerifiedManifest(after) == VerifiedManifest(switched);
    assert switched.slots.Keys == before.slots.Keys + {staged};
  }

  /** Every recovery step of an update takes effect, even if it then raises. */
  predicate RecoveryEffective(faults: Faults) {
    && !faults(RestoreCurrent).FailsBefore?
    && !faults(RestorePrevious).FailsBefore?
    && !faults(RemoveStaged).FailsBefore?
  }

  /** Both pointers name whole slots: untouched old ones or the complete new one. */
  predicate PointersWhole(before: Disk, now: Disk, version: string, archive: Archive, staged: string)
    requires VerifiedManifest(before).Some?
  {
    var whole := SelfManager.NewSlot(VerifiedManifest(before).value, version, archive);
    && PointsAtWhole(before, now, now.current, staged, whole)
    && PointsAtWhole(before, now, now.previous, staged, whole)
  }
}
