/** A standalone installation: a launcher, runtime slots and the two pointers that name slots. */
module Installation {
  import opened Prelude

  /** An executable and what it prints for `--version`. */
  datatype Executable = Executable(body: seq<bv8>, reports: string)

  /** The manifest fields no update changes. */
  datatype Identity = Identity(
    binaryPath: string,
    dataRoot: string,
    runtimePath: string,
    releaseBase: string,
    releaseRepository: string,
    pathProfile: Option<string>,
    launcherSha: Digest<string>,
    pathBlockSha: Option<Digest<string>>,
    profileCreated: bool)

  datatype Manifest = Manifest(identity: Identity, version: string, runtimeSha: Digest<Executable>, archiveSha: string)

  datatype Slot = Directory(executable: Option<Executable>, manifest: Option<Manifest>) | SlotLink

  /** A pointer path: missing, something that is no symlink, or a link to a relative path. */
  datatype Pointer = NoPointer | NotALink | PointsTo(parts: seq<string>)

  datatype Disk = Disk(launcher: Option<string>, current: Pointer, previous: Pointer, slots: map<string, Slot>)

  function SlotPath(name: string): Pointer { PointsTo(["slots", name]) }

  /** `_runtime_slot`: the slot a pointer safely names. */
  function RuntimeSlot(d: Disk, p: Pointer): (name: Option<string>)
    ensures name.Some? ==> p == SlotPath(name.value) && name.value in d.slots && d.slots[name.value].Directory?
  {
    if !p.PointsTo? then None
    else if |p.parts| != 2 || p.parts[0] != "slots" || p.parts[1] == "." || p.parts[1] == ".." then None
    else if p.parts[1] !in d.slots || !d.slots[p.parts[1]].Directory? then None
    else Some(p.parts[1])
  }

  /** `_verify_installed_files` of a manifest against one slot. */
  predicate Verifies(d: Disk, m: Manifest, slot: string) {
    && d.launcher.Some? && Sha256(d.launcher.value) == m.identity.launcherSha
    && slot in d.slots && d.slots[slot].Directory? && d.slots[slot].executable.Some?
    && Sha256(d.slots[slot].executable.value) == m.runtimeSha
    && d.slots[slot].executable.value.reports == m.version
  }

  /** `_verified_manifest`: the manifest of the current slot, if the files agree with it. */
  function VerifiedManifest(d: Disk): Option<Manifest> {
    var slot := RuntimeSlot(d, d.current);
    if slot.None? || d.slots[slot.value].manifest.None? then None
    else if Verifies(d, d.slots[slot.value].manifest.value, slot.value) then d.slots[slot.value].manifest
    else None
  }

  /** Running the launcher runs the executable of the current slot. */
  function LauncherReports(d: Disk): Option<string> {
    var slot := RuntimeSlot(d, d.current);
    if d.launcher.None? || slot.None? || d.slots[slot.value].executable.None? then None
    else Some(d.slots[slot.value].executable.value.reports)
  }

  datatype Archive = Archive(sha: string, executable: Option<Executable>)

  function UpdatedManifest(m: Manifest, version: string, exe: Executable, archive: Archive): Manifest {
    m.(version := version, runtimeSha := Sha256(exe), archiveSha := archive.sha)
  }

  // ---- Faults ----

  datatype Step =
    | Extract | CheckStaged | WriteManifest | SwitchPrevious | SwitchCurrent | CheckLauncher | VerifyAgain
    | ConsumePrevious | RestoreCurrent | RestorePrevious | RemoveStaged | RemoveOld

  type Faults = Step -> Fault

  datatype Ending =
    | Refused
    | Done(cleanupPending: set<string>)
    | Failed
    | FailedUnrestored

  // ---- What the operations promise ----

  /** A pointer is absent or names a complete slot that was there before, or the given new one. */
  predicate PointsAtWhole(before: Disk, now: Disk, p: Pointer, extra: string, whole: Slot) {
    || p == NoPointer
    || (var slot := RuntimeSlot(now, p);
        && slot.Some?
        && ((slot.value in before.slots && now.slots[slot.value] == before.slots[slot.value])
            || (slot.value == extra && now.slots[slot.value] == whole)))
  }

  predicate Healthy(d: Disk) {
    && VerifiedManifest(d).Some?
    && (d.previous.NoPointer? || RuntimeSlot(d, d.previous).Some?)
  }

  /** The named slots. */
  function Named(d: Disk): set<string> {
    (if RuntimeSlot(d, d.current).Some? then {RuntimeSlot(d, d.current).value} else {}) +
    (if RuntimeSlot(d, d.previous).Some? then {RuntimeSlot(d, d.previous).value} else {})
  }

  /** What a successful update leaves. */
  predicate UpdateRelation(before: Disk, after: Disk, version: string, archive: Archive,
                           staged: string, pending: set<string>) {
    && VerifiedManifest(before).Some? && archive.executable.Some? && staged !in before.slots
    && var m := VerifiedManifest(before).value;
       var active := RuntimeSlot(before, before.current).value;
       var older := RuntimeSlot(before, before.previous);
       && m.version != version
       && after.launcher == before.launcher
       && after.current == SlotPath(staged)
       && after.previous == SlotPath(active)
       && VerifiedManifest(after) == Some(UpdatedManifest(m, version, archive.executable.value, archive))
       && active in after.slots && after.slots[active] == before.slots[active]
       && pending <= (if older.Some? && older.value != active then {older.value} else {})
       && after.slots.Keys - pending ==
          (before.slots.Keys + {staged}) - (if older.Some? && older.value != active then {older.value} else {})
  }

  /** The checks of a rollback: another slot is kept, it verifies, and it belongs to the same installation. */
  predicate RollbackPossible(d: Disk) {
    && VerifiedManifest(d).Some?
    && RuntimeSlot(d, d.previous).Some?
    && RuntimeSlot(d, d.previous) != RuntimeSlot(d, d.current)
    && var target := RuntimeSlot(d, d.previous).value;
       && d.slots[target].manifest.Some?
       && Verifies(d, d.slots[target].manifest.value, target)
       && d.slots[target].manifest.value.identity == VerifiedManifest(d).value.identity
  }

  /** What a successful rollback leaves. */
  predicate RollbackRelation(before: Disk, after: Disk, pending: set<string>) {
    && VerifiedManifest(before).Some? && RuntimeSlot(before, before.previous).Some?
    && var m := VerifiedManifest(before).value;
       var active := RuntimeSlot(before, before.current).value;
       var target := RuntimeSlot(before, before.previous).value;
       && target != active
       && after.launcher == before.launcher
       && after.current == SlotPath(target)
       && after.previous == NoPointer
       && target in after.slots && after.slots[target] == before.slots[target]
       && VerifiedManifest(after) == before.slots[target].manifest
       && VerifiedManifest(after).Some? && VerifiedManifest(after).value.identity == m.identity
       && pending <= {active}
       && after.slots.Keys - pending == before.slots.Keys - {active}
  }
}
