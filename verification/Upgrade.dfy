/** Configuration upgrades: the recovery point an upgrade leaves and what rolling it back does. */
module Upgrades {
  import opened Prelude
  import opened Transaction
  import opened TransactionRuns

  datatype RecoveryItem = RecoveryItem(path: Path, before: Option<Content>, afterSha: Digest<Content>)

  datatype Recovery = Recovery(id: string, rolledBack: bool, changes: seq<RecoveryItem>)

  datatype RollbackError = UnsafeId | UnknownPoint | AlreadyRolledBack | NewFileUnsupported | FileChanged

  /** A file the upgrade would write, with its new content. */
  datatype Candidate = Candidate(path: Path, after: Content)

  /** `_changes`: the candidates that differ from the files. */
  function ChangesFor(d: Disk, candidates: seq<Candidate>): seq<Change> {
    if candidates == [] then []
    else
      var c := candidates[|candidates| - 1];
      ChangesFor(d, candidates[..|candidates| - 1]) +
      if ContentAt(d, c.path) != Some(c.after) then [Change(c.path, ContentAt(d, c.path), c.after)] else []
  }

  function ItemsOf(changes: seq<Change>): (items: seq<RecoveryItem>)
    ensures |items| == |changes|
    ensures forall i :: 0 <= i < |changes| ==>
      items[i] == RecoveryItem(changes[i].path, changes[i].before, Sha256(changes[i].after))
  {
    if changes == [] then []
    else
      var c := changes[|changes| - 1];
      ItemsOf(changes[..|changes| - 1]) + [RecoveryItem(c.path, c.before, Sha256(c.after))]
  }

  /** The part of a rollback plan for one recorded file. */
  function RollbackItem(d: Disk, item: RecoveryItem): Result<seq<Change>, RollbackError> {
    if item.before.None? then Err(NewFileUnsupported)
    else
      var current := ContentAt(d, item.path);
      if current.None? || Sha256(current.value) != item.afterSha then Err(FileChanged)
      else Ok(if current.value != item.before.value then [Change(item.path, current, item.before.value)] else [])
  }

  function RollbackChanges(d: Disk, items: seq<RecoveryItem>): Result<seq<Change>, RollbackError> {
    if items == [] then Ok([])
    else
      var earlier := RollbackChanges(d, items[..|items| - 1]);
      if earlier.Err? then earlier
      else
        var last := RollbackItem(d, items[|items| - 1]);
        if last.Err? then last else Ok(earlier.value + last.value)
  }

  predicate SafeId(id: string) {
    id != "" && forall i :: 0 <= i < |id| ==> IsLetter(id[i]) || IsDigit(id[i]) || id[i] in "_.-"
  }

  /** `plan_rollback` of a named recovery point. */
  function PlanRollback(d: Disk, points: map<string, Recovery>, id: string): Result<seq<Change>, RollbackError> {
    if !SafeId(id) then Err(UnsafeId)
    else if id !in points then Err(UnknownPoint)
    else if points[id].rolledBack then Err(AlreadyRolledBack)
    else RollbackChanges(d, points[id].changes)
  }

  // ---- Planned upgrades only change existing files ----

  lemma {:induction false} PlannedFromFiles(d: Disk, candidates: seq<Candidate>)
    requires forall i :: 0 <= i < |candidates| ==> ContentAt(d, candidates[i].path).Some?
    ensures forall c :: c in ChangesFor(d, candidates) ==>
      c.before.Some? && c.before == ContentAt(d, c.path) && c.before != Some(c.after)
  {
    if candidates != [] { PlannedFromFiles(d, candidates[..|candidates| - 1]); }
  }

  /** Every file was there before, so each change can be undone. */
  predicate Undoable(changes: seq<Change>) {
    forall i :: 0 <= i < |changes| ==> changes[i].before.Some?
  }

  /** All files hold exactly the upgraded content. */
  predicate Upgraded(d: Disk, changes: seq<Change>) {
    forall i :: 0 <= i < |changes| ==> ContentAt(d, changes[i].path) == Some(changes[i].after)
  }

  /** The changes that put the old content back. */
  function Inverse(changes: seq<Change>): (r: seq<Change>)
    requires Undoable(changes)
    ensures |r| == |changes|
    ensures forall i :: 0 <= i < |changes| ==>
      r[i] == Change(changes[i].path, Some(changes[i].after), changes[i].before.value)
  {
    if changes == [] then []
    else
      var c := changes[|changes| - 1];
      Inverse(changes[..|changes| - 1]) + [Change(c.path, Some(c.after), c.before.value)]
  }

  /** A recovery point made from a plan can be rolled back exactly while every file holds the upgraded bytes. */
  lemma {:induction false} RollbackNeedsUpgradedFiles(d: Disk, changes: seq<Change>)
    requires Reviewed(changes)
    ensures RollbackChanges(d, ItemsOf(changes)).Ok? <==> Undoable(changes) && Upgraded(d, changes)
    ensures Undoable(changes) && Upgraded(d, changes) ==> RollbackChanges(d, ItemsOf(changes)) == Ok(Inverse(changes))
    ensures Undoable(changes) && !Upgraded(d, changes) ==> RollbackChanges(d, ItemsOf(changes)) == Err(FileChanged)
  {
    if changes != [] {
      var n := |changes| - 1;
      RollbackNeedsUpgradedFiles(d, changes[..n]);
      LastItem(d, changes);
      hide ItemsOf, RollbackItem, Undoable, Upgraded, ContentAt, Reviewed;
    }
  }

  /** What the last change adds to the recovery items, the conditions and the rollback. */
  lemma {:induction false} LastItem(d: Disk, changes: seq<Change>)
    requires Reviewed(changes) && changes != []
    ensures var n := |changes| - 1; var c := changes[n];
      && ItemsOf(changes)[..n] == ItemsOf(changes[..n])
      && (Undoable(changes) <==> Undoable(changes[..n]) && c.before.Some?)
      && (Upgraded(d, changes) <==> Upgraded(d, changes[..n]) && ContentAt(d, c.path) == Some(c.after))
      && var last := RollbackItem(d, ItemsOf(changes)[n]);
         && (last.Ok? <==> c.before.Some? && ContentAt(d, c.path) == Some(c.after))
         && (last.Ok? ==> last == Ok([Change(c.path, Some(c.after), c.before.value)]))
         && (last.Err? && c.before.Some? ==> last == Err(FileChanged))
  {
  }

  // ---- Applying an upgrade and its rollback ----

  lemma EffectIsUpgraded(files: Disk, changes: seq<Change>)
    requires DistinctPaths(changes)
    ensures Upgraded(Effect(files, changes), changes)
  {
    forall i | 0 <= i < |changes| ensures ContentAt(Effect(files, changes), changes[i].path) == Some(changes[i].after) {
      EffectAt(files, changes, i);
    }
  }

  /** Undoing every change of a reviewed set gives back the very files it started from. */
  lemma InverseRestores(files: Disk, changes: seq<Change>)
    requires DistinctPaths(changes) && Undoable(changes) && Current(files, changes)
    ensures Effect(Effect(files, changes), Inverse(changes)) == files
  {
    var upgraded, back := Effect(files, changes), Inverse(changes);
    assert DistinctPaths(back);
    forall p ensures SameAt(Effect(upgraded, back), files, p) {
      if i :| 0 <= i < |changes| && changes[i].path == p {
        EffectAt(upgraded, back, i);
        EffectIsFileAt(upgraded, back, i);
        assert Matches(files, changes[i]);
      } else {
        EffectElsewhere(files, changes, p);
        forall j | 0 <= j < |back| ensures back[j].path != p { assert back[j].path == changes[j].path; }
        EffectElsewhere(upgraded, back, p);
      }
    }
    EqualBySame(Effect(upgraded, back), files);
  }

  lemma {:induction false} EffectIsFileAt(files: Disk, changes: seq<Change>, i: nat)
    requires DistinctPaths(changes) && i < |changes|
    ensures changes[i].path in Effect(files, changes) && Effect(files, changes)[changes[i].path].File?
  {
    EffectAt(files, changes, i);
  }

  lemma ContentIsVisible(d: Disk, p: Path)
    requires !Private(p)
    ensures ContentAt(Visible(d), p) == ContentAt(d, p)
  {
  }

  lemma UpgradedIsVisible(d: Disk, changes: seq<Change>)
    requires Reviewed(changes)
    ensures Upgraded(Visible(d), changes) <==> Upgraded(d, changes)
  {
    forall i | 0 <= i < |changes| ensures ContentAt(Visible(d), changes[i].path) == ContentAt(d, changes[i].path) {
      ContentIsVisible(d, changes[i].path);
    }
  }

  /** Planned from existing files, every change can be undone. */
  lemma PlannedIsUndoable(d: Disk, candidates: seq<Candidate>)
    requires forall i :: 0 <= i < |candidates| ==> ContentAt(d, candidates[i].path).Some?
    ensures Undoable(ChangesFor(d, candidates))
  {
    PlannedFromFiles(d, candidates);
    var changes := ChangesFor(d, candidates);
    assert forall i :: 0 <= i < |changes| ==> changes[i] in changes;
  }

  /** After an applied upgrade the rollback is planned, and its transaction passes every check of `apply`. */
  lemma UpgradedAdmitsRollback(before: Disk, upgraded: Disk, changes: seq<Change>)
    requires Reviewed(changes) && Undoable(changes)
    requires ApplyRelation(before, upgraded, changes, Applied)
    ensures RollbackChanges(upgraded, ItemsOf(changes)) == Ok(Inverse(changes))
    ensures Reviewed(Inverse(changes)) && Admissible(upgraded, Inverse(changes))
  {
    var files, back := Visible(before), Inverse(changes);
    VisibleStillCurrent(before, changes);
    EffectIsUpgraded(files, changes);
    UpgradedIsVisible(upgraded, changes);
    RollbackNeedsUpgradedFiles(upgraded, changes);
    EffectIsMixed(files, changes, |changes|);
    assert changes[..|changes|] == changes;
    forall i | 0 <= i < |back| ensures Matches(upgraded, back[i]) {
      NoLinkAppears(files, changes, upgraded, i);
      EffectIsFileAt(files, changes, i);
      assert ContentAt(upgraded, changes[i].path) == Some(changes[i].after);
    }
    assert DistinctPaths(back);
  }

  /** An applied upgrade can be rolled back, and an applied rollback gives back every byte. */
  lemma UpgradeThenRollback(before: Disk, upgraded: Disk, after: Disk, changes: seq<Change>)
    requires Reviewed(changes) && Undoable(changes)
    requires ApplyRelation(before, upgraded, changes, Applied)
    ensures RollbackChanges(upgraded, ItemsOf(changes)) == Ok(Inverse(changes))
    ensures Reviewed(Inverse(changes)) && Admissible(upgraded, Inverse(changes))
    ensures ApplyRelation(upgraded, after, Inverse(changes), Applied) ==> Visible(after) == Visible(before)
  {
    UpgradedAdmitsRollback(before, upgraded, changes);
    VisibleStillCurrent(before, changes);
    InverseRestores(Visible(before), changes);
  }

  lemma VisibleStillCurrent(d: Disk, changes: seq<Change>)
    requires Reviewed(changes) && Current(d, changes)
    ensures Current(Visible(d), changes)
  {
    forall i | 0 <= i < |changes| ensures Matches(Visible(d), changes[i]) {
      assert Matches(d, changes[i]);
    }
  }

  /** Whatever else changed since, an applied rollback restores each recorded file and touches no other. */
  lemma RollbackRestoresFiles(d: Disk, after: Disk, changes: seq<Change>)
    requires Reviewed(changes) && DistinctPaths(changes) && Undoable(changes)
    requires RollbackChanges(d, ItemsOf(changes)).Ok?
    requires ApplyRelation(d, after, RollbackChanges(d, ItemsOf(changes)).value, Applied)
    ensures forall i :: 0 <= i < |changes| ==> ContentAt(after, changes[i].path) == changes[i].before
    ensures forall p :: !Private(p) && (forall i :: 0 <= i < |changes| ==> changes[i].path != p) ==> SameAt(after, d, p)
  {
    RollbackNeedsUpgradedFiles(d, changes);
    var back := Inverse(changes);
    assert DistinctPaths(back);
    forall i | 0 <= i < |changes| ensures ContentAt(after, changes[i].path) == changes[i].before {
      EffectAt(Visible(d), back, i);
      ContentIsVisible(after, changes[i].path);
    }
    forall p | !Private(p) && (forall i :: 0 <= i < |changes| ==> changes[i].path != p) ensures SameAt(after, d, p) {
      forall j | 0 <= j < |back| ensures back[j].path != p { assert back[j].path == changes[j].path; }
      EffectElsewhere(Visible(d), back, p);
      assert SameAt(Visible(after), Visible(d), p);
    }
  }

  /** Once the files are restored, no plan can roll the point back again, marked or not. */
  lemma RolledBackOnce(d: Disk, changes: seq<Change>)
    requires Reviewed(changes) && changes != []
    requires forall i :: 0 <= i < |changes| ==> ContentAt(d, changes[i].path) == changes[i].before
    ensures RollbackChanges(d, ItemsOf(changes)).Err?
    ensures Undoable(changes) ==> RollbackChanges(d, ItemsOf(changes)) == Err(FileChanged)
    ensures Undoable(changes) ==> !Admissible(d, Inverse(changes))
  {
    RollbackNeedsUpgradedFiles(d, changes);
    assert ContentAt(d, changes[0].path) != Some(changes[0].after);
    if Undoable(changes) {
      assert !Matches(d, Inverse(changes)[0]);
    }
  }
}
