/** The transaction object over a disk whose every operation may raise or lose the process. */
module RepositoryTransactions {
  import opened Prelude
  import opened Transaction

  datatype Ended = Ran | Raises | Dies

  class RepositoryTransaction {
    var disk: Disk
    /** How many operations have raised or died. */
    ghost var faults: nat

    constructor (disk: Disk)
      ensures this.disk == disk && faults == 0
    {
      this.disk := disk;
      faults := 0;
    }

    /** Atomic write: replace, then sync the directory, so it may raise after taking effect. */
    method Put(p: Path, n: Node) returns (o: Ended)
      modifies this
      ensures o.Ran? ==> disk == old(disk)[p := n] && faults == old(faults)
      ensures !o.Ran? ==> (disk == old(disk) || disk == old(disk)[p := n]) && faults == old(faults) + 1
    {
      var effective := *;
      o := *;
      if effective || o.Ran? { disk := disk[p := n]; }
      if !o.Ran? { faults := faults + 1; }
    }

    /** Move a staged file over its target, then sync the directory. */
    method Commit(staged: Path, target: Path) returns (o: Ended)
      requires staged in disk
      modifies this
      ensures o.Ran? ==> disk == (old(disk) - {staged})[target := old(disk)[staged]] && faults == old(faults)
      ensures !o.Ran? ==>
        && (disk == old(disk) || disk == (old(disk) - {staged})[target := old(disk)[staged]])
        && faults == old(faults) + 1
    {
      var effective := *;
      o := *;
      if effective || o.Ran? { disk := (disk - {staged})[target := disk[staged]]; }
      if !o.Ran? { faults := faults + 1; }
    }

    /** Unlink, ignoring a missing file; nothing follows it, so a raise means it had no effect. */
    method Unlink(p: Path) returns (o: Ended)
      modifies this
      ensures o.Ran? ==> disk == old(disk) - {p} && faults == old(faults)
      ensures o.Raises? ==> disk == old(disk) && faults == old(faults) + 1
      ensures o.Dies? ==> (disk == old(disk) || disk == old(disk) - {p}) && faults == old(faults) + 1
    {
      var effective := *;
      o := *;
      if (effective && o.Dies?) || o.Ran? { disk := disk - {p}; }
      if !o.Ran? { faults := faults + 1; }
    }

    /** `rmtree(..., ignore_errors=True)`: removes any part of the staging area. */
    method RemoveStaging() returns (o: Ended)
      modifies this
      ensures !o.Raises? && (faults == if o.Ran? then old(faults) else old(faults) + 1)
      ensures disk.Keys <= old(disk).Keys
      ensures forall p :: p in old(disk) && !(STAGING <= p) ==> p in disk
      ensures forall p :: p in disk ==> disk[p] == old(disk)[p]
    {
      var candidates := disk.Keys;
      while candidates != {}
        invariant disk.Keys <= old(disk).Keys
        invariant forall p :: p in old(disk) && !(STAGING <= p) ==> p in disk
        invariant forall p :: p in disk ==> disk[p] == old(disk)[p]
        invariant faults == old(faults)
        decreases candidates
      {
        var p :| p in candidates;
        candidates := candidates - {p};
        var removed := *;
        if STAGING <= p && removed { disk := disk - {p}; }
      }
      var dies := *;
      o := if dies then Dies else Ran;
      if dies { faults := faults + 1; }
    }

    /** `apply`: validate, journal, stage, commit and clean up; any raise restores. */
    method Apply(changes: seq<Change>, transactionId: string) returns (o: Outcome)
      requires Reviewed(changes)
      modifies this
      ensures ApplyRelation(old(disk), disk, changes, o)
      ensures faults >= old(faults) && (faults == old(faults) <==> o.Nothing? || o.Refused? || o.Applied?)
    {
      if changes == [] { return Nothing; }
      if Pending(disk) { return Refused; }
      var reviewed := ValidateReviewedState(changes);
      if !reviewed { return Refused; }
      ghost var files := Visible(disk);
      ReviewedFilesAreVisible(disk, changes);
      VisibleIgnoresPrivate(disk, JOURNAL, JournalOf(transactionId, false, changes));
      var f := Put(JOURNAL, JournalOf(transactionId, false, changes));
      assert Mixed(files, changes, files);
      if f.Dies? { return Dead; }
      if f.Raises? { return Raised; }
      f := StageAndCommit(files, changes, transactionId);
      if f.Dies? { return Dead; }
      if f.Ran? {
        f := Cleanup();
        if f.Dies? { return Dead; }
        if f.Ran? { return Applied; }
      }
      ghost var failed := disk;
      f := Restore(files, changes, EntriesOf(changes));
      if PartlyRestored(files, failed, disk) { StillInterrupted(files, changes, failed, disk); }
      o := if f.Ran? then Restored else if f.Raises? then Raised else Dead;
    }

    method ValidateReviewedState(changes: seq<Change>) returns (ok: bool)
      ensures ok <==> DistinctPaths(changes) && Current(disk, changes)
    {
      var seen: set<Path> := {};
      for i := 0 to |changes|
        invariant seen == set k | 0 <= k < i :: changes[k].path
        invariant DistinctPaths(changes[..i]) && Current(disk, changes[..i])
      {
        var c := changes[i];
        assert changes[..i + 1][i] == c;
        if c.path in seen {
          ghost var k :| 0 <= k < i && changes[k].path == c.path;
          return false;
        }
        seen := seen + {c.path};
        if LinkAbove(disk, c.path) || (c.path in disk && disk[c.path].Link?) || ContentAt(disk, c.path) != c.before {
          assert !Matches(disk, changes[i]);
          return false;
        }
      }
      assert changes[..|changes|] == changes;
      ok := true;
    }

    /** The guarded body of `apply` up to the cleanup. */
    method StageAndCommit(ghost files: Disk, changes: seq<Change>, transactionId: string) returns (f: Ended)
      requires Interrupted(files, changes, disk) && Visible(disk) == files
      modifies this
      ensures Interrupted(files, changes, disk)
      ensures f.Ran? ==> Visible(disk) == Effect(files, changes)
      ensures faults >= old(faults) && (faults == old(faults) <==> f.Ran?)
    {
      f := StageAll(files, changes, transactionId);
      if !f.Ran? { return; }
      VisibleIgnoresPrivate(disk, JOURNAL, JournalOf(transactionId, true, changes));
      ghost var before := disk;
      f := Put(JOURNAL, JournalOf(transactionId, true, changes));
      forall i | 0 <= i < |changes| ensures StagedOn(disk, transactionId, changes[i]) {
        StagedIsPrivate(transactionId, changes[i].path);
        assert StagedOn(before, transactionId, changes[i]);
      }
      if !f.Ran? { return; }
      f := CommitAll(files, changes, transactionId);
    }

    method StageAll(ghost files: Disk, changes: seq<Change>, transactionId: string) returns (f: Ended)
      requires Interrupted(files, changes, disk) && Visible(disk) == files
      modifies this
      ensures Interrupted(files, changes, disk) && Visible(disk) == files
      ensures f.Ran? ==> forall i :: 0 <= i < |changes| ==> StagedOn(disk, transactionId, changes[i])
      ensures faults >= old(faults) && (faults == old(faults) <==> f.Ran?)
    {
      f := Ran;
      for i := 0 to |changes|
        invariant Interrupted(files, changes, disk) && Visible(disk) == files
        invariant f.Ran? && faults == old(faults)
        invariant forall j :: 0 <= j < i ==> StagedOn(disk, transactionId, changes[j])
      {
        var staged := Staged(transactionId, changes[i].path);
        StagedIsPrivate(transactionId, changes[i].path);
        VisibleIgnoresPrivate(disk, staged, File(changes[i].after));
        f := Put(staged, File(changes[i].after));
        if !f.Ran? { return; }
        forall j | 0 <= j < i ensures Staged(transactionId, changes[j].path) != staged {
          if Staged(transactionId, changes[j].path) == staged {
            StagedInjective(transactionId, changes[j].path, changes[i].path);
          }
        }
      }
    }

    method CommitAll(ghost files: Disk, changes: seq<Change>, transactionId: string) returns (f: Ended)
      requires Interrupted(files, changes, disk) && Visible(disk) == files
      requires forall i :: 0 <= i < |changes| ==> StagedOn(disk, transactionId, changes[i])
      modifies this
      ensures Interrupted(files, changes, disk)
      ensures f.Ran? ==> Visible(disk) == Effect(files, changes)
      ensures faults >= old(faults) && (faults == old(faults) <==> f.Ran?)
    {
      f := Ran;
      for i := 0 to |changes|
        invariant Interrupted(files, changes, disk)
        invariant Visible(disk) == Effect(files, changes[..i])
        invariant f.Ran? && faults == old(faults)
        invariant forall j :: i <= j < |changes| ==> StagedOn(disk, transactionId, changes[j])
      {
        var c := changes[i];
        var staged := Staged(transactionId, c.path);
        ghost var before := disk;
        StagedIsPrivate(transactionId, c.path);
        VisibleIgnoresPrivate(disk, staged, Link);
        VisibleUpdate(disk - {staged}, c.path, File(c.after));
        EffectIsMixed(files, changes, i);
        EffectIsMixed(files, changes, i + 1);
        assert changes[..i + 1][..i] == changes[..i];
        f := Commit(staged, c.path);
        if !f.Ran? { return; }
        forall j | i < j < |changes| ensures StagedOn(disk, transactionId, changes[j]) {
          assert StagedOn(before, transactionId, changes[j]);
          StagedIsPrivate(transactionId, changes[j].path);
          if Staged(transactionId, changes[j].path) == staged {
            StagedInjective(transactionId, changes[j].path, c.path);
          }
        }
      }
      assert changes[..|changes|] == changes;
    }

    /** `_cleanup`: the staging area goes first, and the journal last. */
    method Cleanup() returns (f: Ended)
      modifies this
      ensures Visible(disk) == Visible(old(disk))
      ensures f.Ran? ==> !Pending(disk)
      ensures JOURNAL in disk ==> JOURNAL in old(disk) && disk[JOURNAL] == old(disk)[JOURNAL]
      ensures f.Raises? && JOURNAL in old(disk) ==> JOURNAL in disk
      ensures faults >= old(faults) && (faults == old(faults) <==> f.Ran?)
    {
      JournalIsNotStaged();
      f := RemoveStaging();
      assert Visible(disk) == Visible(old(disk));
      if f.Dies? { return; }
      VisibleIgnoresPrivate(disk, JOURNAL, Link);
      f := Unlink(JOURNAL);
    }

    /** `_restore`: put every before-image back, then clean up. */
    method Restore(ghost files: Disk, ghost changes: seq<Change>, entries: seq<Entry>) returns (f: Ended)
      requires Interrupted(files, changes, disk) && entries == EntriesOf(changes)
      modifies this
      ensures f.Ran? ==> Unpending(files, disk)
      ensures f.Raises? ==> PartlyRestored(files, old(disk), disk)
      ensures f.Dies? ==> PartlyRestored(files, old(disk), disk) || Unpending(files, disk)
      ensures faults >= old(faults) && (faults == old(faults) <==> f.Ran?)
    {
      f := Ran;
      for i := 0 to |entries|
        invariant Interrupted(files, changes, disk) && PartlyRestored(files, old(disk), disk)
        invariant f.Ran? && faults == old(faults)
        invariant forall j :: 0 <= j < i ==> SameAt(Visible(disk), files, changes[j].path)
      {
        ghost var now, from := Visible(disk), disk;
        f := RestoreEntry(files, changes, i, entries[i]);
        PartlyRestoredTransitive(files, old(disk), from, disk);
        if !f.Ran? { return; }
        forall j | 0 <= j < i ensures SameAt(Visible(disk), files, changes[j].path) {
          assert SameAt(now, files, changes[j].path);
          assert SameAt(Visible(disk), now, changes[j].path);
        }
      }
      AllRestored(files, changes, Visible(disk));
      f := Cleanup();
    }

    method RestoreEntry(ghost files: Disk, ghost changes: seq<Change>, ghost i: nat, e: Entry) returns (f: Ended)
      requires i < |changes| && e == Entry(changes[i].path, changes[i].before)
      requires Interrupted(files, changes, disk)
      modifies this
      ensures Interrupted(files, changes, disk) && PartlyRestored(files, old(disk), disk)
      ensures f.Ran? ==> SameAt(Visible(disk), files, e.path)
      ensures f.Ran? ==> forall p :: p != e.path ==> SameAt(Visible(disk), Visible(old(disk)), p)
      ensures faults >= old(faults) && (faults == old(faults) <==> f.Ran?)
    {
      NoLinkAppears(files, changes, disk, i);
      assert !LinkAbove(disk, e.path);
      RestoredOneIsMixed(files, changes, Visible(disk), i);
      if e.before.None? {
        VisibleUpdate(disk, e.path, Link);
        f := Unlink(e.path);
      } else {
        VisibleUpdate(disk, e.path, File(e.before.value));
        f := Put(e.path, File(e.before.value));
      }
    }

    /** `recover`: nothing without a journal; an unreadable one raises. */
    method Recover(ghost files: Disk, ghost changes: seq<Change>) returns (o: Outcome)
      requires Pending(disk) && !Unreadable(disk) ==> Interrupted(files, changes, disk)
      modifies this
      ensures RecoverRelation(files, old(disk), disk, o)
      ensures faults == old(faults) <==> o.Nothing? || o.Restored? || Unreadable(old(disk))
    {
      if !Pending(disk) { return Nothing; }
      if !disk[JOURNAL].content.JournalDocument? { return Raised; }
      var f := Restore(files, changes, disk[JOURNAL].content.journal.changes);
      o := if f.Ran? then Restored else if f.Raises? then Raised else Dead;
    }
  }

  /** The staging copy of a change is on the disk. */
  predicate StagedOn(d: Disk, transactionId: string, c: Change) {
    Staged(transactionId, c.path) in d && d[Staged(transactionId, c.path)] == File(c.after)
  }

  lemma JournalIsNotStaged()
    ensures !(STAGING <= JOURNAL)
  {
    assert STAGING[1] == ".staging" && JOURNAL[1] == ".transaction.json";
    assert ".staging"[1] != ".transaction.json"[1];
  }

  /** Reviewed files lie outside the private area, so they match on the visible files too. */
  lemma ReviewedFilesAreVisible(d: Disk, changes: seq<Change>)
    requires Reviewed(changes) && Current(d, changes)
    ensures Current(Visible(d), changes)
  {
    forall i | 0 <= i < |changes| ensures Matches(Visible(d), changes[i]) {
      assert Matches(d, changes[i]);
    }
  }
}
