/** Uninstalling: paths are moved aside, the shell profile is edited, and a failure moves everything back. */
module Uninstallation {
  import opened Prelude
  import opened Installation

  type Bytes = seq<bv8>

  datatype Node = File(content: Bytes) | Folder(entries: map<string, Node>) | Symlink(target: string)

  type Files = map<string, Node>

  datatype UninstallPlan = UninstallPlan(
    binary: string,
    backup: string,
    dataRoot: string,
    runtimeParent: string,
    manifestPath: string,
    binaryInsideData: bool,
    purgeData: bool,
    editsProfile: bool,
    profileBefore: Option<Bytes>,
    profileAfter: Option<Bytes>,
    removeCreatedProfile: bool)

  datatype UninstallStep =
    | Prepare(path: string) | MoveAway(path: string) | EditProfile
    | RestoreProfile | MoveBack(path: string) | Discard(path: string)

  type UninstallFaults = UninstallStep -> Fault

  datatype UninstallEnding =
    | UninstallRefused
    | Uninstalled(dataPurged: bool, pending: set<string>)
    | UninstallFailed
    | UninstallFailedUnrestored

  /** `_uninstall_paths`. */
  function UninstallPaths(plan: UninstallPlan, files: Files): seq<string> {
    (if !plan.purgeData || !plan.binaryInsideData then
       [plan.binary] + (if plan.backup in files then [plan.backup] else [])
     else []) +
    (if plan.purgeData then [plan.dataRoot] else [plan.runtimeParent, plan.manifestPath])
  }

  predicate DistinctPaths(plan: UninstallPlan) {
    NoDuplicates([plan.binary, plan.backup, plan.dataRoot, plan.runtimeParent, plan.manifestPath])
  }

  lemma PathsAreDistinct(plan: UninstallPlan, files: Files)
    requires DistinctPaths(plan)
    ensures NoDuplicates(UninstallPaths(plan, files))
  {
    var all := [plan.binary, plan.backup, plan.dataRoot, plan.runtimeParent, plan.manifestPath];
    assert forall i, j :: 0 <= i < j < 5 ==> all[i] != all[j];
    assert all[0] != all[1] && all[0] != all[2] && all[0] != all[3] && all[0] != all[4];
    assert all[1] != all[2] && all[1] != all[3] && all[1] != all[4] && all[3] != all[4];
  }

  /** The recovery names are new and distinct, as a temporary file name is. */
  predicate FreshNames(paths: seq<string>, recovery: map<string, string>, files: Files) {
    && (forall p :: p in paths ==> p in recovery && recovery[p] !in files && recovery[p] !in paths)
    && (forall p, q :: p in paths && q in paths && p != q ==> recovery[p] != recovery[q])
  }

  // ---- The shell profile ----

  /** `_apply_managed_path_change`: the new profile, or an error without effect. */
  function Edited(profile: Option<Bytes>, before: Option<Bytes>, after: Option<Bytes>,
                  remove: bool): Result<Option<Bytes>, ()> {
    if before.None? && after.None? then (if profile.Some? then Err(()) else Ok(profile))
    else if before.None? || after.None? then Err(())
    else if profile != before then Err(())
    else if before == after then Ok(profile)
    else if remove && after == Some([]) then Ok(None)
    else Ok(after)
  }

  /** `_restore_managed_path_change`. */
  function Restored(profile: Option<Bytes>, before: Option<Bytes>, after: Option<Bytes>,
                    removed: bool): Result<Option<Bytes>, ()> {
    if before.None? && after.None? then Ok(profile)
    else if before.None? || after.None? then Err(())
    else if removed && profile.None? then Ok(before)
    else if profile == after then Edited(profile, after, before, false)
    else if profile != before then Err(())
    else Ok(profile)
  }

  function AfterEdit(plan: UninstallPlan, profile: Option<Bytes>, f: Fault): Option<Bytes> {
    var edit := Edited(profile, plan.profileBefore, plan.profileAfter, plan.removeCreatedProfile);
    if edit.Ok? && !f.FailsBefore? then edit.value else profile
  }

  function AfterRestore(plan: UninstallPlan, profile: Option<Bytes>, f: Fault): Option<Bytes> {
    var edit := Restored(profile, plan.profileBefore, plan.profileAfter, plan.removeCreatedProfile);
    if edit.Ok? && !f.FailsBefore? then edit.value else profile
  }

  /** Recovery takes this profile for an edited one: it already looks as the edit would leave it. */
  predicate LooksEdited(plan: UninstallPlan, profile: Option<Bytes>) {
    && plan.profileBefore.Some? && plan.profileAfter.Some?
    && profile != plan.profileBefore
    && (profile == plan.profileAfter || (plan.removeCreatedProfile && profile.None?))
  }

  /** Restoring after an edit, whether it had effect or not, gives the old bytes unless they looked edited already. */
  lemma ProfileAfterRecovery(plan: UninstallPlan, profile: Option<Bytes>, edit: Fault, restore: Fault)
    requires !restore.FailsBefore?
    ensures AfterRestore(plan, AfterEdit(plan, profile, edit), restore) == profile <==> !LooksEdited(plan, profile)
  {
  }

  // ---- Moved files ----

  function Recoveries(paths: set<string>, recovery: map<string, string>): set<string> {
    set p | p in paths && p in recovery :: recovery[p]
  }

  /** The nodes at `moved` are at their recovery names instead; everything else is where it was. */
  ghost predicate Relocated(before: Files, now: Files, recovery: map<string, string>, moved: set<string>) {
    && moved <= before.Keys && moved <= recovery.Keys
    && now.Keys == (before.Keys - moved) + Recoveries(moved, recovery)
    && (forall p :: p in before && p !in moved ==> p in now && now[p] == before[p])
    && (forall p :: p in moved ==> recovery[p] in now && now[recovery[p]] == before[p])
  }

  function Renamed(files: Files, from: string, to: string): Files
    requires from in files
  {
    (files - {from})[to := files[from]]
  }

  lemma RelocateOne(before: Files, now: Files, paths: seq<string>, recovery: map<string, string>,
                    moved: set<string>, p: string)
    requires FreshNames(paths, recovery, before) && moved <= Elements(paths)
    requires Relocated(before, now, recovery, moved)
    requires p in paths && p !in moved && p in now
    ensures p in before && Relocated(before, Renamed(now, p, recovery[p]), recovery, moved + {p})
  {
    assert p in before;
    var after := Renamed(now, p, recovery[p]);
    forall q | q in moved + {p} ensures recovery[q] in after && after[recovery[q]] == before[q] {
      if q != p { assert recovery[q] != recovery[p] && recovery[q] !in paths; }
    }
    assert after.Keys == (before.Keys - (moved + {p})) + Recoveries(moved + {p}, recovery);
  }

  /** The next path is where it was, and is one more. */
  lemma NextToMove(before: Files, now: Files, paths: seq<string>, recovery: map<string, string>, n: nat)
    requires FreshNames(paths, recovery, before) && NoDuplicates(paths) && n < |paths|
    requires Relocated(before, now, recovery, Elements(paths[..n]))
    ensures var p := paths[n];
      && p in recovery && p !in Elements(paths[..n]) && Elements(paths[..n]) <= Elements(paths)
      && (p in now <==> p in before)
      && paths[..n + 1] == paths[..n] + [p] && Elements(paths[..n + 1]) == Elements(paths[..n]) + {p}
  {
    assert paths[..n + 1] == paths[..n] + [paths[n]];
    ElementsOfAppend(paths[..n], paths[n]);
  }

  lemma RestoreOne(before: Files, now: Files, paths: seq<string>, recovery: map<string, string>,
                   moved: set<string>, p: string)
    requires FreshNames(paths, recovery, before) && moved <= Elements(paths)
    requires Relocated(before, now, recovery, moved)
    requires p in moved
    ensures recovery[p] in now && Relocated(before, Renamed(now, recovery[p], p), recovery, moved - {p})
  {
    var after := Renamed(now, recovery[p], p);
    forall q | q in moved - {p} ensures recovery[q] in after && after[recovery[q]] == before[q] {
      assert recovery[q] != recovery[p] && recovery[q] !in paths;
    }
    assert after.Keys == (before.Keys - (moved - {p})) + Recoveries(moved - {p}, recovery);
  }

  lemma NothingRelocated(before: Files, now: Files, recovery: map<string, string>)
    requires Relocated(before, now, recovery, {})
    ensures now == before
  {
    assert now.Keys == before.Keys;
  }

  /** A path is moved exactly when its recovery name exists. */
  lemma MovedIffRecoveryExists(before: Files, now: Files, paths: seq<string>,
                               recovery: map<string, string>, moved: set<string>, p: string)
    requires FreshNames(paths, recovery, before) && moved <= Elements(paths)
    requires Relocated(before, now, recovery, moved)
    requires p in paths
    ensures p in moved <==> recovery[p] in now
  {
    if recovery[p] in now {
      var q :| q in moved && recovery[q] == recovery[p];
      assert q == p;
    }
  }

  lemma RecoveriesStep(paths: seq<string>, recovery: map<string, string>, n: nat)
    requires n < |paths| && paths[n] in recovery
    ensures Recoveries(Elements(paths[n..]), recovery)
      == {recovery[paths[n]]} + Recoveries(Elements(paths[n + 1..]), recovery)
    ensures Recoveries(Elements(paths[..n + 1]), recovery)
      == Recoveries(Elements(paths[..n]), recovery) + {recovery[paths[n]]}
  {
    assert paths[n..] == [paths[n]] + paths[n + 1..] && paths[..n + 1] == paths[..n] + [paths[n]];
    assert Elements(paths[n..]) == {paths[n]} + Elements(paths[n + 1..]);
    assert Elements(paths[..n + 1]) == Elements(paths[..n]) + {paths[n]};
  }

  /** Every kept node is there unchanged. */
  predicate Kept(kept: Files, now: Files) {
    forall p :: p in kept ==> p in now && now[p] == kept[p]
  }

  /** The paths are gone, all others are untouched, and the leftovers are exactly recovery names reported as pending. */
  predicate Removed(before: Files, now: Files, paths: seq<string>, recovery: map<string, string>,
                    pending: set<string>) {
    && Kept(before - Elements(paths), now)
    && now.Keys - pending == before.Keys - Elements(paths)
    && pending <= Recoveries(Elements(paths), recovery)
  }

  // ---- What can go wrong ----

  /** Every path is there and is moved without a fault. */
  predicate AllMove(paths: seq<string>, files: Files, faults: UninstallFaults) {
    forall p :: p in paths ==> p in files && faults(Prepare(p)).Fine? && faults(MoveAway(p)).Fine?
  }

  /** Recovery steps have their effect, even if they then raise. */
  predicate RestoringWorks(paths: seq<string>, faults: UninstallFaults) {
    && !faults(RestoreProfile).FailsBefore?
    && forall p :: p in paths ==> !faults(MoveBack(p)).FailsBefore?
  }

  class Uninstaller {
    var files: Files
    var profile: Option<Bytes>

    constructor (files: Files, profile: Option<Bytes>)
      ensures this.files == files && this.profile == profile
    {
      this.files := files;
      this.profile := profile;
    }

    /** `_uninstall_locked`; `reviewed` says that the installation still matches the reviewed plan. */
    method Uninstall(plan: UninstallPlan, reviewed: bool, recovery: map<string, string>, faults: UninstallFaults)
      returns (r: UninstallEnding)
      requires DistinctPaths(plan)
      requires FreshNames(UninstallPaths(plan, files), recovery, files)
      modifies this
      ensures r.UninstallRefused? <==> !reviewed
      ensures r.UninstallRefused? ==> files == old(files) && profile == old(profile)
      ensures r.Uninstalled? <==>
        && reviewed && AllMove(UninstallPaths(plan, old(files)), old(files), faults)
        && (plan.editsProfile ==> faults(EditProfile).Fine?)
        && (plan.editsProfile ==> Edited(old(profile), plan.profileBefore, plan.profileAfter,
                                         plan.removeCreatedProfile).Ok?)
      // a reported plain failure has moved every path back
      ensures r.UninstallFailed? ==> files == old(files)
      // and so has any failure whose recovery steps had effect; the profile bytes too, unless they looked edited
      // already
      ensures (r.UninstallFailed? || r.UninstallFailedUnrestored?) &&
              RestoringWorks(UninstallPaths(plan, old(files)), faults) ==>
        && files == old(files)
        && (profile == old(profile) <==>
            !(plan.editsProfile && AllMove(UninstallPaths(plan, old(files)), old(files), faults)
              && LooksEdited(plan, old(profile))))
      // whatever fails, every node is at its path or at its recovery name
      ensures r.UninstallFailed? || r.UninstallFailedUnrestored? ==>
        exists moved :: moved <= Elements(UninstallPaths(plan, old(files)))
          && Relocated(old(files), files, recovery, moved)
      ensures r.Uninstalled? ==>
        && Removed(old(files), files, UninstallPaths(plan, old(files)), recovery, r.pending)
        && (r.dataPurged <==> plan.purgeData && recovery[plan.dataRoot] !in r.pending)
        && Ok(profile) == if plan.editsProfile then
             Edited(old(profile), plan.profileBefore, plan.profileAfter, plan.removeCreatedProfile)
           else Ok(old(profile))
    {
      if !reviewed { return UninstallRefused; }
      ghost var before := files;
      var paths := UninstallPaths(plan, files);
      PathsAreDistinct(plan, files);
      var n, raised;
      ghost var moved;
      n, raised, moved := Stage(paths, recovery, faults);
      var profileChangeStarted := false;
      if !raised && plan.editsProfile {
        profileChangeStarted := true;
        raised := Apply(plan, faults(EditProfile));
      }
      if raised {
        r := Recover(before, plan, paths, n, recovery, moved, profileChangeStarted, faults);
        if !faults(RestoreProfile).FailsBefore? {
          ProfileAfterRecovery(plan, old(profile), faults(EditProfile), faults(RestoreProfile));
        }
        return;
      }
      var pending := Discarding(before, paths, recovery, faults);
      r := Uninstalled(plan.purgeData && recovery[plan.dataRoot] !in pending, pending);
    }

    /** Move the paths aside one by one; each is recorded before it is moved. */
    method Stage(paths: seq<string>, recovery: map<string, string>, faults: UninstallFaults)
      returns (n: nat, raised: bool, ghost moved: set<string>)
      requires FreshNames(paths, recovery, files) && NoDuplicates(paths)
      modifies this`files
      ensures n <= |paths|
      ensures moved <= Elements(paths[..n]) && Relocated(old(files), files, recovery, moved)
      ensures raised <==> !AllMove(paths, old(files), faults)
      ensures !raised ==> n == |paths| && moved == Elements(paths)
    {
      ghost var before := files;
      n := 0;
      moved := {};
      while n < |paths|
        invariant n <= |paths|
        invariant moved == Elements(paths[..n]) && Relocated(before, files, recovery, moved)
        invariant AllMove(paths[..n], before, faults)
      {
        var p := paths[n];
        NextToMove(before, files, paths, recovery, n);
        hide Relocated, FreshNames, Renamed, Elements, NoDuplicates;
        if p !in files || !faults(Prepare(p)).Fine? { return n, true, moved; }
        n := n + 1;
        if !faults(MoveAway(p)).FailsBefore? {
          RelocateOne(before, files, paths, recovery, moved, p);
          files := Renamed(files, p, recovery[p]);
          moved := moved + {p};
        }
        if !faults(MoveAway(p)).Fine? { return n, true, moved; }
      }
      assert paths[..n] == paths;
      raised := false;
    }

    /** Edit the profile as reviewed. */
    method Apply(plan: UninstallPlan, f: Fault) returns (raised: bool)
      modifies this`profile
      ensures profile == AfterEdit(plan, old(profile), f)
      ensures raised <==> !f.Fine? || Edited(old(profile), plan.profileBefore, plan.profileAfter,
                                             plan.removeCreatedProfile).Err?
    {
      var edit := Edited(profile, plan.profileBefore, plan.profileAfter, plan.removeCreatedProfile);
      if edit.Ok? && !f.FailsBefore? { profile := edit.value; }
      raised := edit.Err? || !f.Fine?;
    }

    /** The `except` block of an uninstall. */
    method Recover(ghost before: Files, plan: UninstallPlan, paths: seq<string>, n: nat, recovery: map<string, string>,
                   ghost moved: set<string>, profileChangeStarted: bool, faults: UninstallFaults)
      returns (r: UninstallEnding)
      requires FreshNames(paths, recovery, before) && n <= |paths|
      requires moved <= Elements(paths[..n]) && Relocated(before, files, recovery, moved)
      modifies this
      ensures r.UninstallFailed? || r.UninstallFailedUnrestored?
      ensures r.UninstallFailed? || RestoringWorks(paths, faults) ==> files == before
      ensures exists left :: left <= Elements(paths) && Relocated(before, files, recovery, left)
      ensures profile == if profileChangeStarted then AfterRestore(plan, old(profile), faults(RestoreProfile))
        else old(profile)
    {
      var incomplete := false;
      if profileChangeStarted {
        incomplete := Restore(plan, faults(RestoreProfile));
      }
      var stuck;
      ghost var left;
      stuck, left := Unstage(before, paths, n, recovery, moved, faults);
      if left == {} { NothingRelocated(before, files, recovery); }
      r := if incomplete || stuck then UninstallFailedUnrestored else UninstallFailed;
    }

    /** Put the profile bytes back. */
    method Restore(plan: UninstallPlan, f: Fault) returns (raised: bool)
      modifies this`profile
      ensures profile == AfterRestore(plan, old(profile), f)
      ensures raised <==> !f.Fine? || Restored(old(profile), plan.profileBefore, plan.profileAfter,
                                               plan.removeCreatedProfile).Err?
    {
      var edit := Restored(profile, plan.profileBefore, plan.profileAfter, plan.removeCreatedProfile);
      if edit.Ok? && !f.FailsBefore? { profile := edit.value; }
      raised := edit.Err? || !f.Fine?;
    }

    /** Move the recorded paths back, last first. */
    method Unstage(ghost before: Files, paths: seq<string>, n: nat, recovery: map<string, string>,
                   ghost moved: set<string>,
                   faults: UninstallFaults) returns (stuck: bool, ghost left: set<string>)
      requires FreshNames(paths, recovery, before) && n <= |paths|
      requires moved <= Elements(paths[..n]) && Relocated(before, files, recovery, moved)
      modifies this`files
      ensures left <= Elements(paths) && Relocated(before, files, recovery, left)
      ensures !stuck ==> left == {}
      ensures (forall p :: p in paths ==> !faults(MoveBack(p)).FailsBefore?) ==> left == {}
    {
      var i := n;
      stuck := false;
      left := moved;
      while i > 0
        invariant 0 <= i <= n && left <= Elements(paths) && Relocated(before, files, recovery, left)
        invariant !stuck ==> left <= Elements(paths[..i])
        invariant (forall p :: p in paths ==> !faults(MoveBack(p)).FailsBefore?) ==> left <= Elements(paths[..i])
      {
        i := i - 1;
        var p := paths[i];
        assert paths[..i + 1] == paths[..i] + [p];
        MovedIffRecoveryExists(before, files, paths, recovery, left, p);
        if recovery[p] in files {
          if !faults(MoveBack(p)).FailsBefore? {
            RestoreOne(before, files, paths, recovery, left, p);
            files := Renamed(files, recovery[p], p);
            left := left - {p};
          }
          stuck := stuck || !faults(MoveBack(p)).Fine?;
        } else if p !in files {
          stuck := true;
        }
      }
    }

    /** Remove what was moved aside; what cannot be removed is reported. */
    method Discarding(ghost before: Files, paths: seq<string>, recovery: map<string, string>, faults: UninstallFaults)
      returns (pending: set<string>)
      requires FreshNames(paths, recovery, before) && Relocated(before, files, recovery, Elements(paths))
      modifies this`files
      ensures Removed(before, files, paths, recovery, pending)
      ensures (forall p :: p in paths ==> faults(Discard(p)).Fine?) ==> pending == {}
    {
      pending := {};
      var n := 0;
      ghost var kept := before - Elements(paths);
      assert paths[0..] == paths;
      while n < |paths|
        invariant n <= |paths|
        invariant pending <= Recoveries(Elements(paths[..n]), recovery)
        invariant Kept(kept, files) && files.Keys <= kept.Keys + pending + Recoveries(Elements(paths[n..]), recovery)
        invariant (forall p :: p in paths ==> faults(Discard(p)).Fine?) ==> pending == {}
      {
        var p := paths[n];
        RecoveriesStep(paths, recovery, n);
        assert recovery[p] !in kept;
        if !faults(Discard(p)).FailsBefore? { files := files - {recovery[p]}; }
        if !faults(Discard(p)).Fine? { pending := pending + {recovery[p]}; }
        n := n + 1;
      }
      assert paths[..n] == paths;
    }
  }
}
