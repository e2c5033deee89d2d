/** Every run of transactions, crashes and recoveries is atomic. */
module TransactionRuns {
  import opened Prelude
  import opened Transaction

  datatype Call =
    | ApplyCall(changes: seq<Change>, outcome: Outcome)
    | RecoverCall(outcome: Outcome)

  /** The files after a list of transactions, each applied whole. */
  function Replay(files: Disk, log: seq<seq<Change>>): Disk {
    if log == [] then files else Effect(Replay(files, log[..|log| - 1]), log[|log| - 1])
  }

  /** The changes of the `apply` calls that ended in one of these ways, in order. */
  function Ended(calls: seq<Call>, ways: set<Outcome>): seq<seq<Change>> {
    if calls == [] then []
    else
      var c := calls[|calls| - 1];
      Ended(calls[..|calls| - 1], ways) + if c.ApplyCall? && c.outcome in ways then [c.changes] else []
  }

  /** A call that reports success has written its changes, one that dies may have, and no other has. */
  const WRITTEN := {Applied}
  const PERHAPS_WRITTEN := {Applied, Dead}
  /** A call that raises or dies may leave its journal. */
  const INTERRUPTED := {Raised, Dead}
  const TOUCHING := {Applied, Dead, Raised}

  predicate Subsequence<T(==)>(s: seq<T>, t: seq<T>)
    decreases |t|
  {
    s == [] || (t != [] &&
      (|| Subsequence(s, t[..|t| - 1])
       || (s[|s| - 1] == t[|t| - 1] && Subsequence(s[..|s| - 1], t[..|t| - 1]))))
  }

  /** One call takes the disk from `d` to `after`; a recovery goes back to the files its journal determines. */
  ghost predicate CallRelation(c: Call, d: Disk, after: Disk) {
    match c
    case ApplyCall(changes, o) => Reviewed(changes) && ApplyRelation(d, after, changes, o)
    case RecoverCall(o) =>
      if !Pending(d) || Unreadable(d) then RecoverRelation(d, d, after, o)
      else forall files, changes :: Interrupted(files, changes, d) ==> RecoverRelation(files, d, after, o)
  }

  /** A run: a disk before each call and one after the last. */
  ghost predicate IsRun(disks: seq<Disk>, calls: seq<Call>) {
    && |disks| == |calls| + 1
    && forall i :: 0 <= i < |calls| ==> CallRelation(calls[i], disks[i], disks[i + 1])
  }

  /** The disk shows the replayed log, or one of these transactions interrupted over it. */
  ghost predicate Consistent(files: Disk, log: seq<seq<Change>>, open: seq<seq<Change>>, d: Disk) {
    if Pending(d) then exists changes :: changes in open && Interrupted(Replay(files, log), changes, d)
    else Visible(d) == Replay(files, log)
  }

  lemma ReplayAppend(files: Disk, log: seq<seq<Change>>, changes: seq<Change>)
    ensures Replay(files, log + [changes]) == Effect(Replay(files, log), changes)
  {
    assert (log + [changes])[..|log|] == log;
  }

  lemma SubsequenceSkips<T>(s: seq<T>, t: seq<T>, x: T)
    requires Subsequence(s, t)
    ensures Subsequence(s, t + [x])
    ensures Subsequence(s + [x], t + [x])
  {
    assert (t + [x])[..|t|] == t;
    assert (s + [x])[..|s|] == s;
  }

  lemma {:induction false} SubsequenceMember<T>(s: seq<T>, t: seq<T>, x: T)
    requires Subsequence(s, t) && x in s
    ensures x in t
    decreases |t|
  {
    var u := t[..|t| - 1];
    assert t == u + [t[|t| - 1]];
    if Subsequence(s, u) {
      SubsequenceMember(s, u, x);
    } else if x != s[|s| - 1] {
      assert s == s[..|s| - 1] + [s[|s| - 1]];
      SubsequenceMember(s[..|s| - 1], u, x);
    }
  }

  lemma ApplyStaysConsistent(files: Disk, log: seq<seq<Change>>, open: seq<seq<Change>>, d: Disk, after: Disk,
                             changes: seq<Change>, o: Outcome) returns (extended: seq<seq<Change>>)
    requires Consistent(files, log, open, d) && Reviewed(changes) && ApplyRelation(d, after, changes, o)
    ensures Consistent(files, extended, if o in INTERRUPTED then open + [changes] else open, after)
    ensures extended == log || (o in PERHAPS_WRITTEN && extended == log + [changes])
    ensures o in WRITTEN ==> extended == log + [changes]
  {
    ReplayAppend(files, log, changes);
    if o.Nothing? || o.Refused? {
      extended := log;
    } else if o.Applied? || (o.Dead? && !Pending(after) && Visible(after) != Visible(d)) {
      extended := log + [changes];
    } else {
      extended := log;
      assert changes in open + [changes];
      assert Pending(after) ==> Interrupted(Replay(files, log), changes, after);
    }
  }

  lemma RecoverStaysConsistent(files: Disk, log: seq<seq<Change>>, open: seq<seq<Change>>, d: Disk, after: Disk,
                               o: Outcome)
    requires Consistent(files, log, open, d) && CallRelation(RecoverCall(o), d, after)
    ensures Consistent(files, log, open, after)
    ensures o.Restored? ==> !Pending(after) && Visible(after) == Replay(files, log)
  {
    if Pending(d) {
      var changes :| changes in open && Interrupted(Replay(files, log), changes, d);
      assert RecoverRelation(Replay(files, log), d, after, o);
      if PartlyRestored(Replay(files, log), d, after) {
        StillInterrupted(Replay(files, log), changes, d, after);
      }
    }
  }

  /** What the log is bounded by: every transaction that reported success, and besides only ones that died. */
  predicate Accounts(calls: seq<Call>, log: seq<seq<Change>>) {
    Subsequence(Ended(calls, WRITTEN), log) && Subsequence(log, Ended(calls, PERHAPS_WRITTEN))
  }

  lemma LogAccounts(calls: seq<Call>, c: Call, earlier: seq<seq<Change>>, log: seq<seq<Change>>)
    requires Accounts(calls, earlier)
    requires log == earlier || (c.ApplyCall? && c.outcome in PERHAPS_WRITTEN && log == earlier + [c.changes])
    requires c.ApplyCall? && c.outcome in WRITTEN ==> log == earlier + [c.changes]
    ensures Accounts(calls + [c], log)
  {
    OneMoreCall(calls, c, WRITTEN);
    OneMoreCall(calls, c, PERHAPS_WRITTEN);
    hide Subsequence, Ended;
    if c.ApplyCall? {
      SubsequenceSkips(earlier, Ended(calls, PERHAPS_WRITTEN), c.changes);
      SubsequenceSkips(Ended(calls, WRITTEN), earlier, c.changes);
    }
  }

  lemma OneMoreCall(calls: seq<Call>, c: Call, ways: set<Outcome>)
    ensures Ended(calls + [c], ways) ==
            if c.ApplyCall? && c.outcome in ways then Ended(calls, ways) + [c.changes] else Ended(calls, ways)
  {
    assert (calls + [c])[..|calls|] == calls;
    assert Ended(calls, ways) + [] == Ended(calls, ways);
  }

  /** One more call keeps the disk and the log in step. */
  lemma CallStaysConsistent(files: Disk, calls: seq<Call>, log: seq<seq<Change>>, c: Call, d: Disk, after: Disk)
    returns (extended: seq<seq<Change>>)
    requires Accounts(calls, log) && Consistent(files, log, Ended(calls, INTERRUPTED), d) && CallRelation(c, d, after)
    ensures Accounts(calls + [c], extended) && Consistent(files, extended, Ended(calls + [c], INTERRUPTED), after)
  {
    extended := log;
    OneMoreCall(calls, c, INTERRUPTED);
    if c.ApplyCall? {
      extended := ApplyStaysConsistent(files, log, Ended(calls, INTERRUPTED), d, after, c.changes, c.outcome);
    } else {
      RecoverStaysConsistent(files, log, Ended(calls, INTERRUPTED), d, after, c.outcome);
    }
    LogAccounts(calls, c, log, extended);
  }

  /** Whatever crashes, raises and retries happen, the log holds every transaction that reported success and besides
      only ones that died; without a pending journal the files are those of the log applied whole, and with one they
      are those of a transaction that raised or died, interrupted over it: its before-images are true and every file
      is before or after. */
  lemma {:induction false} RunsAreAtomic(disks: seq<Disk>, calls: seq<Call>) returns (log: seq<seq<Change>>)
    requires IsRun(disks, calls) && !Pending(disks[0])
    ensures Subsequence(Ended(calls, WRITTEN), log) && Subsequence(log, Ended(calls, PERHAPS_WRITTEN))
    ensures Consistent(Visible(disks[0]), log, Ended(calls, INTERRUPTED), disks[|calls|])
    decreases |calls|
  {
    if calls == [] {
      log := [];
    } else {
      hide CallRelation, Consistent, Subsequence, Ended, Visible;
      var n := |calls| - 1;
      var earlier := RunsAreAtomic(disks[..n + 1], calls[..n]);
      assert calls == calls[..n] + [calls[n]];
      log := CallStaysConsistent(Visible(disks[0]), calls[..n], earlier, calls[n], disks[n], disks[n + 1]);
    }
  }

  lemma {:induction false} MoreWays(calls: seq<Call>, some: set<Outcome>, ways: set<Outcome>, changes: seq<Change>)
    requires some <= ways && changes in Ended(calls, some)
    ensures changes in Ended(calls, ways)
    decreases |calls|
  {
    var n := |calls| - 1;
    if changes in Ended(calls[..n], some) { MoreWays(calls[..n], some, ways, changes); }
  }

  /** None of these transactions names the path. */
  predicate Unnamed(transactions: seq<seq<Change>>, p: Path) {
    forall i, j :: 0 <= i < |transactions| && 0 <= j < |transactions[i]| ==> transactions[i][j].path != p
  }

  /** A file is never touched, pending journal or not, unless a transaction names it that reported success, raised or
      died. */
  lemma OtherFilesUntouched(disks: seq<Disk>, calls: seq<Call>, p: Path)
    requires IsRun(disks, calls) && !Pending(disks[0]) && Unnamed(Ended(calls, TOUCHING), p)
    ensures SameAt(Visible(disks[|calls|]), Visible(disks[0]), p)
  {
    var log: seq<seq<Change>> := RunsAreAtomic(disks, calls);
    var files, d := Visible(disks[0]), disks[|calls|];
    forall changes | changes in log ensures changes in Ended(calls, TOUCHING) {
      SubsequenceMember(log, Ended(calls, PERHAPS_WRITTEN), changes);
      MoreWays(calls, PERHAPS_WRITTEN, TOUCHING, changes);
    }
    forall i, j | 0 <= i < |log| && 0 <= j < |log[i]| ensures log[i][j].path != p {
      assert log[i] in Ended(calls, TOUCHING);
    }
    ReplayElsewhere(files, log, p);
    if Pending(d) {
      var changes :| changes in Ended(calls, INTERRUPTED) && Interrupted(Replay(files, log), changes, d);
      MoreWays(calls, INTERRUPTED, TOUCHING, changes);
      assert SameAt(Visible(d), Replay(files, log), p) || ChangedAt(Visible(d), changes, p);
    }
  }

  lemma {:induction false} ReplayElsewhere(files: Disk, log: seq<seq<Change>>, p: Path)
    requires Unnamed(log, p)
    ensures SameAt(Replay(files, log), files, p)
  {
    if log != [] {
      var n := |log| - 1;
      ReplayElsewhere(files, log[..n], p);
      EffectElsewhere(Replay(files, log[..n]), log[n], p);
    }
  }

  lemma {:induction false} EffectElsewhere(files: Disk, changes: seq<Change>, p: Path)
    requires forall j :: 0 <= j < |changes| ==> changes[j].path != p
    ensures SameAt(Effect(files, changes), files, p)
  {
    if changes != [] {
      EffectElsewhere(files, changes[..|changes| - 1], p);
    }
  }

  /** With distinct paths, every change of an applied transaction is visible. */
  lemma {:induction false} EffectAt(files: Disk, changes: seq<Change>, i: nat)
    requires DistinctPaths(changes) && i < |changes|
    ensures ContentAt(Effect(files, changes), changes[i].path) == Some(changes[i].after)
  {
    var n := |changes| - 1;
    if i < n {
      EffectAt(files, changes[..n], i);
      assert changes[..n][i] == changes[i];
    }
  }
}
