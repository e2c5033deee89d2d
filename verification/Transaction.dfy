/**
 The repository transaction: stage, journal, commit and recover a reviewed file set over a
 disk that can lose the process between any two atomic file operations.
 */
module Transaction {
  import opened Prelude

  /** Repository-relative path components. */
  type Path = seq<string>

  /** What a regular file holds; a journal is kept as the document it serializes. */
  datatype Content = Raw(bytes: seq<bv8>) | JournalDocument(journal: Journal)

  datatype Entry = Entry(path: Path, before: Option<Content>)

  datatype Journal = Journal(transactionId: string, staged: bool, changes: seq<Entry>)

  datatype Node = File(content: Content) | Link

  type Disk = map<Path, Node>

  datatype Change = Change(path: Path, before: Option<Content>, after: Content)

  const JOURNAL: Path := [".harness", ".transaction.json"]
  const STAGING: Path := [".harness", ".staging"]

  function Staged(transactionId: string, path: Path): Path { STAGING + [transactionId] + path }

  /** Where the protocol keeps its own files. */
  predicate Private(p: Path) { JOURNAL <= p || STAGING <= p }

  /** The files of the repository, without the journal and the staging area. */
  function Visible(d: Disk): Disk {
    map p | p in d && !Private(p) :: d[p]
  }

  // ---- Reviewed changes ----

  /** What the constructor of a change demands, and that no change aims at the protocol's own files. */
  predicate Reviewed(changes: seq<Change>) {
    forall i :: 0 <= i < |changes| ==>
      changes[i].path != [] && !Private(changes[i].path) && changes[i].before != Some(changes[i].after)
  }

  predicate DistinctPaths(changes: seq<Change>) {
    forall i, j :: 0 <= i < j < |changes| ==> changes[i].path != changes[j].path
  }

  /** The bytes of a regular file, or nothing. */
  function ContentAt(d: Disk, p: Path): Option<Content> {
    if p in d && d[p].File? then Some(d[p].content) else None
  }

  predicate LinkAbove(d: Disk, p: Path) {
    exists k :: 0 < k < |p| && p[..k] in d && d[p[..k]].Link?
  }

  predicate Matches(d: Disk, c: Change) {
    !LinkAbove(d, c.path) && !(c.path in d && d[c.path].Link?) && ContentAt(d, c.path) == c.before
  }

  /** Every change still starts from the bytes that were reviewed. */
  predicate Current(d: Disk, changes: seq<Change>) {
    forall i :: 0 <= i < |changes| ==> Matches(d, changes[i])
  }

  predicate Pending(d: Disk) { JOURNAL in d && d[JOURNAL].File? }

  predicate Admissible(d: Disk, changes: seq<Change>) {
    changes != [] && !Pending(d) && DistinctPaths(changes) && Current(d, changes)
  }

  function EntriesOf(changes: seq<Change>): (entries: seq<Entry>)
    ensures |entries| == |changes|
    ensures forall i :: 0 <= i < |changes| ==> entries[i] == Entry(changes[i].path, changes[i].before)
  {
    if changes == [] then []
    else EntriesOf(changes[..|changes| - 1]) + [Entry(changes[|changes| - 1].path, changes[|changes| - 1].before)]
  }

  function JournalOf(transactionId: string, staged: bool, changes: seq<Change>): Node {
    File(JournalDocument(Journal(transactionId, staged, EntriesOf(changes))))
  }

  // ---- What a transaction does to the files ----

  /** The files with every change made. */
  function Effect(files: Disk, changes: seq<Change>): Disk {
    if changes == [] then files
    else Effect(files, changes[..|changes| - 1])[changes[|changes| - 1].path := File(changes[|changes| - 1].after)]
  }

  predicate SameAt(a: Disk, b: Disk, p: Path) {
    (p in a <==> p in b) && (p in a ==> a[p] == b[p])
  }

  predicate ChangedAt(files: Disk, changes: seq<Change>, p: Path) {
    exists i :: 0 <= i < |changes| && changes[i].path == p && p in files && files[p] == File(changes[i].after)
  }

  /** Every file is as it was before the changes or as one of them leaves it. */
  ghost predicate Mixed(files: Disk, changes: seq<Change>, now: Disk) {
    forall p :: SameAt(now, files, p) || ChangedAt(now, changes, p)
  }

  /** The disk of an unfinished transaction: its journal holds the true before-images. */
  ghost predicate Interrupted(files: Disk, changes: seq<Change>, d: Disk) {
    && Reviewed(changes) && DistinctPaths(changes) && Current(files, changes)
    && Pending(d) && d[JOURNAL].content.JournalDocument?
    && d[JOURNAL].content.journal.changes == EntriesOf(changes)
    && Mixed(files, changes, Visible(d))
  }

  ghost predicate Unpending(files: Disk, d: Disk) {
    !Pending(d) && Visible(d) == files
  }

  // ---- The relations the operations realize ----

  datatype Outcome = Nothing | Refused | Applied | Restored | Raised | Dead

  ghost predicate ApplyRelation(d: Disk, after: Disk, changes: seq<Change>, o: Outcome) {
    match o
    case Nothing => changes == [] && after == d
    case Refused => changes != [] && !Admissible(d, changes) && after == d
    case Applied => Admissible(d, changes) && Unpending(Effect(Visible(d), changes), after)
    case Restored => Admissible(d, changes) && Unpending(Visible(d), after)
    case Raised => Admissible(d, changes) && (Interrupted(Visible(d), changes, after) || Unpending(Visible(d), after))
    case Dead =>
      && Admissible(d, changes)
      && (|| Interrupted(Visible(d), changes, after)
          || Unpending(Visible(d), after)
          || Unpending(Effect(Visible(d), changes), after))
  }

  predicate Unreadable(d: Disk) {
    Pending(d) && !d[JOURNAL].content.JournalDocument?
  }

  /** Part of the way back: the journal still stands, and each file is as it was found or as it was before. */
  ghost predicate PartlyRestored(files: Disk, d: Disk, after: Disk) {
    && JOURNAL in d && JOURNAL in after && after[JOURNAL] == d[JOURNAL]
    && forall p :: SameAt(Visible(after), Visible(d), p) || SameAt(Visible(after), files, p)
  }

  /** Recovery finishes the transaction a journal describes, or stops part of the way back. */
  ghost predicate RecoverRelation(files: Disk, d: Disk, after: Disk, o: Outcome) {
    match o
    case Nothing => !Pending(d) && after == d
    case Restored => Pending(d) && !Unreadable(d) && Unpending(files, after)
    case Raised => if Unreadable(d) then after == d else Pending(d) && PartlyRestored(files, d, after)
    case Dead => Pending(d) && !Unreadable(d) && (PartlyRestored(files, d, after) || Unpending(files, after))
    case _ => false
  }

  /** A disk part of the way back is still interrupted in the same transaction. */
  lemma StillInterrupted(files: Disk, changes: seq<Change>, d: Disk, after: Disk)
    requires Interrupted(files, changes, d) && PartlyRestored(files, d, after)
    ensures Interrupted(files, changes, after)
  {
    forall p ensures SameAt(Visible(after), files, p) || ChangedAt(Visible(after), changes, p) {
      assert SameAt(Visible(d), files, p) || ChangedAt(Visible(d), changes, p);
      assert SameAt(Visible(after), Visible(d), p) || SameAt(Visible(after), files, p);
    }
  }

  lemma PartlyRestoredTransitive(files: Disk, a: Disk, b: Disk, c: Disk)
    requires PartlyRestored(files, a, b) && PartlyRestored(files, b, c)
    ensures PartlyRestored(files, a, c)
  {
    forall p ensures SameAt(Visible(c), Visible(a), p) || SameAt(Visible(c), files, p) {
      assert SameAt(Visible(b), Visible(a), p) || SameAt(Visible(b), files, p);
      assert SameAt(Visible(c), Visible(b), p) || SameAt(Visible(c), files, p);
    }
  }

  /** The journal of an interrupted disk determines the files before it. */
  lemma InterruptedDetermines(d: Disk, files: Disk, changes: seq<Change>, other: Disk, others: seq<Change>)
    requires Interrupted(files, changes, d) && Interrupted(other, others, d)
    ensures files == other
  {
    var entries := EntriesOf(changes);
    assert entries == EntriesOf(others) && |changes| == |entries| == |others|;
    forall i | 0 <= i < |entries| ensures SameAt(files, other, entries[i].path) {
      assert entries[i] == Entry(others[i].path, others[i].before);
      assert Matches(files, changes[i]) && Matches(other, others[i]);
    }
    forall p ensures SameAt(files, other, p) {
      if forall i :: 0 <= i < |entries| ==> entries[i].path != p {
        assert SameAt(Visible(d), files, p) || ChangedAt(Visible(d), changes, p);
        assert SameAt(Visible(d), other, p) || ChangedAt(Visible(d), others, p);
        assert forall i :: 0 <= i < |entries| ==> changes[i].path == entries[i].path == others[i].path;
      }
    }
    EqualBySame(files, other);
  }

  lemma EqualBySame(a: Disk, b: Disk)
    requires forall p :: SameAt(a, b, p)
    ensures a == b
  {
    forall p ensures p in a <==> p in b { assert SameAt(a, b, p); }
    forall p | p in a ensures a[p] == b[p] { assert SameAt(a, b, p); }
  }

  // ---- Facts about single file operations ----

  lemma VisibleIgnoresPrivate(d: Disk, p: Path, n: Node)
    requires Private(p)
    ensures Visible(d[p := n]) == Visible(d) && Visible(d - {p}) == Visible(d)
  {
  }

  lemma VisibleUpdate(d: Disk, p: Path, n: Node)
    requires !Private(p)
    ensures Visible(d[p := n]) == Visible(d)[p := n] && Visible(d - {p}) == Visible(d) - {p}
  {
  }

  lemma StagedIsPrivate(transactionId: string, path: Path)
    ensures Private(Staged(transactionId, path)) && Staged(transactionId, path) != JOURNAL
    ensures !(JOURNAL <= Staged(transactionId, path))
  {
    assert STAGING <= Staged(transactionId, path);
    assert Staged(transactionId, path)[1] == ".staging";
    assert JOURNAL[1] == ".transaction.json";
    assert ".staging"[1] != ".transaction.json"[1];
  }

  lemma StagedInjective(transactionId: string, p: Path, q: Path)
    requires Staged(transactionId, p) == Staged(transactionId, q)
    ensures p == q
  {
    assert Staged(transactionId, p)[3..] == p;
    assert Staged(transactionId, q)[3..] == q;
  }

  /** Committing one more change keeps every file before or after. */
  lemma {:induction false} EffectIsMixed(files: Disk, changes: seq<Change>, i: nat)
    requires i <= |changes|
    ensures Mixed(files, changes, Effect(files, changes[..i]))
  {
    if i > 0 {
      EffectIsMixed(files, changes, i - 1);
      var c := changes[i - 1];
      var e := Effect(files, changes[..i - 1]);
      assert changes[..i][..i - 1] == changes[..i - 1];
      var next := e[c.path := File(c.after)];
      forall p ensures SameAt(next, files, p) || ChangedAt(next, changes, p) {
        if p == c.path {
          assert changes[i - 1].path == p;
        } else {
          assert SameAt(e, files, p) || ChangedAt(e, changes, p);
        }
      }
    }
  }

  /** Putting one before-image back keeps every file before or after. */
  lemma RestoredOneIsMixed(files: Disk, changes: seq<Change>, now: Disk, i: nat)
    requires i < |changes| && Mixed(files, changes, now) && Matches(files, changes[i])
    ensures var c := changes[i];
      var next := if c.before.None? then now - {c.path} else now[c.path := File(c.before.value)];
      Mixed(files, changes, next) && SameAt(next, files, c.path)
      && forall p :: p != c.path ==> SameAt(next, now, p)
  {
    var c := changes[i];
    var next := if c.before.None? then now - {c.path} else now[c.path := File(c.before.value)];
    forall p ensures SameAt(next, files, p) || ChangedAt(next, changes, p) {
      if p != c.path {
        assert SameAt(now, files, p) || ChangedAt(now, changes, p);
      }
    }
  }

  lemma AllRestored(files: Disk, changes: seq<Change>, now: Disk)
    requires Mixed(files, changes, now)
    requires forall i :: 0 <= i < |changes| ==> SameAt(now, files, changes[i].path)
    ensures now == files
  {
    forall p ensures SameAt(now, files, p) {
      assert SameAt(now, files, p) || ChangedAt(now, changes, p);
    }
    EqualBySame(now, files);
  }

  /** No link ever appears above a reviewed path, so the path check passes again on restore. */
  lemma NoLinkAppears(files: Disk, changes: seq<Change>, d: Disk, i: nat)
    requires Reviewed(changes) && Current(files, changes) && Mixed(files, changes, Visible(d)) && i < |changes|
    ensures !LinkAbove(d, changes[i].path)
  {
    var p := changes[i].path;
    assert Matches(files, changes[i]);
    forall k | 0 < k < |p| ensures !(p[..k] in d && d[p[..k]].Link?) {
      PrefixNotPrivate(p, k);
      LinksAreOld(files, changes, d, p[..k]);
    }
  }

  lemma LinksAreOld(files: Disk, changes: seq<Change>, d: Disk, q: Path)
    requires Mixed(files, changes, Visible(d)) && !Private(q)
    ensures q in d && d[q].Link? ==> q in files && files[q].Link?
  {
    assert SameAt(Visible(d), files, q) || ChangedAt(Visible(d), changes, q);
  }

  lemma PrefixNotPrivate(p: Path, k: nat)
    requires !Private(p) && k <= |p|
    ensures !Private(p[..k])
  {
    assert JOURNAL <= p[..k] ==> JOURNAL <= p;
    assert STAGING <= p[..k] ==> STAGING <= p;
  }
}
