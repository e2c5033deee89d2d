/**
 Storage placement of one clone: bound writers and migrations take the clone's operation lock,
 check again what they were told before it, and may die between any two of their steps.
 */
module Storage {
  import opened Prelude
  import opened TaskModel

  datatype Mode = UserData | RepositoryLocal

  /** The directory a writer or a plan names: a placement of this clone, or another one. */
  datatype Place = At(mode: Mode) | Elsewhere

  type Path = seq<string>

  datatype Content = TaskRecord(state: TaskState, rest: string) | Plain(text: string)

  datatype Entry = Regular(content: Content) | SymbolicLink

  type Tree = map<Path, Entry>

  datatype Item = Item(size: nat, sha: Digest<Content>)

  function SizeOf(c: Content): nat {
    match c
    case TaskRecord(_, rest) => |rest|
    case Plain(text) => |text|
  }

  function ItemOf(c: Content): Item { Item(SizeOf(c), Sha256(c)) }

  predicate HasLink(t: Tree) {
    exists p :: p in t && t[p].SymbolicLink?
  }

  /** `_manifest`: a missing root has none; a symbolic link is refused. */
  function Manifest(t: Tree): Result<map<Path, Item>, ()> {
    if HasLink(t) then Err(()) else Ok(map p | p in t && t[p].Regular? :: ItemOf(t[p].content))
  }

  lemma ManifestDetermines(a: Tree, b: Tree)
    requires Manifest(a).Ok? && Manifest(a) == Manifest(b)
    ensures a == b
  {
    var m, n := Manifest(a).value, Manifest(b).value;
    assert m.Keys == a.Keys && n.Keys == b.Keys;
    forall p | p in a ensures p in b && a[p] == b[p] {
      assert m[p] == ItemOf(a[p].content) && n[p] == ItemOf(b[p].content);
    }
    assert a.Keys == b.Keys;
  }

  // ---- Task records in a tree ----

  predicate IsRecordPath(p: Path) {
    || (|p| == 3 && p[0] == "tasks" && p[2] == "record.json")
    || (|p| == 5 && p[0] == "worktrees" && p[2] == "tasks" && p[4] == "record.json")
  }

  predicate Unfinished(e: Entry) {
    e.Regular? && e.content.TaskRecord? && e.content.state in {Draft, Active, Blocked}
  }

  /** `_reject_unfinished_tasks` raises: a task is unfinished, or its record cannot be loaded. */
  predicate RejectsTasks(t: Tree) {
    exists p :: p in t && IsRecordPath(p) && (Unfinished(t[p]) || t[p].SymbolicLink? || t[p].content.Plain?)
  }

  // ---- Plans ----

  datatype Plan = Plan(sourceMode: Mode, targetMode: Mode, source: Place, target: Place, items: map<Path, Item>,
                       conflicts: bool, reuseTarget: bool)

  datatype Phase =
    | Free
    | WriterLocked(root: Place)
    | Writing(placement: Mode)
    | MigrationLocked(plan: Plan)
    | Copying(plan: Plan, temporary: Tree, left: set<Path>)
    | Verified(plan: Plan, temporary: Tree)
    | Installed(plan: Plan)
    | Reusing(plan: Plan)
    | Failing(plan: Plan, installed: bool)

  /** `committed` is what writers have written so far. */
  datatype State = State(mode: Mode, trees: map<Mode, Tree>, committed: Tree, phase: Phase)

  /** The records a placement holds; a missing directory holds none. */
  function Held(trees: map<Mode, Tree>, m: Mode): Tree {
    if m in trees then trees[m] else map[]
  }

  /** The checks of `_apply_locked` that come before the first write. */
  predicate PlanStands(s: State, p: Plan) {
    && s.mode == p.sourceMode && p.source == At(s.mode)
    && p.target == At(p.targetMode)
    && !p.conflicts
    && Manifest(Held(s.trees, s.mode)) == Ok(p.items)
    && (if p.reuseTarget then Manifest(Held(s.trees, p.targetMode)) == Ok(p.items) else p.targetMode !in s.trees)
    && !RejectsTasks(Held(s.trees, s.mode))
  }

  datatype Action =
    | AcquireWriter(root: Place)
    | CheckBinding
    | Put(path: Path, entry: Entry)
    | Drop(path: Path)
    | Release
    | AcquireMigration(plan: Plan)
    | CheckPlan
    | CopyOne(path: Path, fault: Fault)
    | VerifyCopy
    | Rename(fault: Fault)
    | SetMode(fault: Fault)
    | Cleanup(fault: Fault, rest: Tree)
    | Crash

  function WriterNext(s: State, a: Action): State {
    match a
    case AcquireWriter(root) => if s.phase.Free? then s.(phase := WriterLocked(root)) else s
    case CheckBinding =>
      if !s.phase.WriterLocked? then s
      else if s.phase.root == At(s.mode) then s.(phase := Writing(s.mode))
      else s.(phase := Free)
    case Put(path, entry) =>
      if !s.phase.Writing? then s
      else s.(trees := s.trees[s.phase.placement := Held(s.trees, s.phase.placement)[path := entry]],
              committed := s.committed[path := entry])
    case Drop(path) =>
      if !s.phase.Writing? then s
      else s.(trees := s.trees[s.phase.placement := Held(s.trees, s.phase.placement) - {path}],
              committed := s.committed - {path})
    case Release => if s.phase.WriterLocked? || s.phase.Writing? then s.(phase := Free) else s
    case _ => s
  }

  function MigrationNext(s: State, a: Action): State {
    match a
    case AcquireMigration(plan) => if s.phase.Free? then s.(phase := MigrationLocked(plan)) else s
    case CheckPlan =>
      if !s.phase.MigrationLocked? then s
      else if !PlanStands(s, s.phase.plan) then s.(phase := Free)
      else if s.phase.plan.reuseTarget then s.(phase := Reusing(s.phase.plan))
      else s.(phase := Copying(s.phase.plan, map[], s.phase.plan.items.Keys))
    case CopyOne(path, fault) =>
      if !s.phase.Copying? || path !in s.phase.left then s
      else if !fault.Fine? || path !in Held(s.trees, s.mode) then s.(phase := Failing(s.phase.plan, false))
      else s.(phase := Copying(s.phase.plan, s.phase.temporary[path := Held(s.trees, s.mode)[path]],
                               s.phase.left - {path}))
    case VerifyCopy =>
      if !s.phase.Copying? || s.phase.left != {} then s
      else if Manifest(s.phase.temporary) == Ok(s.phase.plan.items) then
        s.(phase := Verified(s.phase.plan, s.phase.temporary))
      else s.(phase := Failing(s.phase.plan, false))
    case Rename(fault) =>
      if !s.phase.Verified? then s
      else s.(trees := if fault.FailsBefore? then s.trees else s.trees[s.phase.plan.targetMode := s.phase.temporary],
              phase := if fault.Fine? then Installed(s.phase.plan) else Failing(s.phase.plan, false))
    case SetMode(fault) =>
      if !s.phase.Installed? && !s.phase.Reusing? then s
      else s.(mode := if fault.FailsBefore? then s.mode else s.phase.plan.targetMode,
              phase := if fault.Fine? || s.phase.Reusing? then Free else Failing(s.phase.plan, true))
    case Cleanup(fault, rest) =>
      if !s.phase.Failing? then s
      else if !s.phase.installed || s.mode != s.phase.plan.sourceMode then s.(phase := Free)
      else s.(trees := if fault.FailsBefore? then s.trees[s.phase.plan.targetMode := Remaining(s, rest)]
                       else s.trees - {s.phase.plan.targetMode},
              phase := Free)
    case _ => s
  }

  /** What a broken-off removal leaves: some of the entries. */
  function Remaining(s: State, rest: Tree): Tree
    requires s.phase.Failing?
  {
    map p | p in Held(s.trees, s.phase.plan.targetMode) && p in rest :: Held(s.trees, s.phase.plan.targetMode)[p]
  }

  predicate IsWriterAction(a: Action) {
    a.AcquireWriter? || a.CheckBinding? || a.Put? || a.Drop? || a.Release?
  }

  /** One step of the process that holds the lock, of one that takes it, or the death of the holder. */
  function Next(s: State, a: Action): State {
    if a.Crash? then s.(phase := Free)
    else if IsWriterAction(a) then WriterNext(s, a)
    else MigrationNext(s, a)
  }

  function Run(s: State, actions: seq<Action>): State {
    if actions == [] then s else Next(Run(s, actions[..|actions| - 1]), actions[|actions| - 1])
  }

  // ---- What every step keeps ----

  /** The migration still describes the placement it leaves. */
  predicate SourceAgrees(s: State, p: Plan) {
    && s.mode == p.sourceMode && p.target == At(p.targetMode)
    && Manifest(Held(s.trees, s.mode)) == Ok(p.items)
    && !RejectsTasks(Held(s.trees, s.mode))
  }

  predicate PhaseOk(s: State) {
    match s.phase
    case Writing(m) => m == s.mode
    case Copying(p, temporary, left) =>
      && SourceAgrees(s, p) && p.targetMode !in s.trees
      && left <= p.items.Keys && temporary.Keys == p.items.Keys - left
      && forall q :: q in temporary ==> q in Held(s.trees, s.mode) && temporary[q] == Held(s.trees, s.mode)[q]
    case Verified(p, temporary) =>
      SourceAgrees(s, p) && p.targetMode !in s.trees && Manifest(temporary) == Ok(p.items)
    case Installed(p) =>
      && SourceAgrees(s, p) && Manifest(Held(s.trees, p.targetMode)) == Ok(p.items)
      && (p.targetMode == p.sourceMode ==> s.committed == map[])
    case Reusing(p) =>
      SourceAgrees(s, p) && Manifest(Held(s.trees, p.targetMode)) == Ok(p.items)
    case Failing(p, installed) =>
      installed && p.targetMode == p.sourceMode ==> s.committed == map[]
    case _ => true
  }

  /** The placement named by the stored mode holds exactly the committed writes. */
  predicate Invariant(s: State) {
    Held(s.trees, s.mode) == s.committed && PhaseOk(s)
  }

  lemma WriterKeeps(s: State, a: Action)
    requires Invariant(s) && IsWriterAction(a)
    ensures Invariant(WriterNext(s, a)) && WriterNext(s, a).mode == s.mode
  {
    hide Manifest, RejectsTasks;
  }

  lemma CopyKeeps(s: State, path: Path, fault: Fault)
    requires Invariant(s)
    ensures Invariant(MigrationNext(s, CopyOne(path, fault)))
  {
    hide Manifest, RejectsTasks;
  }

  /** A complete copy has the manifest of its source. */
  lemma CompleteCopyVerifies(s: State)
    requires Invariant(s) && s.phase.Copying? && s.phase.left == {}
    ensures s.phase.temporary == s.committed
    ensures Manifest(s.phase.temporary) == Ok(s.phase.plan.items)
  {
    var source := Held(s.trees, s.mode);
    assert Manifest(source).value.Keys == source.Keys;
    assert s.phase.temporary.Keys == source.Keys;
  }

  lemma InstallKeeps(s: State, fault: Fault)
    requires Invariant(s) && s.phase.Verified?
    ensures Invariant(MigrationNext(s, Rename(fault)))
  {
    var p := s.phase.plan;
    ManifestDetermines(s.phase.temporary, Held(s.trees, s.mode));
    hide Manifest, RejectsTasks;
    assert p.targetMode == p.sourceMode ==> s.committed == map[];
  }

  lemma SwitchKeeps(s: State, fault: Fault)
    requires Invariant(s) && (s.phase.Installed? || s.phase.Reusing?)
    ensures Invariant(MigrationNext(s, SetMode(fault)))
    ensures Held(s.trees, s.phase.plan.targetMode) == s.committed
  {
    ManifestDetermines(Held(s.trees, s.phase.plan.targetMode), Held(s.trees, s.mode));
    hide Manifest, RejectsTasks;
  }

  lemma CleanupKeeps(s: State, fault: Fault, rest: Tree)
    requires Invariant(s) && s.phase.Failing?
    ensures Invariant(MigrationNext(s, Cleanup(fault, rest)))
  {
    if s.phase.installed && s.mode == s.phase.plan.sourceMode == s.phase.plan.targetMode {
      assert Remaining(s, rest) == map[];
    }
  }

  lemma CheckKeeps(s: State)
    requires Invariant(s)
    ensures Invariant(MigrationNext(s, CheckPlan))
  {
    hide Manifest, RejectsTasks;
  }

  lemma NextKeeps(s: State, a: Action)
    requires Invariant(s)
    ensures Invariant(Next(s, a))
  {
    hide Manifest, RejectsTasks, WriterNext, PhaseOk;
    if IsWriterAction(a) {
      WriterKeeps(s, a);
    } else {
      match a {
        case CheckPlan => CheckKeeps(s);
        case CopyOne(path, fault) => CopyKeeps(s, path, fault);
        case Rename(fault) => if s.phase.Verified? { InstallKeeps(s, fault); }
        case SetMode(fault) => if s.phase.Installed? || s.phase.Reusing? { SwitchKeeps(s, fault); }
        case Cleanup(fault, rest) => if s.phase.Failing? { CleanupKeeps(s, fault, rest); }
        case _ => OtherKeeps(s, a);
      }
    }
  }

  lemma OtherKeeps(s: State, a: Action)
    requires Invariant(s) && (a.AcquireMigration? || a.VerifyCopy? || a.Crash?)
    ensures Invariant(Next(s, a))
  {
    if a.VerifyCopy? && s.phase.Copying? && s.phase.left == {} { CompleteCopyVerifies(s); }
    hide Manifest, RejectsTasks;
  }

  // ---- Whole runs ----

  /** A clone as writers first find it. */
  predicate Initial(s: State) {
    s.phase.Free? && Held(s.trees, s.mode) == s.committed
  }

  /** In every interleaving of writers, migrations, rollbacks and crashes the stored mode names the committed writes. */
  lemma {:induction false} RunKeeps(s: State, actions: seq<Action>)
    requires Initial(s)
    ensures Invariant(Run(s, actions))
    ensures Held(Run(s, actions).trees, Run(s, actions).mode) == Run(s, actions).committed
  {
    if actions != [] {
      RunKeeps(s, actions[..|actions| - 1]);
      NextKeeps(Run(s, actions[..|actions| - 1]), actions[|actions| - 1]);
    }
  }

  /** The mode only changes when no task of the placement it leaves is unfinished, to a placement with the same
      records. */
  lemma SwitchIsSafe(s: State, actions: seq<Action>, a: Action)
    requires Initial(s)
    requires var before := Run(s, actions); Next(before, a).mode != before.mode
    ensures var before := Run(s, actions);
      && a.SetMode? && (before.phase.Installed? || before.phase.Reusing?)
      && !RejectsTasks(before.committed)
      && Held(before.trees, Next(before, a).mode) == before.committed
      && Next(before, a).committed == before.committed
  {
    var before := Run(s, actions);
    RunKeeps(s, actions);
    if IsWriterAction(a) { WriterKeeps(before, a); }
    if a.SetMode? && (before.phase.Installed? || before.phase.Reusing?) { SwitchKeeps(before, a.fault); }
    hide Manifest, RejectsTasks;
  }

  /** A writer bound to a placement that migration left writes nothing. */
  lemma StaleWriterIsRefused(s: State, actions: seq<Action>, a: Action)
    requires Initial(s)
    requires var before := Run(s, actions); Next(before, a).committed != before.committed
    ensures var before := Run(s, actions);
      before.phase.Writing? && before.phase.placement == before.mode && (a.Put? || a.Drop?)
  {
    RunKeeps(s, actions);
    hide Manifest, RejectsTasks, Held;
  }
}
