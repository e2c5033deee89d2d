/**
 Record operations as values: envelope amendment, the checks a record passes when it
 is loaded, and the record each store operation writes.
 */
module Records {
  import opened Prelude
  import opened TaskModel

  datatype StoreError =
    | AlreadyExists | NotFound | UnsafeTaskId
    | TerminalState | EmptyReason | IllegalOutcome | RecordCorrupted
    | FieldNotAmendable | BadBaseSha | ImmutableField
    | RequiredAcceptanceRemoved | CapabilitiesReduced | ScopeReduced | InvalidEnvelope

  // ---- Amending an envelope ----

  /** Keyword arguments of an amendment; `otherFields` says that a forbidden or unknown one was given. */
  datatype Changes = Changes(
    baseSha: Option<string>,
    worktreePath: Option<string>,
    initialDirtyState: Option<seq<string>>,
    harnessVersion: Option<string>,
    configVersion: Option<string>,
    goal: Option<string>,
    nonGoals: Option<seq<string>>,
    requirements: Option<seq<Requirement>>,
    allowedScope: Option<seq<string>>,
    acceptances: Option<seq<Acceptance>>,
    requestedCapabilities: Option<seq<string>>,
    timeoutSeconds: Option<int>,
    retryBudget: Option<int>,
    budget: Option<map<string, Number>>,
    integrationMode: Option<IntegrationMode>,
    otherFields: bool)

  function Or<T>(o: Option<T>, default: T): T {
    if o.Some? then o.value else default
  }

  function Replace(e: Envelope, c: Changes): Envelope {
    e.(baseSha := Or(c.baseSha, e.baseSha),
       worktreePath := Or(c.worktreePath, e.worktreePath),
       initialDirtyState := Or(c.initialDirtyState, e.initialDirtyState),
       harnessVersion := Or(c.harnessVersion, e.harnessVersion),
       configVersion := Or(c.configVersion, e.configVersion),
       goal := Or(c.goal, e.goal),
       nonGoals := Or(c.nonGoals, e.nonGoals),
       requirements := Or(c.requirements, e.requirements),
       allowedScope := Or(c.allowedScope, e.allowedScope),
       acceptances := Or(c.acceptances, e.acceptances),
       requestedCapabilities := Or(c.requestedCapabilities, e.requestedCapabilities),
       timeoutSeconds := Or(c.timeoutSeconds, e.timeoutSeconds),
       retryBudget := Or(c.retryBudget, e.retryBudget),
       budget := Or(c.budget, e.budget),
       integrationMode := Or(c.integrationMode, e.integrationMode),
       revision := e.revision + 1)
  }

  function AmendEnvelope(e: Envelope, c: Changes): Result<Envelope, StoreError> {
    var candidate := Replace(e, c);
    if c.otherFields then Err(FieldNotAmendable)
    else if c.baseSha.Some? && !IsFullSha(c.baseSha.value) then Err(BadBaseSha)
    else if || candidate.baseSha != e.baseSha
            || candidate.worktreePath != e.worktreePath
            || candidate.initialDirtyState != e.initialDirtyState
            || candidate.harnessVersion != e.harnessVersion
            || candidate.configVersion != e.configVersion then Err(ImmutableField)
    else if c.acceptances.Some? && !(e.RequiredIds() <= candidate.RequiredIds()) then Err(RequiredAcceptanceRemoved)
    else if c.requestedCapabilities.Some?
            && !(Elements(e.requestedCapabilities) <= Elements(candidate.requestedCapabilities)) then
      Err(CapabilitiesReduced)
    else if c.allowedScope.Some? && !(Elements(e.allowedScope) <= Elements(candidate.allowedScope)) then
      Err(ScopeReduced)
    else if !candidate.Valid() then Err(InvalidEnvelope)
    else Ok(candidate)
  }

  // ---- The checks a record passes ----

  predicate SameImmutableFields(e: Envelope, first: Envelope) {
    && e.schemaVersion == first.schemaVersion
    && e.repositoryId == first.repositoryId
    && e.baseSha == first.baseSha
    && e.worktreePath == first.worktreePath
    && e.initialDirtyState == first.initialDirtyState
    && e.harnessVersion == first.harnessVersion
    && e.configVersion == first.configVersion
  }

  predicate Extends(previous: Envelope, current: Envelope) {
    && previous.RequiredIds() <= current.RequiredIds()
    && Elements(previous.requestedCapabilities) <= Elements(current.requestedCapabilities)
    && Elements(previous.allowedScope) <= Elements(current.allowedScope)
  }

  /** `TaskRecord.__post_init__`. */
  predicate WellFormed(r: Record) {
    && r.schemaVersion == RECORD_SCHEMA_VERSION
    && r.revisions != []
    && (forall i :: 0 <= i < |r.revisions| ==>
      && r.revisions[i].revision == i + 1
      && r.revisions[i].taskId == r.taskId
      && SameImmutableFields(r.revisions[i], r.revisions[0]))
    && (forall i :: 0 < i < |r.revisions| ==> Extends(r.revisions[i - 1], r.revisions[i]))
    && (forall i :: 0 <= i < |r.events| ==> r.events[i].sequence == i + 1)
  }

  /** A record whose parts also passed their own constructors. */
  predicate Loadable(r: Record) {
    && WellFormed(r)
    && (forall i :: 0 <= i < |r.revisions| ==> r.revisions[i].Valid())
    && (forall i :: 0 <= i < |r.events| ==> r.events[i].occurredAt != "")
  }

  function Checked(r: Record): Result<Record, StoreError> {
    if WellFormed(r) then Ok(r) else Err(RecordCorrupted)
  }

  // ---- Store operations on one record ----

  function Appended(r: Record, data: EventData, now: string): Record {
    r.(events := r.events + [Event(|r.events| + 1, now, data)])
  }

  function CreateRecord(envelope: Envelope, now: string): Result<Record, StoreError> {
    Checked(Record(RECORD_SCHEMA_VERSION, envelope.taskId, Draft, [envelope], [Event(1, now, TaskCreated)]))
  }

  function AmendRecord(r: Record, c: Changes, now: string): Result<Record, StoreError>
    requires r.revisions != []
  {
    if Terminal(r.state) then Err(TerminalState)
    else
      match AmendEnvelope(r.Current(), c)
      case Err(e) => Err(e)
      case Ok(e) => Checked(Appended(r, TaskAmended(e.revision), now).(revisions := r.revisions + [e]))
  }

  function CancelRecord(r: Record, reason: string, now: string): Result<Record, StoreError> {
    if Terminal(r.state) then Err(TerminalState)
    else if IsBlank(reason) then Err(EmptyReason)
    else Checked(Appended(r, TaskCancelled(reason), now).(state := Abandoned))
  }

  function AppendRecord(r: Record, data: EventData, now: string): Result<Record, StoreError> {
    if Terminal(r.state) then Err(TerminalState)
    else Checked(Appended(r, data, now))
  }

  function FinalizeRecord(r: Record, outcome: TaskState, v: Verification, now: string): Result<Record, StoreError> {
    if outcome != Completed && outcome != AcceptedWithRisk then Err(IllegalOutcome)
    else if Terminal(r.state) then Err(TerminalState)
    else Checked(Appended(r, TaskFinalized(outcome, v), now).(state := outcome))
  }

  // ---- What the operations keep ----

  /** `later` is `earlier` with history and revisions extended, never rewritten. */
  predicate Grows(earlier: Record, later: Record) {
    && later.schemaVersion == earlier.schemaVersion
    && later.taskId == earlier.taskId
    && earlier.revisions <= later.revisions
    && earlier.events <= later.events
    && (Terminal(earlier.state) ==> later == earlier)
  }

  lemma GrowsTransitive(a: Record, b: Record, c: Record)
    requires Grows(a, b) && Grows(b, c)
    ensures Grows(a, c)
  {
  }

  /** An accepted amendment keeps every boundary of the envelope and writes the next revision. */
  lemma AmendmentIsMonotone(e: Envelope, c: Changes)
    requires AmendEnvelope(e, c).Ok?
    ensures var a := AmendEnvelope(e, c).value;
      && a.Valid() && a.revision == e.revision + 1 && a.taskId == e.taskId
      && SameImmutableFields(a, e) && Extends(e, a)
  {
  }

  /** The record checks never refuse what an operation is about to write. */
  lemma CreatedIsLoadable(envelope: Envelope, now: string)
    requires envelope.Valid() && envelope.revision == 1 && now != ""
    ensures CreateRecord(envelope, now).Ok? && Loadable(CreateRecord(envelope, now).value)
  {
  }

  lemma RevisionAppended(r: Record, e: Envelope, now: string)
    requires Loadable(r) && now != ""
    requires e.Valid() && e.revision == |r.revisions| + 1 && e.taskId == r.taskId
    requires SameImmutableFields(e, r.Current()) && Extends(r.Current(), e)
    ensures Loadable(Appended(r, TaskAmended(e.revision), now).(revisions := r.revisions + [e]))
  {
    hide Envelope.Valid, Extends;
    var a := Appended(r, TaskAmended(e.revision), now).(revisions := r.revisions + [e]);
    var n := |r.revisions|;
    assert SameImmutableFields(r.Current(), r.revisions[0]);
    assert forall i :: 0 <= i < n ==> a.revisions[i] == r.revisions[i];
    assert a.revisions[n] == e;
  }

  lemma AmendedIsLoadable(r: Record, c: Changes, now: string)
    requires Loadable(r) && now != ""
    ensures AmendRecord(r, c, now) != Err(RecordCorrupted)
    ensures AmendRecord(r, c, now).Ok? <==> !Terminal(r.state) && AmendEnvelope(r.Current(), c).Ok?
    ensures AmendRecord(r, c, now).Ok? ==>
      Loadable(AmendRecord(r, c, now).value) && Grows(r, AmendRecord(r, c, now).value)
  {
    var amended := AmendEnvelope(r.Current(), c);
    if amended.Ok? {
      AmendmentIsMonotone(r.Current(), c);
      RevisionAppended(r, amended.value, now);
    } else {
      AmendmentIsNeverCorrupt(r.Current(), c);
    }
  }

  lemma AmendmentIsNeverCorrupt(e: Envelope, c: Changes)
    ensures AmendEnvelope(e, c) != Err(RecordCorrupted)
  {
  }

  lemma AppendedIsLoadable(r: Record, data: EventData, now: string)
    requires Loadable(r) && now != ""
    ensures AppendRecord(r, data, now).Ok? <==> !Terminal(r.state)
    ensures AppendRecord(r, data, now).Ok? ==>
      Loadable(AppendRecord(r, data, now).value) && Grows(r, AppendRecord(r, data, now).value)
  {
  }

  lemma CancelledIsLoadable(r: Record, reason: string, now: string)
    requires Loadable(r) && now != ""
    ensures CancelRecord(r, reason, now).Ok? <==> !Terminal(r.state) && !IsBlank(reason)
    ensures CancelRecord(r, reason, now).Ok? ==>
      Loadable(CancelRecord(r, reason, now).value) && Grows(r, CancelRecord(r, reason, now).value)
  {
  }

  lemma FinalizedIsLoadable(r: Record, outcome: TaskState, v: Verification, now: string)
    requires Loadable(r) && now != ""
    ensures FinalizeRecord(r, outcome, v, now).Ok? <==>
      !Terminal(r.state) && (outcome == Completed || outcome == AcceptedWithRisk)
    ensures FinalizeRecord(r, outcome, v, now).Ok? ==>
      Loadable(FinalizeRecord(r, outcome, v, now).value) && Grows(r, FinalizeRecord(r, outcome, v, now).value)
  {
  }

  // ---- What revisions keep ----

  /** Required acceptances, capabilities and scope of any revision are in every later one. */
  lemma {:induction false} RevisionsOnlyExtend(r: Record, i: nat, j: nat)
    requires WellFormed(r) && i <= j < |r.revisions|
    ensures Extends(r.revisions[i], r.revisions[j])
    decreases j
  {
    if i < j {
      RevisionsOnlyExtend(r, i, j - 1);
      assert Extends(r.revisions[j - 1], r.revisions[j]);
    }
  }

  lemma ScopeIsMonotone(path: string, narrow: seq<string>, wide: seq<string>)
    requires InScope(path, narrow) && Elements(narrow) <= Elements(wide)
    ensures InScope(path, wide)
  {
    var s :| s in narrow && Within(ParsePath(path), ParsePath(s));
    assert s in Elements(narrow);
  }
}
