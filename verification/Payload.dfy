/** The stored form of a task record: its payload, the integrity digest, and reading it back. */
module Payload {
  import opened Prelude
  import opened TaskModel
  import opened Records
  import opened JsonValues
  import opened EventPayload

  // ---- Parts ----

  function FromRequirement(r: Requirement): Json {
    Fields(map[KId := Text(r.id), KText := Text(r.text)])
  }

  function ToRequirement(j: Json): Option<Requirement> {
    if !(j.Fields? && j.fields.Keys == {KId, KText} && j.fields[KId].Text? && j.fields[KText].Text?) then None
    else
      var r := Requirement(j.fields[KId].text, j.fields[KText].text);
      if r.Valid() then Some(r) else None
  }

  function FromAcceptance(a: Acceptance): Json {
    Fields(map[
      KId := Text(a.id), KRequired := Flag(a.required), KCovers := Texts(a.covers), KCommandId := Text(a.commandId),
      KExpected := Fields(map[KExitCode := Whole(a.expectedExitCode)]), KTimeoutSeconds := Whole(a.timeoutSeconds),
      KRetryBudget := Whole(a.retryBudget), KEvidenceType := Text(a.evidenceType)])
  }

  predicate AcceptanceShape(j: Json) {
    && j.Fields?
    && j.fields.Keys == {KId, KRequired, KCovers, KCommandId, KExpected, KTimeoutSeconds, KRetryBudget, KEvidenceType}
    && j.fields[KId].Text? && j.fields[KRequired].Flag? && AreTexts(j.fields[KCovers]) && j.fields[KCommandId].Text?
    && j.fields[KExpected].Fields? && j.fields[KExpected].fields.Keys == {KExitCode}
    && j.fields[KExpected].fields[KExitCode].Whole?
    && j.fields[KTimeoutSeconds].Whole? && j.fields[KRetryBudget].Whole? && j.fields[KEvidenceType].Text?
  }

  function ToAcceptance(j: Json): Option<Acceptance> {
    if !AcceptanceShape(j) then None
    else
      var f := j.fields;
      var a := Acceptance(f[KId].text, f[KRequired].flag, ReadTexts(f[KCovers]), f[KCommandId].text,
                          f[KExpected].fields[KExitCode].number, f[KTimeoutSeconds].number, f[KRetryBudget].number,
                          f[KEvidenceType].text);
      if a.Valid() then Some(a) else None
  }

  lemma RequirementReadsBack(r: Requirement)
    requires r.Valid()
    ensures ToRequirement(FromRequirement(r)) == Some(r)
  {
  }

  lemma AcceptanceReadsBack(a: Acceptance)
    requires a.Valid()
    ensures ToAcceptance(FromAcceptance(a)) == Some(a)
  {
    hide Acceptance.Valid;
    TextsReadBack(a.covers);
  }

  // ---- Envelopes ----

  function ModeName(m: IntegrationMode): string { if m.Observe? then "observe" else "enforced" }

  function ModeNamed(name: string): Option<IntegrationMode> {
    if name == "observe" then Some(Observe) else if name == "enforced" then Some(Enforced) else None
  }

  lemma ModeReadsBack(m: IntegrationMode)
    ensures ModeNamed(ModeName(m)) == Some(m)
  {
  }

  function FromEnvelope(e: Envelope): Json {
    Fields(map[
      KSchemaVersion := Text(e.schemaVersion), KTaskId := Text(e.taskId), KRepositoryId := Text(e.repositoryId),
      KBaseSha := Text(e.baseSha), KWorktreePath := Text(e.worktreePath),
      KInitialDirtyState := Texts(e.initialDirtyState), KHarnessVersion := Text(e.harnessVersion),
      KConfigVersion := Text(e.configVersion), KGoal := Text(e.goal), KNonGoals := Texts(e.nonGoals),
      KRequirements := FromAll(e.requirements, FromRequirement), KAllowedScope := Texts(e.allowedScope),
      KAcceptances := FromAll(e.acceptances, FromAcceptance), KRequestedCapabilities := Texts(e.requestedCapabilities),
      KTimeoutSeconds := Whole(e.timeoutSeconds), KRetryBudget := Whole(e.retryBudget), KBudget := Amounts(e.budget),
      KIntegrationMode := Text(ModeName(e.integrationMode)), KRevision := Whole(e.revision)])
  }

  const ENVELOPE_KEYS: set<Key> := {
    KSchemaVersion, KTaskId, KRepositoryId, KBaseSha, KWorktreePath, KInitialDirtyState,
      KHarnessVersion, KConfigVersion,
    KGoal, KNonGoals, KRequirements, KAllowedScope, KAcceptances, KRequestedCapabilities, KTimeoutSeconds, KRetryBudget,
    KBudget, KIntegrationMode, KRevision}

  predicate EnvelopeShape(j: Json) {
    && j.Fields? && j.fields.Keys == ENVELOPE_KEYS
    && j.fields[KSchemaVersion].Text? && j.fields[KTaskId].Text? && j.fields[KRepositoryId].Text?
    && j.fields[KBaseSha].Text? && j.fields[KWorktreePath].Text? && AreTexts(j.fields[KInitialDirtyState])
    && j.fields[KHarnessVersion].Text? && j.fields[KConfigVersion].Text? && j.fields[KGoal].Text?
    && AreTexts(j.fields[KNonGoals]) && AreTexts(j.fields[KAllowedScope]) && AreTexts(j.fields[KRequestedCapabilities])
    && j.fields[KTimeoutSeconds].Whole? && j.fields[KRetryBudget].Whole? && j.fields[KBudget].Amounts?
    && j.fields[KIntegrationMode].Text? && ModeNamed(j.fields[KIntegrationMode].text).Some?
    && j.fields[KRevision].Whole?
  }

  function ToEnvelope(j: Json): Option<Envelope> {
    if !EnvelopeShape(j) then None
    else
      var f := j.fields;
      var requirements := ToAll(f[KRequirements], ToRequirement);
      var acceptances := ToAll(f[KAcceptances], ToAcceptance);
      if requirements.None? || acceptances.None? then None
      else
        var e := Envelope(
          f[KSchemaVersion].text, f[KTaskId].text, f[KRepositoryId].text, f[KBaseSha].text, f[KWorktreePath].text,
          ReadTexts(f[KInitialDirtyState]), f[KHarnessVersion].text, f[KConfigVersion].text, f[KGoal].text,
          ReadTexts(f[KNonGoals]), requirements.value, ReadTexts(f[KAllowedScope]), acceptances.value,
          ReadTexts(f[KRequestedCapabilities]), f[KTimeoutSeconds].number, f[KRetryBudget].number, f[KBudget].amounts,
          ModeNamed(f[KIntegrationMode].text).value, f[KRevision].number);
        if e.Valid() then Some(e) else None
  }

  lemma EnvelopeKeys(e: Envelope)
    ensures FromEnvelope(e).fields.Keys == ENVELOPE_KEYS
  {
    hide Texts, FromAll;
  }

  lemma IdentityFields(e: Envelope)
    ensures FromEnvelope(e).fields.Keys == ENVELOPE_KEYS
    ensures var f := FromEnvelope(e).fields;
      (&& f[KSchemaVersion] == Text(e.schemaVersion) && f[KTaskId] == Text(e.taskId)
       && f[KRepositoryId] == Text(e.repositoryId))
  {
    hide Texts, FromAll, ModeName;
    EnvelopeKeys(e);
  }

  lemma WorkspaceFields(e: Envelope)
    ensures FromEnvelope(e).fields.Keys == ENVELOPE_KEYS
    ensures var f := FromEnvelope(e).fields;
      (&& f[KBaseSha] == Text(e.baseSha) && f[KWorktreePath] == Text(e.worktreePath)
       && f[KHarnessVersion] == Text(e.harnessVersion) && f[KConfigVersion] == Text(e.configVersion))
  {
    hide Texts, FromAll, ModeName;
    EnvelopeKeys(e);
  }

  lemma LimitFields(e: Envelope)
    ensures FromEnvelope(e).fields.Keys == ENVELOPE_KEYS
    ensures var f := FromEnvelope(e).fields;
      (&& f[KGoal] == Text(e.goal) && f[KTimeoutSeconds] == Whole(e.timeoutSeconds)
       && f[KRetryBudget] == Whole(e.retryBudget) && f[KBudget] == Amounts(e.budget)
         && f[KRevision] == Whole(e.revision)
       && f[KIntegrationMode] == Text(ModeName(e.integrationMode)))
  {
    hide Texts, FromAll, ModeName;
    EnvelopeKeys(e);
  }

  lemma ListFields(e: Envelope)
    ensures FromEnvelope(e).fields.Keys == ENVELOPE_KEYS
    ensures var f := FromEnvelope(e).fields;
      (&& f[KInitialDirtyState] == Texts(e.initialDirtyState) && f[KNonGoals] == Texts(e.nonGoals)
       && f[KRequirements] == FromAll(e.requirements, FromRequirement) && f[KAllowedScope] == Texts(e.allowedScope)
       && f[KAcceptances] == FromAll(e.acceptances, FromAcceptance)
       && f[KRequestedCapabilities] == Texts(e.requestedCapabilities))
  {
    hide Texts, FromAll, ModeName;
    EnvelopeKeys(e);
  }

  lemma EnvelopeHasShape(e: Envelope)
    ensures EnvelopeShape(FromEnvelope(e))
  {
    IdentityFields(e);
    WorkspaceFields(e);
    LimitFields(e);
    ListFields(e);
    TextsReadBack(e.initialDirtyState);
    TextsReadBack(e.nonGoals);
    TextsReadBack(e.allowedScope);
    TextsReadBack(e.requestedCapabilities);
    ModeReadsBack(e.integrationMode);
    assert FromEnvelope(e).Fields?;
    hide FromEnvelope, Texts, ReadTexts, AreTexts, FromAll, ModeName, ModeNamed;
  }

  lemma EnvelopeReadsBack(e: Envelope)
    requires e.Valid()
    ensures ToEnvelope(FromEnvelope(e)) == Some(e)
  {
    EnvelopeHasShape(e);
    PartsReadBack(e);
    IdentityFields(e);
    WorkspaceFields(e);
    LimitFields(e);
    ListFields(e);
    TextsReadBack(e.initialDirtyState);
    TextsReadBack(e.nonGoals);
    TextsReadBack(e.allowedScope);
    TextsReadBack(e.requestedCapabilities);
    ModeReadsBack(e.integrationMode);
    hide FromEnvelope, Envelope.Valid, Texts, ReadTexts, AreTexts, FromAll, ToAll, ModeName, ModeNamed;
  }

  lemma PartsReadBack(e: Envelope)
    requires e.Valid()
    ensures ToAll(FromAll(e.requirements, FromRequirement), ToRequirement) == Some(e.requirements)
    ensures ToAll(FromAll(e.acceptances, FromAcceptance), ToAcceptance) == Some(e.acceptances)
  {
    hide ToRequirement, ToAcceptance, FromRequirement, FromAcceptance, Requirement.Valid, Acceptance.Valid;
    forall i | 0 <= i < |e.requirements|
      ensures ToRequirement(FromRequirement(e.requirements[i])) == Some(e.requirements[i])
    {
      RequirementReadsBack(e.requirements[i]);
    }
    forall i | 0 <= i < |e.acceptances|
      ensures ToAcceptance(FromAcceptance(e.acceptances[i])) == Some(e.acceptances[i])
    {
      AcceptanceReadsBack(e.acceptances[i]);
    }
    AllReadBack(e.requirements, FromRequirement, ToRequirement);
    AllReadBack(e.acceptances, FromAcceptance, ToAcceptance);
  }

  // ---- Events and records ----

  function FromEvent(e: Event): Json {
    Fields(map[KSequence := Whole(e.sequence), KType := Text(KindName(KindOf(e.data))),
               KOccurredAt := Text(e.occurredAt), KData := FromData(e.data)])
  }

  predicate EventShape(j: Json) {
    && j.Fields? && j.fields.Keys == {KSequence, KType, KOccurredAt, KData}
    && j.fields[KSequence].Whole? && j.fields[KType].Text? && j.fields[KOccurredAt].Text?
  }

  function ToEvent(j: Json): Option<Event> {
    if !EventShape(j) then None
    else if j.fields[KSequence].number < 1 || j.fields[KType].text == "" || j.fields[KOccurredAt].text == "" then None
    else
      var kind := KindNamed(j.fields[KType].text);
      if kind.None? then None
      else
        var data := ToData(kind.value, j.fields[KData]);
        if data.None? then None
        else Some(Event(j.fields[KSequence].number, j.fields[KOccurredAt].text, data.value))
  }

  lemma EventReadsBack(e: Event)
    requires e.sequence >= 1 && e.occurredAt != ""
    ensures ToEvent(FromEvent(e)) == Some(e)
  {
    hide KindName, KindNamed, KindOf, FromData, ToData;
    KindReadsBack(KindOf(e.data));
    DataReadsBack(e.data);
  }

  /** `to_payload`. */
  function FromRecord(r: Record): Json {
    Fields(map[
      KSchemaVersion := Text(r.schemaVersion), KTaskId := Text(r.taskId), KState := Text(StateName(r.state)),
      KEnvelopeRevisions := FromAll(r.revisions, FromEnvelope), KEvents := FromAll(r.events, FromEvent)])
  }

  /** `from_payload`; `None` is a corrupted record. */
  function ToRecord(j: Json): Option<Record> {
    if !(j.Fields? && j.fields.Keys == {KSchemaVersion, KTaskId, KState, KEnvelopeRevisions, KEvents}
         && j.fields[KSchemaVersion].Text? && j.fields[KTaskId].Text? && j.fields[KState].Text?) then None
    else
      var state := StateNamed(j.fields[KState].text);
      var revisions := ToAll(j.fields[KEnvelopeRevisions], ToEnvelope);
      var events := ToAll(j.fields[KEvents], ToEvent);
      if state.None? || revisions.None? || events.None? then None
      else
        var r := Record(j.fields[KSchemaVersion].text, j.fields[KTaskId].text, state.value,
                        revisions.value, events.value);
        if WellFormed(r) then Some(r) else None
  }

  /** Every record the store writes survives its payload form. */
  lemma RecordReadsBack(r: Record)
    requires Loadable(r)
    ensures ToRecord(FromRecord(r)) == Some(r)
  {
    RevisionsReadBack(r);
    StateReadsBack(r.state);
    hide StateName, StateNamed, FromAll, ToAll, WellFormed;
  }

  lemma RevisionsReadBack(r: Record)
    requires Loadable(r)
    ensures ToAll(FromAll(r.revisions, FromEnvelope), ToEnvelope) == Some(r.revisions)
    ensures ToAll(FromAll(r.events, FromEvent), ToEvent) == Some(r.events)
  {
    hide FromEnvelope, ToEnvelope, FromEvent, ToEvent, Envelope.Valid;
    forall i | 0 <= i < |r.revisions| ensures ToEnvelope(FromEnvelope(r.revisions[i])) == Some(r.revisions[i]) {
      EnvelopeReadsBack(r.revisions[i]);
    }
    forall i | 0 <= i < |r.events| ensures ToEvent(FromEvent(r.events[i])) == Some(r.events[i]) {
      EventReadsBack(r.events[i]);
    }
    AllReadBack(r.revisions, FromEnvelope, ToEnvelope);
    AllReadBack(r.events, FromEvent, ToEvent);
  }

  /** Whatever payload is read, the record it gives passes every check. */
  lemma ReadIsLoadable(j: Json)
    requires ToRecord(j).Some?
    ensures Loadable(ToRecord(j).value)
  {
    var revisions := ToAll(j.fields[KEnvelopeRevisions], ToEnvelope);
    var events := ToAll(j.fields[KEvents], ToEvent);
    hide WellFormed, Envelope.Valid;
    forall i | 0 <= i < |revisions.value| ensures revisions.value[i].Valid() {
      assert revisions.value[i] == ToEnvelope(j.fields[KEnvelopeRevisions].items[i]).value;
      EnvelopeIsValid(j.fields[KEnvelopeRevisions].items[i]);
    }
    forall i | 0 <= i < |events.value| ensures events.value[i].occurredAt != "" {
      assert events.value[i] == ToEvent(j.fields[KEvents].items[i]).value;
    }
  }

  lemma EnvelopeIsValid(j: Json)
    ensures ToEnvelope(j).Some? ==> ToEnvelope(j).value.Valid()
  {
    hide Envelope.Valid, EnvelopeShape;
  }

  // ---- The stored document ----

  datatype Document = Document(payload: Json, integrity: Option<Digest<Json>>)

  function Written(r: Record): Document { Document(FromRecord(r), Some(Sha256(FromRecord(r)))) }

  /** `load` of the document stored for a task. */
  function LoadedFrom(d: Document, taskId: string): Option<Record> {
    if d.integrity.None? || d.integrity.value != Sha256(d.payload) then None
    else
      var r := ToRecord(d.payload);
      if r.Some? && r.value.taskId == taskId then r else None
  }

  /** Writing and loading a record gives it back. */
  lemma WrittenLoads(r: Record)
    requires Loadable(r)
    ensures LoadedFrom(Written(r), r.taskId) == Some(r)
  {
    RecordReadsBack(r);
  }

  /** A payload under another record's digest only loads when it is that record's payload. */
  lemma TamperedIsRefused(r: Record, payload: Json, taskId: string)
    requires Loadable(r) && LoadedFrom(Document(payload, Written(r).integrity), taskId).Some?
    ensures payload == FromRecord(r) && LoadedFrom(Document(payload, Written(r).integrity), taskId) == Some(r)
  {
    RecordReadsBack(r);
  }
}
