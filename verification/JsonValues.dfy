/** JSON values with the field names of task records, and the parts several payloads share. */
module JsonValues {
  import opened Prelude
  import opened TaskModel

  datatype Key =
    | KSchemaVersion | KTaskId | KRepositoryId | KBaseSha | KWorktreePath | KInitialDirtyState | KHarnessVersion
    | KConfigVersion | KGoal | KNonGoals | KRequirements | KAllowedScope | KAcceptances | KRequestedCapabilities
    | KTimeoutSeconds | KRetryBudget | KBudget | KIntegrationMode | KRevision
    | KId | KText | KRequired | KCovers | KCommandId | KExpected | KExitCode | KEvidenceType
    | KSequence | KType | KOccurredAt | KData | KState | KEnvelopeRevisions | KEvents
    | KApprovalId | KCapabilityId | KReadPaths | KWritePaths | KSideEffects | KNetwork | KListener | KEnvironment
    | KMaxUses | KExpiresAt
    | KReason | KModuleId | KEnvelopeRevision | KIssues | KRiskReason | KStatus | KEvidenceEventSequence
    | KArgv | KCwd | KStopOnExitCodes | KAuthorizationEventSequence | KAttempt | KProducer
    | KTimedOut | KCancelled | KOutputTruncated | KSandboxEnforced | KStdoutArtifact | KStderrArtifact

  /** Objects with fixed field names, and the free-form budget beside them. */
  datatype Json =
    | Null
    | Text(text: string)
    | Whole(number: int)
    | Flag(flag: bool)
    | List(items: seq<Json>)
    | Fields(fields: map<Key, Json>)
    | Amounts(amounts: map<string, Number>)

  predicate Has(j: Json, keys: set<Key>) { j.Fields? && keys <= j.fields.Keys }

  // ---- Texts and optional values ----

  function Texts(s: seq<string>): Json { List(seq(|s|, i requires 0 <= i < |s| => Text(s[i]))) }

  predicate AreTexts(j: Json) { j.List? && forall i :: 0 <= i < |j.items| ==> j.items[i].Text? }

  function ReadTexts(j: Json): seq<string>
    requires AreTexts(j)
  {
    seq(|j.items|, i requires 0 <= i < |j.items| => j.items[i].text)
  }

  lemma TextsReadBack(s: seq<string>)
    ensures AreTexts(Texts(s)) && ReadTexts(Texts(s)) == s
  {
  }

  function FromOptionalText(o: Option<string>): Json { if o.Some? then Text(o.value) else Null }

  predicate IsOptionalText(j: Json) { j.Null? || j.Text? }

  function ToOptionalText(j: Json): Option<string> { if j.Text? then Some(j.text) else None }

  function FromOptionalWhole(o: Option<int>): Json { if o.Some? then Whole(o.value) else Null }

  predicate IsOptionalWhole(j: Json) { j.Null? || j.Whole? }

  function ToOptionalWhole(j: Json): Option<int> { if j.Whole? then Some(j.number) else None }

  // ---- Lists of parts ----

  function FromAll<T>(parts: seq<T>, from: T -> Json): Json {
    List(seq(|parts|, i requires 0 <= i < |parts| => from(parts[i])))
  }

  function ToAll<T>(j: Json, to: Json -> Option<T>): Option<seq<T>> {
    if !j.List? || exists i :: 0 <= i < |j.items| && to(j.items[i]).None? then None
    else Some(seq(|j.items|, i requires 0 <= i < |j.items| && to(j.items[i]).Some? => to(j.items[i]).value))
  }

  lemma AllReadBack<T>(parts: seq<T>, from: T -> Json, to: Json -> Option<T>)
    requires forall i :: 0 <= i < |parts| ==> to(from(parts[i])) == Some(parts[i])
    ensures ToAll(FromAll(parts, from), to) == Some(parts)
  {
    var j := FromAll(parts, from);
    assert forall i :: 0 <= i < |parts| ==> j.items[i] == from(parts[i]);
    assert ToAll(j, to).Some?;
    assert ToAll(j, to).value == parts;
  }
}
