/** The issue-collecting Verifier decides exactly the declarative gate. */
module GateProof {
  import opened Prelude
  import opened TaskModel
  import opened Verifier

  /** Which codes the gate raises as waivable. */
  predicate WaivableCode(c: IssueCode) {
    c == CommandIncomplete || c == RequiredAcceptanceFailed || c == EvidenceMissing || c == RequirementUnverified
  }

  predicate WaivedByCode(issues: seq<Issue>) {
    forall x :: x in issues ==> x.waivable == WaivableCode(x.code)
  }

  lemma MembersOfInit<T>(s: seq<T>)
    requires s != []
    ensures forall x :: x in s <==> x in s[..|s| - 1] || x == s[|s| - 1]
  {
    assert s == s[..|s| - 1] + [s[|s| - 1]];
  }

  lemma {:induction false} DiffIssuesMeaning(envelope: Envelope, paths: seq<string>)
    ensures DiffIssues(envelope, paths) == [] <==> forall p :: p in paths ==> ChangeInScope(p, envelope)
    ensures forall x :: x in DiffIssues(envelope, paths) ==> !x.waivable && x.code == DiffOutOfScope
  {
    if paths != [] {
      MembersOfInit(paths);
      DiffIssuesMeaning(envelope, paths[..|paths| - 1]);
    }
  }

  lemma {:induction false} IncompleteIssuesMeaning(all: seq<Event>, events: seq<Event>)
    ensures IncompleteIssues(all, events) == [] <==> forall e :: e in events ==> !Incomplete(all, e)
    ensures forall x :: x in IncompleteIssues(all, events) ==> x.waivable && x.code == CommandIncomplete
  {
    if events != [] {
      MembersOfInit(events);
      IncompleteIssuesMeaning(all, events[..|events| - 1]);
    }
  }

  lemma {:induction false} HighRiskIssuesMeaning(events: seq<Event>)
    ensures HighRiskIssues(events) == [] <==> forall e :: e in events ==> !UnapprovedHighRisk(e)
    ensures forall x :: x in HighRiskIssues(events) ==> !x.waivable && x.code == UnapprovedHighRiskOperation
  {
    if events != [] {
      MembersOfInit(events);
      HighRiskIssuesMeaning(events[..|events| - 1]);
    }
  }

  lemma ArtifactIssuesMeaning(a: Acceptance, field: string, path: Option<string>, probe: Probe)
    ensures ArtifactIssues(a, field, path, probe) == [] <==> CleanArtifact(path, probe)
    ensures AllWaivable(ArtifactIssues(a, field, path, probe)) <==> NoLeak(path, probe)
    ensures WaivedByCode(ArtifactIssues(a, field, path, probe))
  {
    var issues := ArtifactIssues(a, field, path, probe);
    assert issues != [] ==> issues[0] in issues;
  }

  lemma SplitWaivable(s: seq<Issue>, t: seq<Issue>)
    ensures AllWaivable(s + t) <==> AllWaivable(s) && AllWaivable(t)
    ensures WaivedByCode(s) && WaivedByCode(t) ==> WaivedByCode(s + t)
    ensures s + t == [] <==> s == [] && t == []
  {
    assert forall x :: x in s ==> x in s + t;
    assert forall x :: x in t ==> x in s + t;
  }

  lemma EvidenceMeaning(r: Record, a: Acceptance, f: Finish, probe: Probe)
    requires r.revisions != []
    ensures var found := EvidenceIssues(a, f, probe) + SandboxIssues(r.Current(), f);
      && (found == [] <==> CleanEvidence(r, f, probe))
      && (AllWaivable(found) <==>
        && NoLeak(f.stdoutArtifact, probe) && NoLeak(f.stderrArtifact, probe)
        && (r.Current().integrationMode == Enforced ==> f.sandboxEnforced))
      && WaivedByCode(found)
  {
    var s := SandboxIssues(r.Current(), f);
    assert s != [] ==> s[0] in s;
    ArtifactIssuesMeaning(a, "stdout_artifact", f.stdoutArtifact, probe);
    ArtifactIssuesMeaning(a, "stderr_artifact", f.stderrArtifact, probe);
    SplitWaivable(ArtifactIssues(a, "stdout_artifact", f.stdoutArtifact, probe),
                  ArtifactIssues(a, "stderr_artifact", f.stderrArtifact, probe));
    SplitWaivable(EvidenceIssues(a, f, probe), s);
  }

  lemma FailedVerdictMeaning(a: Acceptance, status: AcceptanceStatus, sequence: Option<int>, before: seq<Issue>)
    requires WaivedByCode(before)
    ensures var v := FailedVerdict(a, status, sequence, before);
      && (v.issues == [] <==> before == [] && !a.required)
      && (AllWaivable(v.issues) <==> AllWaivable(before))
      && WaivedByCode(v.issues)
  {
    var own := FailedVerdict(a, status, sequence, []).issues;
    assert FailedVerdict(a, status, sequence, before).issues == before + own;
    SplitWaivable(before, own);
  }

  lemma FinishVerdictMeaning(r: Record, a: Acceptance, i: nat, probe: Probe)
    requires r.revisions != [] && i < |r.events| && r.events[i].data.CommandFinished?
    ensures var v := VerifyFinish(r, a, i, probe);
      && v.result.acceptanceId == a.id
      && (v.result.status == Passed <==> PassesAt(r, a, i, probe))
      && (v.issues == [] <==> if a.required then PassesAt(r, a, i, probe) else TolerableAt(r, i, probe))
      && (AllWaivable(v.issues) <==> TrustedAt(r, i, probe))
      && WaivedByCode(v.issues)
  {
    var v := VerifyFinish(r, a, i, probe);
    var e := r.events[i];
    var f := e.data.finish;
    if CurrentChain(r, i) {
      var found := EvidenceIssues(a, f, probe) + SandboxIssues(r.Current(), f);
      EvidenceMeaning(r, a, f, probe);
      FailedVerdictMeaning(a, FailedEvidence, Some(e.sequence), found);
    } else if HasAuthorization(r.events, f) &&
              r.events[f.authSequence - 1].data.auth.revision != r.Current().revision {
      FailedVerdictMeaning(a, Stale, Some(e.sequence), []);
    } else {
      assert v.issues[0] in v.issues;
    }
  }

  /** One acceptance raises no issue exactly when the gate's clause for it holds. */
  lemma VerdictMeaning(r: Record, a: Acceptance, probe: Probe)
    requires r.revisions != []
    ensures var v := VerifyAcceptance(r, a, probe);
      && v.result.acceptanceId == a.id
      && (v.result.status == Passed <==> Passes(r, a, probe))
      && (v.issues == [] <==> if a.required then Passes(r, a, probe) else Tolerable(r, a, probe))
      && (AllWaivable(v.issues) <==> Trusted(r, a, probe))
      && WaivedByCode(v.issues)
  {
    var v := VerifyAcceptance(r, a, probe);
    var last := LastFinish(r.events, a.commandId);
    if a.evidenceType != "command_event" {
      assert v.issues[0] in v.issues;
    } else if last.None? {
      FailedVerdictMeaning(a, Missing, None, []);
    } else {
      FinishVerdictMeaning(r, a, last.value, probe);
    }
  }

  lemma {:induction false} AcceptanceIssuesMeaning(r: Record, acceptances: seq<Acceptance>, probe: Probe)
    requires r.revisions != []
    ensures AcceptanceIssues(r, acceptances, probe) == [] <==> AcceptancesMet(r, acceptances, probe)
    ensures AllWaivable(AcceptanceIssues(r, acceptances, probe)) <==>
      forall a :: a in acceptances ==> Trusted(r, a, probe)
    ensures WaivedByCode(AcceptanceIssues(r, acceptances, probe))
  {
    if acceptances != [] {
      var n := |acceptances| - 1;
      MembersOfInit(acceptances);
      AcceptanceIssuesMeaning(r, acceptances[..n], probe);
      VerdictMeaning(r, acceptances[n], probe);
      SplitWaivable(AcceptanceIssues(r, acceptances[..n], probe), VerifyAcceptance(r, acceptances[n], probe).issues);
    }
  }

  lemma {:induction false} UniqueResult(results: seq<AcceptanceResult>, k: nat)
    requires k < |results|
    requires forall i, j :: 0 <= i < j < |results| ==> results[i].acceptanceId != results[j].acceptanceId
    ensures ResultFor(results, results[k].acceptanceId) == Some(results[k])
    decreases |results|
  {
    var n := |results| - 1;
    if k < n { UniqueResult(results[..n], k); }
  }

  lemma ResultKeepsId(r: Record, a: Acceptance, probe: Probe)
    requires r.revisions != []
    ensures VerifyAcceptance(r, a, probe).result.acceptanceId == a.id
  {
    hide Passes, Tolerable, Trusted, AllWaivable, WaivedByCode, VerifyAcceptance;
    VerdictMeaning(r, a, probe);
  }

  /** Unique acceptance ids make the lookup by id find each acceptance's own result. */
  lemma ResultForMeaning(r: Record, acceptances: seq<Acceptance>, k: nat, probe: Probe)
    requires r.revisions != [] && k < |acceptances|
    requires forall i, j :: 0 <= i < j < |acceptances| ==> acceptances[i].id != acceptances[j].id
    ensures ResultFor(Results(r, acceptances, probe), acceptances[k].id) ==
            Some(VerifyAcceptance(r, acceptances[k], probe).result)
  {
    hide ResultFor, VerifyAcceptance;
    var results := Results(r, acceptances, probe);
    forall i | 0 <= i < |results| ensures results[i].acceptanceId == acceptances[i].id {
      ResultKeepsId(r, acceptances[i], probe);
    }
    UniqueResult(results, k);
  }

  lemma PassingCoverMeaning(r: Record, q: Requirement, probe: Probe)
    requires r.revisions != [] && r.Current().UniqueIds()
    ensures PassingCover(q, r.Current(), Results(r, r.Current().acceptances, probe)) <==>
      exists a :: a in r.Current().acceptances && q.id in a.covers && Passes(r, a, probe)
  {
    var acceptances := r.Current().acceptances;
    forall a | a in acceptances
      ensures ResultFor(Results(r, acceptances, probe), a.id) == Some(VerifyAcceptance(r, a, probe).result)
      ensures VerifyAcceptance(r, a, probe).result.status == Passed <==> Passes(r, a, probe)
    {
      var k :| 0 <= k < |acceptances| && acceptances[k] == a;
      ResultForMeaning(r, acceptances, k, probe);
      VerdictMeaning(r, a, probe);
    }
  }

  lemma CoverageIssueMeaning(q: Requirement, r: Record, probe: Probe)
    requires r.revisions != [] && r.Current().UniqueIds()
    ensures var issues := CoverageIssue(q, r.Current(), Results(r, r.Current().acceptances, probe));
      && (issues == [] <==> Proved(q, r, probe))
      && (AllWaivable(issues) <==> Covered(q, r.Current()))
      && WaivedByCode(issues)
  {
    var issues := CoverageIssue(q, r.Current(), Results(r, r.Current().acceptances, probe));
    assert issues != [] ==> issues[0] in issues;
    PassingCoverMeaning(r, q, probe);
  }

  lemma {:induction false} CoverageIssuesMeaning(requirements: seq<Requirement>, r: Record, probe: Probe)
    requires r.revisions != [] && r.Current().UniqueIds()
    ensures var issues := CoverageIssues(requirements, r.Current(), Results(r, r.Current().acceptances, probe));
      && (issues == [] <==> forall q :: q in requirements ==> Proved(q, r, probe))
      && (AllWaivable(issues) <==> forall q :: q in requirements ==> Covered(q, r.Current()))
      && WaivedByCode(issues)
  {
    if requirements != [] {
      var n := |requirements| - 1;
      var results := Results(r, r.Current().acceptances, probe);
      MembersOfInit(requirements);
      hide Results, CoverageIssue, Proved, Covered, WaivedByCode, Envelope.UniqueIds;
      CoverageIssuesMeaning(requirements[..n], r, probe);
      CoverageIssueMeaning(requirements[n], r, probe);
      var earlier := CoverageIssues(requirements[..n], r.Current(), results);
      var last := CoverageIssue(requirements[n], r.Current(), results);
      assert CoverageIssues(requirements, r.Current(), results) == earlier + last;
      hide CoverageIssues;
      SplitWaivable(earlier, last);
    }
  }

  /** Deduplication keeps every code and message, once, and adds none. */
  lemma {:induction false} DeduplicateKeepsIssues(issues: seq<Issue>)
    ensures forall x :: x in Deduplicate(issues) ==> x in issues
    ensures forall x :: x in issues ==> Seen(Deduplicate(issues), x)
  {
    if issues != [] {
      MembersOfInit(issues);
      var init := issues[..|issues| - 1];
      var last := issues[|issues| - 1];
      DeduplicateKeepsIssues(init);
      var kept := Deduplicate(init);
      forall x | x in issues ensures Seen(Deduplicate(issues), x) {
        if Seen(kept, x) {
          var y :| y in kept && y.code == x.code && y.message == x.message;
          assert y in kept + [last];
        } else {
          assert x == last;
          assert last in kept + [last];
        }
      }
    }
  }

  lemma {:induction false} DeduplicateLeavesNoRepeat(issues: seq<Issue>)
    ensures forall i, j :: 0 <= i < j < |Deduplicate(issues)| ==>
      !(Deduplicate(issues)[i].code == Deduplicate(issues)[j].code
        && Deduplicate(issues)[i].message == Deduplicate(issues)[j].message)
  {
    if issues != [] {
      var kept := Deduplicate(issues[..|issues| - 1]);
      DeduplicateLeavesNoRepeat(issues[..|issues| - 1]);
      assert forall i :: 0 <= i < |kept| ==> kept[i] in kept;
    }
  }

  /** Deduplication keeps the decision, because the code of an issue fixes whether it is waivable. */
  lemma DeduplicateKeepsDecision(issues: seq<Issue>)
    requires WaivedByCode(issues)
    ensures Deduplicate(issues) == [] <==> issues == []
    ensures AllWaivable(Deduplicate(issues)) <==> AllWaivable(issues)
  {
    DeduplicateKeepsIssues(issues);
    var kept := Deduplicate(issues);
    if issues != [] {
      assert Seen(kept, issues[0]);
    }
    forall x | x in issues && AllWaivable(kept) ensures x.waivable {
      var y :| y in kept && y.code == x.code && y.message == x.message;
    }
  }

  lemma SplitSix(w: seq<Issue>, d: seq<Issue>, i: seq<Issue>, h: seq<Issue>, a: seq<Issue>, c: seq<Issue>)
    requires WaivedByCode(w) && WaivedByCode(d) && WaivedByCode(i)
    requires WaivedByCode(h) && WaivedByCode(a) && WaivedByCode(c)
    ensures var all := w + d + i + h + a + c;
      && (all == [] <==> w == [] && d == [] && i == [] && h == [] && a == [] && c == [])
      && (AllWaivable(all) <==>
        AllWaivable(w) && AllWaivable(d) && AllWaivable(i) && AllWaivable(h) && AllWaivable(a) && AllWaivable(c))
      && WaivedByCode(all)
  {
    SplitWaivable(w, d);
    SplitWaivable(w + d, i);
    SplitWaivable(w + d + i, h);
    SplitWaivable(w + d + i + h, a);
    SplitWaivable(w + d + i + h + a, c);
  }

  lemma NeverWaivable(issues: seq<Issue>)
    requires forall x :: x in issues ==> !x.waivable && !WaivableCode(x.code)
    ensures AllWaivable(issues) <==> issues == []
    ensures WaivedByCode(issues)
  {
    assert issues != [] ==> issues[0] in issues;
  }

  /** The checks that never raise a waivable issue. */
  lemma HardChecksMeaning(r: Record, probe: Probe)
    requires r.revisions != []
    ensures var w := WorkspaceIssues(r.Current(), probe.snapshot);
      (w == [] <==> SameWorkspace(r.Current(), probe.snapshot)) && (AllWaivable(w) <==> w == []) && WaivedByCode(w)
    ensures var d := DiffIssues(r.Current(), probe.changedPaths);
      && (d == [] <==> forall p :: p in probe.changedPaths ==> ChangeInScope(p, r.Current()))
      && (AllWaivable(d) <==> d == []) && WaivedByCode(d)
    ensures var h := HighRiskIssues(r.events);
      && (h == [] <==> forall e :: e in r.events ==> !UnapprovedHighRisk(e))
      && (AllWaivable(h) <==> h == []) && WaivedByCode(h)
  {
    DiffIssuesMeaning(r.Current(), probe.changedPaths);
    HighRiskIssuesMeaning(r.events);
    NeverWaivable(WorkspaceIssues(r.Current(), probe.snapshot));
    NeverWaivable(DiffIssues(r.Current(), probe.changedPaths));
    NeverWaivable(HighRiskIssues(r.events));
  }

  /** The checks whose issues a stated risk reason may waive. */
  lemma SoftChecksMeaning(r: Record, probe: Probe)
    requires r.revisions != [] && r.Current().UniqueIds()
    ensures var i := IncompleteIssues(r.events, r.events);
      && (i == [] <==> forall e :: e in r.events ==> !Incomplete(r.events, e))
      && AllWaivable(i) && WaivedByCode(i)
    ensures var a := AcceptanceIssues(r, r.Current().acceptances, probe);
      && (a == [] <==> AcceptancesMet(r, r.Current().acceptances, probe))
      && (AllWaivable(a) <==> forall x :: x in r.Current().acceptances ==> Trusted(r, x, probe))
      && WaivedByCode(a)
    ensures
      var c := CoverageIssues(r.Current().requirements, r.Current(), Results(r, r.Current().acceptances, probe));
      && (c == [] <==> forall q :: q in r.Current().requirements ==> Proved(q, r, probe))
      && (AllWaivable(c) <==> forall q :: q in r.Current().requirements ==> Covered(q, r.Current()))
      && WaivedByCode(c)
  {
    IncompleteIssuesMeaning(r.events, r.events);
    AcceptanceIssuesMeaning(r, r.Current().acceptances, probe);
    CoverageIssuesMeaning(r.Current().requirements, r, probe);
  }

  lemma AllIssuesMeaning(r: Record, probe: Probe)
    requires r.revisions != [] && r.Current().UniqueIds()
    ensures AllIssues(r, probe) == [] <==> CompletionGate(r, probe)
    ensures AllWaivable(AllIssues(r, probe)) <==> TrustGate(r, probe)
    ensures WaivedByCode(AllIssues(r, probe))
  {
    var envelope := r.Current();
    HardChecksMeaning(r, probe);
    SoftChecksMeaning(r, probe);
    SplitSix(WorkspaceIssues(envelope, probe.snapshot), DiffIssues(envelope, probe.changedPaths),
             IncompleteIssues(r.events, r.events), HighRiskIssues(r.events),
             AcceptanceIssues(r, envelope.acceptances, probe),
             CoverageIssues(envelope.requirements, envelope, Results(r, envelope.acceptances, probe)));
  }

  /** The outcome of every evaluation, as a condition on the record and the probed facts. */
  lemma OutcomeIsTheGate(r: Record, probe: Probe, acceptRisk: bool, reason: Option<string>)
    requires r.revisions != [] && r.Current().UniqueIds()
    ensures var outcome := Evaluate(r, probe, acceptRisk, reason).outcome;
      && (outcome == OutcomeCompleted <==> CompletionGate(r, probe))
      && (outcome == OutcomeAcceptedWithRisk <==>
        && !CompletionGate(r, probe) && TrustGate(r, probe)
        && acceptRisk && reason.Some? && !IsBlank(reason.value))
  {
    AllIssuesMeaning(r, probe);
    DeduplicateKeepsDecision(AllIssues(r, probe));
  }
}
