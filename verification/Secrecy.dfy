/** The Verifier's secret check on artifacts the Executor wrote. */
module Secrecy {
  import opened Prelude
  import opened Texts
  import opened TaskModel
  import opened Verifier
  import opened Utf8
  import opened Redaction

  /** The artifact texts one execution can leave: the limited streams, or the redacted launch error. */
  ghost predicate WrittenByExecutor(content: string, secrets: seq<string>, maxBytes: int)
    requires NonEmpty(secrets)
  {
    || content == ""
    || (exists out, err :: FromStreams(content, out, err, secrets, maxBytes))
    || (exists message :: content == LaunchError(message, secrets))
  }

  predicate FromStreams(content: string, out: seq<Byte>, err: seq<Byte>, secrets: seq<string>, maxBytes: int)
    requires NonEmpty(secrets)
  {
    var r := RedactAndLimit(out, err, secrets, maxBytes);
    content == r.stdout || content == r.stderr
  }

  function LaunchError(message: string, secrets: seq<string>): string
    requires NonEmpty(secrets)
  {
    Redact(message, secrets) + "\n"
  }

  lemma OccursBeforeBreak(text: string, s: string, i: nat)
    requires s != "" && Lacks(s, '\n') && OccursAt(text + "\n", s, i)
    ensures OccursAt(text, s, i)
  {
    if i + |s| > |text| { CharOf(text + "\n", s, i, |text|); }
    assert text[i..i + |s|] == (text + "\n")[i..i + |s|];
  }

  lemma LaunchErrorHoldsNoSecret(message: string, secrets: seq<string>, s: string)
    requires NonEmpty(secrets) && s in secrets && Apart(s) && Lacks(s, '\n')
    ensures !Contains(LaunchError(message, secrets), s)
  {
    var text := Redact(message, secrets);
    RedactionIsComplete(message, secrets, s);
    if Contains(text + "\n", s) {
      var i :| 0 <= i <= |text + "\n"| && OccursAt(text + "\n", s, i);
      OccursBeforeBreak(text, s, i);
    }
  }

  lemma WrittenHoldsNoSecret(content: string, secrets: seq<string>, maxBytes: int, s: string)
    requires NonEmpty(secrets) && s in secrets && NeverRead(s) && maxBytes >= 1
    requires WrittenByExecutor(content, secrets, maxBytes)
    ensures !Contains(ReadBack(content), s)
  {
    if !Lacks(s, '\r') {
      ReturnIsNeverRead(content, s);
    } else if content == "" {
      assert Encode("") == [] && ReadBack("") == "";
    } else if m :| content == LaunchError(m, secrets) {
      LaunchErrorHoldsNoSecret(m, secrets, s);
      ReadBackContainsNoMore(content, s);
    } else {
      var out, err :| FromStreams(content, out, err, secrets, maxBytes);
      ArtifactsHoldNoSecret(out, err, secrets, maxBytes, s);
    }
  }

  /** With the Executor's secrets the Verifier reports a leak in what the Executor wrote only for the sake of a secret
      that overlaps the mask or spans lines. */
  lemma SecretCheckNeverFires(a: Acceptance, field: string, path: Option<string>, probe: Probe,
                              written: string, maxBytes: int)
    requires NonEmpty(probe.secrets) && maxBytes >= 1
    requires path.Some? && path.value in probe.artifacts ==>
      probe.artifacts[path.value].content == ReadBack(written) && WrittenByExecutor(written, probe.secrets, maxBytes)
    ensures (exists x :: x in ArtifactIssues(a, field, path, probe) && x.code == SecretLeak) ==>
      exists s :: s in probe.secrets && !NeverRead(s)
  {
    hide NeverRead;
    forall s | s in probe.secrets && NeverRead(s) && path.Some? && path.value in probe.artifacts
      ensures !Contains(probe.artifacts[path.value].content, s)
    {
      WrittenHoldsNoSecret(written, probe.secrets, maxBytes, s);
    }
  }
}
