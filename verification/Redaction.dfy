/** Sequential replacement of secrets, the limit on what is kept, and what the Verifier reads back. */
module Redaction {
  import opened Prelude
  import opened Texts
  import opened Utf8

  const MASK := "[REDACTED]"

  /** `text.replace(secret, MASK)`: leftmost occurrences that do not overlap. */
  function Replace(text: string, secret: string): string
    requires secret != ""
  {
    if text == "" then ""
    else if OccursAt(text, secret, 0) then MASK + Replace(text[|secret|..], secret)
    else [text[0]] + Replace(text[1..], secret)
  }

  /** `_redact`: one secret after the other. */
  function Redact(text: string, secrets: seq<string>): string
    requires NonEmpty(secrets)
  {
    if secrets == [] then text else Replace(Redact(text, secrets[..|secrets| - 1]), secrets[|secrets| - 1])
  }

  predicate NonEmpty(secrets: seq<string>) {
    forall i :: 0 <= i < |secrets| ==> secrets[i] != ""
  }

  method RedactText(value: string, secrets: seq<string>) returns (text: string)
    requires NonEmpty(secrets)
    ensures text == Redact(value, secrets)
  {
    text := value;
    for i := 0 to |secrets|
      invariant text == Redact(value, secrets[..i])
    {
      assert secrets[..i + 1][..i] == secrets[..i];
      text := Replace(text, secrets[i]);
    }
    assert secrets[..|secrets|] == secrets;
  }

  // ---- How a replacement cuts the text ----

  /** Where the first occurrence of a secret begins; the length of the text without one. */
  function FirstMatch(text: string, secret: string): (m: nat)
    ensures m <= |text|
    ensures forall i :: 0 <= i < m ==> !OccursAt(text, secret, i)
    ensures m < |text| ==> OccursAt(text, secret, m)
  {
    if text == "" || OccursAt(text, secret, 0) then 0
    else
      var m := 1 + FirstMatch(text[1..], secret);
      assert forall i :: 0 < i <= |text| ==> (OccursAt(text, secret, i) <==> OccursAt(text[1..], secret, i - 1)) by {
        forall i | 0 < i <= |text| ensures OccursAt(text, secret, i) <==> OccursAt(text[1..], secret, i - 1) {
          OccursInSuffix(text, 1, secret, i - 1);
        }
      }
      m
  }

  lemma OccursInSuffix(text: string, from: nat, s: string, k: nat)
    requires from <= |text|
    ensures OccursAt(text[from..], s, k) <==> OccursAt(text, s, from + k)
  {
    assert text[from..|text|] == text[from..];
    if from + k + |s| <= |text| { OccursInSegment(text, from, |text|, s, k); }
  }

  /** The result is the text up to `m`, the mask, and the result for what follows; all of it when `m` is its length. */
  predicate CutAt(text: string, secret: string, m: nat, result: string)
    requires secret != ""
  {
    && m <= |text|
    && (m == |text| ==> result == text)
    && (m < |text| ==> m + |secret| <= |text| && result == text[..m] + MASK + Replace(text[m + |secret|..], secret))
  }

  /** A cut after the first character is a cut of the text. */
  lemma CutShifts(text: string, secret: string, m: nat, result: string)
    requires secret != "" && text != "" && CutAt(text[1..], secret, m, result)
    ensures CutAt(text, secret, m + 1, [text[0]] + result)
  {
    var tail, n := text[1..], m + |secret|;
    hide Replace;
    if m == |tail| {
      assert [text[0]] + tail == text;
    } else {
      assert tail[n..] == text[n + 1..];
      var rest := Replace(tail[n..], secret);
      PrependToCut(text[0], tail[..m], rest);
      assert [text[0]] + tail[..m] == text[..m + 1];
    }
  }

  lemma PrependToCut(c: char, before: string, rest: string)
    ensures [c] + (before + MASK + rest) == [c] + before + MASK + rest
  {
    assert [c] + (before + MASK) == [c] + before + MASK;
  }

  lemma FirstMatchOfTail(text: string, secret: string)
    requires text != "" && !OccursAt(text, secret, 0)
    ensures FirstMatch(text, secret) == 1 + FirstMatch(text[1..], secret)
  {
  }

  lemma ReplaceUnfolds(text: string, secret: string)
    requires secret != "" && text != ""
    ensures Replace(text, secret) ==
      if OccursAt(text, secret, 0) then MASK + Replace(text[|secret|..], secret)
      else [text[0]] + Replace(text[1..], secret)
    ensures OccursAt(text, secret, 0) ==> FirstMatch(text, secret) == 0
  {
  }

  lemma CutsAtOnce(text: string, secret: string)
    requires secret != "" && text != "" && OccursAt(text, secret, 0)
    ensures CutAt(text, secret, FirstMatch(text, secret), Replace(text, secret))
  {
    ReplaceUnfolds(text, secret);
    assert |secret| <= |text|;
    hide Replace, FirstMatch, OccursAt;
    assert text[..0] + MASK == MASK;
  }

  /** A replacement cuts the text at the first match. */
  lemma {:induction false} ReplaceCuts(text: string, secret: string)
    requires secret != ""
    ensures CutAt(text, secret, FirstMatch(text, secret), Replace(text, secret))
    decreases |text|
  {
    if text != "" {
      if OccursAt(text, secret, 0) {
        CutsAtOnce(text, secret);
      } else {
        ReplaceCuts(text[1..], secret);
        CutShifts(text, secret, FirstMatch(text[1..], secret), Replace(text[1..], secret));
        ReplaceUnfolds(text, secret);
        FirstMatchOfTail(text, secret);
        hide Replace, FirstMatch, OccursAt, CutAt;
      }
    }
  }

  // ---- How a text can overlap the mask ----

  /** The first `k` characters are the last of the mask. */
  predicate BeginsWithMaskTail(t: string, k: int) {
    0 < k <= |t| && k <= |MASK| && t[..k] == MASK[|MASK| - k..]
  }

  /** The last `k` characters are the first of the mask. */
  predicate EndsWithMaskHead(t: string, k: int) {
    0 < k <= |t| && k <= |MASK| && t[|t| - k..] == MASK[..k]
  }

  /** No placing of the text over the mask makes their common characters agree. */
  predicate Apart(t: string) {
    && !Contains(MASK, t) && !Contains(t, MASK)
    && (forall k :: 0 < k <= |t| ==> !BeginsWithMaskTail(t, k))
    && (forall k :: 0 < k <= |t| ==> !EndsWithMaskHead(t, k))
  }

  /** At `j` the text holds `t` without its last `k` characters, then the first match of the secret from there on. */
  predicate HeadBeforeMatch(text: string, secret: string, t: string, k: int, j: int) {
    && EndsWithMaskHead(t, k) && k < |t| && j >= 0
    && OccursAt(text, t[..|t| - k], j) && OccursAt(text, secret, j + |t| - k)
    && forall i :: j <= i < j + |t| - k ==> !OccursAt(text, secret, i)
  }

  /** Why a text can stand in the result of a replacement. */
  ghost predicate Explained(text: string, secret: string, t: string) {
    || (exists j :: 0 <= j <= |text| && OccursAt(text, t, j) && !OccursAt(text, secret, j))
    || Contains(MASK, t) || Contains(t, MASK)
    || (exists k :: BeginsWithMaskTail(t, k))
    || (exists k, j :: HeadBeforeMatch(text, secret, t, k, j))
  }

  lemma ExplainedInSuffix(text: string, from: nat, secret: string, t: string)
    requires from <= |text| && Explained(text[from..], secret, t)
    ensures Explained(text, secret, t)
  {
    var rest := text[from..];
    if j :| 0 <= j <= |rest| && OccursAt(rest, t, j) && !OccursAt(rest, secret, j) {
      OccursInSuffix(text, from, t, j);
      OccursInSuffix(text, from, secret, j);
      assert OccursAt(text, t, from + j) && !OccursAt(text, secret, from + j);
    } else if k, j :| HeadBeforeMatch(rest, secret, t, k, j) {
      OccursInSuffix(text, from, t[..|t| - k], j);
      OccursInSuffix(text, from, secret, j + |t| - k);
      forall i | from + j <= i < from + j + |t| - k ensures !OccursAt(text, secret, i) {
        OccursInSuffix(text, from, secret, i - from);
      }
      assert HeadBeforeMatch(text, secret, t, k, from + j);
    }
  }

  // What can stand where the mask stands from `m` on, in a text that holds it there.

  lemma WindowInMask(whole: string, m: nat, t: string, i: nat)
    requires OccursAt(whole, MASK, m) && OccursAt(whole, t, i) && m <= i && i + |t| <= m + |MASK|
    ensures Contains(MASK, t)
  {
    OccursInSegment(whole, m, m + |MASK|, t, i - m);
    assert OccursAt(MASK, t, i - m);
  }

  lemma WindowOverMask(whole: string, m: nat, t: string, i: nat)
    requires OccursAt(whole, MASK, m) && OccursAt(whole, t, i) && i <= m && m + |MASK| <= i + |t|
    ensures Contains(t, MASK)
  {
    OccursInSegment(whole, i, i + |t|, MASK, m - i);
    assert OccursAt(t, MASK, m - i);
  }

  lemma WindowFromMask(whole: string, m: nat, t: string, i: nat)
    requires OccursAt(whole, MASK, m) && OccursAt(whole, t, i) && m <= i < m + |MASK| < i + |t|
    ensures BeginsWithMaskTail(t, m + |MASK| - i)
  {
    var k, n := m + |MASK| - i, |MASK|;
    SliceOfSlice(whole, i, i + |t|, 0, k);
    SliceOfSlice(whole, m, m + n, i - m, n);
    assert MASK[n - k..n] == MASK[n - k..] && t[0..k] == t[..k];
  }

  lemma WindowIntoMask(whole: string, m: nat, t: string, i: nat)
    requires OccursAt(whole, MASK, m) && OccursAt(whole, t, i) && i < m < i + |t| < m + |MASK|
    ensures EndsWithMaskHead(t, i + |t| - m) && t[..m - i] == whole[i..m]
  {
    var k := i + |t| - m;
    SliceOfSlice(whole, i, i + |t|, m - i, |t|);
    SliceOfSlice(whole, m, m + |MASK|, 0, k);
    assert t[|t| - k..|t|] == t[|t| - k..] && MASK[0..k] == MASK[..k];
    SliceOfSlice(whole, i, i + |t|, 0, m - i);
    assert t[0..m - i] == t[..m - i];
  }

  /** A window that begins in copied text is copied whole, or runs into the mask that follows the copied text. */
  lemma CopiedWindow(text: string, secret: string, whole: string, t: string, i: nat)
    requires var m := FirstMatch(text, secret);
      && m < |text| && OccursAt(whole, MASK, m) && whole[..m] == text[..m]
      && t != "" && OccursAt(whole, t, i) && i < m
    ensures Explained(text, secret, t)
  {
    var m := FirstMatch(text, secret);
    hide FirstMatch, Contains, BeginsWithMaskTail, EndsWithMaskHead;
    if i + |t| <= m {
      assert whole[i..i + |t|] == whole[..m][i..i + |t|] == text[..m][i..i + |t|] == text[i..i + |t|];
      assert OccursAt(text, t, i) && !OccursAt(text, secret, i);
    } else if m + |MASK| <= i + |t| {
      WindowOverMask(whole, m, t, i);
    } else {
      WindowIntoMask(whole, m, t, i);
      var k := i + |t| - m;
      assert whole[i..m] == whole[..m][i..m] == text[..m][i..m] == text[i..m];
      assert HeadBeforeMatch(text, secret, t, k, i);
    }
  }

  lemma MaskedWindow(text: string, secret: string, whole: string, m: nat, t: string, i: nat)
    requires OccursAt(whole, MASK, m) && t != "" && OccursAt(whole, t, i) && m <= i < m + |MASK|
    ensures Explained(text, secret, t)
  {
    hide OccursAt, Contains, HeadBeforeMatch;
    if i + |t| <= m + |MASK| {
      WindowInMask(whole, m, t, i);
    } else {
      WindowFromMask(whole, m, t, i);
    }
  }

  /** Whatever stands in the result stood in the text where the secret does not, or overlaps a mask. */
  lemma {:induction false} WindowIsExplained(text: string, secret: string, t: string, i: nat)
    requires secret != "" && t != "" && OccursAt(Replace(text, secret), t, i)
    ensures Explained(text, secret, t)
    decreases |text|
  {
    hide FirstMatch, Replace, Explained, Contains, OccursAt;
    var m := FirstMatch(text, secret);
    ReplaceCuts(text, secret);
    if m == |text| {
      UntouchedWindow(text, secret, t, i);
    } else {
      var after := text[m + |secret|..];
      var rest := Replace(after, secret);
      var whole := text[..m] + MASK + rest;
      MaskInTheMiddle(text[..m], rest);
      if i < m {
        CopiedWindow(text, secret, whole, t, i);
      } else if i < m + |MASK| {
        MaskedWindow(text, secret, whole, m, t, i);
      } else {
        var k := i - m - |MASK|;
        OccursInSuffix(whole, m + |MASK|, t, k);
        WindowIsExplained(after, secret, t, k);
        ExplainedInSuffix(text, m + |secret|, secret, t);
      }
    }
  }

  lemma MaskInTheMiddle(a: string, b: string)
    ensures var whole := a + MASK + b;
      OccursAt(whole, MASK, |a|) && whole[..|a|] == a && whole[|a| + |MASK|..] == b
  {
    var whole := a + MASK + b;
    assert whole[|a|..|a| + |MASK|] == MASK;
  }

  lemma UntouchedWindow(text: string, secret: string, t: string, i: nat)
    requires t != "" && OccursAt(text, t, i) && FirstMatch(text, secret) == |text|
    ensures Explained(text, secret, t)
  {
    hide FirstMatch, Contains, HeadBeforeMatch;
    assert OccursAt(text, t, i) && !OccursAt(text, secret, i);
  }

  // ---- Nothing apart from the mask comes back ----

  /** Replacing one secret removes it, and brings back no text apart from the mask. */
  lemma ReplaceRemoves(text: string, secret: string, t: string)
    requires secret != "" && t != "" && Apart(t)
    requires t == secret || !Contains(text, t)
    ensures !Contains(Replace(text, secret), t)
  {
    if Contains(Replace(text, secret), t) {
      var i :| 0 <= i <= |Replace(text, secret)| && OccursAt(Replace(text, secret), t, i);
      WindowIsExplained(text, secret, t, i);
    }
  }

  /** After redaction no secret apart from the mask occurs, whatever the others are and in whatever order. */
  lemma {:induction false} RedactionIsComplete(text: string, secrets: seq<string>, s: string)
    requires NonEmpty(secrets) && s in secrets && Apart(s)
    ensures !Contains(Redact(text, secrets), s)
    decreases |secrets|
  {
    var n := |secrets| - 1;
    if s != secrets[n] {
      RedactionIsComplete(text, secrets[..n], s);
    }
    ReplaceRemoves(Redact(text, secrets[..n]), secrets[n], s);
  }

  /** A secret without any character of the mask is apart from it. */
  lemma MaskFreeIsApart(s: string)
    requires s != "" && forall i :: 0 <= i < |s| ==> s[i] !in MASK
    ensures Apart(s)
  {
    forall i | 0 <= i <= |MASK| ensures !OccursAt(MASK, s, i) {
      if OccursAt(MASK, s, i) { CharOf(MASK, s, i, i); }
    }
    forall i | 0 <= i <= |s| ensures !OccursAt(s, MASK, i) {
      if OccursAt(s, MASK, i) { CharOf(s, MASK, i, i); }
    }
    forall k | 0 < k <= |s| && k <= |MASK| ensures s[..k] != MASK[|MASK| - k..] && s[|s| - k..] != MASK[..k] {
      assert s[..k][0] == s[0] && MASK[|MASK| - k..][0] in MASK;
      assert s[|s| - k..][0] == s[|s| - k] && MASK[..k][0] in MASK;
    }
  }

  lemma PrefixContainsNoMore(text: string, n: nat, s: string)
    requires n <= |text| && !Contains(text, s)
    ensures !Contains(text[..n], s)
  {
    if Contains(text[..n], s) {
      var i :| 0 <= i <= n && OccursAt(text[..n], s, i);
      assert text[..n] == text[0..n];
      OccursInSegment(text, 0, n, s, i);
    }
  }

  // ---- Exactly which secrets can come back ----

  /** The secret does not occur in `s[..n] + s` before `n`. */
  predicate FirstAt(s: string, n: nat)
    requires n <= |s|
  {
    forall i :: 0 <= i < n ==> !OccursAt(s[..n] + s, s, i)
  }

  /** A secret some text brings back: it overlaps the mask, and a copied head is not itself the start of a match. */
  predicate Leaks(s: string) {
    || Contains(MASK, s) || Contains(s, MASK)
    || (exists k :: 0 < k <= |s| && BeginsWithMaskTail(s, k))
    || (exists k :: 0 < k < |s| && EndsWithMaskHead(s, k) && FirstAt(s, |s| - k))
  }

  lemma LeakNeedsOverlap(text: string, s: string)
    requires s != "" && Contains(Replace(text, s), s)
    ensures Leaks(s)
  {
    var i :| 0 <= i <= |Replace(text, s)| && OccursAt(Replace(text, s), s, i);
    WindowIsExplained(text, s, s, i);
    hide Contains, EndsWithMaskHead, FirstAt, Replace;
    if k, j :| HeadBeforeMatch(text, s, s, k, j) {
      HeadIsFirst(text, s, k, j);
    } else if k :| BeginsWithMaskTail(s, k) {
      assert 0 < k <= |s|;
    }
  }

  lemma HeadIsFirst(text: string, s: string, k: int, j: int)
    requires HeadBeforeMatch(text, s, s, k, j)
    ensures 0 < k < |s| && EndsWithMaskHead(s, k) && FirstAt(s, |s| - k)
  {
    assert 0 < k < |s|;
    var n := |s| - k;
    hide EndsWithMaskHead;
    assert text[j..j + n + |s|] == s[..n] + s by {
      assert text[j..j + n] == s[..n] && text[j + n..j + n + |s|] == s;
    }
    forall i | 0 <= i < n ensures !OccursAt(s[..n] + s, s, i) {
      OccursInSegment(text, j, j + n + |s|, s, i);
    }
  }

  /** When the secret first occurs after `a`, the replacement keeps `a`. */
  lemma ReplacedFirst(a: string, s: string, b: string)
    requires s != "" && |b| < |s|
    requires forall i :: 0 <= i < |a| ==> !OccursAt(a + s + b, s, i)
    ensures Replace(a + s + b, s) == a + MASK + b
  {
    var text := a + s + b;
    assert OccursAt(text, s, |a|) by { assert text[|a|..|a| + |s|] == s; }
    assert FirstMatch(text, s) == |a|;
    ReplaceCuts(text, s);
    ShortIsKept(b, s);
    hide FirstMatch, Replace, OccursAt;
    assert text[..|a|] == a && text[|a| + |s|..] == b;
  }

  lemma ShortIsKept(b: string, s: string)
    requires s != "" && |b| < |s|
    ensures Replace(b, s) == b
  {
    ReplaceCuts(b, s);
  }

  lemma ContainsAt(text: string, s: string, i: nat)
    requires OccursAt(text, s, i)
    ensures Contains(text, s)
  {
  }

  /** A secret that begins like the end of the mask is put back when its rest follows it. */
  lemma TailLeaks(s: string, k: nat)
    requires BeginsWithMaskTail(s, k)
    ensures Contains(Replace(s + s[k..], s), s)
  {
    var v, n := s[k..], |MASK| - k;
    assert s[..k] == MASK[n..] && |v| < |s|;
    hide OccursAt, Contains, Replace;
    assert "" + s + v == s + v && "" + MASK + v == MASK + v;
    ReplacedFirst("", s, v);
    MaskAndTail(s, k);
    ContainsAt(MASK + v, s, n);
  }

  lemma MaskAndTail(s: string, k: nat)
    requires 0 < k <= |s| && k <= |MASK| && s[..k] == MASK[|MASK| - k..]
    ensures OccursAt(MASK + s[k..], s, |MASK| - k)
  {
    var v, n := s[k..], |MASK| - k;
    assert (MASK + v)[n..] == MASK[n..] + v;
    assert s[..k] + v == s;
    assert (MASK + v)[n..n + |s|] == (MASK + v)[n..];
  }

  /** A secret that ends like the start of the mask is put back when its head stands before it. */
  lemma HeadLeaks(s: string, k: nat)
    requires EndsWithMaskHead(s, k) && k < |s| && FirstAt(s, |s| - k)
    ensures Contains(Replace(s[..|s| - k] + s, s), s)
  {
    var u := s[..|s| - k];
    assert s[|s| - k..] == MASK[..k] && 0 < k <= |MASK|;
    assert |u| == |s| - k && s != "";
    assert forall i :: 0 <= i < |u| ==> !OccursAt(u + s, s, i);
    hide OccursAt, Contains, Replace, EndsWithMaskHead, FirstAt;
    assert u + s + "" == u + s;
    ReplacedFirst(u, s, "");
    HeadAndMask(s, k);
    ContainsAt(u + MASK + "", s, 0);
  }

  lemma HeadAndMask(s: string, k: nat)
    requires k <= |s| && k <= |MASK| && s[|s| - k..] == MASK[..k]
    ensures OccursAt(s[..|s| - k] + MASK + "", s, 0)
  {
    var u := s[..|s| - k];
    var r := u + MASK + "";
    assert r[..|s|] == u + MASK[..k];
    assert u + s[|s| - k..] == s;
    assert r[0..|s|] == r[..|s|];
  }

  /** Where the mask first stands in a secret, the secret cannot begin earlier in its head followed by itself. */
  lemma MaskFixesThePeriod(s: string, p: nat, i: nat, q: string)
    requires OccursAt(s, MASK, p) && forall j :: 0 <= j < p ==> !OccursAt(s, MASK, j)
    requires i < p
    ensures !OccursAt(s[..p] + s + q, s, i)
  {
    var text := s[..p] + s + q;
    assert text[p..p + |s|] == s;
    OccursInSegment(text, p, p + |s|, MASK, i);
    if OccursAt(text, s, i) {
      OccursInSegment(text, i, i + |s|, MASK, p);
    }
  }

  /** A secret that contains the mask is put back when what surrounds its first mask surrounds it. */
  lemma AroundLeaks(s: string, p: nat)
    requires OccursAt(s, MASK, p) && forall j :: 0 <= j < p ==> !OccursAt(s, MASK, j)
    ensures Contains(Replace(s[..p] + s + s[p + |MASK|..], s), s)
  {
    var u, v := s[..p], s[p + |MASK|..];
    AroundIsWhole(s, p);
    forall i | 0 <= i < |u| ensures !OccursAt(u + s + v, s, i) { MaskFixesThePeriod(s, p, i, v); }
    hide OccursAt, Replace, Contains;
    ReplacedFirst(u, s, v);
    ContainsAt(s, s, 0);
  }

  lemma AroundIsWhole(s: string, p: nat)
    requires OccursAt(s, MASK, p)
    ensures s[..p] + MASK + s[p + |MASK|..] == s && OccursAt(s, s, 0) && |s[p + |MASK|..]| < |s| && s != ""
  {
    assert s[0..|s|] == s;
    assert s == s[..p] + s[p..p + |MASK|] + s[p + |MASK|..];
  }

  /** A secret that is part of the mask is put back by its own replacement. */
  lemma PartsOfTheMaskLeak(s: string)
    requires s != "" && Contains(MASK, s)
    ensures Contains(Replace(s, s), s)
  {
    ReplacedFirst("", s, "");
    assert "" + s + "" == s && "" + MASK + "" == MASK;
  }

  lemma FirstMask(s: string) returns (p: nat)
    requires Contains(s, MASK)
    ensures OccursAt(s, MASK, p) && forall j :: 0 <= j < p ==> !OccursAt(s, MASK, j)
  {
    p := FirstMatch(s, MASK);
    var i :| 0 <= i <= |s| && OccursAt(s, MASK, i);
  }

  /** Every leaking secret has a text that brings it back. */
  lemma LeakingText(s: string) returns (text: string)
    requires s != "" && Leaks(s)
    ensures Contains(Replace(text, s), s)
  {
    if Contains(MASK, s) {
      PartsOfTheMaskLeak(s);
      text := s;
    } else if Contains(s, MASK) {
      var p := FirstMask(s);
      AroundLeaks(s, p);
      text := s[..p] + s + s[p + |MASK|..];
    } else if k :| 0 < k <= |s| && BeginsWithMaskTail(s, k) {
      TailLeaks(s, k);
      text := s + s[k..];
    } else {
      var k :| 0 < k < |s| && EndsWithMaskHead(s, k) && FirstAt(s, |s| - k);
      HeadLeaks(s, k);
      text := s[..|s| - k] + s;
    }
  }

  lemma RedactOne(text: string, s: string)
    requires s != ""
    ensures Redact(text, [s]) == Replace(text, s)
  {
    assert [s][..0] == [];
  }

  /** One secret is redacted from every text exactly when it does not leak. */
  lemma OneSecretIsSafe(s: string)
    requires s != ""
    ensures (forall text :: !Contains(Redact(text, [s]), s)) <==> !Leaks(s)
  {
    if Leaks(s) {
      var text := LeakingText(s);
      RedactOne(text, s);
    } else {
      forall text ensures !Contains(Redact(text, [s]), s) {
        RedactOne(text, s);
        if Contains(Replace(text, s), s) { LeakNeedsOverlap(text, s); }
      }
    }
  }

  // ---- Exactly which secrets are safe beside others ----

  /** A text of one character that `u` does not end with. */
  function Filler(u: string, n: nat): (y: string)
    requires u != ""
    ensures |y| == n && forall i :: 0 <= i < n ==> y[i] != u[|u| - 1] && y[i] != '['
  {
    var c := if u[|u| - 1] == 'a' then 'b' else 'a';
    seq(n, i => c)
  }

  lemma NoMatchIsKept(text: string, s: string)
    requires s != "" && forall i :: 0 <= i <= |text| ==> !OccursAt(text, s, i)
    ensures Replace(text, s) == text
  {
    ReplaceCuts(text, s);
    assert FirstMatch(text, s) == |text|;
  }

  lemma MissesAt(text: string, t: string, i: nat, j: nat)
    requires i <= j < i + |t| <= |text| && text[j] != t[j - i]
    ensures !OccursAt(text, t, i)
  {
    assert text[i..i + |t|][j - i] == text[j];
  }

  /** The head of a secret that ends like the start of the mask holds no whole one before the filler. */
  lemma HeadAloneIsKept(s: string, k: nat, y: string)
    requires 0 < k < |s| && EndsWithMaskHead(s, k) && forall i :: 0 <= i < |y| ==> y[i] != '['
    ensures Replace(s[..|s| - k] + y, s) == s[..|s| - k] + y
  {
    var n := |s| - k;
    var u := s[..n];
    var text := u + y;
    assert s[n] == s[n..][0] == MASK[..k][0] == '[';
    hide EndsWithMaskHead;
    forall i | 0 <= i <= |text| ensures !OccursAt(text, s, i) { NoHeadAt(u, y, s, i); }
    hide OccursAt, Replace;
    NoMatchIsKept(text, s);
  }

  lemma NoHeadAt(u: string, y: string, s: string, i: nat)
    requires |u| < |s| && s[|u|] == '[' && forall j :: 0 <= j < |y| ==> y[j] != '['
    ensures !OccursAt(u + y, s, i)
  {
    if i + |s| <= |u + y| {
      assert (u + y)[|u| + i] == y[i];
      MissesAt(u + y, s, i, i + |u|);
    }
  }

  /** The filler first stands where it was put. */
  lemma FillerIsFirst(u: string, n: nat)
    requires u != "" && |u| < n
    ensures Replace(u + Filler(u, n), Filler(u, n)) == u + MASK + ""
  {
    var y := Filler(u, n);
    hide Filler, Replace;
    forall i | 0 <= i < |u| ensures !OccursAt(u + y, y, i) { NoFillerAt(u, y, i); }
    hide OccursAt;
    assert u + y == u + y + "";
    ReplacedFirst(u, y, "");
  }

  lemma NoFillerAt(u: string, y: string, i: nat)
    requires i < |u| < |y| && forall j :: 0 <= j < |y| ==> y[j] != u[|u| - 1]
    ensures !OccursAt(u + y, y, i)
  {
    assert (u + y)[|u| - 1] == u[|u| - 1];
    MissesAt(u + y, y, i, |u| - 1);
  }

  lemma RedactTwo(text: string, s: string, y: string)
    requires s != "" && y != ""
    ensures NonEmpty([s, y]) && Redact(text, [s, y]) == Replace(Replace(text, s), y)
  {
    assert [s, y][..1] == [s];
    RedactOne(text, s);
  }

  /** Beside a secret that is replaced after it, such a secret comes back. */
  lemma HeadLeaksBeside(s: string, k: nat) returns (text: string, y: string)
    requires 0 < k < |s| && EndsWithMaskHead(s, k)
    ensures y != "" && Contains(Redact(text, [s, y]), s)
  {
    var u := s[..|s| - k];
    assert s[|s| - k..] == MASK[..k] && k <= |MASK|;
    y := Filler(u, |s|);
    text := u + y;
    hide Filler, EndsWithMaskHead, Contains, OccursAt, Replace;
    HeadAloneIsKept(s, k, y);
    FillerIsFirst(u, |s|);
    RedactTwo(text, s, y);
    HeadAndMask(s, k);
    ContainsAt(u + MASK + "", s, 0);
  }

  /** A text and secrets among which this one comes back. */
  ghost predicate LeaksFrom(text: string, secrets: seq<string>, s: string) {
    NonEmpty(secrets) && s in secrets && Contains(Redact(text, secrets), s)
  }

  lemma OverlapLeaks(s: string) returns (text: string, secrets: seq<string>)
    requires s != "" && !Apart(s)
    ensures LeaksFrom(text, secrets, s)
  {
    if Leaks(s) {
      secrets := [s];
      text := LeakingText(s);
      RedactOne(text, s);
    } else {
      var k :| 0 < k <= |s| && EndsWithMaskHead(s, k);
      HeadOfMaskIsShorter(s, k);
      var y: string;
      text, y := HeadLeaksBeside(s, k);
      secrets := [s, y];
    }
  }

  lemma HeadOfMaskIsShorter(s: string, k: nat)
    requires EndsWithMaskHead(s, k) && !Contains(MASK, s)
    ensures k < |s|
  {
    if k == |s| {
      assert MASK[0..|s|] == s;
      ContainsAt(MASK, s, 0);
    }
  }

  /** A secret is redacted from every text beside any others exactly when it cannot overlap the mask. */
  lemma SafeBesideOthers(s: string)
    requires s != ""
    ensures (forall text, secrets :: !LeaksFrom(text, secrets, s)) <==> Apart(s)
  {
    if Apart(s) {
      forall text, secrets ensures !LeaksFrom(text, secrets, s) {
        if NonEmpty(secrets) && s in secrets { RedactionIsComplete(text, secrets, s); }
      }
    } else {
      var text, secrets := OverlapLeaks(s);
    }
  }

  // ---- The limit ----

  datatype Limited = Limited(stdout: string, stderr: string, truncated: bool)

  /** `_redact_and_limit`. */
  function RedactAndLimit(stdout: seq<Byte>, stderr: seq<Byte>, secrets: seq<string>, maxBytes: int): Limited
    requires NonEmpty(secrets)
  {
    var out := Redact(Decode(stdout, "\U{FFFD}"), secrets);
    var err := Redact(Decode(stderr, "\U{FFFD}"), secrets);
    if |Encode(out + err)| <= maxBytes then Limited(out, err, false)
    else
      var kept := LimitText(out, maxBytes);
      Limited(kept, LimitText(err, maxBytes - |Encode(kept)|), true)
  }

  /** In all at most the limit is kept, everything when it fits, and otherwise the longest start of each in turn. */
  lemma LimitHolds(stdout: seq<Byte>, stderr: seq<Byte>, secrets: seq<string>, maxBytes: int)
    requires NonEmpty(secrets) && maxBytes >= 1
    ensures var r := RedactAndLimit(stdout, stderr, secrets, maxBytes);
      var out, err := Redact(Decode(stdout, "\U{FFFD}"), secrets), Redact(Decode(stderr, "\U{FFFD}"), secrets);
      && |Encode(r.stdout)| + |Encode(r.stderr)| <= maxBytes
      && r.stdout <= out && r.stderr <= err
      && (r.truncated <==> |Encode(out)| + |Encode(err)| > maxBytes)
      && (r.truncated <==> r.stdout != out || r.stderr != err)
      && (forall n :: |r.stdout| < n <= |out| ==> |Encode(out[..n])| > maxBytes)
      && (forall n :: |r.stderr| < n <= |err| ==> |Encode(r.stdout)| + |Encode(err[..n])| > maxBytes)
  {
    hide Redact, Encode, Decode, LimitText, NonEmpty;
    var out, err := Redact(Decode(stdout, "\U{FFFD}"), secrets), Redact(Decode(stderr, "\U{FFFD}"), secrets);
    EncodeConcat(out, err);
    var kept := LimitText(out, maxBytes);
    LimitTextIsLongest(out, maxBytes);
    LimitTextIsLongest(err, maxBytes - |Encode(kept)|);
  }

  // ---- What the Verifier reads ----

  /** Universal newlines: a carriage return, alone or before a line feed, reads as a line feed. */
  function Translate(s: string): string {
    if s == "" then ""
    else if s[0] == '\r' then "\n" + Translate(if |s| > 1 && s[1] == '\n' then s[2..] else s[1..])
    else [s[0]] + Translate(s[1..])
  }

  /** Writing a text as UTF-8 and reading it back. */
  function ReadBack(s: string): string {
    Translate(Decode(Encode(s), "\U{FFFD}"))
  }

  predicate OneLine(s: string) { Lacks(s, '\r') && Lacks(s, '\n') }

  lemma {:induction false} TranslatedPrefix(s: string, n: nat)
    requires n <= |Translate(s)| && OneLine(Translate(s)[..n])
    ensures n <= |s| && s[..n] == Translate(s)[..n]
    decreases |s|
  {
    if n > 0 {
      var t := Translate(s);
      assert t[..n][0] == t[0];
      var rest := Translate(s[1..]);
      assert t == [s[0]] + rest;
      assert rest[..n - 1] == t[..n][1..];
      TranslatedPrefix(s[1..], n - 1);
      assert s[..n] == [s[0]] + s[1..][..n - 1];
      assert t[..n] == [s[0]] + rest[..n - 1];
    }
  }

  /** A text without line breaks that is read was written. */
  lemma {:induction false} TranslatedPiece(s: string, t: string, i: nat) returns (j: nat)
    requires OneLine(t) && OccursAt(Translate(s), t, i)
    ensures OccursAt(s, t, j)
    decreases |s|
  {
    if i == 0 || t == "" {
      j := 0;
      if t != "" { TranslatedPrefix(s, |t|); } else { assert s[0..0] == ""; }
    } else {
      var from := if s[0] == '\r' && |s| > 1 && s[1] == '\n' then 2 else 1;
      var rest := Translate(s[from..]);
      assert Translate(s) == [Translate(s)[0]] + rest;
      assert rest[i - 1..i - 1 + |t|] == Translate(s)[i..i + |t|];
      var k := TranslatedPiece(s[from..], t, i - 1);
      j := from + k;
      OccursInSuffix(s, from, t, k);
    }
  }

  lemma ReadBackContainsNoMore(text: string, s: string)
    requires OneLine(s) && !Contains(text, s)
    ensures !Contains(ReadBack(text), s)
  {
    DecodeInvertsEncode(text, "\U{FFFD}");
    if Contains(ReadBack(text), s) {
      var i :| 0 <= i <= |Translate(text)| && OccursAt(Translate(text), s, i);
      var j := TranslatedPiece(text, s, i);
    }
  }

  /** Reading never gives a carriage return. */
  lemma {:induction false} TranslateDropsReturns(s: string)
    ensures Lacks(Translate(s), '\r')
    decreases |s|
  {
    if s != "" {
      TranslateDropsReturns(if s[0] == '\r' && |s| > 1 && s[1] == '\n' then s[2..] else s[1..]);
    }
  }

  /** No text of this program's artifacts holds the secret once it is read: it is apart from the mask and on one line,
      or it has a carriage return, which reading never gives. */
  predicate NeverRead(s: string) {
    !Lacks(s, '\r') || (Apart(s) && Lacks(s, '\n'))
  }

  lemma ReturnIsNeverRead(text: string, s: string)
    requires !Lacks(s, '\r')
    ensures !Contains(ReadBack(text), s)
  {
    DecodeInvertsEncode(text, "\U{FFFD}");
    TranslateDropsReturns(text);
    LackingTextLacks(Translate(text), s, '\r');
  }

  /** A text without some character contains nothing that has it. */
  lemma LackingTextLacks(text: string, s: string, c: char)
    requires Lacks(text, c) && !Lacks(s, c)
    ensures !Contains(text, s)
  {
    var k :| 0 <= k < |s| && s[k] == c;
    forall i | 0 <= i <= |text| ensures !OccursAt(text, s, i) {
      if i + |s| <= |text| { assert text[i..i + |s|][k] == text[i + k]; }
    }
  }

  /** Whatever a command printed and whatever the other secrets are, such a secret is not in the artifacts. */
  lemma ArtifactsHoldNoSecret(stdout: seq<Byte>, stderr: seq<Byte>, secrets: seq<string>, maxBytes: int, s: string)
    requires NonEmpty(secrets) && s in secrets && NeverRead(s) && maxBytes >= 1
    ensures var r := RedactAndLimit(stdout, stderr, secrets, maxBytes);
      !Contains(ReadBack(r.stdout), s) && !Contains(ReadBack(r.stderr), s)
  {
    var out, err := Redact(Decode(stdout, "\U{FFFD}"), secrets), Redact(Decode(stderr, "\U{FFFD}"), secrets);
    var r := RedactAndLimit(stdout, stderr, secrets, maxBytes);
    LimitHolds(stdout, stderr, secrets, maxBytes);
    hide Redact, RedactAndLimit, ReadBack, Apart, Contains, LimitText, Encode, Decode;
    if !Lacks(s, '\r') {
      ReturnIsNeverRead(r.stdout, s);
      ReturnIsNeverRead(r.stderr, s);
    } else {
      RedactionIsComplete(Decode(stdout, "\U{FFFD}"), secrets, s);
      RedactionIsComplete(Decode(stderr, "\U{FFFD}"), secrets, s);
      PrefixContainsNoMore(out, |r.stdout|, s);
      PrefixContainsNoMore(err, |r.stderr|, s);
      assert r.stdout == out[..|r.stdout|] && r.stderr == err[..|r.stderr|];
      ReadBackContainsNoMore(r.stdout, s);
      ReadBackContainsNoMore(r.stderr, s);
    }
  }

  // ---- Exactly which secret can be read back ----

  lemma {:induction false} TranslateKeeps(a: string, b: string)
    requires Lacks(a, '\r')
    ensures Translate(a + b) == a + Translate(b)
    decreases |a|
  {
    if a == "" {
      assert a + b == b && a + Translate(b) == Translate(b);
    } else {
      assert a + b == [a[0]] + (a[1..] + b) && (a + b)[1..] == a[1..] + b;
      TranslateKeeps(a[1..], b);
      assert [a[0]] + (a[1..] + Translate(b)) == a + Translate(b);
    }
  }

  lemma ReadAtStart(x: string, t: string)
    requires OneLine(t) && OccursAt(x, t, 0)
    ensures Contains(Translate(x), t)
  {
    assert x == t + x[|t|..];
    TranslateKeeps(t, x[|t|..]);
    hide Translate, Contains;
    assert Translate(x)[0..|t|] == t;
    ContainsAt(Translate(x), t, 0);
  }

  /** How many characters the first character read stands for. */
  function FirstRead(x: string): (n: nat)
    requires x != ""
    ensures 1 <= n <= |x|
  {
    if x[0] == '\r' && |x| > 1 && x[1] == '\n' then 2 else 1
  }

  lemma ReadsOn(x: string, t: string)
    requires x != "" && Contains(Translate(x[FirstRead(x)..]), t)
    ensures Contains(Translate(x), t)
  {
    var rest := Translate(x[FirstRead(x)..]);
    assert Translate(x) == [Translate(x)[0]] + rest;
    hide Translate;
    var j :| 0 <= j <= |rest| && OccursAt(rest, t, j);
    OccursInSuffix(Translate(x), 1, t, j);
    ContainsAt(Translate(x), t, j + 1);
  }

  /** A text on one line that was written is read. */
  lemma {:induction false} WrittenIsRead(x: string, t: string, i: nat)
    requires t != "" && OneLine(t) && OccursAt(x, t, i)
    ensures Contains(Translate(x), t)
    decreases |x|
  {
    if i == 0 {
      ReadAtStart(x, t);
    } else {
      CharOf(x, t, i, i);
      var n := FirstRead(x);
      assert n <= i;
      hide Translate, Contains, OccursAt, FirstRead;
      OccursInSuffix(x, n, t, i - n);
      WrittenIsRead(x[n..], t, i - n);
      ReadsOn(x, t);
    }
  }

  /** A line break of a secret is hidden from redaction when it was printed as a carriage return. */
  lemma BreakEscapes(s: string) returns (text: string)
    requires Lacks(s, '\r') && !Lacks(s, '\n')
    ensures Replace(text, s) == text && Contains(Translate(text), s)
  {
    var n := LastBreak(s);
    var a, b := s[..n], s[n + 1..];
    text := a + "\r" + b;
    assert s == a + "\n" + b;
    OtherOfSameLength(text, s, n);
    BreakReadsBack(a, b);
    assert s[0..|s|] == s;
    ContainsAt(s, s, 0);
  }

  lemma OtherOfSameLength(text: string, s: string, n: nat)
    requires |text| == |s| && n < |s| && text[n] != s[n]
    ensures Replace(text, s) == text
  {
    ReplaceCuts(text, s);
    assert text[0..|s|] == text && !OccursAt(text, s, 0);
    assert FirstMatch(text, s) == |text|;
  }

  lemma BreakReadsBack(a: string, b: string)
    requires Lacks(a, '\r') && Lacks(b, '\r') && Lacks(b, '\n')
    ensures Translate(a + "\r" + b) == a + "\n" + b
  {
    assert a + "\r" + b == a + ("\r" + b) && a + "\n" + b == a + ("\n" + b);
    TranslateKeeps(a, "\r" + b);
    TranslateKeeps(b, "");
    assert b + "" == b && ("\r" + b)[1..] == b && (b != "" ==> ("\r" + b)[1] == b[0]);
  }

  lemma {:induction false} LastBreak(s: string) returns (n: nat)
    requires !Lacks(s, '\n')
    ensures n < |s| && s[n] == '\n' && Lacks(s[n + 1..], '\n')
    decreases |s|
  {
    n := |s| - 1;
    if s[n] != '\n' {
      n := LastBreak(s[..n]);
      assert s[n + 1..] == s[..|s| - 1][n + 1..] + [s[|s| - 1]];
    }
  }

  /** With a limit that holds it, what is printed is kept as it is redacted. */
  lemma Unlimited(text: string, secrets: seq<string>) returns (maxBytes: int)
    requires NonEmpty(secrets)
    ensures maxBytes >= 1 && RedactAndLimit(Encode(text), [], secrets, maxBytes).stdout == Redact(text, secrets)
  {
    maxBytes := |Encode(Redact(text, secrets) + Redact(Decode([], "\U{FFFD}"), secrets))| + 1;
    DecodeInvertsEncode(text, "\U{FFFD}");
  }

  predicate ReadFrom(printed: seq<Byte>, secrets: seq<string>, maxBytes: int, s: string) {
    && NonEmpty(secrets) && s in secrets && maxBytes >= 1
    && Contains(ReadBack(RedactAndLimit(printed, [], secrets, maxBytes).stdout), s)
  }

  /** Some output lets the Verifier read the secret back when it is the only one. */
  ghost predicate CanBeRead(s: string) {
    exists printed, maxBytes :: ReadFrom(printed, [s], maxBytes, s)
  }

  /** Some output lets the Verifier read the secret back beside some others. */
  ghost predicate CanBeReadBeside(s: string) {
    exists printed, secrets, maxBytes :: ReadFrom(printed, secrets, maxBytes, s)
  }

  /** What the redacted text holds on one line can be read. */
  lemma HeldIsRead(text: string, secrets: seq<string>, s: string) returns (maxBytes: int)
    requires s != "" && OneLine(s) && LeaksFrom(text, secrets, s)
    ensures ReadFrom(Encode(text), secrets, maxBytes, s)
  {
    var out := Redact(text, secrets);
    var i :| 0 <= i <= |out| && OccursAt(out, s, i);
    WrittenIsRead(out, s, i);
    maxBytes := Unlimited(text, secrets);
    DecodeInvertsEncode(out, "\U{FFFD}");
    hide RedactAndLimit, Redact, Contains, Encode, Decode, OccursAt;
  }

  /** A line break of the secret can be hidden from redaction. */
  lemma BreakIsRead(s: string) returns (text: string, maxBytes: int)
    requires s != "" && Lacks(s, '\r') && !Lacks(s, '\n')
    ensures ReadFrom(Encode(text), [s], maxBytes, s)
  {
    text := BreakEscapes(s);
    RedactOne(text, s);
    maxBytes := Unlimited(text, [s]);
    DecodeInvertsEncode(text, "\U{FFFD}");
    hide RedactAndLimit, Redact, Contains, Encode, Decode;
  }

  /** One secret can be read back exactly when it has no carriage return, and either leaks or spans lines. */
  lemma OneSecretCanBeRead(s: string)
    requires s != ""
    ensures CanBeRead(s) <==> Lacks(s, '\r') && (Leaks(s) || !Lacks(s, '\n'))
  {
    if CanBeRead(s) { ReadSecretLeaks(s); }
    if Lacks(s, '\r') && !Lacks(s, '\n') {
      var text, maxBytes := BreakIsRead(s);
    } else if Lacks(s, '\r') && Leaks(s) {
      var text := LeakingText(s);
      RedactOne(text, s);
      var maxBytes := HeldIsRead(text, [s], s);
    }
  }

  lemma ReadSecretLeaks(s: string)
    requires s != "" && CanBeRead(s)
    ensures Lacks(s, '\r') && (Leaks(s) || !Lacks(s, '\n'))
  {
    var printed, maxBytes :| ReadFrom(printed, [s], maxBytes, s);
    var text := Decode(printed, "\U{FFFD}");
    var kept := RedactAndLimit(printed, [], [s], maxBytes).stdout;
    LimitHolds(printed, [], [s], maxBytes);
    RedactOne(text, s);
    assert kept <= Replace(text, s);
    hide Leaks, RedactAndLimit, Redact, Replace, ReadBack, Contains, Encode, Decode;
    if !Lacks(s, '\r') {
      ReturnIsNeverRead(kept, s);
    } else if Lacks(s, '\n') {
      if !Contains(Replace(text, s), s) {
        PrefixContainsNoMore(Replace(text, s), |kept|, s);
        assert kept == Replace(text, s)[..|kept|];
        ReadBackContainsNoMore(kept, s);
      }
      LeakNeedsOverlap(text, s);
    }
  }

  /** Beside any others a secret can be read back exactly when it has no carriage return, and overlaps the mask or
      spans lines. */
  lemma ReadBesideOthers(s: string)
    requires s != ""
    ensures CanBeReadBeside(s) <==> !NeverRead(s)
  {
    if NeverRead(s) {
      forall printed, secrets, maxBytes ensures !ReadFrom(printed, secrets, maxBytes, s) {
        if NonEmpty(secrets) && s in secrets && maxBytes >= 1 {
          ArtifactsHoldNoSecret(printed, [], secrets, maxBytes, s);
        }
      }
    } else if Lacks(s, '\n') {
      var text, secrets := OverlapLeaks(s);
      var maxBytes := HeldIsRead(text, secrets, s);
    } else {
      var text, maxBytes := BreakIsRead(s);
    }
  }
}
