/** Occurrences of one text in another. */
module Texts {

  predicate OccursAt(text: string, s: string, i: nat) {
    i + |s| <= |text| && text[i..i + |s|] == s
  }

  /** `s in text`. */
  predicate Contains(text: string, s: string) {
    exists i :: 0 <= i <= |text| && OccursAt(text, s, i)
  }

  predicate Lacks(s: string, c: char) {
    forall k :: 0 <= k < |s| ==> s[k] != c
  }

  lemma CharOf(text: string, s: string, i: nat, j: nat)
    requires OccursAt(text, s, i) && i <= j < i + |s|
    ensures text[j] == s[j - i]
  {
    assert text[i..i + |s|][j - i] == text[j];
  }

  lemma SliceOfSlice(text: string, from: nat, to: nat, a: nat, b: nat)
    requires from <= to <= |text| && a <= b && from + b <= to
    ensures text[from..to][a..b] == text[from + a..from + b]
  {
    var left, right := text[from..to][a..b], text[from + a..from + b];
    forall k | 0 <= k < |left| ensures left[k] == right[k] {
      assert left[k] == text[from..to][a + k];
    }
    assert left == right;
  }

  lemma LacksBetween(text: string, from: nat, to: nat, c: char)
    requires from <= to <= |text| && Lacks(text[from..to], c)
    ensures forall k :: from <= k < to ==> text[k] != c
  {
    forall k | from <= k < to ensures text[k] != c {
      assert text[from..to][k - from] == text[k];
    }
  }

  /** An occurrence inside a segment is an occurrence in the text. */
  lemma OccursInSegment(text: string, from: nat, to: nat, s: string, k: nat)
    requires from <= to <= |text| && from + k + |s| <= to
    ensures OccursAt(text[from..to], s, k) <==> OccursAt(text, s, from + k)
  {
    SliceOfSlice(text, from, to, k, k + |s|);
  }
}
