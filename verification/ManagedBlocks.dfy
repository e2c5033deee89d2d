/** One managed block inside user text: markers, parsing and rendering. */
module ManagedBlocks {
  import opened Prelude
  import opened Texts

  const MARKER := "<!-- adaptive-harness:"
  const START_HEAD := MARKER + "start version=\""
  const HASH_HEAD := "\" hash=\""
  const START_TAIL := "\" -->"
  const END_MARK := MARKER + "end -->"

  datatype Kind = Start | End

  datatype Match = Match(start: nat, end: nat)

  /** `^` in multi-line mode. */
  predicate LineStart(text: string, i: nat) {
    i == 0 || (i <= |text| && text[i - 1] == '\n')
  }

  /** `$` in multi-line mode. */
  predicate LineEnd(text: string, i: nat) {
    i == |text| || (i < |text| && text[i] == '\n')
  }

  predicate IsHex(c: char) { '0' <= c <= '9' || 'a' <= c <= 'f' }

  predicate HexDigits(s: string) { |s| == 64 && forall k :: 0 <= k < |s| ==> IsHex(s[k]) }

  /** The length of the longest `[^"]*` at a position. */
  function Run(text: string, i: nat): (n: nat)
    requires i <= |text|
    ensures i + n <= |text| && Lacks(text[i..i + n], '"')
    ensures i + n < |text| ==> text[i + n] == '"'
    decreases |text| - i
  {
    if i == |text| || text[i] == '"' then 0
    else
      var n := Run(text, i + 1);
      assert text[i..i + 1 + n] == [text[i]] + text[i + 1..i + 1 + n];
      1 + n
  }

  /** Where the version of a start marker at `i` ends. */
  function VersionEnd(text: string, i: nat): (q: nat)
    requires i + |START_HEAD| <= |text|
    ensures i + |START_HEAD| <= q <= |text|
  {
    i + |START_HEAD| + Run(text, i + |START_HEAD|)
  }

  function EndOfStart(q: nat): nat { q + |HASH_HEAD| + 64 + |START_TAIL| }

  /** The rest of a start marker, from the quote that closes its version. */
  predicate StartRest(text: string, q: nat) {
    && OccursAt(text, HASH_HEAD, q)
    && EndOfStart(q) <= |text|
    && HexDigits(text[q + |HASH_HEAD|..q + |HASH_HEAD| + 64])
    && OccursAt(text, START_TAIL, q + |HASH_HEAD| + 64)
    && LineEnd(text, EndOfStart(q))
  }

  predicate StartsAt(text: string, i: nat) {
    && OccursAt(text, START_HEAD, i)
    && VersionEnd(text, i) > i + |START_HEAD|
    && StartRest(text, VersionEnd(text, i))
  }

  /** `_START.match` or `_END.match` at a position. */
  function MatchAt(kind: Kind, text: string, i: nat): (end: Option<nat>)
    ensures end.Some? ==> i < end.value <= |text|
  {
    if !LineStart(text, i) then None
    else match kind
      case Start =>
        if StartsAt(text, i) then Some(EndOfStart(VersionEnd(text, i))) else None
      case End =>
        if OccursAt(text, END_MARK, i) && LineEnd(text, i + |END_MARK|) then Some(i + |END_MARK|) else None
  }

  /** `finditer` from a position on: the next match begins where the last one ended. */
  function Scan(at: nat -> Option<nat>, n: nat, from: nat): seq<Match>
    requires from <= n
    decreases n - from
  {
    if at(from).Some? && from < at(from).value <= n then [Match(from, at(from).value)] + Scan(at, n, at(from).value)
    else if from < n then Scan(at, n, from + 1)
    else []
  }

  function Matcher(kind: Kind, text: string): nat -> Option<nat> {
    (i: nat) => MatchAt(kind, text, i)
  }

  function FindIter(kind: Kind, text: string): seq<Match> {
    Scan(Matcher(kind, text), |text|, 0)
  }

  // ---- Matching ----

  lemma MarkersAreOneLine()
    ensures Lacks(START_HEAD, '\n') && Lacks(HASH_HEAD, '\n') && Lacks(START_TAIL, '\n')
      && Lacks(END_MARK, '\n') && Lacks(MARKER, '\n')
    ensures Lacks(MARKER, '"') && Lacks(END_MARK, '"') && START_HEAD[|START_HEAD| - 1] == '"'
      && Lacks(START_HEAD[..|START_HEAD| - 1], '"')
    ensures START_HEAD[|MARKER|] != END_MARK[|MARKER|]
    ensures START_HEAD[0] == END_MARK[0] == MARKER[0] == '<'
  {
  }

  lemma {:induction false} RunIsUnique(text: string, i: nat, n: nat)
    requires i + n < |text| && text[i + n] == '"' && Lacks(text[i..i + n], '"')
    ensures Run(text, i) == n
    decreases n
  {
    if n > 0 {
      assert text[i..i + n][0] == text[i];
      assert text[i + 1..i + n] == text[i..i + n][1..];
      RunIsUnique(text, i + 1, n - 1);
    }
  }

  lemma StartRestIsLocal(text: string, q: nat, other: string, r: nat)
    requires StartRest(text, q) && EndOfStart(r) <= |other|
    requires other[r..EndOfStart(r)] == text[q..EndOfStart(q)]
    requires LineEnd(other, EndOfStart(r))
    ensures StartRest(other, r)
  {
    var n := EndOfStart(0);
    OccursInSegment(text, q, q + n, HASH_HEAD, 0);
    OccursInSegment(other, r, r + n, HASH_HEAD, 0);
    OccursInSegment(text, q, q + n, START_TAIL, |HASH_HEAD| + 64);
    OccursInSegment(other, r, r + n, START_TAIL, |HASH_HEAD| + 64);
    var d := |HASH_HEAD|;
    SliceOfSlice(other, r, r + n, d, d + 64);
    SliceOfSlice(text, q, q + n, d, d + 64);
  }

  lemma VersionEndIsLocal(text: string, i: nat, other: string, j: nat, n: nat)
    requires i + n <= |text| && j + n <= |other| && |START_HEAD| <= n
    requires text[i..i + n] == other[j..j + n]
    requires VersionEnd(text, i) < i + n
    ensures VersionEnd(other, j) - j == VersionEnd(text, i) - i
  {
    var h, q := |START_HEAD|, VersionEnd(text, i) - i;
    SliceOfSlice(other, j, j + n, h, q);
    SliceOfSlice(text, i, i + n, h, q);
    assert other[j + q] == other[j..j + n][q] == text[i..i + n][q] == text[i + q];
    RunIsUnique(other, j + h, q - h);
  }

  lemma OccurrenceIsLocal(text: string, i: nat, other: string, j: nat, n: nat, s: string, k: nat)
    requires i + n <= |text| && j + n <= |other| && other[j..j + n] == text[i..i + n] && k + |s| <= n
    requires OccursAt(text, s, i + k)
    ensures OccursAt(other, s, j + k)
  {
    hide OccursAt;
    OccursInSegment(text, i, i + n, s, k);
    OccursInSegment(other, j, j + n, s, k);
  }

  lemma TailIsLocal(text: string, i: nat, other: string, j: nat, n: nat, k: nat)
    requires i + n <= |text| && j + n <= |other| && other[j..j + n] == text[i..i + n] && k <= n
    ensures other[j + k..j + n] == text[i + k..i + n]
  {
    SliceOfSlice(other, j, j + n, k, n);
    SliceOfSlice(text, i, i + n, k, n);
  }

  lemma StartsAtIsLocal(text: string, i: nat, other: string, j: nat, n: nat)
    requires StartsAt(text, i) && EndOfStart(VersionEnd(text, i)) == i + n
    requires i + n <= |text| && j + n <= |other| && other[j..j + n] == text[i..i + n] && LineEnd(other, j + n)
    ensures StartsAt(other, j) && EndOfStart(VersionEnd(other, j)) == j + n
  {
    var q := VersionEnd(text, i);
    assert q + EndOfStart(0) == i + n && |START_HEAD| <= q - i;
    hide OccursAt, VersionEnd, Run, StartRest, LineEnd, HexDigits, Lacks;
    OccurrenceIsLocal(text, i, other, j, n, START_HEAD, 0);
    VersionEndIsLocal(text, i, other, j, n);
    TailIsLocal(text, i, other, j, n, q - i);
    StartRestIsLocal(text, q, other, VersionEnd(other, j));
  }

  lemma StartIsLocal(text: string, i: nat, other: string, j: nat, n: nat)
    requires MatchAt(Start, text, i) == Some(i + n)
    requires j + n <= |other| && other[j..j + n] == text[i..i + n]
    requires LineStart(other, j) && LineEnd(other, j + n)
    ensures MatchAt(Start, other, j) == Some(j + n)
  {
    hide StartsAt, VersionEnd, LineStart, LineEnd;
    StartsAtIsLocal(text, i, other, j, n);
  }

  /** A match only depends on its own characters and on its being a whole number of lines. */
  lemma MatchIsLocal(kind: Kind, text: string, i: nat, other: string, j: nat, n: nat)
    requires MatchAt(kind, text, i) == Some(i + n)
    requires j + n <= |other| && other[j..j + n] == text[i..i + n]
    requires LineStart(other, j) && LineEnd(other, j + n)
    ensures MatchAt(kind, other, j) == Some(j + n)
  {
    match kind
    case End =>
      OccursInSegment(text, i, i + n, END_MARK, 0);
      OccursInSegment(other, j, j + n, END_MARK, 0);
    case Start =>
      StartIsLocal(text, i, other, j, n);
  }

  // ---- Scanning finds every match ----

  lemma StartOf(text: string, i: nat)
    requires MatchAt(Start, text, i).Some?
    ensures var q := VersionEnd(text, i);
      && StartsAt(text, i) && MatchAt(Start, text, i) == Some(EndOfStart(q))
      && q < |text| && text[q] == '"' && Lacks(text[i + |START_HEAD|..q], '"')
  {
    CharOf(text, HASH_HEAD, VersionEnd(text, i), VersionEnd(text, i));
  }

  /** Only the version of a start marker can hold a line break. */
  lemma BreaksAreInTheVersion(text: string, i: nat, k: nat)
    requires MatchAt(Start, text, i).Some?
    requires i <= k < MatchAt(Start, text, i).value && text[k] == '\n'
    ensures i + |START_HEAD| <= k < VersionEnd(text, i)
  {
    StartOf(text, i);
    MarkersAreOneLine();
    var q := VersionEnd(text, i);
    var d := q + |HASH_HEAD|;
    HexBetween(text, d);
    if k < i + |START_HEAD| {
      CharOf(text, START_HEAD, i, k);
    } else if q <= k < d {
      CharOf(text, HASH_HEAD, q, k);
    }
    if k >= d + 64 {
      CharOf(text, START_TAIL, d + 64, k);
    }
  }

  /** A start marker on a later line of another's version shares its closing quote with it. */
  lemma OverlapSharesAQuote(text: string, i: nat, j: nat)
    requires MatchAt(Start, text, i).Some? && i < j < MatchAt(Start, text, i).value
    requires MatchAt(Start, text, j).Some?
    ensures VersionEnd(text, i) == j + |START_HEAD| - 1
    ensures VersionEnd(text, j) == VersionEnd(text, i) + 7
  {
    var h, q := |START_HEAD|, VersionEnd(text, i);
    LaterMatchIsOnLine(text, i, j);
    StartOf(text, i);
    StartPieces(text, i);
    StartPieces(text, j);
    hide MatchAt, StartsAt, VersionEnd, Run, StartRest, OccursAt, Lacks, EndOfStart;
    BreaksAreInTheVersion(text, i, j - 1);
    LacksSuffix(text, i + h, j, q);
    QuoteOfHead(text, j, q);
    QuoteOfHashHead(text, q);
    VersionEndsAtQuote(text, j, 6);
  }

  lemma StartPieces(text: string, i: nat)
    requires MatchAt(Start, text, i).Some?
    ensures i + |START_HEAD| <= |text|
    ensures OccursAt(text, START_HEAD, i) && OccursAt(text, HASH_HEAD, VersionEnd(text, i))
  {
    hide VersionEnd, OccursAt;
  }

  lemma VersionEndsAtQuote(text: string, j: nat, n: nat)
    requires j + |START_HEAD| + n < |text| && text[j + |START_HEAD| + n] == '"'
    requires Lacks(text[j + |START_HEAD|..j + |START_HEAD| + n], '"')
    ensures VersionEnd(text, j) == j + |START_HEAD| + n
  {
    RunIsUnique(text, j + |START_HEAD|, n);
  }

  lemma LaterMatchIsOnLine(text: string, i: nat, j: nat)
    requires i < j <= |text| && MatchAt(Start, text, j).Some?
    ensures text[j - 1] == '\n'
  {
  }

  lemma LacksSuffix(text: string, from: nat, mid: nat, to: nat)
    requires from <= mid <= to <= |text| && Lacks(text[from..to], '"')
    ensures Lacks(text[mid..to], '"')
  {
    assert text[mid..to] == text[from..to][mid - from..];
  }

  /** So it would need a digest that starts with a space. */
  lemma StartsDoNotOverlap(text: string, i: nat, j: nat)
    requires MatchAt(Start, text, i).Some? && i < j < MatchAt(Start, text, i).value
    ensures MatchAt(Start, text, j).None?
  {
    if MatchAt(Start, text, j).Some? {
      OverlapSharesAQuote(text, i, j);
      StartOf(text, i);
      StartOf(text, j);
      var q, r := VersionEnd(text, i), VersionEnd(text, j);
      CharOf(text, HASH_HEAD, r, r + 1);
      HexBetween(text, q + 8);
    }
  }

  lemma HexBetween(text: string, d: nat)
    requires d + 64 <= |text| && HexDigits(text[d..d + 64])
    ensures forall l :: d <= l < d + 64 ==> IsHex(text[l])
  {
    forall l | d <= l < d + 64 ensures IsHex(text[l]) {
      assert text[d..d + 64][l - d] == text[l];
    }
  }

  lemma QuoteOfHead(text: string, j: nat, q: nat)
    requires OccursAt(text, START_HEAD, j) && j <= q < |text| && text[q] == '"' && Lacks(text[j..q], '"')
    ensures q == j + |START_HEAD| - 1
  {
    MarkersAreOneLine();
    var last := j + |START_HEAD| - 1;
    CharOf(text, START_HEAD, j, last);
    LacksBetween(START_HEAD, 0, |START_HEAD| - 1, '"');
    LacksBetween(text, j, q, '"');
    if q < last {
      CharOf(text, START_HEAD, j, q);
    }
  }

  lemma QuoteOfHashHead(text: string, q: nat)
    requires OccursAt(text, HASH_HEAD, q)
    ensures q + 8 <= |text| && text[q + 7] == '"' && Lacks(text[q + 1..q + 7], '"')
  {
    assert text[q..q + 8] == HASH_HEAD;
    assert text[q + 1..q + 7] == HASH_HEAD[1..7];
    assert text[q + 7] == HASH_HEAD[7];
  }

  lemma EndsDoNotOverlap(text: string, i: nat, j: nat)
    requires MatchAt(End, text, i).Some? && i < j < MatchAt(End, text, i).value
    ensures MatchAt(End, text, j).None?
  {
    MarkersAreOneLine();
    CharOf(text, END_MARK, i, j - 1);
  }

  lemma {:induction false} ScanIsComplete(at: nat -> Option<nat>, n: nat, from: nat)
    requires from <= n
    requires forall i :: 0 <= i <= n && at(i).Some? ==> i < at(i).value <= n
    requires forall i, j :: 0 <= i < j <= n && at(i).Some? && at(j).Some? ==> at(i).value <= j
    ensures forall m :: m in Scan(at, n, from) ==> from <= m.start <= n && at(m.start) == Some(m.end)
    ensures forall k, l :: 0 <= k < l < |Scan(at, n, from)| ==> Scan(at, n, from)[k].start < Scan(at, n, from)[l].start
    ensures |Scan(at, n, from)| > 1 ==> Scan(at, n, from)[0].start < Scan(at, n, from)[1].start
    ensures forall i :: from <= i <= n && at(i).Some? ==> Match(i, at(i).value) in Scan(at, n, from)
    decreases n - from
  {
    if at(from).Some? {
      var next := at(from).value;
      ScanIsComplete(at, n, next);
      assert Scan(at, n, from) == [Match(from, next)] + Scan(at, n, next);
      assert Scan(at, n, from)[0] == Match(from, next);
      assert forall l :: 0 < l < |Scan(at, n, from)| ==> Scan(at, n, from)[l] in Scan(at, n, next);
    } else if from < n {
      ScanIsComplete(at, n, from + 1);
      assert Scan(at, n, from) == Scan(at, n, from + 1);
    }
  }

  lemma MatchesDoNotOverlap(kind: Kind, text: string, i: nat, j: nat)
    requires i < j && MatchAt(kind, text, i).Some? && MatchAt(kind, text, j).Some?
    ensures MatchAt(kind, text, i).value <= j
  {
    if j < MatchAt(kind, text, i).value {
      match kind
      case Start => StartsDoNotOverlap(text, i, j);
      case End => EndsDoNotOverlap(text, i, j);
    }
  }

  /** `m` is the only match in the text. */
  predicate Only(at: nat -> Option<nat>, n: nat, m: Match) {
    && m.start <= n && at(m.start) == Some(m.end)
    && forall i :: 0 <= i <= n && at(i).Some? ==> i == m.start
  }

  predicate NoMatch(at: nat -> Option<nat>, n: nat) {
    forall i :: 0 <= i <= n ==> at(i).None?
  }

  lemma OneScanned(at: nat -> Option<nat>, n: nat, m: Match)
    requires forall i :: 0 <= i <= n && at(i).Some? ==> i < at(i).value <= n
    requires forall i, j :: 0 <= i < j <= n && at(i).Some? && at(j).Some? ==> at(i).value <= j
    requires Only(at, n, m)
    ensures Scan(at, n, 0) == [m]
  {
    ScanIsComplete(at, n, 0);
    var found := Scan(at, n, 0);
    assert Match(m.start, at(m.start).value) in found;
    assert forall k :: 0 <= k < |found| ==> found[k] in found && found[k].start == m.start;
  }

  /** A marker is found once exactly when there is one position where it matches. */
  lemma FindIterMeaning(kind: Kind, text: string)
    ensures FindIter(kind, text) == [] <==> NoMatch(Matcher(kind, text), |text|)
    ensures |FindIter(kind, text)| == 1 ==> Only(Matcher(kind, text), |text|, FindIter(kind, text)[0])
    ensures forall m :: Only(Matcher(kind, text), |text|, m) ==> FindIter(kind, text) == [m]
  {
    var at, n := Matcher(kind, text), |text|;
    forall i, j | 0 <= i < j <= n && at(i).Some? && at(j).Some? ensures at(i).value <= j {
      MatchesDoNotOverlap(kind, text, i, j);
    }
    assert forall i :: 0 <= i <= n && at(i).Some? ==> i < at(i).value <= n;
    ScanSummary(at, n);
  }

  lemma ScanSummary(at: nat -> Option<nat>, n: nat)
    requires forall i :: 0 <= i <= n && at(i).Some? ==> i < at(i).value <= n
    requires forall i, j :: 0 <= i < j <= n && at(i).Some? && at(j).Some? ==> at(i).value <= j
    ensures Scan(at, n, 0) == [] <==> NoMatch(at, n)
    ensures |Scan(at, n, 0)| == 1 ==> Only(at, n, Scan(at, n, 0)[0])
    ensures forall m :: Only(at, n, m) ==> Scan(at, n, 0) == [m]
  {
    ScanIsComplete(at, n, 0);
    var found := Scan(at, n, 0);
    if found != [] { assert found[0] in found; }
    forall m | Only(at, n, m) ensures found == [m] {
      OneScanned(at, n, m);
    }
  }

  // ---- The managed span ----

  datatype Span = NoSpan | Conflict | Managed(start: nat, end: nat)

  function SpanEnd(text: string, end: nat): nat {
    if end < |text| && text[end] == '\n' then end + 1 else end
  }

  /** `_managed_span`. */
  function ManagedSpan(text: string): (s: Span)
    ensures s.Managed? ==> s.start <= s.end <= |text|
  {
    var starts, ends := FindIter(Start, text), FindIter(End, text);
    if starts == [] && ends == [] then NoSpan
    else if |starts| != 1 || |ends| != 1 then Conflict
    else if ends[0].start <= starts[0].end then Conflict
    else
      FindIterMeaning(Start, text);
      FindIterMeaning(End, text);
      Managed(starts[0].start, SpanEnd(text, ends[0].end))
  }

  /** There is one start marker, and one end marker after it. */
  predicate Marked(text: string, start: Match, end: Match) {
    && Only(Matcher(Start, text), |text|, start)
    && Only(Matcher(End, text), |text|, end)
    && start.end < end.start
  }

  predicate Unmarked(text: string) {
    NoMatch(Matcher(Start, text), |text|) && NoMatch(Matcher(End, text), |text|)
  }

  lemma SpanMeaning(text: string)
    ensures ManagedSpan(text).NoSpan? <==> Unmarked(text)
    ensures forall s, e :: Marked(text, s, e) ==> ManagedSpan(text) == Managed(s.start, SpanEnd(text, e.end))
    ensures ManagedSpan(text).Managed? ==> Marked(text, FindIter(Start, text)[0], FindIter(End, text)[0])
  {
    FindIterMeaning(Start, text);
    FindIterMeaning(End, text);
  }
}
