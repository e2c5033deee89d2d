/** Rendering, removing and inspecting the managed block of a projection. */
module ManagedProjections {
  import opened Prelude
  import opened Texts
  import opened ManagedBlocks

  datatype Status = Status(present: bool, valid: bool, actualHash: Option<string>)

  /** A projection; `sha` gives the hexadecimal digest of a text. */
  datatype ManagedProjection = ManagedProjection(version: string, body: string, sha: string -> string) {

    function Header(): string {
      START_HEAD + version + HASH_HEAD + sha(body) + START_TAIL
    }

    /** `_block`. */
    function Block(): string {
      Header() + "\n" + body + "\n" + END_MARK + "\n"
    }

    /** Where the end marker of the block begins. */
    function EndStart(): nat { |Header()| + |body| + 2 }

    /** `render`; `None` is a marker conflict. */
    function Render(existing: string): Option<string> {
      match ManagedSpan(existing)
      case Conflict => None
      case NoSpan => Some(existing + Separator(existing) + Block())
      case Managed(start, end) => Some(existing[..start] + Block() + existing[end..])
    }

    /** `remove`. */
    function Remove(existing: string): Option<string> {
      match ManagedSpan(existing)
      case Conflict => None
      case NoSpan => Some(existing)
      case Managed(start, end) => Some(existing[..start] + existing[end..])
    }

    /** `inspect`. */
    function Inspect(content: string): Option<Status> {
      match ManagedSpan(content)
      case Conflict => None
      case NoSpan => Some(Status(false, false, None))
      case Managed(start, end) =>
        var block := content[start..end];
        var starts, ends := FindIter(Start, block), FindIter(End, block);
        if starts == [] || ends == [] then None
        else
          var actual := BodyBetween(block, starts[0].end + 1, ends[0].start);
          var valid := HeaderAgrees(block, starts[0].start, actual) && actual == body;
          Some(Status(true, valid, Some(sha(actual))))
    }

    /** The groups of the start marker agree with this projection and with the body found. */
    predicate HeaderAgrees(block: string, i: nat, actual: string) {
      && i + |START_HEAD| <= |block|
      && var q := VersionEnd(block, i);
         && EndOfStart(q) <= |block|
         && block[i + |START_HEAD|..q] == version
         && block[q + |HASH_HEAD|..q + |HASH_HEAD| + 64] == sha(actual) == sha(body)
    }
  }

  function Separator(existing: string): string {
    if existing == "" || existing[|existing| - 1] == '\n' then "" else "\n"
  }

  /** `block[start:end]` without one trailing line break. */
  function BodyBetween(block: string, start: nat, end: nat): string {
    if start <= end <= |block| then
      if end > start && block[end - 1] == '\n' then block[start..end - 1] else block[start..end]
    else ""
  }

  /** A line begins a start marker whose version the text does not end. */
  predicate OpenStart(s: string, j: nat) {
    LineStart(s, j) && OccursAt(s, START_HEAD, j) && Lacks(s[j + |START_HEAD|..], '"')
  }

  /** No line of the version but the first and the last is an end marker. */
  predicate QuietVersion(version: string) {
    forall j :: 0 < j <= |version| ==> MatchAt(End, version + "\"", j).None?
  }

  /** No line of the body is a marker or leaves a start marker open. */
  predicate QuietBody(body: string) {
    Unmarked(body) && forall j :: 0 <= j <= |body| ==> !OpenStart(body, j)
  }

  /** What the block needs to be read back wherever it is rendered. */
  predicate WellFormed(p: ManagedProjection) {
    && p.version != "" && Lacks(p.version, '"') && QuietVersion(p.version)
    && QuietBody(p.body)
    && HexDigits(p.sha(p.body))
  }

  // ---- The block on its own ----

  lemma OccursBetween(text: string, a: string, s: string, b: string)
    requires text == a + s + b
    ensures OccursAt(text, s, |a|)
  {
    assert text[|a|..|a| + |s|] == s;
  }

  lemma OccursInPrefix(text: string, s: string, i: nat, rest: string)
    requires OccursAt(text, s, i)
    ensures OccursAt(text + rest, s, i)
  {
    assert (text + rest)[i..i + |s|] == text[i..i + |s|];
  }

  lemma FivePieces(text: string, a: string, b: string, c: string, d: string, e: string)
    requires text == a + b + c + d + e
    ensures |text| == |a| + |b| + |c| + |d| + |e|
    ensures OccursAt(text, a, 0) && OccursAt(text, b, |a|) && OccursAt(text, c, |a| + |b|)
    ensures OccursAt(text, d, |a| + |b| + |c|) && OccursAt(text, e, |a| + |b| + |c| + |d|)
  {
    OccursBetween(text, "", a, b + c + d + e);
    OccursBetween(text, a, b, c + d + e);
    OccursBetween(text, a + b, c, d + e);
    OccursBetween(text, a + b + c, d, e);
    OccursBetween(text, a + b + c + d, e, "");
  }

  /** The text begins with the header of the projection on lines of its own. */
  predicate HasHeader(p: ManagedProjection, b: string) {
    |p.Header()| < |b| && b[..|p.Header()| + 1] == p.Header() + "\n"
  }

  lemma BlockHasHeader(p: ManagedProjection)
    ensures HasHeader(p, p.Block())
  {
    assert p.Block() == (p.Header() + "\n") + (p.body + "\n" + END_MARK + "\n");
  }

  /** The header is a start marker with our version and digest. */
  lemma HeaderPieces(p: ManagedProjection, b: string)
    requires HexDigits(p.sha(p.body)) && HasHeader(p, b)
    ensures var q := |START_HEAD| + |p.version|;
      && |p.Header()| == EndOfStart(q) < |b| && b[|p.Header()|] == '\n'
      && OccursAt(b, START_HEAD, 0) && OccursAt(b, p.version, |START_HEAD|) && OccursAt(b, HASH_HEAD, q)
      && OccursAt(b, p.sha(p.body), q + |HASH_HEAD|) && OccursAt(b, START_TAIL, q + |HASH_HEAD| + 64)
  {
    var h := p.Header();
    FivePieces(h, START_HEAD, p.version, HASH_HEAD, p.sha(p.body), START_TAIL);
    var rest := b[|h|..];
    assert b[|h|] == b[..|h| + 1][|h|] == '\n';
    assert b[..|h|] == b[..|h| + 1][..|h|] == h;
    assert b == h + rest;
    hide OccursAt, ManagedProjection.Header;
    var q := |START_HEAD| + |p.version|;
    OccursInPrefix(h, START_HEAD, 0, rest);
    OccursInPrefix(h, p.version, |START_HEAD|, rest);
    OccursInPrefix(h, HASH_HEAD, q, rest);
    OccursInPrefix(h, p.sha(p.body), q + |HASH_HEAD|, rest);
    OccursInPrefix(h, START_TAIL, q + |HASH_HEAD| + 64, rest);
  }

  /** After the header come the body and the end marker, each on lines of its own. */
  lemma BodyPieces(p: ManagedProjection)
    ensures var b, h, m := p.Block(), |p.Header()|, p.EndStart();
      && |b| == m + |END_MARK| + 1
      && b[h] == '\n' && OccursAt(b, p.body, h + 1) && b[m - 1] == '\n'
      && OccursAt(b, END_MARK, m) && b[|b| - 1] == '\n'
  {
    var b, h := p.Block(), p.Header();
    assert b == (h + "\n") + p.body + "\n" + END_MARK + "\n";
    FivePieces(b, h + "\n", p.body, "\n", END_MARK, "\n");
    CharOf(b, h + "\n", 0, |h|);
    CharOf(b, "\n", |h| + 1 + |p.body|, |h| + 1 + |p.body|);
    CharOf(b, "\n", |b| - 1, |b| - 1);
  }

  lemma MarkerBegins(kind: Kind, text: string, i: nat)
    requires MatchAt(kind, text, i).Some?
    ensures OccursAt(text, MARKER, i) && i + |MARKER| < |text|
    ensures text[i + |MARKER|] == match kind case Start => 's' case End => 'e'
  {
    var mark := match kind case Start => START_HEAD case End => END_MARK;
    CharOf(text, mark, i, i + |MARKER|);
    assert text[i..i + |MARKER|] == text[i..i + |mark|][..|MARKER|] == mark[..|MARKER|];
  }

  /** A piece without the character cannot cover a place where the character stands. */
  lemma DoesNotCover(text: string, s: string, i: nat, c: char, k: nat)
    requires OccursAt(text, s, i) && Lacks(s, c) && k < |text| && text[k] == c
    ensures !(i <= k < i + |s|)
  {
    if i <= k < i + |s| { CharOf(text, s, i, k); }
  }

  /** The line breaks of the header are in its version. */
  lemma BreaksOfHeader(p: ManagedProjection, b: string, k: nat)
    requires HexDigits(p.sha(p.body)) && HasHeader(p, b) && k < |p.Header()| && b[k] == '\n'
    ensures |START_HEAD| <= k < |START_HEAD| + |p.version|
  {
    var q := |START_HEAD| + |p.version|;
    MarkersAreOneLine();
    HeaderPieces(p, b);
    assert Lacks(p.sha(p.body), '\n');
    hide OccursAt, HasHeader, HexDigits, Lacks, ManagedProjection.Header;
    DoesNotCover(b, START_HEAD, 0, '\n', k);
    DoesNotCover(b, HASH_HEAD, q, '\n', k);
    DoesNotCover(b, p.sha(p.body), q + |HASH_HEAD|, '\n', k);
    DoesNotCover(b, START_TAIL, q + |HASH_HEAD| + 64, '\n', k);
  }

  lemma HeaderStarts(p: ManagedProjection, b: string)
    requires HexDigits(p.sha(p.body)) && HasHeader(p, b) && p.version != "" && Lacks(p.version, '"')
    ensures MatchAt(Start, b, 0) == Some(|p.Header()|)
    ensures VersionEnd(b, 0) == |START_HEAD| + |p.version|
  {
    var q := |START_HEAD| + |p.version|;
    HeaderPieces(p, b);
    CharOf(b, HASH_HEAD, q, q);
    assert b[|START_HEAD|..q] == p.version;
    assert b[q + |HASH_HEAD|..q + |HASH_HEAD| + 64] == p.sha(p.body);
    hide HasHeader, ManagedProjection.Header;
    RunIsUnique(b, |START_HEAD|, |p.version|);
  }

  /** Nothing in the header but its start is a marker, or leaves one open. */
  lemma HeaderSettles(p: ManagedProjection, b: string, j: nat)
    requires WellFormed(p) && HasHeader(p, b) && 0 < j <= |p.Header()|
    ensures MatchAt(Start, b, j).None? && MatchAt(End, b, j).None? && !OpenStart(b, j)
  {
    HeaderPieces(p, b);
    if LineStart(b, j) {
      BreaksOfHeader(p, b, j - 1);
      HeaderStarts(p, b);
      hide MatchAt, OpenStart, HasHeader, QuietVersion, QuietBody, HexDigits, ManagedProjection.Header;
      StartsDoNotOverlap(b, 0, j);
      NoEndInVersion(p, b, j);
      NoOpenInVersion(p, b, j);
    } else {
      NoLineNoMarker(b, j);
    }
  }

  lemma NoLineNoMarker(b: string, j: nat)
    requires !LineStart(b, j)
    ensures MatchAt(Start, b, j).None? && MatchAt(End, b, j).None? && !OpenStart(b, j)
  {
  }

  lemma NoEndInVersion(p: ManagedProjection, b: string, j: nat)
    requires WellFormed(p) && HasHeader(p, b) && |START_HEAD| < j <= |START_HEAD| + |p.version| && LineStart(b, j)
    ensures MatchAt(End, b, j).None?
  {
    var h, q, n, quoted := |START_HEAD|, |START_HEAD| + |p.version|, |END_MARK|, p.version + "\"";
    assert MatchAt(End, quoted, j - h).None?;
    hide *;
    QuotedStands(p, b);
    if MatchAt(End, b, j).Some? {
      EndBeforeQuote(b, j, q);
      LineOfSlice(b, h, quoted, j - h, n);
      WholeLines(End, b, j);
      MatchIsLocal(End, b, j, quoted, j - h, n);
    }
  }

  /** The version and the quote after it stand in the header. */
  lemma QuotedStands(p: ManagedProjection, b: string)
    requires HexDigits(p.sha(p.body)) && HasHeader(p, b)
    ensures var h, quoted := |START_HEAD|, p.version + "\"";
      h + |quoted| <= |b| && b[h..h + |quoted|] == quoted && b[h + |p.version|] == '"'
  {
    HeaderPieces(p, b);
    var h, q := |START_HEAD|, |START_HEAD| + |p.version|;
    CharOf(b, HASH_HEAD, q, q);
    assert b[h..q] == p.version;
    assert b[h..q + 1] == b[h..q] + [b[q]];
  }

  lemma EndBeforeQuote(b: string, j: nat, q: nat)
    requires MatchAt(End, b, j).Some? && j <= q < |b| && b[q] == '"'
    ensures MatchAt(End, b, j).value == j + |END_MARK| < q
  {
    MarkersAreOneLine();
    EndLength(b, j);
    EndStands(b, j);
    DoesNotCover(b, END_MARK, j, '"', q);
    hide OccursAt;
    WholeLines(End, b, j);
  }

  /** Lines of a slice are lines of the text. */
  lemma LineOfSlice(text: string, a: nat, s: string, k: nat, n: nat)
    requires a + |s| <= |text| && text[a..a + |s|] == s && 0 < k && k + n < |s|
    ensures text[a + k..a + k + n] == s[k..k + n]
    ensures LineStart(s, k) <==> LineStart(text, a + k)
    ensures LineEnd(s, k + n) <==> LineEnd(text, a + k + n)
  {
    SliceOfSlice(text, a, a + |s|, k, k + n);
    assert s[k - 1] == text[a + k - 1] && s[k + n] == text[a + k + n];
  }

  lemma EndStands(text: string, i: nat)
    requires MatchAt(End, text, i).Some?
    ensures OccursAt(text, END_MARK, i)
  {
  }

  lemma NoOpenInVersion(p: ManagedProjection, b: string, j: nat)
    requires WellFormed(p) && HasHeader(p, b) && |START_HEAD| < j <= |START_HEAD| + |p.version|
    ensures !OpenStart(b, j)
  {
    var h, q := |START_HEAD|, |START_HEAD| + |p.version|;
    var d := q + |HASH_HEAD| + 64;
    HeaderPieces(p, b);
    CharOf(b, HASH_HEAD, q, q);
    CharOf(b, START_TAIL, d, d);
    if OccursAt(b, START_HEAD, j) {
      assert b[h..q] == p.version;
      LacksSuffix(b, h, j, q);
      QuoteOfHead(b, j, q);
      assert b[j + h..][d - j - h] == b[d];
    }
  }

  lemma BlockEnds(p: ManagedProjection)
    ensures MatchAt(End, p.Block(), p.EndStart()) == Some(p.EndStart() + |END_MARK|)
  {
    BodyPieces(p);
  }

  // ---- Markers of a piece that ends a line ----

  /** A start marker whose version ends before a line break ends before it. */
  lemma StartEndsBefore(text: string, j: nat, quote: nat, stop: nat)
    requires MatchAt(Start, text, j).Some? && j + |START_HEAD| <= quote < stop < |text|
    requires text[quote] == '"' && text[stop] == '\n'
    ensures MatchAt(Start, text, j).value <= stop
  {
    hide MatchAt, StartsAt;
    StartOf(text, j);
    LacksBetween(text, j + |START_HEAD|, VersionEnd(text, j), '"');
    if stop < MatchAt(Start, text, j).value { BreaksAreInTheVersion(text, j, stop); }
  }

  /** `s` stands at `a` and ends with a line break, or before one at `stop`. */
  predicate Piece(text: string, a: nat, s: string, stop: nat) {
    && a + |s| <= |text| && text[a..a + |s|] == s && LineStart(text, a)
    && a <= stop < |text| && text[stop] == '\n' && (stop == a + |s| || stop + 1 == a + |s|)
  }

  /** A match of the text that begins in a piece and ends by its last line break is a match of the piece. */
  lemma MatchInPiece(kind: Kind, text: string, a: nat, s: string, stop: nat, j: nat)
    requires Piece(text, a, s, stop) && a <= j && MatchAt(kind, text, j).Some?
    requires MatchAt(kind, text, j).value <= stop
    ensures MatchAt(kind, s, j - a).Some?
  {
    hide MatchAt;
    var n := MatchAt(kind, text, j).value - j;
    WholeLines(kind, text, j);
    SliceOfSlice(text, a, a + |s|, j - a, j - a + n);
    assert j > a ==> s[j - a - 1] == text[j - 1];
    assert j + n < a + |s| ==> s[j - a + n] == text[j + n];
    MatchIsLocal(kind, text, j, s, j - a, n);
  }

  /** And a match of the piece that ends there is a match of the text. */
  lemma MatchOfPiece(kind: Kind, text: string, a: nat, s: string, stop: nat, k: nat)
    requires Piece(text, a, s, stop) && MatchAt(kind, s, k).Some? && a + MatchAt(kind, s, k).value <= stop
    ensures MatchAt(kind, text, a + k).Some?
  {
    hide MatchAt;
    var n := MatchAt(kind, s, k).value - k;
    WholeLines(kind, s, k);
    SliceOfSlice(text, a, a + |s|, k, k + n);
    assert k > 0 ==> s[k - 1] == text[a + k - 1];
    assert k + n < |s| ==> s[k + n] == text[a + k + n];
    MatchIsLocal(kind, s, k, text, a + k, n);
  }

  lemma HeadInPiece(text: string, a: nat, s: string, stop: nat, j: nat)
    requires Piece(text, a, s, stop) && a <= j <= stop && LineStart(text, j) && OccursAt(text, START_HEAD, j)
    ensures j + |START_HEAD| <= stop && LineStart(s, j - a) && OccursAt(s, START_HEAD, j - a)
  {
    MarkersAreOneLine();
    DoesNotCover(text, START_HEAD, j, '\n', stop);
    OccursInSegment(text, a, a + |s|, START_HEAD, j - a);
    assert j > a ==> s[j - a - 1] == text[j - 1];
  }

  /** What begins a marker of the text in a piece begins one of the piece, or leaves it open. */
  lemma StartInPiece(text: string, a: nat, s: string, stop: nat, j: nat)
    requires Piece(text, a, s, stop) && a <= j <= stop && MatchAt(Start, text, j).Some?
    ensures MatchAt(Start, s, j - a).Some? || OpenStart(s, j - a)
  {
    hide MatchAt, OccursAt, Piece, Lacks;
    WholeLines(Start, text, j);
    StartPieces(text, j);
    HeadInPiece(text, a, s, stop, j);
    if !Lacks(s[j - a + |START_HEAD|..], '"') {
      var x := QuoteInPiece(text, a, s, stop, j - a + |START_HEAD|);
      StartEndsBefore(text, j, x, stop);
      MatchInPiece(Start, text, a, s, stop, j);
    }
  }

  lemma QuoteInPiece(text: string, a: nat, s: string, stop: nat, k: nat) returns (x: nat)
    requires Piece(text, a, s, stop) && k <= |s| && !Lacks(s[k..], '"')
    ensures a + k <= x < stop < |text| && text[x] == '"' && text[stop] == '\n'
  {
    var i :| 0 <= i < |s[k..]| && s[k..][i] == '"';
    x := a + k + i;
    assert text[x] == s[k + i] == '"';
  }

  lemma OpenInPiece(text: string, a: nat, s: string, stop: nat, j: nat)
    requires Piece(text, a, s, stop) && a <= j <= stop && OpenStart(text, j)
    ensures OpenStart(s, j - a)
  {
    HeadInPiece(text, a, s, stop, j);
    var k, h := j - a + |START_HEAD|, j + |START_HEAD|;
    forall x | 0 <= x < |s[k..]| ensures s[k..][x] != '"' {
      assert s[k..][x] == text[h + x] == text[h..][x];
    }
  }

  lemma EndInPiece(text: string, a: nat, s: string, stop: nat, j: nat)
    requires Piece(text, a, s, stop) && a <= j <= stop && MatchAt(End, text, j).Some?
    ensures MatchAt(End, s, j - a).Some?
  {
    MarkersAreOneLine();
    EndLength(text, j);
    EndStands(text, j);
    DoesNotCover(text, END_MARK, j, '\n', stop);
    MatchInPiece(End, text, a, s, stop, j);
  }

  lemma BodyIsPiece(p: ManagedProjection)
    ensures Piece(p.Block(), |p.Header()| + 1, p.body, p.EndStart() - 1)
  {
    BodyPieces(p);
  }

  /** Nothing in a quiet body is a marker of the block, or leaves one open. */
  lemma BodySettles(p: ManagedProjection, j: nat)
    requires WellFormed(p) && |p.Header()| < j < p.EndStart()
    ensures MatchAt(Start, p.Block(), j).None? && MatchAt(End, p.Block(), j).None? && !OpenStart(p.Block(), j)
  {
    BodyIsPiece(p);
    var b, a, stop := p.Block(), |p.Header()| + 1, p.EndStart() - 1;
    hide MatchAt, OpenStart, Piece, ManagedProjection.Block, ManagedProjection.Header;
    NoneHere(Start, p.body, j - a);
    NoneHere(End, p.body, j - a);
    assert !OpenStart(p.body, j - a);
    if MatchAt(Start, b, j).Some? { StartInPiece(b, a, p.body, stop, j); }
    if MatchAt(End, b, j).Some? { EndInPiece(b, a, p.body, stop, j); }
    if OpenStart(b, j) { OpenInPiece(b, a, p.body, stop, j); }
  }

  /** No start marker begins where an end marker does. */
  lemma EndIsNoStart(text: string, j: nat)
    requires MatchAt(End, text, j).Some?
    ensures MatchAt(Start, text, j).None? && !OpenStart(text, j)
  {
    MarkersAreOneLine();
    EndStands(text, j);
    CharOf(text, END_MARK, j, j + |MARKER|);
    if OccursAt(text, START_HEAD, j) { CharOf(text, START_HEAD, j, j + |MARKER|); }
  }

  // ---- The block in a text ----

  /** Lines end before the piece that follows. */
  predicate EndsLine(s: string) { s == "" || s[|s| - 1] == '\n' }

  /** What framing needs of a block: a start marker at 0, an end marker at `m` on the last line, and no other, whatever
      may follow. */
  ghost predicate IsBlock(b: string, h: nat, m: nat) {
    && h < m && m + |END_MARK| + 1 == |b| && b[|b| - 1] == '\n'
    && MatchAt(Start, b, 0) == Some(h) && MatchAt(End, b, m) == Some(m + |END_MARK|)
    && forall j :: 0 < j < |b| ==> SettledAt(b, m, j)
  }

  predicate SettledAt(b: string, m: nat, j: nat) {
    MatchAt(Start, b, j).None? && !OpenStart(b, j) && (MatchAt(End, b, j).Some? ==> j == m)
  }

  lemma AfterEndSettles(b: string, m: nat, j: nat)
    requires MatchAt(End, b, m).Some? && m < j <= m + |END_MARK|
    ensures SettledAt(b, m, j)
  {
    MarkersAreOneLine();
    EndStands(b, m);
    CharOf(b, END_MARK, m, j - 1);
    NoLineNoMarker(b, j);
  }

  lemma BlockIsBlock(p: ManagedProjection)
    requires WellFormed(p)
    ensures IsBlock(p.Block(), |p.Header()|, p.EndStart())
  {
    var b, h, m := p.Block(), |p.Header()|, p.EndStart();
    BodyPieces(p);
    BlockHasHeader(p);
    HeaderStarts(p, b);
    BlockEnds(p);
    hide MatchAt, OpenStart, ManagedProjection.Block, ManagedProjection.Header, WellFormed;
    forall j | 0 < j < |b| ensures SettledAt(b, m, j) {
      if j <= h { HeaderSettles(p, b, j); }
      else if j < m { BodySettles(p, j); }
      else if j == m { EndIsNoStart(b, m); }
      else { AfterEndSettles(b, m, j); }
    }
  }

  /** The text is `b` between two pieces without markers, the first of whole lines. */
  predicate Framed(text: string, a: nat, b: string) {
    && a + |b| <= |text| && LineStart(text, a)
    && text[a..a + |b|] == b
    && Unmarked(text[..a]) && Unmarked(text[a + |b|..])
  }

  lemma WholeLines(kind: Kind, text: string, i: nat)
    requires MatchAt(kind, text, i).Some?
    ensures LineStart(text, i) && LineEnd(text, MatchAt(kind, text, i).value)
    ensures text[MatchAt(kind, text, i).value - 1] == '>'
  {
    match kind
    case Start =>
      StartOf(text, i);
      CharOf(text, START_TAIL, MatchAt(kind, text, i).value - |START_TAIL|, MatchAt(kind, text, i).value - 1);
    case End =>
      CharOf(text, END_MARK, i, i + |END_MARK| - 1);
  }

  // A match that lies before, inside or after a boundary between lines is a match of that piece.

  lemma MatchInFirst(kind: Kind, text: string, a: nat, i: nat, n: nat)
    requires i + n <= a <= |text|
    requires MatchAt(kind, text, i) == Some(i + n)
    ensures MatchAt(kind, text[..a], i) == Some(i + n)
  {
    WholeLines(kind, text, i);
    SliceOfSlice(text, 0, a, i, i + n);
    assert text[0..a] == text[..a];
    MatchIsLocal(kind, text, i, text[..a], i, n);
  }

  lemma SuffixFacts(text: string, b: nat, k: nat, n: nat)
    requires b + k + n <= |text| && LineStart(text, b)
    requires LineStart(text, b + k) && LineEnd(text, b + k + n)
    ensures LineStart(text[b..], k) && LineEnd(text[b..], k + n)
    ensures text[b..][k..k + n] == text[b + k..b + k + n]
  {
    SliceOfSlice(text, b, |text|, k, k + n);
    assert text[b..|text|] == text[b..];
  }

  lemma MatchInLast(kind: Kind, text: string, b: nat, k: nat, n: nat)
    requires b + k + n <= |text| && LineStart(text, b)
    requires MatchAt(kind, text, b + k) == Some(b + k + n)
    ensures MatchAt(kind, text[b..], k) == Some(k + n)
  {
    hide MatchAt, LineStart, LineEnd;
    WholeLines(kind, text, b + k);
    SuffixFacts(text, b, k, n);
    MatchIsLocal(kind, text, b + k, text[b..], k, n);
  }

  lemma NoneHere(kind: Kind, text: string, i: nat)
    requires Unmarked(text) && i <= |text|
    ensures MatchAt(kind, text, i).None?
  {
    assert Matcher(kind, text)(i) == MatchAt(kind, text, i);
  }

  /** No match lies in the pieces before and after. */
  lemma NoneOutside(kind: Kind, text: string, a: nat, b: string, i: nat, n: nat)
    requires Framed(text, a, b) && EndsLine(b) && b != ""
    requires MatchAt(kind, text, i) == Some(i + n)
    ensures a < i + n && i < a + |b|
  {
    hide MatchAt;
    var c := a + |b|;
    if i + n <= a {
      NoneHere(kind, text[..a], i);
      MatchInFirst(kind, text, a, i, n);
    } else if c <= i {
      assert text[c - 1] == b[|b| - 1];
      NoneHere(kind, text[c..], i - c);
      MatchInLast(kind, text, c, i - c, n);
    }
  }

  /** The markers of the block are markers of the text. */
  lemma MarkersOfBlock(kind: Kind, text: string, a: nat, b: string, i: nat, n: nat)
    requires a + |b| <= |text| && LineStart(text, a) && text[a..a + |b|] == b
    requires MatchAt(kind, b, i) == Some(i + n) && i + n < |b|
    ensures MatchAt(kind, text, a + i) == Some(a + i + n)
  {
    hide MatchAt;
    WholeLines(kind, b, i);
    SliceOfSlice(text, a, a + |b|, i, i + n);
    assert text[a + i + n] == b[i + n] && (i > 0 ==> text[a + i - 1] == b[i - 1]);
    MatchIsLocal(kind, b, i, text, a + i, n);
  }

  lemma FramedIsPiece(text: string, a: nat, b: string, h: nat, m: nat)
    requires Framed(text, a, b) && IsBlock(b, h, m)
    ensures Piece(text, a, b, a + |b| - 1)
  {
    assert text[a + |b| - 1] == b[|b| - 1];
  }

  lemma StartInFrame(text: string, a: nat, b: string, h: nat, m: nat, i: nat, n: nat)
    requires Framed(text, a, b) && IsBlock(b, h, m)
    requires MatchAt(Start, text, i) == Some(i + n)
    ensures i == a
  {
    hide *;
    BlockFacts(text, a, b, h, m);
    FramedIsPiece(text, a, b, h, m);
    NoneOutside(Start, text, a, b, i, n);
    MarkersOfBlock(Start, text, a, b, 0, h);
    if i < a {
      MatchesDoNotOverlap(Start, text, i, a);
    } else if a < i {
      StartInPiece(text, a, b, a + |b| - 1, i);
      SettlesInside(b, h, m, i - a);
    }
  }

  lemma BlockFacts(text: string, a: nat, b: string, h: nat, m: nat)
    requires Framed(text, a, b) && IsBlock(b, h, m)
    ensures a + |b| <= |text| && LineStart(text, a) && text[a..a + |b|] == b && EndsLine(b) && b != ""
    ensures h < m && m + |END_MARK| + 1 == |b| && (a > 0 ==> text[a - 1] == '\n')
    ensures MatchAt(Start, b, 0) == Some(h) && MatchAt(End, b, m) == Some(m + |END_MARK|)
  {
    hide MatchAt;
  }

  lemma SettlesInside(b: string, h: nat, m: nat, j: nat)
    requires IsBlock(b, h, m) && 0 < j < |b|
    ensures MatchAt(Start, b, j).None? && !OpenStart(b, j) && (MatchAt(End, b, j).Some? ==> j == m)
  {
    hide MatchAt, OpenStart;
    assert SettledAt(b, m, j);
  }

  lemma EndInFrame(text: string, a: nat, b: string, h: nat, m: nat, i: nat, n: nat)
    requires Framed(text, a, b) && IsBlock(b, h, m)
    requires MatchAt(End, text, i) == Some(i + n)
    ensures i == a + m
  {
    hide *;
    BlockFacts(text, a, b, h, m);
    FramedIsPiece(text, a, b, h, m);
    NoneOutside(End, text, a, b, i, n);
    MarkersOfBlock(Start, text, a, b, 0, h);
    if i < a {
      EndLacksBreak(text, i, a - 1);
    } else if a == i {
      EndIsNoStart(text, i);
    } else {
      EndInPiece(text, a, b, a + |b| - 1, i);
      SettlesInside(b, h, m, i - a);
    }
  }

  lemma EndLacksBreak(text: string, i: nat, k: nat)
    requires MatchAt(End, text, i).Some? && i <= k < MatchAt(End, text, i).value
    ensures text[k] != '\n'
  {
    MarkersAreOneLine();
    EndLength(text, i);
    EndStands(text, i);
    CharOf(text, END_MARK, i, k);
  }

  lemma OnlyBy(kind: Kind, text: string, i: nat, e: nat)
    requires i <= |text| && MatchAt(kind, text, i) == Some(e)
    requires forall j: nat :: j <= |text| && MatchAt(kind, text, j).Some? ==> j == i
    ensures Only(Matcher(kind, text), |text|, Match(i, e))
  {
    forall j | 0 <= j <= |text| && Matcher(kind, text)(j).Some? ensures j == i {
      assert Matcher(kind, text)(j) == MatchAt(kind, text, j);
    }
  }

  /** Framed by text without markers, the block is the managed span. */
  lemma FramedIsSpan(text: string, a: nat, b: string, h: nat, m: nat)
    requires Framed(text, a, b) && IsBlock(b, h, m)
    ensures ManagedSpan(text) == Managed(a, a + |b|)
  {
    hide MatchAt;
    MarkersOfBlock(Start, text, a, b, 0, h);
    MarkersOfBlock(End, text, a, b, m, |END_MARK|);
    forall i: nat | i <= |text| && MatchAt(Start, text, i).Some? ensures i == a {
      StartInFrame(text, a, b, h, m, i, MatchAt(Start, text, i).value - i);
    }
    OnlyBy(Start, text, a, a + h);
    forall i: nat | i <= |text| && MatchAt(End, text, i).Some? ensures i == a + m {
      EndInFrame(text, a, b, h, m, i, MatchAt(End, text, i).value - i);
    }
    OnlyBy(End, text, a + m, a + m + |END_MARK|);
    assert text[a + |b| - 1] == b[|b| - 1];
    SpanMeaning(text);
  }

  // ---- The text around the span ----

  lemma NoMatchBefore(kind: Kind, text: string, a: nat, i: nat)
    requires i <= a <= |text| && LineStart(text, a)
    requires i < a ==> MatchAt(kind, text, i).None?
    ensures MatchAt(kind, text[..a], i).None?
  {
    hide MatchAt;
    var pre := text[..a];
    if MatchAt(kind, pre, i).Some? {
      WholeLines(kind, pre, i);
      var n := MatchAt(kind, pre, i).value - i;
      SliceOfSlice(text, 0, a, i, i + n);
      assert text[0..a] == pre;
      MatchIsLocal(kind, pre, i, text, i, n);
    }
  }

  lemma NoMatchAfter(kind: Kind, text: string, b: nat, i: nat)
    requires b + i <= |text| && (b == |text| || LineStart(text, b))
    requires MatchAt(kind, text, b + i).None?
    ensures MatchAt(kind, text[b..], i).None?
  {
    hide MatchAt;
    var post := text[b..];
    if MatchAt(kind, post, i).Some? {
      WholeLines(kind, post, i);
      var n := MatchAt(kind, post, i).value - i;
      assert text[b + i..b + i + n] == post[i..i + n];
      MatchIsLocal(kind, post, i, text, b + i, n);
    }
  }

  lemma UnmarkedBy(text: string)
    requires forall kind: Kind, i: nat :: i <= |text| ==> MatchAt(kind, text, i).None?
    ensures Unmarked(text)
  {
    hide MatchAt;
    forall kind: Kind, i: nat | i <= |text| ensures Matcher(kind, text)(i).None? {
      assert Matcher(kind, text)(i) == MatchAt(kind, text, i);
    }
  }

  /** The pieces around the managed span are whole lines without markers. */
  lemma AroundSpan(text: string)
    requires ManagedSpan(text).Managed?
    ensures var s := ManagedSpan(text);
      LineStart(text, s.start) && Unmarked(text[..s.start]) && Unmarked(text[s.end..])
  {
    hide MatchAt;
    SpanMeaning(text);
    var s, e := FindIter(Start, text)[0], FindIter(End, text)[0];
    var a, b := ManagedSpan(text).start, ManagedSpan(text).end;
    OnlyMeans(Start, text, s);
    OnlyMeans(End, text, e);
    WholeLines(Start, text, s.start);
    WholeLines(End, text, e.start);
    forall kind: Kind, i: nat | i <= a ensures MatchAt(kind, text[..a], i).None? {
      assert kind == Start || kind == End;
      NoMatchBefore(kind, text, a, i);
    }
    UnmarkedBy(text[..a]);
    forall kind: Kind, i: nat | i <= |text[b..]| ensures MatchAt(kind, text[b..], i).None? {
      assert kind == Start || kind == End;
      NoMatchAfter(kind, text, b, i);
    }
    UnmarkedBy(text[b..]);
  }

  lemma OnlyMeans(kind: Kind, text: string, m: Match)
    requires Only(Matcher(kind, text), |text|, m)
    ensures MatchAt(kind, text, m.start) == Some(m.end)
    ensures forall i: nat :: i <= |text| && i != m.start ==> MatchAt(kind, text, i).None?
  {
    hide MatchAt;
    forall i: nat | i <= |text| ensures Matcher(kind, text)(i) == MatchAt(kind, text, i) {
    }
  }

  /** A final line break adds no marker. */
  lemma BreakAddsNoMarker(text: string)
    requires Unmarked(text)
    ensures Unmarked(text + "\n")
  {
    hide MatchAt;
    var longer := text + "\n";
    assert longer[..|text|] == text;
    forall kind: Kind, i: nat | i <= |longer| ensures MatchAt(kind, longer, i).None? {
      if MatchAt(kind, longer, i).Some? {
        WholeLines(kind, longer, i);
        NoneHere(kind, text, i);
        MatchInFirst(kind, longer, |text|, i, MatchAt(kind, longer, i).value - i);
      }
    }
    UnmarkedBy(longer);
  }

  /** The user's text before and after the block that `render` leaves. */
  function Before(text: string): string {
    match ManagedSpan(text)
    case Managed(start, _) => text[..start]
    case _ => text + Separator(text)
  }

  function After(text: string): string {
    match ManagedSpan(text)
    case Managed(_, end) => text[end..]
    case _ => ""
  }

  lemma BeforeAndAfter(text: string)
    requires !ManagedSpan(text).Conflict?
    ensures EndsLine(Before(text)) && Unmarked(Before(text)) && Unmarked(After(text))
  {
    hide MatchAt;
    if ManagedSpan(text).Managed? {
      AroundSpan(text);
    } else {
      SpanMeaning(text);
      assert text + "" == text;
      BreakAddsNoMarker(text);
      EmptyIsUnmarked();
    }
  }

  lemma NothingInEmpty(kind: Kind)
    ensures MatchAt(kind, "", 0).None?
  {
  }

  lemma EmptyIsUnmarked()
    ensures Unmarked("")
  {
    hide MatchAt;
    forall kind: Kind, i: nat | i <= |""| ensures MatchAt(kind, "", i).None? { NothingInEmpty(kind); }
    UnmarkedBy("");
  }

  // ---- What the operations promise ----

  lemma Concatenated(text: string, pre: string, b: string, post: string)
    requires text == pre + b + post
    ensures |text| == |pre| + |b| + |post| && text[..|pre|] == pre
    ensures text[|pre|..|pre| + |b|] == b && text[|pre| + |b|..] == post
  {
  }

  /** Rendering puts the block between the user's text before and after it, and the span found again is that block. */
  lemma RenderedText(p: ManagedProjection, x: string)
    requires WellFormed(p) && !ManagedSpan(x).Conflict?
    ensures p.Render(x) == Some(Before(x) + p.Block() + After(x))
    ensures var y := Before(x) + p.Block() + After(x);
      && ManagedSpan(y) == Managed(|Before(x)|, |Before(x)| + |p.Block()|)
      && Before(y) == Before(x) && After(y) == After(x)
      && y[|Before(x)|..|Before(x)| + |p.Block()|] == p.Block()
  {
    hide MatchAt, ManagedProjection.Block, ManagedSpan;
    var pre, b, post := Before(x), p.Block(), After(x);
    var y := pre + b + post;
    BeforeAndAfter(x);
    BlockIsBlock(p);
    Concatenated(y, pre, b, post);
    assert pre == "" || y[|pre| - 1] == pre[|pre| - 1];
    FramedIsSpan(y, |pre|, b, |p.Header()|, p.EndStart());
    assert x + Separator(x) + b == pre + b + post || ManagedSpan(x).Managed?;
  }

  /** Rendering twice changes nothing more. */
  lemma RenderIsIdempotent(p: ManagedProjection, x: string)
    requires WellFormed(p) && !ManagedSpan(x).Conflict?
    ensures p.Render(x).Some? && p.Render(p.Render(x).value) == p.Render(x)
  {
    hide MatchAt, ManagedProjection.Block, ManagedSpan;
    RenderedText(p, x);
    RenderedText(p, p.Render(x).value);
  }

  /** Removing what was rendered removes nothing else; only a missing final line break is added. */
  lemma RemoveUndoesRender(p: ManagedProjection, x: string)
    requires WellFormed(p) && !ManagedSpan(x).Conflict?
    ensures p.Render(x).Some? && p.Remove(x).Some?
    ensures p.Remove(p.Render(x).value) ==
      Some(p.Remove(x).value + if ManagedSpan(x).NoSpan? && x != "" && x[|x| - 1] != '\n' then "\n" else "")
  {
    hide MatchAt, ManagedProjection.Block, ManagedSpan;
    RenderedText(p, x);
    var y := p.Render(x).value;
    Concatenated(y, Before(x), p.Block(), After(x));
    assert p.Remove(y) == Some(Before(x) + After(x));
    if ManagedSpan(x).NoSpan? {
      assert Before(x) + After(x) == x + Separator(x);
    } else {
      assert Before(x) + After(x) + "" == Before(x) + After(x);
    }
  }

  /** What was rendered is found valid. */
  lemma RenderIsValid(p: ManagedProjection, x: string)
    requires WellFormed(p) && !ManagedSpan(x).Conflict?
    ensures p.Render(x).Some? && p.Inspect(p.Render(x).value) == Some(Status(true, true, Some(p.sha(p.body))))
  {
    hide MatchAt, ManagedProjection.Block, ManagedSpan, ManagedProjection.HeaderAgrees;
    RenderedText(p, x);
    BlockReadsBack(p);
  }

  lemma BlockReadsBack(p: ManagedProjection)
    requires WellFormed(p)
    ensures FindIter(Start, p.Block()) == [Match(0, |p.Header()|)]
    ensures FindIter(End, p.Block()) == [Match(p.EndStart(), p.EndStart() + |END_MARK|)]
    ensures BodyBetween(p.Block(), |p.Header()| + 1, p.EndStart()) == p.body
    ensures p.HeaderAgrees(p.Block(), 0, p.body)
  {
    BodyPieces(p);
    BlockHasHeader(p);
    HeaderAgreesHere(p, p.Block());
    hide MatchAt, ManagedProjection.HeaderAgrees, HasHeader;
    BlockIsMarked(p);
    FindIterMeaning(Start, p.Block());
    FindIterMeaning(End, p.Block());
  }

  lemma BlockIsMarked(p: ManagedProjection)
    requires WellFormed(p)
    ensures Only(Matcher(Start, p.Block()), |p.Block()|, Match(0, |p.Header()|))
    ensures Only(Matcher(End, p.Block()), |p.Block()|, Match(p.EndStart(), p.EndStart() + |END_MARK|))
  {
    var b, h, m := p.Block(), |p.Header()|, p.EndStart();
    BlockIsBlock(p);
    EmptyIsUnmarked();
    assert b[0..|b|] == b && b[..0] == "" && b[|b|..] == "";
    hide MatchAt, ManagedProjection.Block, ManagedProjection.Header, IsBlock;
    forall i: nat | i <= |b| && MatchAt(Start, b, i).Some? ensures i == 0 {
      StartInFrame(b, 0, b, h, m, i, MatchAt(Start, b, i).value - i);
    }
    forall i: nat | i <= |b| && MatchAt(End, b, i).Some? ensures i == m {
      EndInFrame(b, 0, b, h, m, i, MatchAt(End, b, i).value - i);
    }
    BlockHasHeader(p);
    HeaderStarts(p, b);
    BlockEnds(p);
    OnlyBy(Start, b, 0, h);
    OnlyBy(End, b, m, m + |END_MARK|);
  }

  // ---- A valid block is the rendered one ----

  /** Where the markers of a managed span stand. */
  lemma SpanMarkers(x: string)
    requires ManagedSpan(x).Managed?
    ensures FindIter(Start, x) != [] && FindIter(End, x) != []
    ensures var a, t, s, e := ManagedSpan(x).start, ManagedSpan(x).end, FindIter(Start, x)[0], FindIter(End, x)[0];
      && s.start == a && a < s.end < e.start && e.end == e.start + |END_MARK| && e.end <= t == SpanEnd(x, e.end) <= |x|
      && MatchAt(Start, x, a) == Some(s.end) && MatchAt(End, x, e.start) == Some(e.end)
      && (forall i: nat :: i <= |x| && i != e.start ==> MatchAt(End, x, i).None?)
      && LineStart(x, a) && LineEnd(x, s.end) && LineStart(x, e.start) && LineEnd(x, e.end)
  {
    hide MatchAt, FindIter;
    SpanMeaning(x);
    var s, e := FindIter(Start, x)[0], FindIter(End, x)[0];
    OnlyMeans(Start, x, s);
    OnlyMeans(End, x, e);
    WholeLines(Start, x, s.start);
    WholeLines(End, x, e.start);
    EndLength(x, e.start);
  }

  /** The managed span, read on its own, begins with its start marker. */
  lemma SpanReadsStart(x: string)
    requires ManagedSpan(x).Managed?
    ensures var a, t := ManagedSpan(x).start, ManagedSpan(x).end; var b, h := x[a..t], FindIter(Start, x)[0].end - a;
      && MatchAt(Start, b, 0) == Some(h)
      && FindIter(Start, b) != [] && FindIter(Start, b)[0] == Match(0, h)
  {
    hide MatchAt, FindIter, ManagedSpan, SpanEnd;
    SpanMarkers(x);
    var a, t, s := ManagedSpan(x).start, ManagedSpan(x).end, FindIter(Start, x)[0];
    var b, h := x[a..t], s.end - a;
    SliceOfSlice(x, a, t, 0, h);
    assert b[h] == x[s.end];
    MatchIsLocal(Start, x, a, b, 0, h);
    FirstFound(Start, b, h);
  }

  lemma SpanEndStands(x: string)
    requires ManagedSpan(x).Managed?
    ensures var a, t := ManagedSpan(x).start, ManagedSpan(x).end; var m := FindIter(End, x)[0].start - a;
      m >= 0 && MatchAt(End, x[a..t], m) == Some(m + |END_MARK|)
  {
    hide MatchAt, FindIter, ManagedSpan, OccursAt, LineStart, LineEnd, SpanEnd;
    SpanMarkers(x);
    var a, t, e := ManagedSpan(x).start, ManagedSpan(x).end, FindIter(End, x)[0];
    EndStandsInSlice(x, a, t, e.start);
  }

  /** An end marker that begins a line after `a` and ends a line before `t` stands in what lies between. */
  lemma EndStandsInSlice(x: string, a: nat, t: nat, i: nat)
    requires a < i && i + |END_MARK| <= t <= |x| && MatchAt(End, x, i) == Some(i + |END_MARK|)
    requires LineStart(x, i) && LineEnd(x, i + |END_MARK|)
    ensures MatchAt(End, x[a..t], i - a) == Some(i - a + |END_MARK|)
  {
    hide MatchAt, OccursAt;
    var b, m := x[a..t], i - a;
    SliceOfSlice(x, a, t, m, m + |END_MARK|);
    assert b[m - 1] == x[i - 1];
    assert LineEnd(b, m + |END_MARK|);
    MatchIsLocal(End, x, i, b, m, |END_MARK|);
  }

  /** And it has one end marker, on its last line. */
  lemma SpanReadsEnd(x: string)
    requires ManagedSpan(x).Managed?
    ensures var a, t := ManagedSpan(x).start, ManagedSpan(x).end; var b, m := x[a..t], FindIter(End, x)[0].start - a;
      && m >= 0 && MatchAt(End, b, m) == Some(m + |END_MARK|) && FindIter(End, b) == [Match(m, m + |END_MARK|)]
  {
    hide MatchAt, FindIter, ManagedSpan, Only, OccursAt, LineStart, LineEnd, SpanEnd;
    SpanMarkers(x);
    SpanEndStands(x);
    var a, t, e := ManagedSpan(x).start, ManagedSpan(x).end, FindIter(End, x)[0];
    var b, m := x[a..t], e.start - a;
    forall j: nat | j <= |b| && MatchAt(End, b, j).Some? ensures j == m {
      EndInSpan(x, a, t, e.end, j);
    }
    OnlyBy(End, b, m, m + |END_MARK|);
    FindIterMeaning(End, b);
  }

  lemma SpanReads(x: string)
    requires ManagedSpan(x).Managed?
    ensures var s, t := ManagedSpan(x).start, ManagedSpan(x).end;
      var b := x[s..t];
      && FindIter(Start, b) != [] && |FindIter(End, b)| == 1
      && var h, m := FindIter(Start, b)[0].end, FindIter(End, b)[0].start;
         && MatchAt(Start, b, 0) == Some(h) && MatchAt(End, b, m) == Some(m + |END_MARK|) && h < m
         && FindIter(Start, b)[0].start == 0
         && b[m + |END_MARK|..] == if t == |x| && m + |END_MARK| == |b| then "" else "\n"
  {
    hide MatchAt, FindIter;
    SpanMarkers(x);
    SpanReadsStart(x);
    SpanReadsEnd(x);
  }

  lemma FirstFound(kind: Kind, text: string, e: nat)
    requires MatchAt(kind, text, 0) == Some(e)
    ensures FindIter(kind, text) != [] && FindIter(kind, text)[0] == Match(0, e)
  {
    hide MatchAt;
    assert Matcher(kind, text)(0) == MatchAt(kind, text, 0);
  }

  lemma EndLength(x: string, i: nat)
    requires MatchAt(End, x, i).Some?
    ensures MatchAt(End, x, i).value == i + |END_MARK|
  {
  }

  /** An end marker of the span is an end marker of the text. */
  lemma EndInSpan(x: string, a: nat, t: nat, end: nat, j: nat)
    requires a <= t <= |x| && LineStart(x, a) && end <= t == SpanEnd(x, end) && LineEnd(x, end)
    requires j <= t - a && MatchAt(End, x[a..t], j).Some?
    ensures MatchAt(End, x, a + j).Some?
  {
    hide MatchAt;
    var b := x[a..t];
    WholeLines(End, b, j);
    EndLength(b, j);
    var n := |END_MARK|;
    SliceOfSlice(x, a, t, j, j + n);
    assert b[j + n - 1] == x[a + j + n - 1] && (j > 0 ==> b[j - 1] == x[a + j - 1]);
    assert j + n < |b| ==> b[j + n] == x[a + j + n];
    MatchIsLocal(End, b, j, x, a + j, n);
  }

  /** A span that agrees with the projection is its block, up to the final line break of the text. */
  lemma ValidSpanIsBlock(p: ManagedProjection, x: string)
    requires p.body != ""
    requires p.Inspect(x).Some? && p.Inspect(x).value.valid
    ensures ManagedSpan(x).Managed?
    ensures var s, t := ManagedSpan(x).start, ManagedSpan(x).end;
      x[s..t] == p.Block() || (t == |x| && x[s..t] + "\n" == p.Block())
  {
    hide MatchAt, ManagedProjection.Block, ManagedSpan, BodyBetween, ManagedProjection.HeaderAgrees;
    SpanReads(x);
    var b := x[ManagedSpan(x).start..ManagedSpan(x).end];
    var h, m := FindIter(Start, b)[0].end, FindIter(End, b)[0].start;
    PiecesAreBlock(p, b, h, m);
    assert b + "" == b;
  }

  lemma PiecesAreBlock(p: ManagedProjection, b: string, h: nat, m: nat)
    requires p.body != "" && h < m
    requires MatchAt(Start, b, 0) == Some(h) && MatchAt(End, b, m) == Some(m + |END_MARK|)
    requires p.HeaderAgrees(b, 0, p.body) && BodyBetween(b, h + 1, m) == p.body
    requires b[m + |END_MARK|..] in {"", "\n"}
    ensures p.Block() == if b[m + |END_MARK|..] == "" then b + "\n" else b
  {
    hide MatchAt;
    HeaderReads(p, b, h);
    WholeLines(Start, b, 0);
    WholeLines(End, b, m);
    EndReads(b, m);
    Rebuilt(b, h, m, m + |END_MARK|);
    assert b[m + |END_MARK|..] == "" ==> b + "\n" == p.Block();
  }

  lemma Rebuilt(b: string, h: nat, m: nat, e: nat)
    requires h + 1 < m <= e <= |b| && b[h] == '\n' && b[m - 1] == '\n'
    ensures b == b[..h] + "\n" + b[h + 1..m - 1] + "\n" + b[m..e] + b[e..]
  {
  }

  lemma EndReads(b: string, m: nat)
    requires MatchAt(End, b, m).Some?
    ensures m + |END_MARK| <= |b| && b[m..m + |END_MARK|] == END_MARK
  {
  }

  lemma HeaderReads(p: ManagedProjection, b: string, h: nat)
    requires MatchAt(Start, b, 0) == Some(h)
    requires p.HeaderAgrees(b, 0, p.body)
    ensures b[..h] == p.Header()
  {
    var s, q := |START_HEAD|, VersionEnd(b, 0);
    var d := q + |HASH_HEAD|;
    StartOf(b, 0);
    assert b[0..s] == START_HEAD && b[q..d] == HASH_HEAD && b[d + 64..h] == START_TAIL && h <= |b|;
    assert b[s..q] == p.version && b[d..d + 64] == p.sha(p.body);
    hide MatchAt, StartsAt, StartRest, VersionEnd, Run, ManagedProjection.HeaderAgrees, HexDigits, Lacks;
    FiveSlices(b, s, q, d, d + 64, h);
  }

  lemma FiveSlices(b: string, i: nat, j: nat, k: nat, m: nat, n: nat)
    requires i <= j <= k <= m <= n <= |b|
    ensures b[..n] == b[0..i] + b[i..j] + b[j..k] + b[k..m] + b[m..n]
  {
  }

  /** Rendering over a valid block changes nothing, but for a missing final line break. */
  lemma ValidIsRendered(p: ManagedProjection, x: string)
    requires p.body != ""
    requires p.Inspect(x).Some? && p.Inspect(x).value.valid
    ensures p.Render(x) == Some(x) || p.Render(x) == Some(x + "\n")
  {
    hide MatchAt, ManagedSpan, ManagedProjection.Block;
    ValidSpanIsBlock(p, x);
    var s, t := ManagedSpan(x).start, ManagedSpan(x).end;
    assert x == x[..s] + x[s..t] + x[t..];
    if x[s..t] != p.Block() {
      assert x + "\n" == x[..s] + (x[s..t] + "\n") + x[t..];
    }
  }

  /** For an empty body that fails: a block without the empty line is valid, yet rendering changes it. */
  lemma EmptyBodyIsRewritten(p: ManagedProjection)
    requires WellFormed(p) && p.body == ""
    ensures var x := p.Header() + "\n" + END_MARK + "\n";
      && p.Inspect(x) == Some(Status(true, true, Some(p.sha(""))))
      && p.Render(x).Some? && p.Render(x) != Some(x) && p.Render(x) != Some(x + "\n")
  {
    hide *;
    var x := p.Header() + "\n" + END_MARK + "\n";
    ShortIsValid(p, x);
    ShortIsRewritten(p, x);
  }

  lemma ShortIsValid(p: ManagedProjection, x: string)
    requires WellFormed(p) && p.body == "" && x == p.Header() + "\n" + END_MARK + "\n"
    ensures p.Inspect(x) == Some(Status(true, true, Some(p.sha(""))))
  {
    hide MatchAt, ManagedProjection.Header, ManagedSpan, ManagedProjection.HeaderAgrees, WellFormed;
    ShortBlockIsSpan(p, x);
    ShortHeaderAgrees(p, x);
    assert x[|p.Header()| + 1..|p.Header()| + 1] == "";
  }

  lemma ShortIsRewritten(p: ManagedProjection, x: string)
    requires WellFormed(p) && p.body == "" && x == p.Header() + "\n" + END_MARK + "\n"
    ensures p.Render(x).Some? && p.Render(x) != Some(x) && p.Render(x) != Some(x + "\n")
  {
    hide MatchAt, ManagedProjection.Header, ManagedProjection.Block, ManagedSpan, WellFormed, FindIter;
    ShortBlockIsSpan(p, x);
    ShortBlockStarts(p, x);
    BodyPieces(p);
    assert "" + p.Block() + "" == p.Block();
    assert p.Block()[|p.Header()| + 1] != x[|p.Header()| + 1];
  }

  lemma ShortBlockIsSpan(p: ManagedProjection, x: string)
    requires WellFormed(p) && p.body == "" && x == p.Header() + "\n" + END_MARK + "\n"
    ensures ManagedSpan(x) == Managed(0, |x|) && x[0..|x|] == x && x[..0] == "" && x[|x|..] == ""
    ensures FindIter(Start, x) != [] && FindIter(Start, x)[0] == Match(0, |p.Header()|)
    ensures FindIter(End, x) != [] && FindIter(End, x)[0].start == |p.Header()| + 1
  {
    hide MatchAt, ManagedProjection.Header;
    var h := |p.Header()|;
    assert x[..0] == "" && x[|x|..] == "" && x[0..|x|] == x;
    EmptyIsUnmarked();
    ShortBlockIsBlock(p, x);
    FramedIsSpan(x, 0, x, h, h + 1);
    SpanReads(x);
    EndInFrame(x, 0, x, h, h + 1, FindIter(End, x)[0].start, |END_MARK|);
  }

  lemma ShortBlockStarts(p: ManagedProjection, x: string)
    requires WellFormed(p) && p.body == "" && x == p.Header() + "\n" + END_MARK + "\n"
    ensures x[..|p.Header()| + 1] == p.Block()[..|p.Header()| + 1]
    ensures x[|p.Header()| + 1..] == p.Block()[|p.Header()| + 2..]
    ensures x[|p.Header()|] == '\n' && x[|p.Header()| + 1] == '<'
    ensures |x| == |p.Header()| + 2 + |END_MARK| && x[|x| - 1] == '\n'
  {
    assert p.Block() == p.Header() + "\n" + "\n" + END_MARK + "\n";
  }

  lemma ShortBlockIsBlock(p: ManagedProjection, x: string)
    requires WellFormed(p) && p.body == "" && x == p.Header() + "\n" + END_MARK + "\n"
    ensures IsBlock(x, |p.Header()|, |p.Header()| + 1)
  {
    var h, m := |p.Header()|, |p.Header()| + 1;
    assert x[..h + 1] == p.Header() + "\n" && x[|x| - 1] == '\n' && m + |END_MARK| + 1 == |x|;
    HeaderStarts(p, x);
    assert x[m..m + |END_MARK|] == END_MARK && x[m - 1] == '\n' && x[m + |END_MARK|] == '\n';
    assert MatchAt(End, x, m) == Some(m + |END_MARK|);
    hide MatchAt, OpenStart, ManagedProjection.Header, WellFormed;
    forall j | 0 < j < |x| ensures SettledAt(x, m, j) {
      if j <= h { HeaderSettles(p, x, j); }
      else if j == m { EndIsNoStart(x, m); }
      else { AfterEndSettles(x, m, j); }
    }
  }

  lemma ShortHeaderAgrees(p: ManagedProjection, x: string)
    requires WellFormed(p) && p.body == "" && x == p.Header() + "\n" + END_MARK + "\n"
    ensures p.HeaderAgrees(x, 0, "")
  {
    assert x[..|p.Header()| + 1] == p.Header() + "\n";
    HeaderAgreesHere(p, x);
  }

  lemma HeaderAgreesHere(p: ManagedProjection, b: string)
    requires HexDigits(p.sha(p.body)) && HasHeader(p, b) && p.version != "" && Lacks(p.version, '"')
    ensures p.HeaderAgrees(b, 0, p.body)
  {
    HeaderStarts(p, b);
    HeaderPieces(p, b);
    hide HasHeader, ManagedProjection.Header, HexDigits, VersionEnd;
  }

  // ---- Exactly which projections are read back ----

  lemma BracketFreeIsUnmarked(s: string)
    requires Lacks(s, '<')
    ensures QuietBody(s)
  {
    MarkersAreOneLine();
    forall kind: Kind, i: nat | i <= |s| ensures MatchAt(kind, s, i).None? {
      if MatchAt(kind, s, i).Some? {
        MarkerBegins(kind, s, i);
        CharOf(s, MARKER, i, i);
      }
    }
    hide MatchAt;
    UnmarkedBy(s);
    forall j | 0 <= j <= |s| ensures !OpenStart(s, j) {
      if OccursAt(s, START_HEAD, j) { CharOf(s, START_HEAD, j, j); }
    }
  }

  /** A one-line version without quotes and a body without an opening bracket, such as the shipped instructions. */
  lemma BracketFreeFits(version: string, body: string, sha: string -> string)
    requires version != "" && Lacks(version, '"') && Lacks(version, '\n')
    requires Lacks(body, '<') && HexDigits(sha(body))
    ensures WellFormed(ManagedProjection(version, body, sha))
  {
    BracketFreeIsUnmarked(body);
    var quoted := version + "\"";
    forall j | 0 < j <= |version| ensures MatchAt(End, quoted, j).None? {
      assert quoted[j - 1] == version[j - 1];
    }
  }

  /** What was rendered into the text is found present and valid. */
  predicate RendersValid(p: ManagedProjection, x: string) {
    p.Render(x).Some? && p.Inspect(p.Render(x).value) == Some(Status(true, true, Some(p.sha(p.body))))
  }

  /** A valid block names a version that is not empty and has no quote. */
  lemma ValidNamesVersion(p: ManagedProjection, x: string)
    requires p.Inspect(x).Some? && p.Inspect(x).value.valid
    ensures p.version != "" && Lacks(p.version, '"')
  {
    hide MatchAt, ManagedSpan;
    SpanReads(x);
    var b := x[ManagedSpan(x).start..ManagedSpan(x).end];
    StartOf(b, 0);
    VersionIsNotEmpty(b, 0);
  }

  lemma VersionIsNotEmpty(text: string, i: nat)
    requires MatchAt(Start, text, i).Some?
    ensures VersionEnd(text, i) > i + |START_HEAD|
  {
    hide VersionEnd;
  }

  /** Two markers of a kind are a conflict. */
  lemma TwoMarkersConflict(kind: Kind, text: string, i: nat, j: nat)
    requires i < j <= |text| && MatchAt(kind, text, i).Some? && MatchAt(kind, text, j).Some?
    ensures ManagedSpan(text).Conflict?
  {
    hide MatchAt, FindIter;
    FindIterMeaning(kind, text);
    assert Matcher(kind, text)(i) == MatchAt(kind, text, i) && Matcher(kind, text)(j) == MatchAt(kind, text, j);
  }

  lemma RenderIntoNothing(p: ManagedProjection)
    ensures ManagedSpan("").NoSpan? && p.Render("") == Some(p.Block())
  {
    hide MatchAt, FindIter, ManagedSpan;
    EmptyIsUnmarked();
    SpanMeaning("");
    assert "" + "" + p.Block() == p.Block();
  }

  lemma ConflictIsNotValid(p: ManagedProjection, x: string)
    requires p.Render(x).Some? && ManagedSpan(p.Render(x).value).Conflict?
    ensures !RendersValid(p, x)
  {
  }

  /** An end marker inside the version is one of the block. */
  lemma MarkedVersionMarks(p: ManagedProjection, b: string, j: nat)
    requires HexDigits(p.sha(p.body)) && HasHeader(p, b)
    requires 0 < j <= |p.version| && MatchAt(End, p.version + "\"", j).Some?
    ensures MatchAt(End, b, |START_HEAD| + j).Some?
  {
    var h, n, q, quoted := |START_HEAD|, |END_MARK|, |START_HEAD| + |p.version|, p.version + "\"";
    hide *;
    QuotedStands(p, b);
    EndOfQuoted(p.version, j);
    LineOfSlice(b, h, quoted, j, n);
    WholeLines(End, quoted, j);
    MatchIsLocal(End, quoted, j, b, h + j, n);
  }

  lemma EndOfQuoted(version: string, j: nat)
    requires MatchAt(End, version + "\"", j).Some?
    ensures MatchAt(End, version + "\"", j).value == j + |END_MARK| < |version + "\""|
  {
    var quoted := version + "\"";
    assert quoted[|quoted| - 1] == '"';
    EndLength(quoted, j);
    hide MatchAt;
    WholeLines(End, quoted, j);
  }

  /** So the block is a conflict. */
  lemma MarkedVersionFails(p: ManagedProjection)
    requires HexDigits(p.sha(p.body)) && !QuietVersion(p.version)
    ensures ManagedSpan(p.Block()).Conflict?
  {
    hide MatchAt, HasHeader, ManagedProjection.Block, ManagedProjection.Header, HexDigits, ManagedSpan;
    var j :| 0 < j <= |p.version| && MatchAt(End, p.version + "\"", j).Some?;
    HeaderLength(p);
    BlockHasHeader(p);
    MarkedVersionMarks(p, p.Block(), j);
    BlockEnds(p);
    TwoMarkersConflict(End, p.Block(), |START_HEAD| + j, p.EndStart());
  }

  lemma HeaderLength(p: ManagedProjection)
    ensures |START_HEAD| + |p.version| <= |p.Header()| < p.EndStart() <= |p.Block()|
    ensures |p.Header()| + 2 + |p.body| == p.EndStart()
  {
  }

  /** So does a marker line of the body. */
  lemma MarkedBodyFails(p: ManagedProjection)
    requires HexDigits(p.sha(p.body)) && p.version != "" && Lacks(p.version, '"') && !Unmarked(p.body)
    ensures ManagedSpan(p.Block()).Conflict?
  {
    hide *;
    HeaderLength(p);
    var b, a, stop := p.Block(), |p.Header()| + 1, p.EndStart() - 1;
    BlockHasHeader(p);
    HeaderStarts(p, b);
    BlockEnds(p);
    BodyIsPiece(p);
    var kind, k := MarkerOf(p.body);
    MatchOfPiece(kind, b, a, p.body, stop, k);
    if kind.Start? {
      TwoMarkersConflict(Start, b, 0, a + k);
    } else {
      TwoMarkersConflict(End, b, a + k, p.EndStart());
    }
  }

  lemma MarkerOf(s: string) returns (kind: Kind, k: nat)
    requires !Unmarked(s)
    ensures k <= |s| && MatchAt(kind, s, k).Some?
  {
    hide MatchAt;
    if i :| 0 <= i <= |s| && Matcher(Start, s)(i).Some? {
      kind, k := Start, i;
    } else {
      var i :| 0 <= i <= |s| && Matcher(End, s)(i).Some?;
      kind, k := End, i;
    }
  }

  // ---- A start marker the user's text completes ----

  function Zeros(): (s: string)
    ensures HexDigits(s)
  {
    seq(64, i => '0')
  }

  /** What ends a start marker left open. */
  function Completion(): string { HASH_HEAD + Zeros() + START_TAIL + "\n" }

  /** A managed block before such text. */
  function Carrier(): ManagedProjection { ManagedProjection("1", "", s => Zeros()) }

  lemma CompletionPieces()
    ensures Lacks(Completion(), '<') && |Completion()| == EndOfStart(0) + 1
    ensures OccursAt(Completion(), HASH_HEAD, 0) && OccursAt(Completion(), Zeros(), |HASH_HEAD|)
    ensures OccursAt(Completion(), START_TAIL, |HASH_HEAD| + 64) && Completion()[EndOfStart(0)] == '\n'
  {
    var c := Completion();
    FivePieces(c, HASH_HEAD, Zeros(), START_TAIL, "\n", "");
    hide Zeros;
    assert Lacks(HASH_HEAD, '<') && Lacks(START_TAIL, '<') && Lacks("\n", '<');
  }

  lemma CarrierIsSpan()
    ensures var x, n := Carrier().Block() + Completion(), |Carrier().Block()|;
      && ManagedSpan(x) == Managed(0, n) && x[..0] == "" && x[n..] == Completion()
  {
    hide Carrier, Completion, ManagedProjection.Block, ManagedProjection.Header, IsBlock, MatchAt, Unmarked;
    hide ManagedSpan, Lacks, WellFormed;
    var p := Carrier();
    var b, x := p.Block(), p.Block() + Completion();
    CompletionPieces();
    CarrierFits();
    BlockIsBlock(p);
    EmptyIsUnmarked();
    BracketFreeIsUnmarked(Completion());
    assert x[0..|b|] == b && x[..0] == "" && x[|b|..] == Completion();
    FramedIsSpan(x, 0, b, |p.Header()|, p.EndStart());
  }

  lemma CarrierFits()
    ensures WellFormed(Carrier())
  {
    BracketFreeFits("1", "", Carrier().sha);
  }

  /** In the text a start marker left open at `j` ends with the completion at `c`. */
  lemma CompletedStarts(y: string, j: nat, c: nat)
    requires LineStart(y, j) && OccursAt(y, START_HEAD, j) && j + |START_HEAD| < c
    requires c + |Completion()| <= |y| && y[c..c + |Completion()|] == Completion()
    requires Lacks(y[j + |START_HEAD|..c], '"')
    ensures MatchAt(Start, y, j).Some?
  {
    hide OccursAt, Lacks, StartRest, LineStart, Completion;
    CompletionRests(y, c);
    StartRestIsQuoted(y, c);
    RunIsUnique(y, j + |START_HEAD|, c - j - |START_HEAD|);
  }

  lemma StartRestIsQuoted(y: string, c: nat)
    requires StartRest(y, c)
    ensures c < |y| && y[c] == '"'
  {
    CharOf(y, HASH_HEAD, c, c);
  }

  lemma CompletionRests(y: string, c: nat)
    requires c + |Completion()| <= |y| && y[c..c + |Completion()|] == Completion()
    ensures StartRest(y, c)
  {
    hide Completion, Zeros;
    CompletionPieces();
    var n := |Completion()|;
    OccursInSegment(y, c, c + n, HASH_HEAD, 0);
    OccursInSegment(y, c, c + n, Zeros(), |HASH_HEAD|);
    OccursInSegment(y, c, c + n, START_TAIL, |HASH_HEAD| + 64);
    assert y[c + EndOfStart(0)] == Completion()[EndOfStart(0)];
  }

  /** A body that leaves a start marker open conflicts when the text after the block ends it. */
  lemma OpenBodyFails(p: ManagedProjection, k: nat)
    requires HexDigits(p.sha(p.body)) && p.version != "" && Lacks(p.version, '"') && OpenStart(p.body, k)
    ensures ManagedSpan(p.Block() + Completion()).Conflict?
  {
    var b, y, j := p.Block(), p.Block() + Completion(), |p.Header()| + 1 + k;
    OpenStands(p, k);
    LacksRest(p, j, k);
    BlockHasHeader(p);
    hide ManagedProjection.Header, ManagedProjection.Block, OpenStart;
    assert y[..|b|] == b && y[|b|..|b| + |Completion()|] == Completion();
    assert y[..|p.Header()| + 1] == b[..|p.Header()| + 1];
    assert y[j..j + |START_HEAD|] == b[j..j + |START_HEAD|] && y[j - 1] == b[j - 1];
    assert y[j + |START_HEAD|..|b|] == b[j + |START_HEAD|..];
    assert HasHeader(p, y) && LineStart(y, j) && OccursAt(y, START_HEAD, j);
    hide *;
    HeaderStarts(p, y);
    CompletedStarts(y, j, |b|);
    TwoMarkersConflict(Start, y, 0, j);
  }

  lemma OpenStands(p: ManagedProjection, k: nat)
    requires OpenStart(p.body, k)
    ensures var b, j := p.Block(), |p.Header()| + 1 + k;
      j + |START_HEAD| < |b| && LineStart(b, j) && OccursAt(b, START_HEAD, j)
  {
    hide ManagedProjection.Header, ManagedProjection.Block;
    var b, a := p.Block(), |p.Header()| + 1;
    BodyPieces(p);
    OccursInSegment(b, a, a + |p.body|, START_HEAD, k);
    assert k > 0 ==> b[a..a + |p.body|][k - 1] == b[a + k - 1];
  }

  lemma LacksRest(p: ManagedProjection, j: nat, k: nat)
    requires OpenStart(p.body, k) && j == |p.Header()| + 1 + k
    ensures j + |START_HEAD| <= |p.Block()| && Lacks(p.Block()[j + |START_HEAD|..], '"')
  {
    MarkersAreOneLine();
    var b, h := p.Block(), k + |START_HEAD|;
    assert b == (p.Header() + "\n" + p.body[..h]) + (p.body[h..] + "\n" + END_MARK + "\n") by {
      assert p.body == p.body[..h] + p.body[h..];
    }
    assert b[j + |START_HEAD|..] == p.body[h..] + "\n" + END_MARK + "\n";
  }

  /** Every other projection with a digest has a text without conflict in which it is not read back. */
  lemma UnfitFails(p: ManagedProjection) returns (x: string)
    requires HexDigits(p.sha(p.body)) && !WellFormed(p)
    ensures !ManagedSpan(x).Conflict? && !RendersValid(p, x)
  {
    x := "";
    RenderIntoNothing(p);
    if p.version == "" || !Lacks(p.version, '"') {
      if RendersValid(p, x) { ValidNamesVersion(p, p.Block()); }
    } else if !QuietVersion(p.version) {
      MarkedVersionFails(p);
      ConflictIsNotValid(p, x);
    } else if !Unmarked(p.body) {
      MarkedBodyFails(p);
      ConflictIsNotValid(p, x);
    } else {
      var k :| 0 <= k <= |p.body| && OpenStart(p.body, k);
      hide ManagedSpan, OpenStart, ManagedProjection.Block, RendersValid, Completion;
      x := Carrier().Block() + Completion();
      CarrierIsSpan();
      OpenBodyFails(p, k);
      assert "" + p.Block() + Completion() == p.Block() + Completion();
      ConflictIsNotValid(p, x);
    }
  }

  /** A projection is read back from every text without conflict exactly when it is well formed. */
  lemma RendersValidExactly(p: ManagedProjection)
    requires HexDigits(p.sha(p.body))
    ensures (forall x :: !ManagedSpan(x).Conflict? ==> RendersValid(p, x)) <==> WellFormed(p)
  {
    hide ManagedSpan, WellFormed;
    if WellFormed(p) {
      forall x | !ManagedSpan(x).Conflict? ensures RendersValid(p, x) { RenderIsValid(p, x); }
    } else {
      var x := UnfitFails(p);
    }
  }
}
