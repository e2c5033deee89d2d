/** Semantic versions (items 2, 9 and 10 of Semantic Versioning 2.0.0): the grammar and the installer's recogniser. */
module SemanticVersion {
  import opened Prelude
  import opened Texts

  // ---- The grammar ----

  datatype Kind = Core | Prerelease | Build

  predicate IsIdentifierChar(c: char) { IsDigit(c) || IsLetter(c) || c == '-' }

  predicate Digits(s: string) { forall i :: 0 <= i < |s| ==> IsDigit(s[i]) }

  predicate IdentifierChars(s: string) { forall i :: 0 <= i < |s| ==> IsIdentifierChar(s[i]) }

  /** `0|[1-9][0-9]*`. */
  predicate Number(s: string) {
    s == "0" || (s != "" && '1' <= s[0] <= '9' && Digits(s[1..]))
  }

  /** `[0-9]*[A-Za-z-][0-9A-Za-z-]*` with the first letter or hyphen at `k`. */
  predicate AlphanumericFrom(s: string, k: nat) {
    k < |s| && Digits(s[..k]) && (IsLetter(s[k]) || s[k] == '-') && IdentifierChars(s[k + 1..])
  }

  predicate Identifier(kind: Kind, s: string) {
    match kind
    case Core => Number(s)
    case Prerelease => Number(s) || exists k :: 0 <= k < |s| && AlphanumericFrom(s, k)
    case Build => s != "" && IdentifierChars(s)
  }

  function Join(parts: seq<string>): string
    requires parts != []
  {
    if |parts| == 1 then parts[0] else parts[0] + "." + Join(parts[1..])
  }

  /** Identifiers of one kind separated by dots. */
  ghost predicate Dotted(kind: Kind, s: string) {
    exists parts: seq<string> :: parts != [] && Identifiers(kind, parts) && Join(parts) == s
  }

  predicate Identifiers(kind: Kind, parts: seq<string>) {
    forall i :: 0 <= i < |parts| ==> Identifier(kind, parts[i])
  }

  ghost predicate Spelled(value: string, core: seq<string>, pre: Option<string>, build: Option<string>) {
    && |core| == 3 && Identifiers(Core, core)
    && (pre.Some? ==> Dotted(Prerelease, pre.value))
    && (build.Some? ==> Dotted(Build, build.value))
    && value == Join(core) + (if pre.Some? then "-" + pre.value else "")
                + (if build.Some? then "+" + build.value else "")
  }

  /** `is_semver`: the whole string is a version core with an optional pre-release and optional build metadata. */
  ghost predicate IsSemver(value: string) {
    exists core, pre, build :: Spelled(value, core, pre, build)
  }

  // ---- What the installer's awk program uses ----

  /** `index(s, c)`, from zero. */
  function Index(s: string, c: char): (i: Option<nat>)
    ensures i.Some? ==> i.value < |s| && s[i.value] == c && Lacks(s[..i.value], c)
    ensures i.None? ==> Lacks(s, c)
  {
    if s == "" then None
    else if s[0] == c then Some(0)
    else
      var rest := Index(s[1..], c);
      if rest.None? then None
      else
        assert s[..rest.value + 1] == [s[0]] + s[1..][..rest.value];
        Some(rest.value + 1)
  }

  function Pieces(s: string): (parts: seq<string>)
    ensures parts != []
    decreases |s|
  {
    var i := Index(s, '.');
    if i.None? then [s] else [s[..i.value]] + Pieces(s[i.value + 1..])
  }

  /** `split(s, parts, ".")`. */
  function Split(s: string): seq<string> {
    if s == "" then [] else Pieces(s)
  }

  /** The installer's test of one identifier. */
  predicate AwkIdentifier(prerelease: bool, s: string) {
    && s != "" && IdentifierChars(s)
    && !(prerelease && Digits(s) && |s| > 1 && s[0] == '0')
  }

  predicate AwkNumber(s: string) {
    s != "" && Digits(s) && !(|s| > 1 && s[0] == '0')
  }

  // ---- Why they agree ----

  lemma NumberIsAwk(s: string)
    ensures AwkNumber(s) <==> Number(s)
  {
    if s != "" {
      assert Digits(s) <==> IsDigit(s[0]) && Digits(s[1..]) by {
        assert s == [s[0]] + s[1..];
        assert forall i :: 0 < i < |s| ==> s[1..][i - 1] == s[i];
      }
      assert |s| == 1 ==> s == [s[0]];
    }
  }

  lemma {:induction false} FirstLetter(s: string)
    requires IdentifierChars(s)
    ensures Digits(s) || exists k :: 0 <= k < |s| && AlphanumericFrom(s, k)
  {
    if s != "" {
      if IsDigit(s[0]) {
        FirstLetter(s[1..]);
        assert s == [s[0]] + s[1..];
        if k :| 0 <= k < |s[1..]| && AlphanumericFrom(s[1..], k) {
          assert s[..k + 1] == [s[0]] + s[1..][..k];
          assert s[k + 2..] == s[1..][k + 1..];
          assert AlphanumericFrom(s, k + 1);
        }
      } else {
        assert s[..0] == "";
        assert AlphanumericFrom(s, 0);
      }
    }
  }

  lemma AlphanumericHasLetter(s: string, k: nat)
    requires AlphanumericFrom(s, k)
    ensures !Digits(s) && IdentifierChars(s)
  {
    forall i | 0 <= i < |s| ensures IsIdentifierChar(s[i]) {
      if i < k { assert s[..k][i] == s[i]; } else if i > k { assert s[k + 1..][i - k - 1] == s[i]; }
    }
  }

  lemma NumberHasIdentifierChars(s: string)
    requires Number(s)
    ensures Digits(s) && IdentifierChars(s) && s != ""
  {
    forall i | 0 <= i < |s| ensures IsDigit(s[i]) {
      if i > 0 { assert s[1..][i - 1] == s[i]; }
    }
  }

  lemma IdentifierIsAwk(s: string)
    ensures AwkIdentifier(true, s) <==> Identifier(Prerelease, s)
    ensures AwkIdentifier(false, s) <==> Identifier(Build, s)
  {
    NumberIsAwk(s);
    if AwkIdentifier(true, s) { FirstLetter(s); }
    if Number(s) { NumberHasIdentifierChars(s); }
    if k :| 0 <= k < |s| && AlphanumericFrom(s, k) { AlphanumericHasLetter(s, k); }
  }

  /** Identifiers hold neither separator. */
  lemma IdentifierLacks(kind: Kind, s: string)
    requires Identifier(kind, s)
    ensures s != "" && Lacks(s, '.') && Lacks(s, '+') && (kind.Core? ==> Lacks(s, '-'))
  {
    if Number(s) {
      NumberHasIdentifierChars(s);
    } else if kind.Prerelease? {
      var k :| 0 <= k < |s| && AlphanumericFrom(s, k);
      AlphanumericHasLetter(s, k);
    }
  }

  lemma {:induction false} JoinLacks(kind: Kind, parts: seq<string>)
    requires parts != [] && Identifiers(kind, parts)
    ensures Lacks(Join(parts), '+') && (kind.Core? ==> Lacks(Join(parts), '-'))
  {
    IdentifierLacks(kind, parts[0]);
    if |parts| > 1 {
      JoinLacks(kind, parts[1..]);
    }
  }

  lemma {:induction false} IndexIsUnique(a: string, c: char, b: string)
    requires Lacks(a, c)
    ensures Index(a + [c] + b, c) == Some(|a|)
  {
    var s := a + [c] + b;
    if a == "" {
      assert s[0] == c;
    } else {
      assert s[0] == a[0] && s[1..] == a[1..] + [c] + b;
      IndexIsUnique(a[1..], c, b);
    }
  }

  lemma {:induction false} PiecesOfJoin(kind: Kind, parts: seq<string>)
    requires parts != [] && Identifiers(kind, parts)
    ensures Pieces(Join(parts)) == parts
  {
    IdentifierLacks(kind, parts[0]);
    if |parts| == 1 {
      assert Index(parts[0], '.').None?;
    } else {
      var rest := Join(parts[1..]);
      assert Join(parts) == parts[0] + ['.'] + rest;
      IndexIsUnique(parts[0], '.', rest);
      assert Join(parts)[..|parts[0]|] == parts[0] && Join(parts)[|parts[0]| + 1..] == rest;
      PiecesOfJoin(kind, parts[1..]);
    }
  }

  lemma {:induction false} JoinOfPieces(s: string)
    ensures Join(Pieces(s)) == s
    decreases |s|
  {
    var i := Index(s, '.');
    if i.Some? {
      JoinOfPieces(s[i.value + 1..]);
      assert s == s[..i.value] + "." + s[i.value + 1..];
      assert Pieces(s)[1..] == Pieces(s[i.value + 1..]);
    }
  }

  /** A dotted list is what its pieces make it. */
  lemma DottedByPieces(kind: Kind, s: string)
    ensures Dotted(kind, s) <==> Identifiers(kind, Pieces(s))
  {
    JoinOfPieces(s);
    if Dotted(kind, s) {
      var parts: seq<string> :| parts != [] && Identifiers(kind, parts) && Join(parts) == s;
      PiecesOfJoin(kind, parts);
    }
  }

  // ---- Cutting at the first separator ----

  function Before(s: string, c: char): string {
    if Index(s, c).None? then s else s[..Index(s, c).value]
  }

  function After(s: string, c: char): Option<string> {
    if Index(s, c).None? then None else Some(s[Index(s, c).value + 1..])
  }

  function Glued(a: string, c: char, b: Option<string>): string {
    a + if b.Some? then [c] + b.value else ""
  }

  /** Gluing and cutting undo each other when what comes first lacks the separator. */
  lemma CutOfGlued(a: string, c: char, b: Option<string>)
    requires Lacks(a, c)
    ensures Before(Glued(a, c, b), c) == a && After(Glued(a, c, b), c) == b
  {
    if b.Some? {
      var s := a + [c] + b.value;
      assert Glued(a, c, b) == s;
      IndexIsUnique(a, c, b.value);
      hide Index, Lacks;
      assert s[..|a|] == a && s[|a| + 1..] == b.value;
    } else {
      assert a + "" == a;
      LacksIsNotFound(a, c);
    }
  }

  lemma LacksIsNotFound(a: string, c: char)
    requires Lacks(a, c)
    ensures Index(a, c).None?
  {
  }

  lemma GluedOfCut(s: string, c: char)
    ensures Glued(Before(s, c), c, After(s, c)) == s
  {
    var i := Index(s, c);
    hide Index, Lacks;
    if i.Some? {
      assert [s[i.value]] == [c];
      assert s == s[..i.value] + ([s[i.value]] + s[i.value + 1..]);
    }
  }

  // ---- The recogniser ----

  /** `valid_identifiers`. */
  method ValidIdentifiers(value: string, prerelease: bool) returns (valid: bool)
    ensures valid <==> Dotted(if prerelease then Prerelease else Build, value)
  {
    ghost var kind := if prerelease then Prerelease else Build;
    DottedByPieces(kind, value);
    var parts := Split(value);
    if |parts| < 1 {
      assert Pieces(value) == [""];
      return false;
    }
    for i := 0 to |parts|
      invariant Identifiers(kind, parts[..i])
    {
      IdentifierIsAwk(parts[i]);
      if parts[i] == "" || !IdentifierChars(parts[i]) { return false; }
      if prerelease && Digits(parts[i]) && |parts[i]| > 1 && parts[i][0] == '0' { return false; }
    }
    assert parts[..|parts|] == parts;
    valid := true;
  }

  /** The three numbers of the version core. */
  method ValidCore(base: string) returns (valid: bool)
    ensures valid <==> |Split(base)| == 3 && Identifiers(Core, Split(base))
  {
    var core := Split(base);
    if |core| != 3 { return false; }
    for part := 0 to 3
      invariant Identifiers(Core, core[..part])
    {
      NumberIsAwk(core[part]);
      if !(core[part] != "" && Digits(core[part])) || (|core[part]| > 1 && core[part][0] == '0') { return false; }
    }
    assert core[..3] == core;
    valid := true;
  }

  /** `validate_semver`, on a version without backslashes, which the shell's assignment would interpret. */
  method ValidateSemver(version: string) returns (valid: bool)
    requires Lacks(version, '\\')
    ensures valid <==> IsSemver(version)
  {
    hide Dotted, IsSemver, Identifiers, Split;
    SemverByParts(version);
    var base := version;
    var plus := Index(base, '+');
    if plus.Some? {
      var build := base[plus.value + 1..];
      base := base[..plus.value];
      var ok := ValidIdentifiers(build, false);
      if build == "" || Index(build, '+').Some? || !ok {
        BuildHasNoPlus(build);
        return false;
      }
    }
    assert base == BasePart(version);
    var dash := Index(base, '-');
    if dash.Some? {
      var prerelease := base[dash.value + 1..];
      base := base[..dash.value];
      var ok := ValidIdentifiers(prerelease, true);
      if prerelease == "" || !ok {
        DottedIsNotEmpty(Prerelease, prerelease);
        return false;
      }
    }
    valid := ValidCore(base);
  }

  function BuildPart(value: string): Option<string> { After(value, '+') }

  function BasePart(value: string): string { Before(value, '+') }

  function PrereleasePart(value: string): Option<string> { After(BasePart(value), '-') }

  function CorePart(value: string): string { Before(BasePart(value), '-') }

  lemma DottedIsNotEmpty(kind: Kind, s: string)
    ensures Dotted(kind, s) ==> s != ""
  {
    if Dotted(kind, s) {
      var parts: seq<string> :| parts != [] && Identifiers(kind, parts) && Join(parts) == s;
      IdentifierLacks(kind, parts[0]);
    }
  }

  lemma BuildHasNoPlus(s: string)
    ensures Dotted(Build, s) ==> s != "" && Index(s, '+').None?
  {
    if Dotted(Build, s) {
      var parts: seq<string> :| parts != [] && Identifiers(Build, parts) && Join(parts) == s;
      JoinLacks(Build, parts);
      DottedIsNotEmpty(Build, s);
    }
  }

  /** The parts cut at the first plus sign and the first hyphen before it are all in order. */
  ghost predicate PartsInOrder(value: string) {
    && (BuildPart(value).Some? ==> Dotted(Build, BuildPart(value).value))
    && (PrereleasePart(value).Some? ==> Dotted(Prerelease, PrereleasePart(value).value))
    && |Split(CorePart(value))| == 3 && Identifiers(Core, Split(CorePart(value)))
  }

  lemma BaseLacksPlus(core: seq<string>, pre: Option<string>)
    requires core != [] && Identifiers(Core, core) && (pre.Some? ==> Dotted(Prerelease, pre.value))
    ensures Lacks(Join(core), '-') && Lacks(Glued(Join(core), '-', pre), '+')
  {
    JoinLacks(Core, core);
    if pre.Some? {
      var parts: seq<string> :| parts != [] && Identifiers(Prerelease, parts) && Join(parts) == pre.value;
      JoinLacks(Prerelease, parts);
    }
  }

  lemma SpelledIsInOrder(value: string, core: seq<string>, pre: Option<string>, build: Option<string>)
    requires Spelled(value, core, pre, build)
    ensures PartsInOrder(value)
  {
    SpelledIsGlued(value, core, pre, build);
    PiecesOfJoin(Core, core);
    CoreIsNotEmpty(core);
    hide Dotted, Identifiers, Pieces, Join, Index, Lacks, Glued, Before, After;
    BaseLacksPlus(core, pre);
    CutOfGlued(Glued(Join(core), '-', pre), '+', build);
    CutOfGlued(Join(core), '-', pre);
  }

  lemma SpelledIsGlued(value: string, core: seq<string>, pre: Option<string>, build: Option<string>)
    ensures Spelled(value, core, pre, build) <==>
      && |core| == 3 && Identifiers(Core, core)
      && (pre.Some? ==> Dotted(Prerelease, pre.value)) && (build.Some? ==> Dotted(Build, build.value))
      && value == Glued(Glued(Join(core), '-', pre), '+', build)
  {
    hide Dotted, Identifiers, Join;
  }

  lemma InOrderIsSpelled(value: string)
    requires PartsInOrder(value)
    ensures Spelled(value, Split(CorePart(value)), PrereleasePart(value), BuildPart(value))
  {
    JoinOfPieces(CorePart(value));
    hide Dotted, Identifiers, Pieces, Join, Index, Before, After, Glued, Spelled;
    GluedOfCut(value, '+');
    GluedOfCut(BasePart(value), '-');
    SpelledIsGlued(value, Split(CorePart(value)), PrereleasePart(value), BuildPart(value));
  }

  lemma SemverByParts(value: string)
    ensures IsSemver(value) <==> PartsInOrder(value)
  {
    hide Spelled, PartsInOrder;
    if IsSemver(value) {
      var core, pre, build :| Spelled(value, core, pre, build);
      SpelledIsInOrder(value, core, pre, build);
    }
    if PartsInOrder(value) { InOrderIsSpelled(value); }
  }

  lemma CoreIsNotEmpty(core: seq<string>)
    requires core != [] && Identifiers(Core, core)
    ensures Join(core) != ""
  {
    IdentifierLacks(Core, core[0]);
  }
}
