/** The version language: the regular expression of validateVersion (validator.go:128), a parser and
    printer, and the grammar of Semantic Versioning 2.0.0, proved to describe the same strings. */
module SemVer {
  import opened Skills
  import opened Regex

  predicate IsDigit(c: char) {
    '0' <= c <= '9'
  }

  predicate IsNonDigit(c: char) {
    'a' <= c <= 'z' || 'A' <= c <= 'Z' || c == '-'
  }

  predicate IsIdentChar(c: char) {
    IsDigit(c) || IsNonDigit(c)
  }

  predicate AllDigits(s: string) {
    forall i :: 0 <= i < |s| ==> IsDigit(s[i])
  }

  /** A number without leading zeros (item 2). */
  predicate IsNumber(s: string) {
    s != [] && AllDigits(s) && (s[0] == '0' ==> |s| == 1)
  }

  /** A build identifier (item 10): a non-empty string of letters, digits and hyphens. */
  predicate IsBuildId(s: string) {
    s != [] && forall i :: 0 <= i < |s| ==> IsIdentChar(s[i])
  }

  /** A pre-release identifier (item 9): as above, and numeric ones have no leading zeros. */
  predicate IsPreReleaseId(s: string) {
    IsBuildId(s) && (AllDigits(s) ==> IsNumber(s))
  }

  /** An empty list stands for an absent part. */
  datatype Version = Version(major: string, minor: string, patch: string, preRelease: seq<string>, build: seq<string>)

  predicate WellFormed(v: Version) {
    && IsNumber(v.major) && IsNumber(v.minor) && IsNumber(v.patch)
    && (forall s :: s in v.preRelease ==> IsPreReleaseId(s))
    && (forall s :: s in v.build ==> IsBuildId(s))
  }

  // ---------- Printing and parsing ----------

  function DotEach(ids: seq<string>): string {
    if ids == [] then "" else "." + ids[0] + DotEach(ids[1..])
  }

  function Join(ids: seq<string>): string
    requires ids != []
  {
    ids[0] + DotEach(ids[1..])
  }

  function PrintCore(v: Version): string {
    v.major + "." + v.minor + "." + v.patch
  }

  function PrintPart(mark: char, ids: seq<string>): string {
    if ids == [] then "" else [mark] + Join(ids)
  }

  function Print(v: Version): string {
    PrintCore(v) + PrintPart('-', v.preRelease) + PrintPart('+', v.build)
  }

  /** Cuts a string at the first occurrence of a character. */
  function Cut(s: string, c: char): (r: Option<(string, string)>)
    ensures r.None? <==> c !in s
    ensures r.Some? ==> s == r.value.0 + [c] + r.value.1 && c !in r.value.0
  {
    if s == [] then None
    else if s[0] == c then Some(([], s[1..]))
    else
      match Cut(s[1..], c)
      case None => None
      case Some((a, b)) => Some(([s[0]] + a, b))
  }

  function Split(s: string): (parts: seq<string>)
    ensures parts != []
    decreases |s|
  {
    match Cut(s, '.')
    case None => [s]
    case Some((a, b)) => [a] + Split(b)
  }

  function CutPart(s: string, mark: char): (string, seq<string>) {
    match Cut(s, mark)
    case None => (s, [])
    case Some((a, b)) => (a, Split(b))
  }

  function Parse(s: string): Option<Version> {
    var (main, build) := CutPart(s, '+');
    var (core, preRelease) := CutPart(main, '-');
    var parts := Split(core);
    if |parts| != 3 then None
    else
      var v := Version(parts[0], parts[1], parts[2], preRelease, build);
      if WellFormed(v) then Some(v) else None
  }

  lemma {:induction false} CutFirst(a: string, c: char, b: string)
    requires c !in a
    ensures Cut(a + [c] + b, c) == Some((a, b))
  {
    var s := a + [c] + b;
    if a != [] {
      assert s[1..] == a[1..] + [c] + b;
      CutFirst(a[1..], c, b);
      assert [a[0]] + a[1..] == a;
    }
  }

  lemma {:induction false} SplitOfJoin(ids: seq<string>)
    requires ids != [] && forall s :: s in ids ==> '.' !in s
    ensures Split(Join(ids)) == ids
    decreases |ids|
  {
    var rest := ids[1..];
    if rest == [] {
      assert Join(ids) == ids[0];
      assert Cut(ids[0], '.') == None;
    } else {
      assert Join(ids) == ids[0] + ['.'] + Join(rest);
      CutFirst(ids[0], '.', Join(rest));
      SplitOfJoin(rest);
    }
  }

  lemma {:induction false} JoinOfSplit(s: string)
    ensures Join(Split(s)) == s
    decreases |s|
  {
    if Cut(s, '.').Some? {
      var (a, b) := Cut(s, '.').value;
      JoinOfSplit(b);
      JoinCons(a, Split(b));
    }
  }

  lemma JoinCons(head: string, ids: seq<string>)
    requires ids != []
    ensures Join([head] + ids) == head + "." + Join(ids)
  {
    assert ([head] + ids)[1..] == ids;
  }

  lemma JoinThree(a: string, b: string, c: string)
    ensures Join([a, b, c]) == a + "." + b + "." + c
  {
    JoinCons(b, [c]);
    JoinCons(a, [b, c]);
    assert [a] + [b, c] == [a, b, c] && [b] + [c] == [b, c];
  }

  lemma {:induction false} DotEachAvoids(ids: seq<string>, c: char)
    requires c != '.' && forall s :: s in ids ==> c !in s
    ensures c !in DotEach(ids)
  {
    if ids != [] {
      DotEachAvoids(ids[1..], c);
    }
  }

  lemma CutOfPrinted(head: string, mark: char, ids: seq<string>)
    requires mark !in head && forall s :: s in ids ==> '.' !in s
    ensures CutPart(head + PrintPart(mark, ids), mark) == (head, ids)
  {
    if ids == [] {
      assert head + "" == head;
    } else {
      assert head + ([mark] + Join(ids)) == head + [mark] + Join(ids);
      CutFirst(head, mark, Join(ids));
      SplitOfJoin(ids);
    }
  }

  lemma PrintedOfCut(s: string, mark: char)
    ensures var (head, ids) := CutPart(s, mark); s == head + PrintPart(mark, ids)
  {
    match Cut(s, mark)
    case None =>
    case Some((a, b)) => JoinOfSplit(b);
  }

  lemma PartAvoids(ids: seq<string>, mark: char, c: char)
    requires c != '.' && c != mark && forall s :: s in ids ==> c !in s
    ensures c !in PrintPart(mark, ids)
  {
    if ids != [] {
      assert ids[0] in ids;
      DotEachAvoids(ids[1..], c);
    }
  }

  /** The marks that separate the parts do not occur inside them. */
  lemma MarksOnlyBetween(v: Version)
    requires WellFormed(v)
    ensures '-' !in PrintCore(v)
    ensures '+' !in PrintCore(v) + PrintPart('-', v.preRelease)
    ensures forall s :: s in v.preRelease || s in v.build || s in [v.major, v.minor, v.patch] ==> '.' !in s
  {
    PartAvoids(v.preRelease, '-', '+');
  }

  /** Parsing a printed version gives it back. */
  lemma ParseOfPrint(v: Version)
    requires WellFormed(v)
    ensures Parse(Print(v)) == Some(v)
  {
    var core := PrintCore(v);
    var main := core + PrintPart('-', v.preRelease);
    MarksOnlyBetween(v);
    CutOfPrinted(main, '+', v.build);
    CutOfPrinted(core, '-', v.preRelease);
    JoinThree(v.major, v.minor, v.patch);
    SplitOfJoin([v.major, v.minor, v.patch]);
  }

  /** What parses was printed from the result. */
  lemma PrintOfParse(s: string)
    requires Parse(s).Some?
    ensures WellFormed(Parse(s).value) && Print(Parse(s).value) == s
  {
    var main, core := CutPart(s, '+').0, CutPart(CutPart(s, '+').0, '-').0;
    PrintedOfCut(s, '+');
    PrintedOfCut(main, '-');
    JoinOfSplit(core);
    var parts := Split(core);
    JoinThree(parts[0], parts[1], parts[2]);
    assert parts == [parts[0], parts[1], parts[2]];
  }

  /** A string splits in only one way into core, pre-release and build parts. */
  lemma PrintInjective(v: Version, w: Version)
    requires WellFormed(v) && WellFormed(w) && Print(v) == Print(w)
    ensures v == w
  {
    ParseOfPrint(v);
    ParseOfPrint(w);
  }

  // ---------- The regular expression ----------

  const DIGIT := Range('0', '9')
  const NON_DIGIT := Alt(Alt(Range('a', 'z'), Range('A', 'Z')), Range('-', '-'))
  const IDENT_CHAR := Alt(DIGIT, NON_DIGIT)
  const NUMBER := Alt(Range('0', '0'), Cat(Range('1', '9'), Star(DIGIT)))
  const MIXED_ID := Cat(Star(DIGIT), Cat(NON_DIGIT, Star(IDENT_CHAR)))
  const PRE_RELEASE_ID := Alt(Range('0', '0'), Alt(Cat(Range('1', '9'), Star(DIGIT)), MIXED_ID))
  const BUILD_ID := Cat(IDENT_CHAR, Star(IDENT_CHAR))
  const DOT := Range('.', '.')

  function Dotted(id: Regex): Regex {
    Cat(id, Star(Cat(DOT, id)))
  }

  function Optional(r: Regex): Regex {
    Alt(Empty, r)
  }

  const CORE := Cat(NUMBER, Cat(DOT, Cat(NUMBER, Cat(DOT, NUMBER))))
  const PRE_RELEASE := Optional(Cat(Range('-', '-'), Dotted(PRE_RELEASE_ID)))
  const BUILD := Optional(Cat(Range('+', '+'), Dotted(BUILD_ID)))
  const VERSION_PATTERN := Cat(CORE, Cat(PRE_RELEASE, BUILD))

  lemma Classes()
    ensures IsClass(DIGIT) && IsClass(NON_DIGIT) && IsClass(IDENT_CHAR)
    ensures forall c :: InClass(DIGIT, c) <==> IsDigit(c)
    ensures forall c :: InClass(NON_DIGIT, c) <==> IsNonDigit(c)
    ensures forall c :: InClass(IDENT_CHAR, c) <==> IsIdentChar(c)
  {
    forall c
      ensures InClass(NON_DIGIT, c) <==> IsNonDigit(c)
      ensures InClass(IDENT_CHAR, c) <==> IsIdentChar(c)
    {
      assert InClass(NON_DIGIT.left, c) <==> 'a' <= c <= 'z' || 'A' <= c <= 'Z';
    }
  }

  lemma NumberPattern(s: string)
    ensures Matches(NUMBER, s) <==> IsNumber(s)
  {
    Classes();
    ClassMatches(Range('0', '0'), s);
    ClassThen(Range('1', '9'), Star(DIGIT), s);
    if s != [] {
      StarOfClass(DIGIT, s[1..]);
      assert forall i :: 0 < i < |s| ==> s[i] == s[1..][i - 1];
    }
  }

  lemma BuildIdPattern(s: string)
    ensures Matches(BUILD_ID, s) <==> IsBuildId(s)
  {
    Classes();
    ClassThen(IDENT_CHAR, Star(IDENT_CHAR), s);
    if s != [] {
      StarOfClass(IDENT_CHAR, s[1..]);
      assert forall i :: 0 < i < |s| ==> s[i] == s[1..][i - 1];
    }
  }

  /** The third alternative of a pre-release identifier: at least one character is not a digit. */
  lemma MixedIdPattern(s: string)
    ensures Matches(MIXED_ID, s) <==> IsBuildId(s) && !AllDigits(s)
  {
    if Matches(MIXED_ID, s) {
      MixedIdElim(s);
    }
    if IsBuildId(s) && !AllDigits(s) {
      MixedIdIntro(s);
    }
  }

  lemma MixedIdElim(s: string)
    requires Matches(MIXED_ID, s)
    ensures IsBuildId(s) && !AllDigits(s)
  {
    Classes();
    var a, b := CatElim(Star(DIGIT), Cat(NON_DIGIT, Star(IDENT_CHAR)), s);
    StarOfClass(DIGIT, a);
    ClassThen(NON_DIGIT, Star(IDENT_CHAR), b);
    StarOfClass(IDENT_CHAR, b[1..]);
    assert s[|a|] == b[0] && !IsDigit(s[|a|]);
    forall i | 0 <= i < |s|
      ensures IsIdentChar(s[i])
    {
      if i < |a| {
        assert s[i] == a[i];
      } else if i > |a| {
        assert s[i] == b[1..][i - |a| - 1];
      }
    }
  }

  lemma MixedIdIntro(s: string)
    requires IsBuildId(s) && !AllDigits(s)
    ensures Matches(MIXED_ID, s)
  {
    Classes();
    var n := 0;
    while IsDigit(s[n])
      invariant 0 <= n < |s| && forall i :: 0 <= i < n ==> IsDigit(s[i])
      decreases |s| - n
    {
      n := n + 1;
    }
    var a, b := s[..n], s[n..];
    StarOfClass(DIGIT, a);
    StarOfClass(IDENT_CHAR, b[1..]);
    ClassThen(NON_DIGIT, Star(IDENT_CHAR), b);
    CatIntro(Star(DIGIT), Cat(NON_DIGIT, Star(IDENT_CHAR)), a, b);
    assert s == a + b;
  }

  lemma PreReleaseIdPattern(s: string)
    ensures Matches(PRE_RELEASE_ID, s) <==> IsPreReleaseId(s)
  {
    NumberPattern(s);
    MixedIdPattern(s);
    assert Matches(PRE_RELEASE_ID, s) <==> Matches(NUMBER, s) || Matches(MIXED_ID, s);
  }

  lemma MarkPattern(mark: char, rest: Regex, s: string)
    ensures Matches(Cat(Range(mark, mark), rest), s) <==> s != [] && s[0] == mark && Matches(rest, s[1..])
  {
    ClassThen(Range(mark, mark), rest, s);
  }

  /** A repeated ".id" spells a list of identifiers, each behind a dot. */
  lemma {:induction false} DotEachElim(id: Regex, s: string) returns (ids: seq<string>)
    requires Matches(Star(Cat(DOT, id)), s)
    ensures s == DotEach(ids) && forall t :: t in ids ==> Matches(id, t)
    decreases |s|
  {
    if s == [] {
      ids := [];
    } else {
      var p, q := StarElim(Cat(DOT, id), s);
      MarkPattern('.', id, p);
      var rest := DotEachElim(id, q);
      ids := [p[1..]] + rest;
      assert ids[1..] == rest && p == "." + p[1..];
    }
  }

  lemma {:induction false} DotEachIntro(id: Regex, ids: seq<string>)
    requires forall t :: t in ids ==> Matches(id, t)
    ensures Matches(Star(Cat(DOT, id)), DotEach(ids))
  {
    if ids != [] {
      DotEachIntro(id, ids[1..]);
      var a := "." + ids[0];
      assert a[1..] == ids[0];
      MarkPattern('.', id, a);
      StarIntro(Cat(DOT, id), a, DotEach(ids[1..]));
    }
  }

  lemma JoinOf(head: string, rest: seq<string>)
    ensures Join([head] + rest) == head + DotEach(rest)
  {
    assert ([head] + rest)[1..] == rest;
  }

  lemma ListElim(id: Regex, s: string) returns (ids: seq<string>)
    requires Matches(Dotted(id), s)
    ensures ids != [] && s == Join(ids) && forall t :: t in ids ==> Matches(id, t)
  {
    var a, b := CatElim(id, Star(Cat(DOT, id)), s);
    var rest := DotEachElim(id, b);
    ids := [a] + rest;
    JoinOf(a, rest);
  }

  lemma PartElim(mark: char, id: Regex, s: string) returns (ids: seq<string>)
    requires Matches(Optional(Cat(Range(mark, mark), Dotted(id))), s)
    ensures s == PrintPart(mark, ids) && forall t :: t in ids ==> Matches(id, t)
  {
    if s == [] {
      ids := [];
    } else {
      MarkPattern(mark, Dotted(id), s);
      ids := ListElim(id, s[1..]);
      assert s == [mark] + s[1..];
    }
  }

  lemma PartIntro(mark: char, id: Regex, ids: seq<string>)
    requires forall t :: t in ids ==> Matches(id, t)
    ensures Matches(Optional(Cat(Range(mark, mark), Dotted(id))), PrintPart(mark, ids))
  {
    if ids != [] {
      DotEachIntro(id, ids[1..]);
      CatIntro(id, Star(Cat(DOT, id)), ids[0], DotEach(ids[1..]));
      MarkPattern(mark, Dotted(id), PrintPart(mark, ids));
      assert PrintPart(mark, ids)[1..] == Join(ids);
    }
  }

  lemma Flatten(a: string, b: string, c: string)
    ensures a + ("." + (b + ("." + c))) == a + "." + b + "." + c
  {
  }

  lemma CoreElim(s: string) returns (a: string, b: string, c: string)
    requires Matches(CORE, s)
    ensures s == a + "." + b + "." + c && IsNumber(a) && IsNumber(b) && IsNumber(c)
  {
    var t, u;
    a, t := CatElim(NUMBER, CORE.second, s);
    MarkPattern('.', CORE.second.second, t);
    b, u := CatElim(NUMBER, CORE.second.second.second, t[1..]);
    MarkPattern('.', NUMBER, u);
    c := u[1..];
    NumberPattern(a);
    NumberPattern(b);
    NumberPattern(c);
    Flatten(a, b, c);
    assert t == "." + t[1..] && u == "." + c;
  }

  lemma CoreIntro(a: string, b: string, c: string)
    requires IsNumber(a) && IsNumber(b) && IsNumber(c)
    ensures Matches(CORE, a + "." + b + "." + c)
  {
    NumberPattern(a);
    NumberPattern(b);
    NumberPattern(c);
    var u := "." + c;
    assert u[1..] == c;
    MarkPattern('.', NUMBER, u);
    CatIntro(NUMBER, Cat(DOT, NUMBER), b, u);
    var t := "." + (b + u);
    assert t[1..] == b + u;
    MarkPattern('.', Cat(NUMBER, Cat(DOT, NUMBER)), t);
    CatIntro(NUMBER, CORE.second, a, t);
    Flatten(a, b, c);
  }

  /** The pattern accepts exactly the strings that parse: the printed forms of well-formed versions. */
  lemma VersionPatternIsParse(s: string)
    ensures MatchString(VERSION_PATTERN, s) <==> Parse(s).Some?
  {
    MatchStringCorrect(VERSION_PATTERN, s);
    if Matches(VERSION_PATTERN, s) {
      var v := MatchedIsPrinted(s);
      ParseOfPrint(v);
    }
    if Parse(s).Some? {
      PrintOfParse(s);
      PrintedIsMatched(Parse(s).value);
    }
  }

  lemma MatchedIsPrinted(s: string) returns (v: Version)
    requires Matches(VERSION_PATTERN, s)
    ensures WellFormed(v) && Print(v) == s
  {
    var core, tail := CatElim(CORE, Cat(PRE_RELEASE, BUILD), s);
    var pre, bld := CatElim(PRE_RELEASE, BUILD, tail);
    var a, b, c := CoreElim(core);
    var preIds := PartElim('-', PRE_RELEASE_ID, pre);
    var buildIds := PartElim('+', BUILD_ID, bld);
    forall t | t in preIds ensures IsPreReleaseId(t) { PreReleaseIdPattern(t); }
    forall t | t in buildIds ensures IsBuildId(t) { BuildIdPattern(t); }
    v := Version(a, b, c, preIds, buildIds);
    assert core + pre + bld == core + (pre + bld);
  }

  lemma PrintedIsMatched(v: Version)
    requires WellFormed(v)
    ensures Matches(VERSION_PATTERN, Print(v))
  {
    forall t | t in v.preRelease ensures Matches(PRE_RELEASE_ID, t) { PreReleaseIdPattern(t); }
    forall t | t in v.build ensures Matches(BUILD_ID, t) { BuildIdPattern(t); }
    CoreIntro(v.major, v.minor, v.patch);
    var core, pre, bld := PrintCore(v), PrintPart('-', v.preRelease), PrintPart('+', v.build);
    PartIntro('-', PRE_RELEASE_ID, v.preRelease);
    PartIntro('+', BUILD_ID, v.build);
    CatIntro(PRE_RELEASE, BUILD, pre, bld);
    CatIntro(CORE, Cat(PRE_RELEASE, BUILD), core, pre + bld);
    assert core + (pre + bld) == core + pre + bld;
  }

  // ---------- The grammar of Semantic Versioning 2.0.0, production by production ----------

  predicate Digits(s: string) {
    (|s| == 1 && IsDigit(s[0])) || (|s| > 1 && IsDigit(s[0]) && Digits(s[1..]))
  }

  predicate IdentifierCharacters(s: string) {
    (|s| == 1 && IsIdentChar(s[0])) || (|s| > 1 && IsIdentChar(s[0]) && IdentifierCharacters(s[1..]))
  }

  predicate PositiveDigit(c: char) {
    '1' <= c <= '9'
  }

  predicate NumericIdentifier(s: string) {
    s == "0" || (|s| == 1 && PositiveDigit(s[0])) || (|s| > 1 && PositiveDigit(s[0]) && Digits(s[1..]))
  }

  predicate AlphanumericIdentifier(s: string) {
    || (|s| == 1 && IsNonDigit(s[0]))
    || (|s| > 1 && IsNonDigit(s[0]) && IdentifierCharacters(s[1..]))
    || (|s| > 1 && IdentifierCharacters(s[..|s| - 1]) && IsNonDigit(s[|s| - 1]))
    || (exists i :: 0 < i < |s| - 1 &&
          IdentifierCharacters(s[..i]) && IsNonDigit(s[i]) && IdentifierCharacters(s[i + 1..]))
  }

  predicate PreReleaseIdentifier(s: string) {
    AlphanumericIdentifier(s) || NumericIdentifier(s)
  }

  predicate BuildIdentifier(s: string) {
    AlphanumericIdentifier(s) || Digits(s)
  }

  /** <dot-separated identifiers> ::= <identifier> | <identifier> "." <dot-separated identifiers> */
  predicate DotSeparated(identifier: string -> bool, s: string)
    decreases |s|
  {
    identifier(s) ||
    exists i :: 0 <= i < |s| && s[i] == '.' && identifier(s[..i]) && DotSeparated(identifier, s[i + 1..])
  }

  predicate MinorAndPatch(s: string) {
    exists i :: 0 <= i < |s| && s[i] == '.' && NumericIdentifier(s[..i]) && NumericIdentifier(s[i + 1..])
  }

  predicate VersionCore(s: string) {
    exists i :: 0 <= i < |s| && s[i] == '.' && NumericIdentifier(s[..i]) && MinorAndPatch(s[i + 1..])
  }

  /** <head> | <head> mark <dot-separated identifiers> */
  predicate WithPart(head: string -> bool, mark: char, identifier: string -> bool, s: string) {
    head(s) ||
    exists i :: 0 <= i < |s| && s[i] == mark && head(s[..i]) && DotSeparated(identifier, s[i + 1..])
  }

  /** <version core> | <version core> "-" <pre-release> */
  predicate BeforeBuild(s: string) {
    WithPart(VersionCore, '-', PreReleaseIdentifier, s)
  }

  /** The four alternatives of <valid semver>: the two above, alone or followed by "+" <build>. */
  predicate ValidSemver(s: string) {
    WithPart(BeforeBuild, '+', BuildIdentifier, s)
  }

  lemma {:induction false} CharacterRuns(s: string)
    ensures Digits(s) <==> s != [] && AllDigits(s)
    ensures IdentifierCharacters(s) <==> IsBuildId(s)
  {
    if |s| > 1 {
      CharacterRuns(s[1..]);
      assert forall i :: 0 < i < |s| ==> s[i] == s[1..][i - 1];
    }
  }

  lemma NumericIdentifierIs(s: string)
    ensures NumericIdentifier(s) <==> IsNumber(s)
  {
    if |s| > 1 {
      CharacterRuns(s[1..]);
      assert forall i :: 0 < i < |s| ==> s[i] == s[1..][i - 1];
    }
  }

  lemma AlphanumericIdentifierIs(s: string)
    ensures AlphanumericIdentifier(s) <==> IsBuildId(s) && !AllDigits(s)
  {
    forall t: string
      ensures IdentifierCharacters(t) <==> IsBuildId(t)
    {
      CharacterRuns(t);
    }
    if AlphanumericIdentifier(s) {
      AlphanumericHasNonDigit(s);
    }
    if IsBuildId(s) && !AllDigits(s) {
      var i :| 0 <= i < |s| && !IsDigit(s[i]);
      if |s| > 1 {
        assert i > 0 ==> IsBuildId(s[..i]);
        assert i < |s| - 1 ==> IsBuildId(s[i + 1..]);
      }
    }
  }

  lemma AlphanumericHasNonDigit(s: string)
    requires AlphanumericIdentifier(s)
    requires forall t: string :: IdentifierCharacters(t) <==> IsBuildId(t)
    ensures IsBuildId(s) && !AllDigits(s)
  {
  }

  lemma IdentifierProductions(s: string)
    ensures PreReleaseIdentifier(s) <==> IsPreReleaseId(s)
    ensures BuildIdentifier(s) <==> IsBuildId(s)
  {
    AlphanumericIdentifierIs(s);
    NumericIdentifierIs(s);
    CharacterRuns(s);
  }

  /** The right-recursive list production accepts exactly the strings whose dot-separated pieces are
      identifiers. */
  lemma {:induction false} DotSeparatedIsSplit(identifier: string -> bool, s: string)
    requires forall t :: identifier(t) ==> '.' !in t
    ensures DotSeparated(identifier, s) <==> forall t :: t in Split(s) ==> identifier(t)
    decreases |s|
  {
    if identifier(s) {
      assert Split(s) == [s];
    } else if DotSeparated(identifier, s) {
      var i :| 0 <= i < |s| && s[i] == '.' && identifier(s[..i]) && DotSeparated(identifier, s[i + 1..]);
      SplitAt(s, i);
      DotSeparatedIsSplit(identifier, s[i + 1..]);
    } else if Cut(s, '.').Some? {
      var (a, b) := Cut(s, '.').value;
      assert Split(s) == [a] + Split(b);
      assert s[|a|] == '.' && s[..|a|] == a && s[|a| + 1..] == b;
      DotSeparatedIsSplit(identifier, b);
    }
  }

  /** A head without dots, a dot and a tail: the split ... */
  lemma SplitAt(s: string, i: nat)
    requires i < |s| && s[i] == '.' && '.' !in s[..i]
    ensures Split(s) == [s[..i]] + Split(s[i + 1..])
  {
    assert s == s[..i] + ['.'] + s[i + 1..];
    CutFirst(s[..i], '.', s[i + 1..]);
  }

  /** ... and the characters used. */
  lemma CharactersAt(s: string, i: nat, c: char)
    requires i < |s| && s[i] == '.' && c in s
    ensures c in s[..i] || c == '.' || c in s[i + 1..]
  {
    var k :| 0 <= k < |s| && s[k] == c;
    if k < i {
      assert s[..i][k] == c;
    } else if k > i {
      assert s[i + 1..][k - i - 1] == c;
    }
  }

  lemma SplitHead(s: string) returns (i: nat)
    requires |Split(s)| > 1
    ensures i < |s| && s[i] == '.' && s[..i] == Split(s)[0] && Split(s[i + 1..]) == Split(s)[1..]
  {
    var (a, b) := Cut(s, '.').value;
    i := |a|;
    assert s[..i] == a && s[i + 1..] == b;
  }

  lemma MinorAndPatchIsSplit(s: string)
    ensures MinorAndPatch(s) <==> |Split(s)| == 2 && IsNumber(Split(s)[0]) && IsNumber(Split(s)[1])
    ensures MinorAndPatch(s) ==> forall c :: c in s ==> IsDigit(c) || c == '.'
  {
    if i :| 0 <= i < |s| && s[i] == '.' && NumericIdentifier(s[..i]) && NumericIdentifier(s[i + 1..]) {
      NumericIdentifierIs(s[..i]);
      NumericIdentifierIs(s[i + 1..]);
      SplitAt(s, i);
      assert Split(s[i + 1..]) == [s[i + 1..]];
      forall c | c in s
        ensures IsDigit(c) || c == '.'
      {
        CharactersAt(s, i, c);
      }
    }
    if |Split(s)| == 2 && IsNumber(Split(s)[0]) && IsNumber(Split(s)[1]) {
      var i := SplitHead(s);
      NumericIdentifierIs(s[..i]);
      JoinOfSplit(s[i + 1..]);
      NumericIdentifierIs(s[i + 1..]);
    }
  }

  lemma VersionCoreIsSplit(s: string)
    ensures VersionCore(s) <==>
            |Split(s)| == 3 && IsNumber(Split(s)[0]) && IsNumber(Split(s)[1]) && IsNumber(Split(s)[2])
    ensures VersionCore(s) ==> forall c :: c in s ==> IsDigit(c) || c == '.'
  {
    if i :| 0 <= i < |s| && s[i] == '.' && NumericIdentifier(s[..i]) && MinorAndPatch(s[i + 1..]) {
      NumericIdentifierIs(s[..i]);
      MinorAndPatchIsSplit(s[i + 1..]);
      SplitAt(s, i);
      forall c | c in s
        ensures IsDigit(c) || c == '.'
      {
        CharactersAt(s, i, c);
      }
    }
    if |Split(s)| == 3 && IsNumber(Split(s)[0]) && IsNumber(Split(s)[1]) && IsNumber(Split(s)[2]) {
      var i := SplitHead(s);
      NumericIdentifierIs(s[..i]);
      MinorAndPatchIsSplit(s[i + 1..]);
    }
  }

  predicate ListFits(identifier: string -> bool, ids: seq<string>) {
    forall t :: t in ids ==> identifier(t)
  }

  /** An optional marked part, for any head language that excludes the mark. */
  lemma MarkedPart(head: string -> bool, mark: char, identifier: string -> bool, s: string)
    requires forall t :: identifier(t) ==> '.' !in t
    requires forall t :: head(t) ==> mark !in t
    ensures WithPart(head, mark, identifier, s) <==>
            (head(CutPart(s, mark).0) && ListFits(identifier, CutPart(s, mark).1))
  {
    if head(s) {
      assert Cut(s, mark).None?;
    } else if WithPart(head, mark, identifier, s) {
      MarkedPartElim(head, mark, identifier, s);
    }
    if Cut(s, mark).Some? && head(CutPart(s, mark).0) && ListFits(identifier, CutPart(s, mark).1) {
      var (a, b) := Cut(s, mark).value;
      DotSeparatedIsSplit(identifier, b);
      assert s[|a|] == mark && s[..|a|] == a && s[|a| + 1..] == b;
    }
  }

  lemma MarkedPartElim(head: string -> bool, mark: char, identifier: string -> bool, s: string)
    requires forall t :: identifier(t) ==> '.' !in t
    requires forall t :: head(t) ==> mark !in t
    requires !head(s) && WithPart(head, mark, identifier, s)
    ensures head(CutPart(s, mark).0) && ListFits(identifier, CutPart(s, mark).1)
  {
    var i :| 0 <= i < |s| && s[i] == mark && head(s[..i]) && DotSeparated(identifier, s[i + 1..]);
    assert s == s[..i] + [mark] + s[i + 1..];
    CutFirst(s[..i], mark, s[i + 1..]);
    DotSeparatedIsSplit(identifier, s[i + 1..]);
  }

  lemma IdentifierLanguages()
    ensures forall t: string {:trigger PreReleaseIdentifier(t)} :: PreReleaseIdentifier(t) <==> IsPreReleaseId(t)
    ensures forall t: string {:trigger BuildIdentifier(t)} :: BuildIdentifier(t) <==> IsBuildId(t)
  {
    forall t: string
      ensures PreReleaseIdentifier(t) <==> IsPreReleaseId(t)
      ensures BuildIdentifier(t) <==> IsBuildId(t)
    {
      IdentifierProductions(t);
    }
  }

  lemma NoDots()
    ensures forall t: string {:trigger PreReleaseIdentifier(t)} :: PreReleaseIdentifier(t) ==> '.' !in t
    ensures forall t: string {:trigger BuildIdentifier(t)} :: BuildIdentifier(t) ==> '.' !in t
  {
    IdentifierLanguages();
  }

  lemma NoMarksInCore()
    ensures forall t: string {:trigger VersionCore(t)} :: VersionCore(t) ==> '-' !in t && '+' !in t
  {
    forall t: string
      ensures VersionCore(t) ==> '-' !in t && '+' !in t
    {
      VersionCoreIsSplit(t);
    }
  }

  lemma NoPlusInParts(core: string, ids: seq<string>)
    requires VersionCore(core) && ListFits(PreReleaseIdentifier, ids)
    ensures '+' !in core + PrintPart('-', ids)
  {
    NoMarksInCore();
    ListFitsIs(ids);
    assert forall t :: t in ids ==> IsPreReleaseId(t) && '+' !in t;
    PartAvoids(ids, '-', '+');
  }

  lemma BeforeBuildIs(s: string)
    ensures BeforeBuild(s) <==>
            VersionCore(CutPart(s, '-').0) && ListFits(PreReleaseIdentifier, CutPart(s, '-').1)
    ensures BeforeBuild(s) ==> '+' !in s
  {
    NoDots();
    NoMarksInCore();
    MarkedPart(VersionCore, '-', PreReleaseIdentifier, s);
    if BeforeBuild(s) {
      PrintedOfCut(s, '-');
      NoPlusInParts(CutPart(s, '-').0, CutPart(s, '-').1);
    }
  }

  lemma ValidSemverIs(s: string)
    ensures ValidSemver(s) <==>
            && VersionCore(CutPart(CutPart(s, '+').0, '-').0)
            && ListFits(PreReleaseIdentifier, CutPart(CutPart(s, '+').0, '-').1)
            && ListFits(BuildIdentifier, CutPart(s, '+').1)
  {
    NoDots();
    forall t: string
      ensures BeforeBuild(t) ==> '+' !in t
    {
      BeforeBuildIs(t);
    }
    MarkedPart(BeforeBuild, '+', BuildIdentifier, s);
    BeforeBuildIs(CutPart(s, '+').0);
  }

  lemma ListFitsIs(ids: seq<string>)
    ensures ListFits(PreReleaseIdentifier, ids) <==> forall t :: t in ids ==> IsPreReleaseId(t)
    ensures ListFits(BuildIdentifier, ids) <==> forall t :: t in ids ==> IsBuildId(t)
  {
    IdentifierLanguages();
  }

  /** The pattern accepts exactly the valid versions of Semantic Versioning 2.0.0. */
  lemma PatternIsGrammar(s: string)
    ensures MatchString(VERSION_PATTERN, s) <==> ValidSemver(s)
  {
    VersionPatternIsParse(s);
    ValidSemverIs(s);
    var (main, build) := CutPart(s, '+');
    var (core, preRelease) := CutPart(main, '-');
    VersionCoreIsSplit(core);
    ListFitsIs(preRelease);
    ListFitsIs(build);
  }
}
