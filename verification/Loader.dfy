/** Front matter and identifier generation (loader.go). */
module Loader {
  import opened Skills
  import opened Strings
  import opened Regex
  import opened Identifiers

  const DASHES := "---"

  datatype Document = Document(frontmatter: string, body: string)

  /** Splits a document at its front-matter fences; None is the format error. */
  function ExtractFrontmatter(content: string): Option<Document> {
    if !OccursAt(content, DASHES, 0) then Some(Document("", content))
    else
      var parts := SplitN(content, DASHES, 3);
      if |parts| < 3 then None
      else Some(Document(TrimSpace(parts[1]), TrimSpace(parts[2])))
  }

  /** With an opening fence, the parts are what lies between it and the next one, and what follows. */
  lemma FencedParts(content: string)
    requires OccursAt(content, DASHES, 0)
    ensures ExtractFrontmatter(content) ==
            match Index(content[3..], DASHES)
            case None => None
            case Some(k) => Some(Document(TrimSpace(content[3..][..k]), TrimSpace(content[3..][k + 3..])))
  {
  }

  /** A document is malformed exactly when it opens a fence that no later, non-overlapping one closes. */
  lemma MalformedIff(content: string)
    ensures ExtractFrontmatter(content).None? <==>
            OccursAt(content, DASHES, 0) && forall i: nat :: i >= 3 ==> !OccursAt(content, DASHES, i)
    ensures !OccursAt(content, DASHES, 0) ==> ExtractFrontmatter(content) == Some(Document("", content))
  {
    if OccursAt(content, DASHES, 0) {
      FencedParts(content);
      forall i: nat
        ensures OccursAt(content[3..], DASHES, i) <==> OccursAt(content, DASHES, i + 3)
      {
        if i + 6 <= |content| {
          assert content[3..][i..i + 3] == content[i + 3..i + 3 + 3];
        }
      }
      if i: nat :| i >= 3 && OccursAt(content, DASHES, i) {
        assert OccursAt(content[3..], DASHES, i - 3);
      }
    }
  }

  /** A document between fences, with arbitrary white space around its two parts. */
  datatype Spacing = Spacing(beforeFront: string, afterFront: string, beforeBody: string, afterBody: string)

  ghost predicate IsSpacing(w: Spacing) {
    AllSpace(w.beforeFront) && AllSpace(w.afterFront) && AllSpace(w.beforeBody) && AllSpace(w.afterBody)
  }

  /** No last hyphen of the front matter can join the closing fence. */
  predicate ClosesCleanly(d: Document, w: Spacing) {
    w.afterFront != "" || (d.frontmatter != "" ==> d.frontmatter[|d.frontmatter| - 1] != '-')
  }

  function Fence(d: Document, w: Spacing): string {
    DASHES + AfterFence(d, w)
  }

  function AfterFence(d: Document, w: Spacing): string {
    FrontPart(d, w) + (DASHES + BodyPart(d, w))
  }

  function FrontPart(d: Document, w: Spacing): string {
    w.beforeFront + d.frontmatter + w.afterFront
  }

  function BodyPart(d: Document, w: Spacing): string {
    w.beforeBody + d.body + w.afterBody
  }

  const ONE_LINE_EACH := Spacing("\n", "\n", "\n", "")

  /** Splitting a fenced document gives its parts back, whatever white space surrounds them; the body may
      contain further fences. */
  lemma FrontmatterRoundTrip(d: Document, w: Spacing)
    requires IsTrimmed(d.frontmatter) && IsTrimmed(d.body) && IsSpacing(w) && ClosesCleanly(d, w)
    requires forall i: nat :: !OccursAt(d.frontmatter, DASHES, i)
    ensures ExtractFrontmatter(Fence(d, w)) == Some(d)
  {
    var content, rest := Fence(d, w), AfterFence(d, w);
    assert content[..3] == DASHES && content[3..] == rest;
    FencedParts(content);
    ClosingFence(d, w);
    TrimSpaceAround(w.beforeFront, d.frontmatter, w.afterFront);
    TrimSpaceAround(w.beforeBody, d.body, w.afterBody);
  }

  /** The usual layout, one line break after each fence and before the closing one. */
  lemma UsualLayout(d: Document)
    requires IsTrimmed(d.frontmatter) && IsTrimmed(d.body)
    requires forall i: nat :: !OccursAt(d.frontmatter, DASHES, i)
    ensures ExtractFrontmatter(DASHES + "\n" + d.frontmatter + "\n" + DASHES + "\n" + d.body) == Some(d)
  {
    FrontmatterRoundTrip(d, ONE_LINE_EACH);
    Regroup(DASHES, "\n", d.frontmatter, d.body);
  }

  lemma Regroup(p: string, n: string, f: string, b: string)
    ensures p + n + f + n + p + n + b == p + ((n + f + n) + (p + (n + b + "")))
  {
  }

  lemma Middle(a: string, m: string, b: string)
    ensures var s, i, j := a + (m + b), |a|, |a| + |m|;
            s[..i] == a && s[i..j] == m && s[j..] == b
  {
  }

  /** The first fence found is the closing one. */
  lemma ClosingFence(d: Document, w: Spacing)
    requires IsSpacing(w) && ClosesCleanly(d, w) && forall i: nat :: !OccursAt(d.frontmatter, DASHES, i)
    ensures var rest, k := AfterFence(d, w), |FrontPart(d, w)|;
            Index(rest, DASHES) == Some(k) && rest[..k] == FrontPart(d, w) && rest[k + 3..] == BodyPart(d, w)
  {
    var rest, k := AfterFence(d, w), |FrontPart(d, w)|;
    Middle(FrontPart(d, w), DASHES, BodyPart(d, w));
    assert OccursAt(rest, DASHES, k);
    forall i: nat | i < k
      ensures !OccursAt(rest, DASHES, i)
    {
      FenceNotEarlier(d, w, i);
    }
  }

  lemma FrontAt(d: Document, w: Spacing, p: nat)
    requires p < |FrontPart(d, w)|
    ensures var f, start := d.frontmatter, |w.beforeFront|;
            FrontPart(d, w)[p] == if p < start then w.beforeFront[p]
                                  else if p < start + |f| then f[p - start] else w.afterFront[p - start - |f|]
  {
  }

  /** No fence starts inside the front matter or across the white space around it. */
  lemma FenceNotEarlier(d: Document, w: Spacing, i: nat)
    requires IsSpacing(w) && ClosesCleanly(d, w) && forall j: nat :: !OccursAt(d.frontmatter, DASHES, j)
    requires i < |FrontPart(d, w)|
    ensures !OccursAt(AfterFence(d, w), DASHES, i)
  {
    var rest, f := AfterFence(d, w), d.frontmatter;
    var window := rest[i..i + 3];
    var start, end := |w.beforeFront|, |w.beforeFront| + |f|;
    if start <= i && i + 3 <= end {
      assert window == f[i - start..i - start + 3];
      assert !OccursAt(f, DASHES, i - start);
    } else {
      var p := if i < start then i else if i >= end then i else if w.afterFront != "" then end else end - 1;
      FrontAt(d, w, p);
      Middle(FrontPart(d, w), DASHES, BodyPart(d, w));
      assert rest[p] == rest[..|FrontPart(d, w)|][p] == FrontPart(d, w)[p];
      assert window[p - i] == rest[p] && DASHES[p - i] == '-';
    }
  }

  // ---------- Identifiers from names ----------

  /** unicode.ToLower, as far as the generator can tell: besides A to Z, two code points have an ASCII
      lower case (the Kelvin sign and the dotted capital I); every other non-ASCII one stays non-ASCII. */
  function LowerRune(c: char): char {
    if 'A' <= c <= 'Z' then ((c as int) + 32) as char
    else if c == '\U{212A}' then 'k'
    else if c == '\U{0130}' then 'i'
    else c
  }

  function ToLower(s: string): string {
    seq(|s|, i requires 0 <= i < |s| => LowerRune(s[i]))
  }

  function ReplaceAll(s: string, from: char, to: char): string {
    seq(|s|, i requires 0 <= i < |s| => if s[i] == from then to else s[i])
  }

  /** What one character of the name contributes to the identifier. */
  function Slug(c: char): string {
    if 'A' <= c <= 'Z' then [((c as int) + 32) as char]
    else if 'a' <= c <= 'z' || '0' <= c <= '9' || c == '-' then [c]
    else if c == ' ' || c == '_' || c == '.' then "-"
    else if c == '\U{212A}' then "k"
    else if c == '\U{0130}' then "i"
    else ""
  }

  /** Slug is what the four passes and the filter make of one character. */
  lemma SlugIsRewrite(c: char, r: char)
    requires r == (if LowerRune(c) == ' ' || LowerRune(c) == '_' || LowerRune(c) == '.' then '-' else LowerRune(c))
    ensures Slug(c) == if 'a' <= r <= 'z' || '0' <= r <= '9' || r == '-' then [r] else ""
  {
  }

  function IdFromName(name: string): string {
    if name == [] then "" else Slug(name[0]) + IdFromName(name[1..])
  }

  lemma {:induction false} IdFromNameSnoc(name: string, i: nat)
    requires i < |name|
    ensures IdFromName(name[..i + 1]) == IdFromName(name[..i]) + Slug(name[i])
    decreases i
  {
    if i == 0 {
      assert name[..1][1..] == "" && name[..0] == "";
    } else {
      assert name[..i + 1][1..] == name[1..][..i] && name[..i][1..] == name[1..][..i - 1];
      IdFromNameSnoc(name[1..], i - 1);
    }
  }

  /** Four rewriting passes and a filter, one character at a time. */
  method GenerateIDFromName(name: string) returns (result: string)
    ensures result == IdFromName(name)
  {
    var id := ToLower(name);
    id := ReplaceAll(id, ' ', '-');
    id := ReplaceAll(id, '_', '-');
    id := ReplaceAll(id, '.', '-');
    result := "";
    assert name[..0] == "";
    for i := 0 to |id|
      invariant |id| == |name| && result == IdFromName(name[..i])
    {
      var r := id[i];
      IdFromNameSnoc(name, i);
      SlugIsRewrite(name[i], r);
      if 'a' <= r <= 'z' || '0' <= r <= '9' || r == '-' {
        result := result + [r];
      }
    }
    assert name[..|name|] == name;
  }

  predicate IsSlugChar(c: char) {
    IsLowerOrDigit(c) || c == '-'
  }

  lemma {:induction false} IdAlphabet(name: string)
    ensures forall i :: 0 <= i < |IdFromName(name)| ==> IsSlugChar(IdFromName(name)[i])
  {
    if name != [] {
      IdAlphabet(name[1..]);
    }
  }

  /** A name already over the alphabet is its own identifier. */
  lemma {:induction false} IdFixesAlphabet(s: string)
    requires forall i :: 0 <= i < |s| ==> IsSlugChar(s[i])
    ensures IdFromName(s) == s
  {
    if s != [] {
      IdFixesAlphabet(s[1..]);
      assert Slug(s[0]) == [s[0]];
    }
  }

  lemma IdIdempotent(name: string)
    ensures IdFromName(IdFromName(name)) == IdFromName(name)
  {
    IdAlphabet(name);
    IdFixesAlphabet(IdFromName(name));
  }

  // ---------- What a generated identifier spells ----------

  const UPPER := "ABCDEFGHIJKLMNOPQRSTUVWXYZ"
  const LOWER := "abcdefghijklmnopqrstuvwxyz"
  const DIGITS := "0123456789"
  const SEPARATORS := " _.-"

  /** Letter number k of the alphabet, in either case. */
  predicate IsLetter(c: char, k: int) {
    0 <= k < 26 && (c == UPPER[k] || c == LOWER[k])
  }

  /** c is written as r: letters in lower case, digits as they are, separators as a hyphen. */
  ghost predicate WrittenAs(c: char, r: char) {
    || (exists k :: IsLetter(c, k) && r == LOWER[k])
    || (c in DIGITS && r == c)
    || (c in SEPARATORS && r == '-')
  }

  ghost predicate IsWritable(c: char) {
    (exists k :: IsLetter(c, k)) || c in DIGITS || c in SEPARATORS
  }

  /** The alphabets, letter by letter. */
  lemma Alphabets(k: int)
    requires 0 <= k < 26
    ensures UPPER[k] as int == 'A' as int + k && LOWER[k] as int == 'a' as int + k
  {
  }

  lemma LetterRange(c: char)
    ensures (exists k :: IsLetter(c, k)) <==> 'A' <= c <= 'Z' || 'a' <= c <= 'z'
  {
    forall k | 0 <= k < 26
      ensures UPPER[k] as int == 'A' as int + k && LOWER[k] as int == 'a' as int + k
    {
      Alphabets(k);
    }
    if 'A' <= c <= 'Z' {
      assert IsLetter(c, c as int - 'A' as int);
    } else if 'a' <= c <= 'z' {
      assert IsLetter(c, c as int - 'a' as int);
    }
  }

  lemma DigitRange(c: char)
    ensures c in DIGITS <==> '0' <= c <= '9'
  {
    if '0' <= c <= '9' {
      assert DIGITS[c as int - '0' as int] == c;
    }
  }

  lemma SeparatorList(c: char)
    ensures c in SEPARATORS <==> c == ' ' || c == '_' || c == '.' || c == '-'
  {
    if c == ' ' || c == '_' || c == '.' || c == '-' {
      assert SEPARATORS[if c == ' ' then 0 else if c == '_' then 1 else if c == '.' then 2 else 3] == c;
    }
  }

  lemma SlugOfLetter(c: char, k: int)
    requires IsLetter(c, k)
    ensures Slug(c) == [LOWER[k]]
  {
    Alphabets(k);
  }

  lemma SlugIsWritten(c: char, r: char)
    requires WrittenAs(c, r)
    ensures Slug(c) == [r]
  {
    DigitRange(c);
    SeparatorList(c);
    if k :| IsLetter(c, k) && r == LOWER[k] {
      SlugOfLetter(c, k);
    }
  }

  lemma SlugOfOther(c: char)
    requires !IsWritable(c)
    ensures Slug(c) == if c == '\U{212A}' then "k" else if c == '\U{0130}' then "i" else ""
  {
    LetterRange(c);
    DigitRange(c);
    SeparatorList(c);
  }

  /** What one character contributes: what it is written as, and two look-alikes from outside ASCII whose
      lower case is a letter; nothing otherwise. */
  lemma Contribution(c: char)
    ensures forall r :: WrittenAs(c, r) ==> IdFromName([c]) == [r]
    ensures !IsWritable(c) ==>
      IdFromName([c]) == if c == '\U{212A}' then "k" else if c == '\U{0130}' then "i" else ""
  {
    assert IdFromName([c]) == Slug(c) + IdFromName([]);
    forall r | WrittenAs(c, r)
      ensures Slug(c) == [r]
    {
      SlugIsWritten(c, r);
    }
    if !IsWritable(c) {
      SlugOfOther(c);
    }
  }

  /** The identifier of a name is put together from those of its parts ... */
  lemma {:induction false} IdOfConcat(a: string, b: string)
    ensures IdFromName(a + b) == IdFromName(a) + IdFromName(b)
  {
    if a == [] {
      assert a + b == b;
    } else {
      assert (a + b)[0] == a[0] && (a + b)[1..] == a[1..] + b;
      IdOfConcat(a[1..], b);
    }
  }

  /** ... so a character that contributes nothing may as well be left out. */
  lemma DroppedCharacter(a: string, c: char, b: string)
    requires !IsWritable(c) && c < '\U{80}'
    ensures IdFromName(a + [c] + b) == IdFromName(a + b)
  {
    Contribution(c);
    IdOfConcat(a + [c], b);
    IdOfConcat(a, [c]);
    IdOfConcat(a, b);
    assert IdFromName(a + [c]) == IdFromName(a);
  }

  /** A name over letters, digits and separators is spelled out in place, character by character. */
  lemma {:induction false} SpelledInPlace(name: string)
    requires forall i :: 0 <= i < |name| ==> IsWritable(name[i])
    ensures |IdFromName(name)| == |name|
    ensures forall i :: 0 <= i < |name| ==> WrittenAs(name[i], IdFromName(name)[i])
  {
    if name != [] {
      assert name == [name[0]] + name[1..];
      IdOfConcat([name[0]], name[1..]);
      Contribution(name[0]);
      SpelledInPlace(name[1..]);
      var r := Spelling(name[0]);
      assert IdFromName(name) == [r] + IdFromName(name[1..]);
    }
  }

  lemma Spelling(c: char) returns (r: char)
    requires IsWritable(c)
    ensures WrittenAs(c, r)
  {
    if k :| IsLetter(c, k) {
      r := LOWER[k];
    } else {
      r := if c in DIGITS then c else '-';
    }
  }

  /** The same character, the same letter in another case, or another separator. */
  ghost predicate SameButCase(c: char, d: char) {
    c == d || (exists k :: IsLetter(c, k) && IsLetter(d, k)) || (c in SEPARATORS && d in SEPARATORS)
  }

  /** Names that differ only in the case of letters or in the choice of separators get the same identifier. */
  lemma {:induction false} SameIdentifier(a: string, b: string)
    requires |a| == |b| && forall i :: 0 <= i < |a| ==> SameButCase(a[i], b[i])
    ensures IdFromName(a) == IdFromName(b)
  {
    if a != [] {
      var c, d := a[0], b[0];
      assert a == [c] + a[1..] && b == [d] + b[1..];
      IdOfConcat([c], a[1..]);
      IdOfConcat([d], b[1..]);
      SameIdentifier(a[1..], b[1..]);
      Contribution(c);
      Contribution(d);
      if k :| IsLetter(c, k) && IsLetter(d, k) {
        assert WrittenAs(c, LOWER[k]) && WrittenAs(d, LOWER[k]);
      } else if c != d {
        assert WrittenAs(c, '-') && WrittenAs(d, '-');
      }
    }
  }

  /** When a generated identifier passes validateID. */
  lemma GeneratedIdValidIff(name: string)
    ensures var id := IdFromName(name);
            1 <= ByteLength(id) <= 100 && MatchString(ID_PATTERN, id) <==>
            1 <= |id| <= 100 && id[0] != '-' && id[|id| - 1] != '-'
  {
    var id := IdFromName(name);
    IdAlphabet(name);
    AsciiByteLength(id);
    IdPatternIsScan(id);
  }
}
