/** The identifier language: the regular expression of validateID (validator.go:99) against a direct scan. */
module Identifiers {
  import opened Regex

  predicate IsLowerOrDigit(c: char) {
    'a' <= c <= 'z' || '0' <= c <= '9'
  }

  predicate IsIdentifierChar(c: char) {
    IsLowerOrDigit(c) || c == '-' || c == '_'
  }

  const LOWER_OR_DIGIT := Alt(Range('a', 'z'), Range('0', '9'))
  const IDENTIFIER_CHAR := Alt(LOWER_OR_DIGIT, Alt(Range('-', '-'), Range('_', '_')))

  /** ^[a-z0-9]([a-z0-9-_]*[a-z0-9])?$ */
  const ID_PATTERN := Cat(LOWER_OR_DIGIT, Alt(Empty, Cat(Star(IDENTIFIER_CHAR), LOWER_OR_DIGIT)))

  /** Alphanumeric ends, and letters, digits, hyphens and underscores between. */
  predicate IsIdentifier(s: string) {
    && s != []
    && IsLowerOrDigit(s[0])
    && IsLowerOrDigit(s[|s| - 1])
    && forall i :: 0 <= i < |s| ==> IsIdentifierChar(s[i])
  }

  lemma Classes()
    ensures IsClass(LOWER_OR_DIGIT) && IsClass(IDENTIFIER_CHAR)
    ensures forall c :: InClass(LOWER_OR_DIGIT, c) <==> IsLowerOrDigit(c)
    ensures forall c :: InClass(IDENTIFIER_CHAR, c) <==> IsIdentifierChar(c)
  {
    forall c
      ensures InClass(LOWER_OR_DIGIT, c) <==> IsLowerOrDigit(c)
      ensures InClass(IDENTIFIER_CHAR, c) <==> IsIdentifierChar(c)
    {
      assert InClass(IDENTIFIER_CHAR.right, c) <==> c == '-' || c == '_';
    }
  }

  lemma IdPatternIsScan(s: string)
    ensures MatchString(ID_PATTERN, s) <==> IsIdentifier(s)
  {
    Classes();
    MatchStringCorrect(ID_PATTERN, s);
    ClassThen(LOWER_OR_DIGIT, ID_PATTERN.second, s);
    if s != [] {
      TailIsScan(s[1..]);
      assert forall i :: 0 < i < |s| ==> s[i] == s[1..][i - 1];
    }
  }

  predicate IsTail(t: string) {
    t != [] && IsLowerOrDigit(t[|t| - 1]) && forall i :: 0 <= i < |t| ==> IsIdentifierChar(t[i])
  }

  lemma TailIsScan(t: string)
    ensures Matches(Cat(Star(IDENTIFIER_CHAR), LOWER_OR_DIGIT), t) <==> IsTail(t)
  {
    if Matches(Cat(Star(IDENTIFIER_CHAR), LOWER_OR_DIGIT), t) {
      TailElim(t);
    }
    if IsTail(t) {
      TailIntro(t);
    }
  }

  lemma TailElim(t: string)
    requires Matches(Cat(Star(IDENTIFIER_CHAR), LOWER_OR_DIGIT), t)
    ensures IsTail(t)
  {
    Classes();
    var a, b := CatElim(Star(IDENTIFIER_CHAR), LOWER_OR_DIGIT, t);
    StarOfClass(IDENTIFIER_CHAR, a);
    ClassMatches(LOWER_OR_DIGIT, b);
    assert forall i :: 0 <= i < |a| ==> t[i] == a[i];
  }

  lemma TailIntro(t: string)
    requires IsTail(t)
    ensures Matches(Cat(Star(IDENTIFIER_CHAR), LOWER_OR_DIGIT), t)
  {
    Classes();
    var a, b := t[..|t| - 1], t[|t| - 1..];
    StarOfClass(IDENTIFIER_CHAR, a);
    ClassMatches(LOWER_OR_DIGIT, b);
    CatIntro(Star(IDENTIFIER_CHAR), LOWER_OR_DIGIT, a, b);
    assert t == a + b;
  }
}
