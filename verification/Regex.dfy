/** Regular expressions with a denotational meaning, and the matcher behind an anchored MatchString:
    derivatives, proved equal to the meaning for every expression and every string. */
module Regex {

  datatype Regex =
    | Nothing
    | Empty
    | Range(lo: char, hi: char)
    | Cat(first: Regex, second: Regex)
    | Alt(left: Regex, right: Regex)
    | Star(body: Regex)

  /** s belongs to the language of r. */
  ghost predicate Matches(r: Regex, s: string)
    decreases |s|, r
  {
    match r
    case Nothing => false
    case Empty => s == []
    case Range(lo, hi) => |s| == 1 && lo <= s[0] <= hi
    case Cat(a, b) => exists i :: 0 <= i <= |s| && Matches(a, s[..i]) && Matches(b, s[i..])
    case Alt(a, b) => Matches(a, s) || Matches(b, s)
    case Star(a) => s == [] || exists i :: 0 < i <= |s| && Matches(a, s[..i]) && Matches(r, s[i..])
  }

  predicate Nullable(r: Regex) {
    match r
    case Nothing => false
    case Empty => true
    case Range(_, _) => false
    case Cat(a, b) => Nullable(a) && Nullable(b)
    case Alt(a, b) => Nullable(a) || Nullable(b)
    case Star(_) => true
  }

  /** The language of what may follow c. */
  function Derivative(r: Regex, c: char): Regex {
    match r
    case Nothing => Nothing
    case Empty => Nothing
    case Range(lo, hi) => if lo <= c <= hi then Empty else Nothing
    case Cat(a, b) =>
      var d := Cat(Derivative(a, c), b);
      if Nullable(a) then Alt(d, Derivative(b, c)) else d
    case Alt(a, b) => Alt(Derivative(a, c), Derivative(b, c))
    case Star(a) => Cat(Derivative(a, c), r)
  }

  /** The anchored matcher. */
  predicate MatchString(r: Regex, s: string)
    decreases |s|
  {
    if s == [] then Nullable(r) else MatchString(Derivative(r, s[0]), s[1..])
  }

  /** A concatenation, one direction with the split spelled out. */
  lemma CatIntro(a: Regex, b: Regex, s: string, t: string)
    requires Matches(a, s) && Matches(b, t)
    ensures Matches(Cat(a, b), s + t)
  {
    assert (s + t)[..|s|] == s && (s + t)[|s|..] == t;
  }

  lemma CatElim(a: Regex, b: Regex, w: string) returns (s: string, t: string)
    requires Matches(Cat(a, b), w)
    ensures w == s + t && Matches(a, s) && Matches(b, t)
  {
    var i :| 0 <= i <= |w| && Matches(a, w[..i]) && Matches(b, w[i..]);
    s, t := w[..i], w[i..];
  }

  lemma StarIntro(a: Regex, s: string, t: string)
    requires s != [] && Matches(a, s) && Matches(Star(a), t)
    ensures Matches(Star(a), s + t)
  {
    assert (s + t)[..|s|] == s && (s + t)[|s|..] == t;
  }

  lemma StarElim(a: Regex, w: string) returns (s: string, t: string)
    requires w != [] && Matches(Star(a), w)
    ensures w == s + t && s != [] && Matches(a, s) && Matches(Star(a), t)
  {
    var i :| 0 < i <= |w| && Matches(a, w[..i]) && Matches(Star(a), w[i..]);
    s, t := w[..i], w[i..];
  }

  lemma {:induction false} NullableMatchesEmpty(r: Regex)
    ensures Nullable(r) <==> Matches(r, [])
  {
    var e: string := [];
    match r
    case Cat(a, b) =>
      NullableMatchesEmpty(a);
      NullableMatchesEmpty(b);
      assert e[..0] == e && e[0..] == e;
    case Alt(a, b) =>
      NullableMatchesEmpty(a);
      NullableMatchesEmpty(b);
    case _ =>
  }

  lemma {:induction false} DerivativeMatches(r: Regex, c: char, s: string)
    ensures Matches(Derivative(r, c), s) <==> Matches(r, [c] + s)
    decreases |s|, r
  {
    match r
    case Cat(a, b) => DerivativeOfCat(a, b, c, s);
    case Alt(a, b) =>
      DerivativeMatches(a, c, s);
      DerivativeMatches(b, c, s);
    case Star(a) => DerivativeOfStar(a, c, s);
    case _ =>
  }

  lemma {:induction false} DerivativeOfCat(a: Regex, b: Regex, c: char, s: string)
    ensures Matches(Derivative(Cat(a, b), c), s) <==> Matches(Cat(a, b), [c] + s)
    decreases |s|, Cat(a, b), 1
  {
    if Matches(Cat(Derivative(a, c), b), s) {
      DerivativeOfCatIntro(a, b, c, s);
    }
    NullableMatchesEmpty(a);
    DerivativeMatches(b, c, s);
    if Nullable(a) && Matches(b, [c] + s) {
      CatIntro(a, b, [], [c] + s);
      assert [] + ([c] + s) == [c] + s;
    }
    if Matches(Cat(a, b), [c] + s) {
      DerivativeOfCatElim(a, b, c, s);
    }
  }

  lemma {:induction false} DerivativeOfCatIntro(a: Regex, b: Regex, c: char, s: string)
    requires Matches(Cat(Derivative(a, c), b), s)
    ensures Matches(Cat(a, b), [c] + s)
    decreases |s|, Cat(a, b), 0
  {
    var u, v := CatElim(Derivative(a, c), b, s);
    DerivativeMatches(a, c, u);
    Prepended(c, u, v);
    CatIntro(a, b, [c] + u, v);
  }

  /** The first factor takes the first character, or it is empty and the second one does. */
  lemma {:induction false} DerivativeOfCatElim(a: Regex, b: Regex, c: char, s: string)
    requires Matches(Cat(a, b), [c] + s)
    ensures Matches(Cat(Derivative(a, c), b), s) || (Matches(a, []) && Matches(b, [c] + s))
    decreases |s|, Cat(a, b), 0
  {
    var p, q := CatElim(a, b, [c] + s);
    if p == [] {
      assert q == [c] + s;
    } else {
      HeadAndTail(p, q, c, s);
      DerivativeMatches(a, c, p[1..]);
      CatIntro(Derivative(a, c), b, p[1..], q);
    }
  }

  lemma Prepended(c: char, u: string, v: string)
    ensures [c] + u + v == [c] + (u + v)
  {
  }

  lemma HeadAndTail(p: string, q: string, c: char, s: string)
    requires p != [] && p + q == [c] + s
    ensures p == [c] + p[1..] && s == p[1..] + q
  {
    assert (p + q)[0] == c && (p + q)[1..] == s;
  }

  lemma {:induction false} DerivativeOfStar(a: Regex, c: char, s: string)
    ensures Matches(Cat(Derivative(a, c), Star(a)), s) <==> Matches(Star(a), [c] + s)
    decreases |s|, Star(a), 0
  {
    if Matches(Cat(Derivative(a, c), Star(a)), s) {
      var u, v := CatElim(Derivative(a, c), Star(a), s);
      DerivativeMatches(a, c, u);
      Prepended(c, u, v);
      StarIntro(a, [c] + u, v);
    }
    if Matches(Star(a), [c] + s) {
      var p, q := StarElim(a, [c] + s);
      HeadAndTail(p, q, c, s);
      DerivativeMatches(a, c, p[1..]);
      CatIntro(Derivative(a, c), Star(a), p[1..], q);
    }
  }

  /** The matcher decides the language. */
  lemma {:induction false} MatchStringCorrect(r: Regex, s: string)
    ensures MatchString(r, s) <==> Matches(r, s)
    decreases |s|
  {
    if s == [] {
      NullableMatchesEmpty(r);
    } else {
      assert [s[0]] + s[1..] == s;
      DerivativeMatches(r, s[0], s[1..]);
      MatchStringCorrect(Derivative(r, s[0]), s[1..]);
    }
  }

  // ---------- Building blocks ----------

  /** A character class: matches exactly one character. */
  predicate IsClass(r: Regex) {
    r.Range? || (r.Alt? && IsClass(r.left) && IsClass(r.right))
  }

  predicate InClass(r: Regex, c: char)
    requires IsClass(r)
  {
    if r.Range? then r.lo <= c <= r.hi else InClass(r.left, c) || InClass(r.right, c)
  }

  lemma {:induction false} ClassMatches(r: Regex, s: string)
    requires IsClass(r)
    ensures Matches(r, s) <==> |s| == 1 && InClass(r, s[0])
    decreases r
  {
    if r.Alt? {
      ClassMatches(r.left, s);
      ClassMatches(r.right, s);
    }
  }

  predicate AllIn(r: Regex, s: string)
    requires IsClass(r)
  {
    forall i :: 0 <= i < |s| ==> InClass(r, s[i])
  }

  lemma {:induction false} StarOfClass(r: Regex, s: string)
    requires IsClass(r)
    ensures Matches(Star(r), s) <==> AllIn(r, s)
    decreases |s|
  {
    if s != [] {
      ClassMatches(r, s[..1]);
      StarOfClass(r, s[1..]);
      if Matches(Star(r), s) {
        var p, q := StarElim(r, s);
        ClassMatches(r, p);
        assert q == s[1..];
        assert forall k :: 0 < k < |s| ==> s[k] == s[1..][k - 1];
      }
      if AllIn(r, s) {
        StarIntro(r, s[..1], s[1..]);
        assert s[..1] + s[1..] == s;
      }
    }
  }

  /** One character of a class, then a rest. */
  lemma ClassThen(r: Regex, rest: Regex, s: string)
    requires IsClass(r)
    ensures Matches(Cat(r, rest), s) <==> s != [] && InClass(r, s[0]) && Matches(rest, s[1..])
  {
    if Matches(Cat(r, rest), s) {
      var p, q := CatElim(r, rest, s);
      ClassMatches(r, p);
      assert q == s[1..];
    }
    if s != [] && InClass(r, s[0]) && Matches(rest, s[1..]) {
      ClassMatches(r, s[..1]);
      CatIntro(r, rest, s[..1], s[1..]);
      assert s[..1] + s[1..] == s;
    }
  }
}
