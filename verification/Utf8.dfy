/** UTF-8 (RFC 3629, section 3): what the byte-wise length and order of Go strings say about code points. */
module Utf8 {
  import opened Strings

  type Byte = b: int | 0 <= b < 256

  /** The lowest six bits, as a continuation byte. */
  function Trail(n: nat): Byte {
    0x80 + n % 0x40
  }

  function EncodeChar(c: char): (bytes: seq<Byte>)
    ensures 1 <= |bytes| <= 4
  {
    var n := c as int;
    var n1 := n / 0x40;
    var n2 := n1 / 0x40;
    if n < 0x80 then [n]
    else if n < 0x800 then [0xC0 + n1, Trail(n)]
    else if n < 0x10000 then [0xE0 + n2, Trail(n1), Trail(n)]
    else [0xF0 + n2 / 0x40, Trail(n2), Trail(n1), Trail(n)]
  }

  function Encode(s: string): seq<Byte> {
    if s == [] then [] else EncodeChar(s[0]) + Encode(s[1..])
  }

  /** len of a Go string is the length of its encoding. */
  lemma {:induction false} ByteLengthIsEncoding(s: string)
    ensures ByteLength(s) == |Encode(s)|
  {
    if s != [] {
      ByteLengthIsEncoding(s[1..]);
    }
  }

  lemma {:induction false} EncodeConcat(a: string, b: string)
    ensures Encode(a + b) == Encode(a) + Encode(b)
  {
    if a == [] {
      assert a + b == b;
    } else {
      assert (a + b)[0] == a[0] && (a + b)[1..] == a[1..] + b;
      EncodeConcat(a[1..], b);
    }
  }

  /** The order of byte strings: a proper prefix, or a smaller byte at the first difference. */
  ghost predicate Precedes(a: seq<Byte>, b: seq<Byte>) {
    a < b || exists i :: DiffersAt(a, b, i) && a[i] < b[i]
  }

  predicate DiffersAt(a: seq<Byte>, b: seq<Byte>, i: int) {
    0 <= i < |a| && i < |b| && a[..i] == b[..i] && a[i] != b[i]
  }

  lemma DiffersOnce(a: seq<Byte>, b: seq<Byte>, i: int, j: int)
    requires DiffersAt(a, b, i) && DiffersAt(b, a, j)
    ensures i == j
  {
  }

  lemma PrecedesAsymmetric(a: seq<Byte>, b: seq<Byte>)
    requires Precedes(a, b)
    ensures !Precedes(b, a) && a != b
  {
    if !(a < b) {
      var i :| DiffersAt(a, b, i) && a[i] < b[i];
      forall j | DiffersAt(b, a, j)
        ensures j == i
      {
        DiffersOnce(a, b, i, j);
      }
    }
  }

  /** Dropping six bits keeps the order; when that makes two numbers equal, the dropped bits decide. */
  lemma Shifted(m: nat, n: nat)
    requires m <= n
    ensures m / 0x40 <= n / 0x40
    ensures m / 0x40 == n / 0x40 ==> n - m == Trail(n) - Trail(m)
  {
  }

  /** The encodings of two code points differ at some byte, and the smaller code point has the smaller one. */
  lemma CharOrder(c: char, d: char) returns (k: nat)
    requires c < d
    ensures DiffersAt(EncodeChar(c), EncodeChar(d), k) && EncodeChar(c)[k] < EncodeChar(d)[k]
  {
    if |EncodeChar(c)| == |EncodeChar(d)| {
      k := SameLengthOrder(c, d);
    } else {
      k := 0;
    }
  }

  lemma SameLengthOrder(c: char, d: char) returns (k: nat)
    requires c < d && |EncodeChar(c)| == |EncodeChar(d)|
    ensures DiffersAt(EncodeChar(c), EncodeChar(d), k) && EncodeChar(c)[k] < EncodeChar(d)[k]
  {
    var a, b := EncodeChar(c), EncodeChar(d);
    var m, n := c as int, d as int;
    Shifted(m, n);
    Shifted(m / 0x40, n / 0x40);
    Shifted(m / 0x40 / 0x40, n / 0x40 / 0x40);
    k := if a[0] != b[0] then 0 else if a[1] != b[1] then 1 else if a[2] != b[2] then 2 else 3;
  }

  lemma {:induction false} EncodeAt(s: string, i: nat)
    requires i < |s|
    ensures Encode(s) == Encode(s[..i]) + (EncodeChar(s[i]) + Encode(s[i + 1..]))
  {
    assert s == s[..i] + s[i..] && s[i..][0] == s[i] && s[i..][1..] == s[i + 1..];
    EncodeConcat(s[..i], s[i..]);
  }

  lemma Differing(p: seq<Byte>, x: seq<Byte>, y: seq<Byte>, u: seq<Byte>, v: seq<Byte>, k: nat)
    requires DiffersAt(x, y, k)
    ensures DiffersAt(p + (x + u), p + (y + v), |p| + k)
    ensures (p + (x + u))[|p| + k] == x[k] && (p + (y + v))[|p| + k] == y[k]
  {
    assert (p + (x + u))[..|p| + k] == p + x[..k] && (p + (y + v))[..|p| + k] == p + y[..k];
  }

  lemma OrderKept(a: string, b: string)
    requires StringLess(a, b)
    ensures Precedes(Encode(a), Encode(b))
  {
    StringLessIff(a, b);
    if a < b {
      EncodeConcat(a, b[|a|..]);
      assert b == a + b[|a|..] && Encode(b[|a|..]) != [];
    } else {
      var i :| 0 <= i < |a| && i < |b| && a[..i] == b[..i] && a[i] < b[i];
      EncodeAt(a, i);
      EncodeAt(b, i);
      var k := CharOrder(a[i], b[i]);
      Differing(Encode(a[..i]), EncodeChar(a[i]), EncodeChar(b[i]), Encode(a[i + 1..]), Encode(b[i + 1..]), k);
    }
  }

  /** Comparing code points and comparing encoded bytes is the same order. */
  lemma StringLessIsByteOrder(a: string, b: string)
    ensures StringLess(a, b) <==> Precedes(Encode(a), Encode(b))
  {
    StringLessTotal(a, b);
    if StringLess(a, b) {
      OrderKept(a, b);
    } else if StringLess(b, a) {
      OrderKept(b, a);
      PrecedesAsymmetric(Encode(b), Encode(a));
    }
  }

  /** No two strings share an encoding. */
  lemma EncodeInjective(a: string, b: string)
    requires Encode(a) == Encode(b)
    ensures a == b
  {
    StringLessTotal(a, b);
    if StringLess(a, b) {
      OrderKept(a, b);
      PrecedesAsymmetric(Encode(a), Encode(b));
    } else if StringLess(b, a) {
      OrderKept(b, a);
      PrecedesAsymmetric(Encode(b), Encode(a));
    }
  }
}
