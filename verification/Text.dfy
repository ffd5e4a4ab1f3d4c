/** Text order and UTF-8, shared by the modules that compare or serialise text. */
module Text {
  type Byte = x: int | 0 <= x < 256 witness 0
  type Bytes = seq<Byte>

  /** Code point order: Python's order on str, and SQLite's BINARY order on its UTF-8 form. */
  predicate Less(a: string, b: string) {
    b != [] && (a == [] || a[0] < b[0] || (a[0] == b[0] && Less(a[1..], b[1..])))
  }

  lemma {:induction false} LessTotal(a: string, b: string)
    ensures a == b || Less(a, b) || Less(b, a)
    ensures !(Less(a, b) && Less(b, a)) && (a == b ==> !Less(a, b))
  {
    if a != [] && b != [] && a[0] == b[0] {
      LessTotal(a[1..], b[1..]);
      assert a == [a[0]] + a[1..] && b == [b[0]] + b[1..];
    }
  }

  lemma {:induction false} LessTransitive(a: string, b: string, c: string)
    requires Less(a, b) && Less(b, c)
    ensures Less(a, c)
  {
    if a != [] && a[0] == b[0] && b[0] == c[0] {
      LessTransitive(a[1..], b[1..], c[1..]);
    }
  }

  /** Equally long prefixes decide first. */
  lemma {:induction false} LessPrefix(p: string, q: string, s: string, t: string)
    requires |p| == |q|
    ensures Less(p + s, q + t) <==> Less(p, q) || (p == q && Less(s, t))
  {
    if p == [] {
      assert p + s == s && q + t == t;
    } else {
      LessPrefix(p[1..], q[1..], s, t);
      assert (p + s)[1..] == p[1..] + s && (q + t)[1..] == q[1..] + t;
      assert p == [p[0]] + p[1..] && q == [q[0]] + q[1..];
    }
  }

  /** Section 3 of RFC 3629. */
  function Utf8Char(c: char): (r: Bytes)
    ensures 1 <= |r| <= 4
  {
    var n := c as int;
    if n < 0x80 then [n]
    else if n < 0x800 then [0xC0 + n / 64, 0x80 + n % 64]
    else
      var high := n / 64;
      if n < 0x10000 then [0xE0 + high / 64, 0x80 + high % 64, 0x80 + n % 64]
      else
        var top := high / 64;
        [0xF0 + top / 64, 0x80 + top % 64, 0x80 + high % 64, 0x80 + n % 64]
  }

  function Utf8(s: string): Bytes {
    if s == [] then [] else Utf8Char(s[0]) + Utf8(s[1..])
  }

  /** The first byte tells the length. */
  lemma {:induction false} Utf8Length(c: char, d: char)
    requires Utf8Char(c)[0] == Utf8Char(d)[0]
    ensures |Utf8Char(c)| == |Utf8Char(d)|
  {
  }

  /** The code point that a sequence of the given length stands for. */
  ghost function Decoded(b: Bytes): int
    requires 1 <= |b| <= 4
  {
    var at := (i: int) requires 0 <= i < |b| => b[i] as int;
    if |b| == 1 then at(0)
    else if |b| == 2 then 64 * (at(0) - 0xC0) + (at(1) - 0x80)
    else if |b| == 3 then 64 * (64 * (at(0) - 0xE0) + (at(1) - 0x80)) + (at(2) - 0x80)
    else 64 * (64 * (64 * (at(0) - 0xF0) + (at(1) - 0x80)) + (at(2) - 0x80)) + (at(3) - 0x80)
  }

  lemma {:induction false} DecodedUtf8(c: char)
    ensures Decoded(Utf8Char(c)) == c as int
  {
    var n := c as int;
    var high := n / 64;
    var top := high / 64;
    assert n == 64 * high + n % 64 && high == 64 * top + high % 64 && top == 64 * (top / 64) + top % 64;
  }

  lemma {:induction false} Utf8CharPrefix(c: char, d: char, r: Bytes, s: Bytes)
    requires Utf8Char(c) + r == Utf8Char(d) + s
    ensures c == d && r == s
  {
    var x, y := Utf8Char(c), Utf8Char(d);
    assert (x + r)[0] == x[0] && (y + s)[0] == y[0];
    Utf8Length(c, d);
    assert x == (x + r)[..|x|] && y == (y + s)[..|y|];
    assert r == (x + r)[|x|..] && s == (y + s)[|y|..];
    DecodedUtf8(c);
    DecodedUtf8(d);
  }

  lemma {:induction false} Utf8Injective(a: string, b: string)
    requires Utf8(a) == Utf8(b)
    ensures a == b
  {
    if a != [] && b != [] {
      Utf8CharPrefix(a[0], b[0], Utf8(a[1..]), Utf8(b[1..]));
      Utf8Injective(a[1..], b[1..]);
      assert a == [a[0]] + a[1..] && b == [b[0]] + b[1..];
    }
  }

  lemma {:induction false} Utf8Concat(a: string, b: string)
    ensures Utf8(a + b) == Utf8(a) + Utf8(b)
  {
    if a == [] {
      assert a + b == b;
    } else {
      Utf8Concat(a[1..], b);
      assert (a + b)[1..] == a[1..] + b;
    }
  }
}
