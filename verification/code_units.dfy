/** The order in which JavaScript's default `Array.prototype.sort` puts
    strings: lexicographic on their UTF-16 code units. Strings here are
    sequences of Unicode scalar values, so the order is given on characters
    through `Rank`, and shown equal to the code-unit order. */
module CodeUnits {

  /** A number that orders characters as their UTF-16 encodings order them:
      characters below the surrogate range keep their code, supplementary
      characters (encoded with a high surrogate, 0xD800-0xDBFF, first) come
      next in code order, and the characters from 0xE000 to 0xFFFF, whose
      single unit exceeds every high surrogate, come last. */
  function Rank(c: char): (r: int)
    ensures 0 <= r
  {
    var n := c as int;
    if n < 0xD800 then n
    else if n >= 0x10000 then 0xD800 + (n - 0x10000)
    else n + 0x100000
  }

  lemma RankIsInjective(a: char, b: char)
    ensures Rank(a) == Rank(b) <==> a == b
  {
  }

  /** `a` sorts before `b`. */
  predicate StrLess(a: string, b: string)
    decreases |a|
  {
    if |a| == 0 then |b| > 0
    else if |b| == 0 then false
    else if a[0] == b[0] then StrLess(a[1..], b[1..])
    else Rank(a[0]) < Rank(b[0])
  }

  lemma {:induction false} StrLessIrreflexive(a: string)
    ensures !StrLess(a, a)
    decreases |a|
  {
    if |a| > 0 {
      StrLessIrreflexive(a[1..]);
    }
  }

  lemma {:induction false} StrLessTransitive(a: string, b: string, c: string)
    requires StrLess(a, b) && StrLess(b, c)
    ensures StrLess(a, c)
    decreases |a|
  {
    if |a| > 0 && |b| > 0 && |c| > 0 && a[0] == b[0] && b[0] == c[0] {
      StrLessTransitive(a[1..], b[1..], c[1..]);
    }
  }

  /** Two different strings are always ordered one way or the other. */
  lemma {:induction false} StrLessTotal(a: string, b: string)
    requires a != b
    ensures StrLess(a, b) || StrLess(b, a)
    decreases |a|
  {
    if |a| > 0 && |b| > 0 {
      if a[0] == b[0] {
        assert a == [a[0]] + a[1..] && b == [b[0]] + b[1..];
        StrLessTotal(a[1..], b[1..]);
      } else {
        RankIsInjective(a[0], b[0]);
      }
    }
  }

  /* ---------------------------------------------------- the code units */

  /** The UTF-16 code units of one character. */
  function Units(c: char): (r: seq<int>)
    ensures 1 <= |r| <= 2
  {
    var n := c as int;
    if n < 0x10000 then [n]
    else [0xD800 + (n - 0x10000) / 0x400, 0xDC00 + (n - 0x10000) % 0x400]
  }

  function Utf16(s: string): seq<int> {
    if |s| == 0 then [] else Units(s[0]) + Utf16(s[1..])
  }

  /** Lexicographic order on code-unit sequences, a proper prefix first. */
  predicate UnitsLess(u: seq<int>, v: seq<int>)
    decreases |u|
  {
    if |u| == 0 then |v| > 0
    else if |v| == 0 then false
    else if u[0] == v[0] then UnitsLess(u[1..], v[1..])
    else u[0] < v[0]
  }

  lemma {:induction false} UnitsLessCommonPrefix(x: seq<int>, u: seq<int>, v: seq<int>)
    ensures UnitsLess(x + u, x + v) == UnitsLess(u, v)
    decreases |x|
  {
    if |x| > 0 {
      assert (x + u)[1..] == x[1..] + u;
      assert (x + v)[1..] == x[1..] + v;
      UnitsLessCommonPrefix(x[1..], u, v);
    } else {
      assert x + u == u && x + v == v;
    }
  }

  /** When two characters differ, their units decide the comparison
      whatever follows them, and decide it as `Rank` does. */
  lemma DifferentCharsDecide(a: char, b: char, u: seq<int>, v: seq<int>)
    requires a != b
    ensures UnitsLess(Units(a) + u, Units(b) + v) == (Rank(a) < Rank(b))
  {
    var x, y := Units(a) + u, Units(b) + v;
    assert x[0] == Units(a)[0] && y[0] == Units(b)[0];
    var n, m := a as int, b as int;
    if n >= 0x10000 && m >= 0x10000 && (n - 0x10000) / 0x400 == (m - 0x10000) / 0x400 {
      assert x[1] == Units(a)[1] && y[1] == Units(b)[1];
      assert x[1..][0] == x[1] && y[1..][0] == y[1];
      assert x[1] != y[1];
    }
  }

  /** `StrLess` is the code-unit order JavaScript sorts by. */
  lemma {:induction false} StrLessIsCodeUnitOrder(a: string, b: string)
    ensures StrLess(a, b) == UnitsLess(Utf16(a), Utf16(b))
    decreases |a|
  {
    if |a| > 0 && |b| > 0 {
      if a[0] == b[0] {
        StrLessIsCodeUnitOrder(a[1..], b[1..]);
        UnitsLessCommonPrefix(Units(a[0]), Utf16(a[1..]), Utf16(b[1..]));
      } else {
        DifferentCharsDecide(a[0], b[0], Utf16(a[1..]), Utf16(b[1..]));
      }
    }
  }
}
