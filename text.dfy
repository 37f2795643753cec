/** String helpers the source gets from Python: substring tests, the code-point order of
    `str` comparisons, and decimal rendering of counters inside identifiers. */
module Text {

  /** `sub in s` for Python strings. */
  predicate Contains(s: string, sub: string)
  {
    (|sub| <= |s| && s[..|sub|] == sub) || (s != [] && Contains(s[1..], sub))
  }

  /** Python's `a <= b` on strings: lexicographic on code points, a proper prefix first. */
  predicate StrLe(a: string, b: string)
  {
    if a == [] then true
    else if b == [] then false
    else if a[0] != b[0] then a[0] < b[0]
    else StrLe(a[1..], b[1..])
  }

  lemma {:induction false} StrLeTotal(a: string, b: string)
    ensures StrLe(a, b) || StrLe(b, a)
  {
    if a != [] && b != [] && a[0] == b[0] {
      StrLeTotal(a[1..], b[1..]);
    }
  }

  lemma {:induction false} StrLeTransitive(a: string, b: string, c: string)
    requires StrLe(a, b) && StrLe(b, c)
    ensures StrLe(a, c)
  {
    if a != [] && b != [] && c != [] && a[0] == b[0] && b[0] == c[0] {
      StrLeTransitive(a[1..], b[1..], c[1..]);
    }
  }

  lemma {:induction false} StrLeAntisymmetric(a: string, b: string)
    requires StrLe(a, b) && StrLe(b, a)
    ensures a == b
  {
    if a != [] && b != [] {
      StrLeAntisymmetric(a[1..], b[1..]);
      assert a == [a[0]] + a[1..] && b == [b[0]] + b[1..];
    }
  }

  function DigitChar(d: nat): char
    requires d < 10
  {
    "0123456789"[d]
  }

  /** Decimal rendering of a natural number, as `str(n)` / `"{0}".format(n)`. */
  function Decimal(n: nat): (r: string)
    ensures |r| >= 1
    ensures n >= 10 ==> |r| >= 2
    ensures r[|r| - 1] == DigitChar(n % 10)
  {
    if n < 10 then [DigitChar(n)] else Decimal(n / 10) + [DigitChar(n % 10)]
  }

  lemma DigitCharInjective(a: nat, b: nat)
    requires a < 10 && b < 10 && DigitChar(a) == DigitChar(b)
    ensures a == b
  {
  }

  /** Distinct counters render to distinct strings, so `<id>.<k>` names never collide. */
  lemma {:induction false} DecimalInjective(n: nat, m: nat)
    requires Decimal(n) == Decimal(m)
    ensures n == m
  {
    DigitCharInjective(n % 10, m % 10);
    if n >= 10 && m >= 10 {
      var dn, dm := Decimal(n), Decimal(m);
      assert Decimal(n / 10) == dn[..|dn| - 1];
      assert Decimal(m / 10) == dm[..|dm| - 1];
      DecimalInjective(n / 10, m / 10);
    }
  }

  /** `"{0}.{1}".format(prefix, k)` is injective in `k` for a fixed prefix. */
  lemma SuffixedInjective(prefix: string, sep: string, n: nat, m: nat)
    requires prefix + sep + Decimal(n) == prefix + sep + Decimal(m)
    ensures n == m
  {
    var a, b := prefix + sep + Decimal(n), prefix + sep + Decimal(m);
    assert Decimal(n) == a[|prefix + sep|..];
    assert Decimal(m) == b[|prefix + sep|..];
    DecimalInjective(n, m);
  }

  predicate IsDigit(c: char)
  {
    '0' <= c <= '9'
  }

  /** A decimal rendering is made of digits only. */
  lemma {:induction false} DecimalDigits(n: nat)
    ensures forall i :: 0 <= i < |Decimal(n)| ==> IsDigit(Decimal(n)[i])
  {
    if n >= 10 {
      DecimalDigits(n / 10);
    }
  }

  /** Two digit strings followed by the same non-digit separator split the same way. */
  lemma {:induction false} SplitAtSeparator(a1: string, b1: string, a2: string, b2: string, sep: char)
    requires !IsDigit(sep)
    requires forall i :: 0 <= i < |a1| ==> IsDigit(a1[i])
    requires forall i :: 0 <= i < |a2| ==> IsDigit(a2[i])
    requires a1 + [sep] + b1 == a2 + [sep] + b2
    ensures a1 == a2 && b1 == b2
  {
    var s1, s2 := a1 + [sep] + b1, a2 + [sep] + b2;
    assert s1[|a1|] == sep && s2[|a2|] == sep;
    if |a1| == |a2| {
      assert a1 == s1[..|a1|] && a2 == s2[..|a2|];
      assert b1 == s1[|a1| + 1..] && b2 == s2[|a2| + 1..];
    }
  }
}
