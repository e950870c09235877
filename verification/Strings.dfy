/** C string searching and decimal printing. */
module Strings {

  /** `pat` stands in `s` at place i. */
  predicate At(s: string, i: nat, pat: string) {
    i + |pat| <= |s| && s[i..i + |pat|] == pat
  }

  lemma AtIsPrefix(s: string, i: nat, pat: string)
    requires i <= |s|
    ensures At(s, i, pat) <==> pat <= s[i..]
  {
    if i + |pat| <= |s| {
      assert s[i..][..|pat|] == s[i..i + |pat|];
    }
  }

  /** A pattern does not stand where one of its characters does not. */
  lemma NotAt(s: string, i: nat, pat: string, d: nat)
    requires d < |pat| && i + d < |s| && s[i + d] != pat[d]
    ensures !At(s, i, pat)
  {
  }

  /** strstr from place `from`: the first place of `pat`, or -1. */
  function IndexFrom(s: string, pat: string, from: nat): (r: int)
    ensures r == -1 || (from <= r && At(s, r, pat))
    ensures forall j | from <= j && (r == -1 || j < r) :: !At(s, j, pat)
    decreases |s| - from
  {
    if At(s, from, pat) then from else if from >= |s| then -1 else IndexFrom(s, pat, from + 1)
  }

  function Index(s: string, pat: string): (r: int)
    ensures r == -1 || (0 <= r && At(s, r, pat))
    ensures forall j: nat | r == -1 || j < r :: !At(s, j, pat)
  {
    IndexFrom(s, pat, 0)
  }

  /** The first place is the first place. */
  lemma IndexIs(s: string, pat: string, r: nat)
    requires At(s, r, pat) && forall j: nat | j < r :: !At(s, j, pat)
    ensures Index(s, pat) == r
  {
  }

  /** A front part in which `pat` cannot begin only shifts the search. */
  lemma IndexShift(e: string, x: string, pat: string)
    requires forall i: nat | i < |e| :: !At(e + x, i, pat)
    ensures Index(e + x, pat) == if Index(x, pat) == -1 then -1 else |e| + Index(x, pat)
  {
    forall i: nat
      ensures At(e + x, |e| + i, pat) <==> At(x, i, pat)
    {
      if i + |pat| <= |x| {
        assert (e + x)[|e| + i..|e| + i + |pat|] == x[i..i + |pat|];
      }
    }
    var r := Index(x, pat);
    if r == -1 {
      forall j: nat
        ensures !At(e + x, j, pat)
      {
        if j >= |e| {
          assert !At(x, j - |e|, pat);
        }
      }
    } else {
      forall j: nat | j < |e| + r
        ensures !At(e + x, j, pat)
      {
        if j >= |e| {
          assert !At(x, j - |e|, pat);
        }
      }
      IndexIs(e + x, pat, |e| + r);
    }
  }

  // ---------------------------------------------------------------- decimal numbers

  function Digit(d: nat): char
    requires d < 10
  {
    '0' + d as char
  }

  predicate IsDigit(c: char) {
    '0' <= c <= '9'
  }

  function DigitValue(c: char): nat
    requires IsDigit(c)
  {
    c as int - '0' as int
  }

  /** printf's %d of a number that is not negative. */
  function Decimal(n: nat): (s: string)
    ensures s != [] && forall c | c in s :: IsDigit(c)
  {
    if n < 10 then [Digit(n)] else Decimal(n / 10) + [Digit(n % 10)]
  }

  function Value(s: string): nat
    requires forall c | c in s :: IsDigit(c)
  {
    if s == [] then 0 else 10 * Value(s[..|s| - 1]) + DigitValue(s[|s| - 1])
  }

  lemma {:induction false} ValueOfDecimal(n: nat)
    ensures Value(Decimal(n)) == n
  {
    if n >= 10 {
      ValueOfDecimal(n / 10);
      assert Decimal(n)[..|Decimal(n)| - 1] == Decimal(n / 10);
    }
  }

  /** Different numbers print differently. */
  lemma DecimalInjective(m: nat, n: nat)
    requires Decimal(m) == Decimal(n)
    ensures m == n
  {
    ValueOfDecimal(m);
    ValueOfDecimal(n);
  }
}
