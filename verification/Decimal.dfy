/** Decimal numerals as strings, and how their order follows their values. */
module Decimal {
  import opened LexOrder

  predicate IsDigit(c: char) {
    '0' <= c <= '9'
  }

  predicate IsNumeral(s: string) {
    forall c | c in s :: IsDigit(c)
  }

  function Digit(d: nat): (c: char)
    requires d < 10
    ensures IsDigit(c) && DigitValue(c) == d
  {
    "0123456789"[d]
  }

  function DigitValue(c: char): (d: nat)
    requires IsDigit(c)
    ensures d < 10
  {
    (c as int - '0' as int) as nat
  }

  /** The number a string of digits denotes. */
  function Value(s: string): nat
    requires IsNumeral(s)
  {
    if s == "" then 0 else 10 * Value(s[..|s| - 1]) + DigitValue(s[|s| - 1])
  }

  lemma ValueOfSnoc(s: string, c: char)
    requires IsNumeral(s) && IsDigit(c)
    ensures IsNumeral(s + [c]) && Value(s + [c]) == 10 * Value(s) + DigitValue(c)
  {
    assert (s + [c])[..|s|] == s;
  }

  /** The usual decimal rendering, without leading zeros. */
  function Render(n: nat): (s: string)
    ensures s != "" && IsNumeral(s) && Value(s) == n
  {
    if n < 10 then
      ValueOfSnoc("", Digit(n));
      assert "" + [Digit(n)] == [Digit(n)];
      [Digit(n)]
    else
      ValueOfSnoc(Render(n / 10), Digit(n % 10));
      Render(n / 10) + [Digit(n % 10)]
  }

  function Pow10(k: nat): (p: nat)
    ensures p >= 1
  {
    if k == 0 then 1 else 10 * Pow10(k - 1)
  }

  /** A rendering fits `width` digits exactly when the number is below the power of ten. */
  lemma {:induction false} RenderFits(n: nat, width: nat)
    requires width > 0
    ensures |Render(n)| <= width <==> n < Pow10(width)
  {
    if n >= 10 {
      if width == 1 {
        assert Pow10(1) == 10 * Pow10(0);
      } else {
        RenderFits(n / 10, width - 1);
      }
    } else {
      assert Pow10(width) >= 10 by {
        assert Pow10(width) == 10 * Pow10(width - 1);
      }
    }
  }

  /** Zeros on the left up to `width` characters; a longer string is never cut. */
  function ZeroPad(s: string, width: nat): (r: string)
    ensures |r| == if |s| < width then width else |s|
    ensures IsNumeral(s) ==> IsNumeral(r) && Value(r) == Value(s)
    decreases width - |s|
  {
    if |s| >= width then s
    else
      LeadingZero(s);
      ZeroPad("0" + s, width)
  }

  lemma {:induction false} LeadingZero(s: string)
    ensures IsNumeral(s) ==> IsNumeral("0" + s) && Value("0" + s) == Value(s)
    decreases |s|
  {
    if IsNumeral(s) {
      if s != "" {
        var front := s[..|s| - 1];
        LeadingZero(front);
        ValueOfSnoc("0" + front, s[|s| - 1]);
        assert ("0" + front) + [s[|s| - 1]] == "0" + s;
      } else {
        ValueOfSnoc("", '0');
        assert "" + ['0'] == "0" + s;
      }
    }
  }

  /** Equally long numerals compare as their values do. */
  lemma {:induction false} NumeralOrder(s: string, t: string)
    requires IsNumeral(s) && IsNumeral(t) && |s| == |t|
    ensures Less(s, t) <==> Value(s) < Value(t)
    ensures s == t <==> Value(s) == Value(t)
    decreases |s|
  {
    if s != "" {
      var n := |s| - 1;
      NumeralOrder(s[..n], t[..n]);
      LessOfConcat(s[..n], [s[n]], t[..n], [t[n]]);
      assert s[..n] + [s[n]] == s && t[..n] + [t[n]] == t;
      assert Less([s[n]], [t[n]]) <==> s[n] < t[n];
    }
  }

  /** Cutting digits off the right divides. */
  lemma {:induction false} ValueOfPrefix(s: string, k: nat)
    requires IsNumeral(s) && k <= |s|
    ensures IsNumeral(s[..|s| - k])
    ensures Value(s[..|s| - k]) == Value(s) / Pow10(k)
    decreases k
  {
    if k > 0 {
      var front := s[..|s| - 1];
      ValueOfPrefix(front, k - 1);
      assert front[..|front| - (k - 1)] == s[..|s| - k];
      assert Value(front) == Value(s) / 10;
      DivDiv(Value(s), Pow10(k - 1));
    } else {
      assert s[..|s|] == s;
    }
  }

  lemma DivDiv(n: nat, p: nat)
    requires p >= 1
    ensures (n / 10) / p == n / (10 * p)
  {
    var a := n / 10;
    var q := a / p;
    var r := a % p;
    assert a == q * p + r;
    assert n == 10 * a + n % 10;
    assert n == (10 * p) * q + (10 * r + n % 10) by {
      assert 10 * (q * p) == (10 * p) * q;
    }
    assert 0 <= 10 * r + n % 10 < 10 * p;
    DivUnique(n, 10 * p, q, 10 * r + n % 10);
  }

  lemma DivUnique(n: nat, d: nat, q: nat, r: nat)
    requires d >= 1 && n == d * q + r && r < d
    ensures n / d == q
  {
    var q' := n / d;
    var r' := n % d;
    assert n == d * q' + r' && 0 <= r' < d;
    MulMonotone(d, q' + 1, q);
    MulMonotone(d, q + 1, q');
  }

  lemma MulMonotone(c: nat, a: int, b: int)
    ensures a <= b ==> c * a <= c * b
  {
  }
}
