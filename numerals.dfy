/**
 * Python's `float()` on the texts `limpiar` hands it (backend/main.py:142):
 * plain decimal numerals with an optional sign, read as exact rationals.
 */
module Numerals {
  import opened Wrappers
  import opened Text

  /** The characters Python's `float()` accepts in a plain decimal numeral. */
  predicate AllDigits(s: string) {
    forall c :: c in s ==> IsDigit(c)
  }

  function Pow10(n: nat): (r: nat)
    ensures r >= 1
  {
    if n == 0 then 1 else 10 * Pow10(n - 1)
  }

  /** The value of the numeral `whole.frac`: the fraction digits count in tenths, hundredths, and so on. */
  function DecimalValue(whole: string, frac: string): real
    requires AllDigits(whole) && AllDigits(frac)
  {
    DigitsValue(whole) as real + DigitsValue(frac) as real / Pow10(|frac|) as real
  }

  /** `k` digits stand for less than `10^k`. */
  lemma {:induction false} DigitsBelow(f: string)
    requires AllDigits(f)
    ensures DigitsValue(f) < Pow10(|f|)
    decreases |f|
  {
    if f != [] {
      var g := f[..|f| - 1];
      assert AllDigits(g) by {
        forall c | c in g ensures IsDigit(c) {
          assert c in f;
        }
      }
      DigitsBelow(g);
      assert f[|f| - 1] in f;
      assert DigitsValue(g) * 10 <= (Pow10(|g|) - 1) * 10;
    }
  }

  /** The fraction digits add less than one to the whole part, and nothing when there are none. */
  lemma DecimalBounds(whole: string, frac: string)
    requires AllDigits(whole) && AllDigits(frac)
    ensures DigitsValue(whole) as real <= DecimalValue(whole, frac) < DigitsValue(whole) as real + 1.0
    ensures frac == [] ==> DecimalValue(whole, frac) == DigitsValue(whole) as real
  {
    DigitsBelow(frac);
    FractionBelowOne(DigitsValue(frac) as real, Pow10(|frac|) as real);
  }

  lemma FractionBelowOne(n: real, p: real)
    requires 0.0 <= n < p
    ensures 0.0 <= n / p < 1.0
  {
    assert n / p * p == n;
  }

  /** An unsigned decimal numeral: digits, optionally one `.` and more digits, with at least one digit in all. */
  function UnsignedValue(b: string): Option<real> {
    var parts := Split(b, '.');
    if |parts| == 1 && parts[0] != [] && AllDigits(parts[0]) then Some(DigitsValue(parts[0]) as real)
    else if |parts| == 2 && parts[0] + parts[1] != [] && AllDigits(parts[0]) && AllDigits(parts[1]) then
      Some(DecimalValue(parts[0], parts[1]))
    else None
  }

  /** `float(s)` on a plain decimal numeral with an optional sign; any other text fails. */
  function ParseDecimal(t: string): Option<real> {
    var signed := |t| > 0 && (t[0] == '-' || t[0] == '+');
    var body := if signed then t[1..] else t;
    match UnsignedValue(body)
    case Some(v) => Some(if signed && t[0] == '-' then -v else v)
    case None => None
  }

  /** A string of digits reads as its value. */
  lemma ParseDigits(d: string)
    requires d != [] && AllDigits(d)
    ensures ParseDecimal(d) == Some(DigitsValue(d) as real)
  {
    assert d[0] in d;
    assert '.' !in d by {
      assert !IsDigit('.');
    }
    SplitWithoutSeparator(d, '.');
  }

  /** Digits, a `.` and more digits read as the whole part plus the fraction. */
  lemma ParseFraction(a: string, b: string)
    requires a != [] && AllDigits(a) && AllDigits(b)
    ensures ParseDecimal(a + "." + b) == Some(DecimalValue(a, b))
  {
    assert '.' !in a && '.' !in b by {
      assert !IsDigit('.');
    }
    SplitPair(a, b, '.');
    assert (a + "." + b)[0] == a[0] && a[0] in a;
    FractionValue(a + "." + b, a, b);
  }

  /** The value of a numeral whose pieces are `a` and `b`. */
  lemma FractionValue(t: string, a: string, b: string)
    requires a != [] && AllDigits(a) && AllDigits(b)
    requires t != [] && IsDigit(t[0]) && Split(t, '.') == [a, b]
    ensures ParseDecimal(t) == Some(DecimalValue(a, b))
  {
    assert |a + b| > 0;
  }

  /** Three groups of digits separated by two dots are not a numeral. */
  lemma ParseTwoDots(a: string, b: string, c: string)
    requires a != [] && AllDigits(a) && AllDigits(b) && AllDigits(c)
    ensures ParseDecimal(a + "." + b + "." + c) == None
  {
    var t := a + "." + b + "." + c;
    var u := b + "." + c;
    assert '.' !in a && '.' !in b && '.' !in c by {
      assert !IsDigit('.');
    }
    assert t[..|a|] == a && t[|a|] == '.' && t[|a| + 1..] == u;
    SplitAtFirst(t, '.', |a|);
    SplitPair(b, c, '.');
    assert |Split(t, '.')| == 3;
    assert t[0] == a[0] && a[0] in a;
  }

  lemma DigitsAppend(a: string, b: string)
    requires AllDigits(a) && AllDigits(b)
    ensures AllDigits(a + b)
  {
  }

  /** A text that starts with neither a sign nor a digit and has no `.` is not a numeral. */
  lemma NotANumeral(t: string)
    requires t != [] && !IsDigit(t[0]) && t[0] != '-' && t[0] != '+' && '.' !in t
    ensures ParseDecimal(t) == None
  {
    SplitWithoutSeparator(t, '.');
    assert t[0] in t;
  }
}
