/**
 * What `limpiar` (backend/main.py:139-144) makes of the salary texts the
 * scraped offers carry: the decimal comma, the thousands dot, the currency
 * prefix, and the texts it refuses.
 */
module Limpieza {
  import opened Wrappers
  import opened Text
  import opened Numerals
  import opened Statistics

  /** A text without an `s` loses nothing to the first replacement. */
  lemma NoCurrency(s: string)
    requires 's' !in s
    ensures ReplaceAll(s, "s/", "") == s
  {
    AbsentHead(s, "s/");
    ReplaceAllAbsent(s, "s/", "");
  }

  /** Once the replacements leave a numeral of digits and dots, `limpiar` is `float()` of that numeral. */
  lemma LimpiarStages(s: string, t: string)
    requires Cleaned(s) == t
    requires forall c :: c in t ==> IsDigit(c) || c == '.'
    ensures Limpiar(s) == ParseDecimal(t)
  {
    NumeralUntouched(t);
  }

  /** The replacements when the text holds no `s`, no `.` and no `,`. */
  lemma CleanedPlain(s: string)
    requires 's' !in s && '.' !in s && ',' !in s
    ensures Cleaned(s) == s
  {
    NoCurrency(s);
    AbsentHead(s, ".");
    ReplaceAllAbsent(s, ".", "");
    AbsentHead(s, ",");
    ReplaceAllAbsent(s, ",", ".");
  }

  /** The replacements turn the one comma into a dot. */
  lemma CleanedComma(a: string, b: string)
    requires AllDigits(a) && AllDigits(b)
    ensures Cleaned(a + "," + b) == a + "." + b
  {
    var s := a + "," + b;
    assert 's' !in s && '.' !in s && ',' !in a && ',' !in b by {
      assert !IsDigit('s') && !IsDigit('.') && !IsDigit(',');
    }
    NoCurrency(s);
    AbsentHead(s, ".");
    ReplaceAllAbsent(s, ".", "");
    ReplaceAllAround(a, b, ',', ".");
  }

  /** The replacements drop the one dot. */
  lemma CleanedDot(a: string, b: string)
    requires AllDigits(a) && AllDigits(b)
    ensures Cleaned(a + "." + b) == a + b
  {
    var s := a + "." + b;
    assert 's' !in s && '.' !in a && '.' !in b && ',' !in a + b by {
      assert !IsDigit('s') && !IsDigit('.') && !IsDigit(',');
    }
    NoCurrency(s);
    ReplaceAllAround(a, b, '.', "");
    assert a + "" + b == a + b;
    AbsentHead(a + b, ",");
    ReplaceAllAbsent(a + b, ",", ".");
  }

  /** The replacements drop the dot and turn the comma into one. */
  lemma CleanedGrouped(a: string, b: string, c: string)
    requires AllDigits(a) && AllDigits(b) && AllDigits(c)
    ensures Cleaned(a + "." + b + "," + c) == a + b + "." + c
  {
    var s := a + "." + b + "," + c;
    var rest := b + "," + c;
    assert s == a + "." + rest;
    assert 's' !in s && '.' !in a && '.' !in rest && ',' !in a + b && ',' !in c by {
      assert !IsDigit('s') && !IsDigit('.') && !IsDigit(',');
    }
    NoCurrency(s);
    ReplaceAllAround(a, rest, '.', "");
    assert a + "" + rest == (a + b) + "," + c;
    ReplaceAllAround(a + b, c, ',', ".");
  }

  /** The replacements turn both commas into dots. */
  lemma CleanedTwoCommas(a: string, b: string, c: string)
    requires AllDigits(a) && AllDigits(b) && AllDigits(c)
    ensures Cleaned(a + "," + b + "," + c) == a + "." + b + "." + c
  {
    var s := a + "," + b + "," + c;
    var x := a + "," + b;
    assert s == x + ("," + c);
    assert 's' !in s && '.' !in s && ',' !in a && ',' !in b && ',' !in c by {
      assert !IsDigit('s') && !IsDigit('.') && !IsDigit(',');
    }
    NoCurrency(s);
    AbsentHead(s, ".");
    ReplaceAllAbsent(s, ".", "");
    ReplaceAllCharAppend(x, "," + c, ',', ".");
    ReplaceAllAround(a, b, ',', ".");
    assert "," + c == [] + [','] + c;
    ReplaceAllAround([], c, ',', ".");
    assert a + "." + b + ([] + "." + c) == a + "." + b + "." + c;
  }

  /** A salary of plain digits is read as its value. */
  lemma LimpiarDigits(d: string)
    requires d != [] && AllDigits(d)
    ensures Limpiar(d) == Some(DigitsValue(d) as real)
  {
    assert 's' !in d && '.' !in d && ',' !in d by {
      assert !IsDigit('s') && !IsDigit('.') && !IsDigit(',');
    }
    CleanedPlain(d);
    LimpiarStages(d, d);
    ParseDigits(d);
  }

  /** A salary written as a natural number is read as that number. */
  lemma LimpiarNatural(n: nat)
    ensures Limpiar(NatToString(n)) == Some(n as real)
  {
    LimpiarDigits(NatToString(n));
    NatToStringRoundTrip(n);
  }

  /** A comma is the decimal separator: `a,b` reads as `a.b`, so `2,500` is two and a half. */
  lemma LimpiarComma(a: string, b: string)
    requires a != [] && AllDigits(a) && AllDigits(b)
    ensures Limpiar(a + "," + b) == Some(DecimalValue(a, b))
  {
    CleanedComma(a, b);
    LimpiarStages(a + "," + b, a + "." + b);
    ParseFraction(a, b);
  }

  /**
   * A comma after at most three digits makes the salary less than a
   * thousand, so `2,500` (two and a half) never passes the floor of 1500 that
   * the salary list applies at main.py:148.
   */
  lemma LimpiarCommaBelowFloor(a: string, b: string)
    requires a != [] && |a| <= 3 && AllDigits(a) && AllDigits(b)
    ensures Limpiar(a + "," + b).Some? && Limpiar(a + "," + b).value < 1000.0
  {
    LimpiarComma(a, b);
    DecimalBounds(a, b);
    DigitsBelow(a);
    assert Pow10(|a|) <= 1000 by {
      assert Pow10(1) == 10 && Pow10(2) == 100 && Pow10(3) == 1000;
    }
  }

  /** A dot is a thousands separator: it is dropped, so `4.500` reads as four thousand five hundred. */
  lemma LimpiarThousands(a: string, b: string)
    requires a != [] && AllDigits(a) && AllDigits(b)
    ensures Limpiar(a + "." + b) == Some(DigitsValue(a + b) as real)
  {
    CleanedDot(a, b);
    LimpiarStages(a + "." + b, a + b);
    ParseDigits(a + b);
  }

  /**
   * Both together: in `4.500,50` the dot is dropped and the comma read as the
   * decimal point, so it reads as `4500,50` does, four thousand five hundred
   * and a half.
   */
  lemma LimpiarGrouped(a: string, b: string, c: string)
    requires a != [] && AllDigits(a) && AllDigits(b) && AllDigits(c)
    ensures Limpiar(a + "." + b + "," + c) == Limpiar(a + b + "," + c)
    ensures Limpiar(a + "." + b + "," + c) == Some(DecimalValue(a + b, c))
  {
    DigitsAppend(a, b);
    CleanedGrouped(a, b, c);
    CleanedComma(a + b, c);
    LimpiarComma(a + b, c);
  }

  /** Two commas make two decimal points, which `float()` refuses. */
  lemma LimpiarTwoCommas(a: string, b: string, c: string)
    requires a != [] && AllDigits(a) && AllDigits(b) && AllDigits(c)
    ensures Limpiar(a + "," + b + "," + c) == None
  {
    CleanedTwoCommas(a, b, c);
    LimpiarStages(a + "," + b + "," + c, a + "." + b + "." + c);
    ParseTwoDots(a, b, c);
  }

  /** A lower-case `s/` is removed wherever the salary starts with it. */
  lemma LimpiarCurrency(s: string)
    ensures Limpiar("s/" + s) == Limpiar(s)
  {
    ReplaceAllFront(s, "s/", "");
    assert "" + ReplaceAll(s, "s/", "") == ReplaceAll(s, "s/", "");
  }

  /**
   * The `S/` that Peruvian salaries are written with is removed only in
   * lower case: an upper-case `S/` survives the replacement, is lower-cased
   * after it, and the text then fails to parse.
   */
  lemma LimpiarUpperCurrency(d: string)
    requires d != [] && AllDigits(d)
    ensures Limpiar("S/" + d) == None
  {
    var s := "S/" + d;
    assert 's' !in s && '.' !in s && ',' !in s by {
      assert !IsDigit('s') && !IsDigit('.') && !IsDigit(',');
      assert forall c :: c in s ==> c == 'S' || c == '/' || c in d;
    }
    CleanedPlain(s);
    UpperCurrencyFails(s, d);
  }

  /** `float()` refuses `s/` followed by digits. */
  lemma UpperCurrencyFails(s: string, d: string)
    requires d != [] && AllDigits(d) && s == "S/" + d
    requires '.' !in s
    ensures ParseDecimal(LowerStr(Strip(s))) == None
  {
    assert d[|d| - 1] in d;
    assert s[0] == 'S' && s[|s| - 1] == d[|d| - 1];
    StripUntouched(s);
    var t := LowerStr(s);
    assert '.' !in t by {
      forall i | 0 <= i < |t| ensures t[i] != '.' {
        assert s[i] in s;
      }
    }
    NotANumeral(t);
  }
}
