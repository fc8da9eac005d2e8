/**
 * Python's `float(...)` on the strings the scoring function feeds it, restricted to
 * plain decimals: digits with at most one `.` and at least one digit (`"7"`, `"99.9"`,
 * `"1."`, `".5"`). Any other input is a parse failure, which the scoring function
 * catches (`except: pass`). Values are exact rationals, not binary floating point.
 */
module Decimal {
  import opened Wrappers
  import opened Text

  predicate AllDigits(s: string)
  {
    forall i | 0 <= i < |s| :: IsDigit(s[i])
  }

  function DigitValue(c: char): (d: nat)
    requires IsDigit(c)
    ensures d < 10
  {
    c as int - '0' as int
  }

  /** The natural number a digit string denotes (leading zeros allowed, `""` denotes 0). */
  function DigitsValue(ds: string): nat
    requires AllDigits(ds)
    decreases |ds|
  {
    if ds == [] then 0 else DigitsValue(ds[..|ds| - 1]) * 10 + DigitValue(ds[|ds| - 1])
  }

  function Pow10(n: nat): (r: nat)
    ensures r >= 1
  {
    if n == 0 then 1 else 10 * Pow10(n - 1)
  }

  /** `t` splits at index `c` into a digit string, a `.`, and a digit string, not both empty. */
  predicate DotAt(t: string, c: int)
  {
    0 <= c < |t| && t[c] == '.' && |t| > 1 && AllDigits(t[..c]) && AllDigits(t[c + 1..])
  }

  /** The syntax the model accepts: `digits`, `digits.`, `.digits` or `digits.digits`. */
  predicate IsPlainDecimal(t: string)
  {
    (|t| > 0 && AllDigits(t)) || exists c | 0 <= c < |t| :: DotAt(t, c)
  }

  /** The number written `whole.frac`. */
  function DecimalValue(whole: string, frac: string): real
    requires AllDigits(whole) && AllDigits(frac)
  {
    DigitsValue(whole) as real + DigitsValue(frac) as real / Pow10(|frac|) as real
  }

  /** `float(t)` for plain decimals; `None` stands for the `ValueError` that `bewerte_treffer` catches. */
  function ParseDecimal(t: string): (r: Option<real>)
    ensures r.Some? ==> r.value >= 0.0
  {
    var dot := IndexOf(t, '.');
    var whole := if dot.Some? then t[..dot.value] else t;
    var frac := if dot.Some? then t[dot.value + 1..] else [];
    if AllDigits(whole) && AllDigits(frac) && |whole| + |frac| > 0 then
      Some(DecimalValue(whole, frac))
    else
      None
  }

  /** ParseDecimal succeeds exactly on the plain-decimal syntax. */
  lemma ParseDecimalSyntax(t: string)
    ensures ParseDecimal(t).Some? <==> IsPlainDecimal(t)
  {
    var dot := IndexOf(t, '.');
    if dot.Some? && ParseDecimal(t).Some? {
      assert DotAt(t, dot.value);
    }
    if IsPlainDecimal(t) {
      if |t| > 0 && AllDigits(t) {
        IndexOfNone(t, '.');
      } else {
        var c :| 0 <= c < |t| && DotAt(t, c);
        IndexOfFirst(t, '.', c);
      }
    }
  }

  /** The digits of a natural number, most significant first, without leading zeros. */
  function NatToDigits(n: nat): (ds: string)
    ensures |ds| > 0 && AllDigits(ds)
    decreases n
  {
    if n < 10 then [('0' as int + n) as char]
    else NatToDigits(n / 10) + [('0' as int + n % 10) as char]
  }

  lemma {:induction false} DigitsValueOfNat(n: nat)
    ensures DigitsValue(NatToDigits(n)) == n
    decreases n
  {
    var ds := NatToDigits(n);
    if n >= 10 {
      DigitsValueOfNat(n / 10);
      assert ds[..|ds| - 1] == NatToDigits(n / 10);
    }
  }

  /** Round trip: the decimal rendering of a natural number parses back to that number. */
  lemma ParseNatToDigits(n: nat)
    ensures ParseDecimal(NatToDigits(n)) == Some(n as real)
  {
    IndexOfNone(NatToDigits(n), '.');
    DigitsValueOfNat(n);
  }

  lemma {:induction false} DigitsValueAppendZero(ds: string)
    requires AllDigits(ds)
    ensures AllDigits(ds + "0") && DigitsValue(ds + "0") == 10 * DigitsValue(ds)
  {
    assert (ds + "0")[..|ds|] == ds;
  }

  /** A trailing zero in the fraction does not change the value: `float("1.50") == float("1.5")`. */
  lemma TrailingZeroInFraction(whole: string, frac: string)
    requires AllDigits(whole) && AllDigits(frac) && |whole| + |frac| > 0
    ensures ParseDecimal(whole + "." + (frac + "0")) == ParseDecimal(whole + "." + frac)
    ensures ParseDecimal(whole + "." + frac).Some?
  {
    DigitsValueAppendZero(frac);
    ParseWithDot(whole, frac);
    ParseWithDot(whole, frac + "0");
    DecimalValueTrailingZero(whole, frac);
  }

  lemma DecimalValueTrailingZero(whole: string, frac: string)
    requires AllDigits(whole) && AllDigits(frac) && AllDigits(frac + "0")
    ensures DecimalValue(whole, frac + "0") == DecimalValue(whole, frac)
  {
    DigitsValueAppendZero(frac);
    var f := DigitsValue(frac) as real;
    var p := Pow10(|frac|) as real;
    assert Pow10(|frac + "0"|) as real == 10.0 * p;
    assert DigitsValue(frac + "0") as real == 10.0 * f;
    ScaleFraction(f, p);
  }

  lemma ScaleFraction(f: real, p: real)
    requires p > 0.0
    ensures (10.0 * f) / (10.0 * p) == f / p
  {
  }

  /** The value of `whole.frac`. */
  lemma ParseWithDot(whole: string, frac: string)
    requires AllDigits(whole) && AllDigits(frac) && |whole| + |frac| > 0
    ensures ParseDecimal(whole + "." + frac) == Some(DecimalValue(whole, frac))
  {
    var t := whole + "." + frac;
    IndexOfAfterDigits(whole, frac);
    assert t[..|whole|] == whole && t[|whole| + 1..] == frac;
  }

  lemma IndexOfAfterDigits(whole: string, rest: string)
    requires AllDigits(whole)
    ensures IndexOf(whole + "." + rest, '.') == Some(|whole|)
  {
    var t := whole + "." + rest;
    assert t[..|whole|] == whole;
    IndexOfFirst(t, '.', |whole|);
  }

  /** A plain digit string denotes its natural number. */
  lemma ParseDigits(ds: string)
    requires |ds| > 0 && AllDigits(ds)
    ensures ParseDecimal(ds) == Some(DigitsValue(ds) as real)
  {
    IndexOfNone(ds, '.');
  }

  /** Two `.` anywhere make the conversion fail: `float("1.2.3")` and `float("..5")` raise. */
  lemma TwoDotsNotDecimal(t: string, x: nat, y: nat)
    requires x < y < |t| && t[x] == '.' && t[y] == '.'
    ensures ParseDecimal(t).None?
  {
    ParseDecimalSyntax(t);
    forall c | 0 <= c < |t| ensures !DotAt(t, c) {
      if c < x {
        assert t[c + 1..][x - c - 1] == t[x];
      } else if c == x {
        assert t[c + 1..][y - c - 1] == t[y];
      } else {
        assert t[..c][x] == t[x];
      }
    }
  }

  /** A second `.` makes the conversion fail: `float("1.2.3")` raises. */
  lemma TwoDotsFail(a: string, b: string, c: string)
    requires AllDigits(a) && AllDigits(b)
    ensures ParseDecimal(a + "." + b + "." + c).None?
  {
    var t := a + "." + b + "." + c;
    assert t == a + "." + (b + "." + c);
    IndexOfAfterDigits(a, b + "." + c);
    assert t[|a| + 1..] == b + "." + c;
    assert (b + "." + c)[|b|] == '.';
  }
}
