/**
  The decimal text the converter's two input fields hold: the character
  filters applied to every edit, `parseFloat` on the text they let
  through, and `toFixed(2)`, which turns a converted amount back into text.
*/
module DecimalText {
  import opened Numbers

  predicate IsDigit(c: char) {
    '0' <= c <= '9'
  }

  function DigitValue(c: char): (d: nat)
    requires IsDigit(c)
    ensures d < 10
  {
    c as int - '0' as int
  }

  function DigitChar(d: nat): (c: char)
    requires d < 10
    ensures IsDigit(c) && DigitValue(c) == d
  {
    ('0' as int + d) as char
  }

  predicate AllDigits(s: string) {
    forall i :: 0 <= i < |s| ==> IsDigit(s[i])
  }

  /** The length of the longest run of digits at the front of `s`. */
  function LeadingDigits(s: string): (k: nat)
    ensures k <= |s|
    ensures AllDigits(s[..k])
    ensures k < |s| ==> !IsDigit(s[k])
  {
    if s == [] || !IsDigit(s[0]) then 0
    else
      var k := 1 + LeadingDigits(s[1..]);
      assert s[..k] == [s[0]] + s[1..][..k - 1];
      k
  }

  /** The amount filter `^\d*\.?\d*$`. */
  predicate IsAmountText(s: string) {
    var k := LeadingDigits(s);
    k == |s| || (s[k] == '.' && AllDigits(s[k + 1..]))
  }

  /** The override filter `^\d*\.?\d{0,4}$`: at most four digits after the point. */
  predicate IsOverrideText(s: string) {
    var k := LeadingDigits(s);
    k == |s| || (s[k] == '.' && AllDigits(s[k + 1..]) && |s| - (k + 1) <= 4)
  }

  /** Read as a pattern: digits only, or digits, one point, digits. */
  ghost predicate MatchesAmountPattern(s: string) {
    AllDigits(s) || exists i :: 0 <= i < |s| && s[i] == '.' && AllDigits(s[..i]) && AllDigits(s[i + 1..])
  }

  ghost predicate MatchesOverridePattern(s: string) {
    AllDigits(s) ||
    exists i :: 0 <= i < |s| && s[i] == '.' && AllDigits(s[..i]) && AllDigits(s[i + 1..]) && |s| - (i + 1) <= 4
  }

  /** A point preceded only by digits is where the leading digits stop. */
  lemma LeadingDigitsAt(s: string, i: nat)
    requires i < |s| && s[i] == '.' && AllDigits(s[..i])
    ensures LeadingDigits(s) == i
  {
  }

  lemma LeadingDigitsAll(s: string)
    requires AllDigits(s)
    ensures LeadingDigits(s) == |s|
  {
  }

  lemma AmountTextMatchesPattern(s: string)
    ensures IsAmountText(s) <==> MatchesAmountPattern(s)
  {
    var k := LeadingDigits(s);
    if IsAmountText(s) {
      if k < |s| {
        assert s[k] == '.' && AllDigits(s[..k]) && AllDigits(s[k + 1..]);
      } else {
        assert s[..k] == s;
      }
    }
    if MatchesAmountPattern(s) {
      if AllDigits(s) {
        LeadingDigitsAll(s);
      } else {
        var i :| 0 <= i < |s| && s[i] == '.' && AllDigits(s[..i]) && AllDigits(s[i + 1..]);
        LeadingDigitsAt(s, i);
      }
    }
  }

  lemma OverrideTextMatchesPattern(s: string)
    ensures IsOverrideText(s) <==> MatchesOverridePattern(s)
  {
    var k := LeadingDigits(s);
    if IsOverrideText(s) {
      if k < |s| {
        assert s[k] == '.' && AllDigits(s[..k]) && AllDigits(s[k + 1..]) && |s| - (k + 1) <= 4;
      } else {
        assert s[..k] == s;
      }
    }
    if MatchesOverridePattern(s) {
      if AllDigits(s) {
        LeadingDigitsAll(s);
      } else {
        var i :| 0 <= i < |s| && s[i] == '.' && AllDigits(s[..i]) && AllDigits(s[i + 1..]) && |s| - (i + 1) <= 4;
        LeadingDigitsAt(s, i);
      }
    }
  }

  /** The override filter is the amount filter with a cap on the fraction. */
  lemma OverrideTextIsAmountText(s: string)
    requires IsOverrideText(s)
    ensures IsAmountText(s)
  {
  }

  /** The value of a run of decimal digits, most significant first. */
  function DigitsValue(s: string): nat
    requires AllDigits(s)
  {
    if s == [] then 0 else 10 * DigitsValue(s[..|s| - 1]) + DigitValue(s[|s| - 1])
  }

  /** Appending digits shifts the value of the front by one decimal place per digit. */
  lemma {:induction false} DigitsValueAppend(a: string, b: string)
    requires AllDigits(a) && AllDigits(b)
    ensures AllDigits(a + b)
    ensures DigitsValue(a + b) == DigitsValue(a) * Pow10(|b|) + DigitsValue(b)
  {
    if b == [] {
      assert a + b == a;
    } else {
      var front := b[..|b| - 1];
      DigitsValueAppend(a, front);
      assert (a + b)[..|a + b| - 1] == a + front;
      assert (a + b)[|a + b| - 1] == b[|b| - 1];
      ShiftOneDigit(DigitsValue(a), Pow10(|front|));
    }
  }

  lemma ShiftOneDigit(x: nat, p: nat)
    ensures 10 * (x * p) == x * (10 * p)
  {
  }

  /** Scaling `w + f / p` back by `p`. */
  lemma ScaledSum(w: real, f: real, p: real)
    requires p >= 1.0
    ensures (w + f / p) * p == w * p + f
  {
  }

  /**
    `parseFloat` on text the amount filter accepts: the digits before the
    point are the whole part and those after it the fraction; text with no
    digit at all (`""` or `"."`) is NaN.
  */
  function ParseFloat(s: string): (r: Number)
    requires IsAmountText(s)
    ensures r.NaN? <==> s == "" || s == "."
    ensures !r.Infinity?
    ensures r.Finite? ==> r.value >= 0.0
  {
    var k := LeadingDigits(s);
    var whole := s[..k];
    var fraction := if k == |s| then "" else s[k + 1..];
    if whole == "" && fraction == "" then NaN
    else Finite(DecimalNumber(DigitsValue(whole), DigitsValue(fraction), Pow10(|fraction|)))
  }

  /**
    The number parsed text stands for: the digit string with the point
    removed, divided by ten for every digit after the point.
  */
  lemma {:induction false} ParseFloatValue(s: string)
    requires IsAmountText(s) && ParseFloat(s).Finite?
    ensures LeadingDigits(s) == |s| ==> AllDigits(s) && ParseFloat(s).value == DigitsValue(s) as real
    ensures LeadingDigits(s) < |s| ==>
              var k := LeadingDigits(s);
              AllDigits(s[..k] + s[k + 1..]) &&
              ParseFloat(s).value == DigitsValue(s[..k] + s[k + 1..]) as real / Pow10(|s| - k - 1) as real
  {
    var k := LeadingDigits(s);
    if k == |s| {
      assert s[..k] == s;
      assert DecimalNumber(DigitsValue(s), 0, 1) == DigitsValue(s) as real;
    } else {
      DigitsValueAppend(s[..k], s[k + 1..]);
    }
  }

  /**
    The number `w.f`, where the fraction digits `f` stand for `f / p`: the
    whole and fraction digits read together, divided by `p`.
  */
  function DecimalNumber(w: nat, f: nat, p: nat): (v: real)
    requires p >= 1
    ensures v == (w * p + f) as real / p as real
    ensures v >= 0.0
  {
    ShiftedDecimal(w, f, p, w * p + f);
    w as real + f as real / p as real
  }

  /** The arithmetic of `DecimalNumber`, on plain numbers. */
  lemma ShiftedDecimal(w: nat, f: nat, p: nat, n: nat)
    requires p >= 1 && n == w * p + f
    ensures (w as real + f as real / p as real) * p as real == n as real
  {
    RealOfShift(w, p, f, n);
    ScaledSum(w as real, f as real, p as real);
  }

  lemma RealOfShift(w: nat, p: nat, f: nat, n: nat)
    requires n == w * p + f
    ensures n as real == w as real * p as real + f as real
  {
  }

  /** A trailing point adds nothing: "5." reads as 5. */
  lemma TrailingPointExample()
    ensures IsAmountText("5.") && ParseFloat("5.") == Finite(5.0)
  {
    assert LeadingDigits("5.") == 1;
    assert "5."[..1] == "5" && "5"[..0] == "";
  }

  /** A missing whole part reads as zero: ".5" reads as 0.5. */
  lemma LeadingPointExample()
    ensures IsAmountText(".5") && ParseFloat(".5") == Finite(0.5)
  {
    assert LeadingDigits(".5") == 0;
    assert ".5"[1..] == "5" && "5"[..0] == "";
  }

  /** Leading zeros are ignored: "007" reads as 7, and "12.5" as 12.5. */
  lemma DecimalExamples()
    ensures IsAmountText("007") && ParseFloat("007") == Finite(7.0)
    ensures IsAmountText("12.5") && ParseFloat("12.5") == Finite(12.5)
  {
    assert LeadingDigits("007") == 3;
    assert "007"[..3] == "007" && "007"[..2] == "00" && "00"[..1] == "0" && "0"[..0] == "";
    assert DigitsValue("007") == 7;
    assert LeadingDigits("12.5") == 2;
    assert "12.5"[..2] == "12" && "12"[..1] == "1" && "1"[..0] == "";
    assert "12.5"[3..] == "5" && "5"[..0] == "";
    assert DigitsValue("12") == 12;
    assert Pow10(1) == 10;
  }

  /** The decimal digits of `n`, without leading zeros. */
  function NatText(n: nat): (s: string)
    ensures |s| >= 1 && AllDigits(s)
  {
    if n < 10 then [DigitChar(n)] else NatText(n / 10) + [DigitChar(n % 10)]
  }

  lemma {:induction false} NatTextValue(n: nat)
    ensures DigitsValue(NatText(n)) == n
  {
    if n >= 10 {
      NatTextValue(n / 10);
      var s := NatText(n);
      assert s[..|s| - 1] == NatText(n / 10);
    }
  }

  /** `n` hundredths written with two digits after the point. */
  function CentsText(n: nat): string {
    NatText(n / 100) + "." + [DigitChar(n / 10 % 10), DigitChar(n % 10)]
  }

  /**
    `toFixed(2)`: the rounded magnitude with two decimals, a `-` in front of
    a negative value, and the words JavaScript prints for the non-finite ones.
  */
  function ToFixed2(x: Number): string {
    match x
    case NaN => "NaN"
    case Infinity => "Infinity"
    case Finite(v) =>
      if v < 0.0 then "-" + CentsText(RoundedUnits(-v, 2)) else CentsText(RoundedUnits(v, 2))
  }

  lemma CentsTextParses(n: nat)
    ensures IsAmountText(CentsText(n))
    ensures ParseFloat(CentsText(n)) == Finite(n as real / 100.0)
  {
    var whole := NatText(n / 100);
    var s := CentsText(n);
    var fraction := [DigitChar(n / 10 % 10), DigitChar(n % 10)];
    assert s == whole + ['.'] + fraction;
    assert s[|whole|] == '.' && s[..|whole|] == whole && s[|whole| + 1..] == fraction;
    LeadingDigitsAt(s, |whole|);
    NatTextValue(n / 100);
    TwoDigitsValue(n / 10 % 10, n % 10);
    LastTwoDigits(n);
    assert Pow10(|fraction|) == 100;
    CentsSplit(n / 100, n % 100, n);
  }

  lemma TwoDigitsValue(a: nat, b: nat)
    requires a < 10 && b < 10
    ensures DigitsValue([DigitChar(a), DigitChar(b)]) == 10 * a + b
  {
    var s := [DigitChar(a), DigitChar(b)];
    assert s[..|s| - 1] == [DigitChar(a)];
    assert [DigitChar(a)][..0] == [];
    assert DigitsValue([DigitChar(a)]) == a;
  }

  lemma LastTwoDigits(n: nat)
    ensures 10 * (n / 10 % 10) + n % 10 == n % 100
  {
  }

  lemma CentsSplit(whole: nat, cents: nat, n: nat)
    requires n == 100 * whole + cents
    ensures whole as real + cents as real / 100.0 == n as real / 100.0
  {
  }

  /**
    What the converter displays reads back, through `parseFloat`, as the
    amount rounded to cents; and it passes the amount filter, so it can be
    carried over as a new input.
  */
  lemma ToFixed2RoundTrip(x: real)
    requires x >= 0.0
    ensures IsAmountText(ToFixed2(Finite(x)))
    ensures ParseFloat(ToFixed2(Finite(x))) == Finite(RoundTo(x, 2))
  {
    CentsTextParses(RoundedUnits(x, 2));
  }

  lemma CentsTextZeroIff(n: nat)
    ensures CentsText(n) == "0.00" <==> n == 0
  {
    if n != 0 {
      CentsTextParses(n);
      CentsTextParses(0);
    }
  }

  /** A non-negative amount shows as "0.00" exactly when it rounds to zero cents. */
  lemma ToFixed2ZeroIff(x: real)
    requires x >= 0.0
    ensures ToFixed2(Finite(x)) == "0.00" <==> RoundTo(x, 2) == 0.0
  {
    var n := RoundedUnits(x, 2);
    assert Pow10(2) == 100;
    assert RoundTo(x, 2) == n as real / 100.0;
    CentsTextZeroIff(n);
  }
}
