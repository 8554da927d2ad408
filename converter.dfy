/**
  The conversion engine of src/components/CurrencyConverter.tsx: the
  amount field, the direction, the override field and the last five
  conversions, and the three event handlers that change them.
*/
module Converter {
  import opened Wrappers
  import opened Numbers
  import opened DecimalText
  import opened RateUtils
  import RateSimulator

  /** The history keeps this many conversions. */
  const MaxHistory: nat := 5

  /** A currency; the conversion mode is the currency converted from. */
  datatype Currency = EUR | USD

  function Other(c: Currency): (d: Currency)
    ensures d != c
  {
    if c == EUR then USD else EUR
  }

  /**
    One row of the history. `id` and `timestamp` are clock readings, kept
    as integers; `overrideRate` is null unless the override was in use.
  */
  datatype ConversionHistory = ConversionHistory(
    id: int,
    timestamp: int,
    realTimeRate: real,
    overrideRate: Option<Number>,
    fromAmount: real,
    fromCurrency: Currency,
    toAmount: Number,
    toCurrency: Currency)

  /**
    Amount × rate from EUR, amount ÷ rate from USD. Amounts are never
    negative (they come from digit text), so a zero rate gives +Infinity,
    or NaN for a zero amount.
  */
  function Converted(amount: real, mode: Currency, rate: real): (r: Number)
    requires amount >= 0.0
    ensures r.Finite? <==> mode == EUR || rate != 0.0
    ensures r.NaN? <==> mode == USD && rate == 0.0 && amount == 0.0
    ensures rate > 0.0 ==> r.Finite? && r.value >= 0.0
  {
    match mode
    case EUR => Finite(amount * rate)
    case USD => if rate == 0.0 then (if amount == 0.0 then NaN else Infinity) else Finite(amount / rate)
  }

  /** Converting back in the other direction at the same rate gives the amount again. */
  lemma ConvertedInverse(amount: real, mode: Currency, rate: real)
    requires amount >= 0.0 && rate > 0.0
    ensures Converted(Converted(amount, mode, rate).value, Other(mode), rate) == Finite(amount)
  {
    if mode == EUR {
      assert amount * rate / rate == amount;
    } else {
      assert amount / rate * rate == amount;
    }
  }

  /** `overrideRateInput ? parseFloat(overrideRateInput) : null`. */
  function OverrideRateOf(overrideRateInput: string): (r: Option<Number>)
    requires IsOverrideText(overrideRateInput)
    ensures r.None? <==> overrideRateInput == ""
    ensures r.Some? ==> !r.value.Infinity?
  {
    OverrideTextIsAmountText(overrideRateInput);
    if overrideRateInput == "" then None else Some(ParseFloat(overrideRateInput))
  }

  /**
    `calculateOutput`: "0.00" for text that is empty or does not parse,
    otherwise the conversion written with two decimals.
  */
  function CalculateOutput(inputAmount: string, mode: Currency, rate: real): (out: string)
    requires IsAmountText(inputAmount)
    ensures ParseFloat(inputAmount).NaN? ==> out == "0.00"
    ensures rate > 0.0 ==> IsAmountText(out)
  {
    var amount := ParseFloat(inputAmount);
    if amount.NaN? || inputAmount == "" then
      ZeroCentsText();
      "0.00"
    else
      var converted := Converted(amount.value, mode, rate);
      if rate > 0.0 then
        ToFixed2RoundTrip(converted.value);
        ToFixed2(converted)
      else
        ToFixed2(converted)
  }

  /**
    At a positive rate the output passes the amount filter and reads back
    as the conversion rounded to cents (zero for text that does not parse).
  */
  lemma OutputReadsBack(inputAmount: string, mode: Currency, rate: real)
    requires IsAmountText(inputAmount) && rate > 0.0
    ensures ParseFloat(CalculateOutput(inputAmount, mode, rate)) ==
              match ParseFloat(inputAmount)
              case Finite(a) => Finite(RoundTo(Converted(a, mode, rate).value, 2))
              case _ => Finite(0.0)
  {
    var amount := ParseFloat(inputAmount);
    if amount.Finite? {
      ToFixed2RoundTrip(Converted(amount.value, mode, rate).value);
    } else {
      CentsTextParses(0);
      assert CentsText(0) == "0.00";
    }
  }

  /** `handleModeToggle`'s new input: the output, except that "0.00" empties the field. */
  function ToggleInput(output: string): (input: string)
    ensures input == "" || input == output
    ensures input == "" <==> output == "0.00" || output == ""
  {
    if output == "0.00" then "" else output
  }

  /**
    What toggling carries over: text that passes the amount filter and
    that, converted back, reads as the cents-rounded conversion of the
    cents-rounded conversion of the original amount.
  */
  lemma ToggleCarriesOutput(inputAmount: string, mode: Currency, rate: real)
    requires IsAmountText(inputAmount) && rate > 0.0 && ParseFloat(inputAmount).Finite?
    ensures var there := ToggleInput(CalculateOutput(inputAmount, mode, rate));
            var m := RoundTo(Converted(ParseFloat(inputAmount).value, mode, rate).value, 2);
            IsAmountText(there) && m >= 0.0 &&
            ParseFloat(CalculateOutput(there, Other(mode), rate)) ==
              Finite(RoundTo(Converted(m, Other(mode), rate).value, 2))
  {
    var a := ParseFloat(inputAmount).value;
    var out := CalculateOutput(inputAmount, mode, rate);
    var m := RoundTo(Converted(a, mode, rate).value, 2);
    OutputReadsBack(inputAmount, mode, rate);
    if out == "0.00" {
      assert m == 0.0 by {
        ZeroCentsText();
      }
      EmptyInputConverts(Other(mode), rate);
    } else {
      OutputReadsBack(out, Other(mode), rate);
    }
  }

  /** An emptied field shows "0.00", the conversion of zero. */
  lemma EmptyInputConverts(mode: Currency, rate: real)
    requires rate > 0.0
    ensures IsAmountText("")
    ensures ParseFloat(CalculateOutput("", mode, rate)) == Finite(RoundTo(Converted(0.0, mode, rate).value, 2))
  {
    ZeroCentsText();
    assert Converted(0.0, mode, rate).value == 0.0;
  }

  lemma ZeroCentsText()
    ensures IsAmountText("0.00") && ParseFloat("0.00") == Finite(0.0)
  {
    CentsTextParses(0);
    assert CentsText(0) == "0.00";
  }

  /**
    Toggling the direction carries the output over as the new input, so
    converting there and back at one rate returns the amount up to the two
    roundings to cents: half a cent on the way back, and half a cent on the
    way there, scaled by the rate (divided by it from EUR, multiplied by it
    from USD).
  */
  lemma ToggleRoundTrip(inputAmount: string, mode: Currency, rate: real)
    requires IsAmountText(inputAmount) && rate > 0.0 && ParseFloat(inputAmount).Finite?
    ensures var there := ToggleInput(CalculateOutput(inputAmount, mode, rate));
            IsAmountText(there) &&
            var back := ParseFloat(CalculateOutput(there, Other(mode), rate));
            back.Finite? &&
            Abs(back.value - ParseFloat(inputAmount).value) <=
              0.005 + 0.005 * (if mode == EUR then 1.0 / rate else rate)
  {
    var a := ParseFloat(inputAmount).value;
    var c := Converted(a, mode, rate).value;
    var m := RoundTo(c, 2);
    ToggleCarriesOutput(inputAmount, mode, rate);
    var c' := Converted(m, Other(mode), rate).value;
    CentsRoundingError(c);
    CentsRoundingError(c');
    RoundTripBound(a, mode, rate, c, m, c', RoundTo(c', 2));
  }

  /**
    The bound stays within one cent when the first conversion multiplies
    by a rate of at least 1 (from EUR) or divides by a rate of at most 1
    (from USD).
  */
  lemma {:induction false} ToggleRoundTripWithinCent(inputAmount: string, mode: Currency, rate: real)
    requires IsAmountText(inputAmount) && ParseFloat(inputAmount).Finite?
    requires (mode == EUR && rate >= 1.0) || (mode == USD && 0.0 < rate <= 1.0)
    ensures var there := ToggleInput(CalculateOutput(inputAmount, mode, rate));
            IsAmountText(there) &&
            var back := ParseFloat(CalculateOutput(there, Other(mode), rate));
            back.Finite? && Abs(back.value - ParseFloat(inputAmount).value) <= 0.01
  {
    ToggleRoundTrip(inputAmount, mode, rate);
    var there := ToggleInput(CalculateOutput(inputAmount, mode, rate));
    var back := ParseFloat(CalculateOutput(there, Other(mode), rate));
    var k := if mode == EUR then 1.0 / rate else rate;
    CentBound(Abs(back.value - ParseFloat(inputAmount).value), k);
  }

  lemma CentBound(d: real, k: real)
    requires k <= 1.0 && d <= 0.005 + 0.005 * k
    ensures d <= 0.01
  {
  }

  /**
    From USD at a rate above 1 the round trip can lose more than a cent:
    0.0312 USD shows 0.02 EUR at 1.249, and 0.02 EUR shows 0.02 USD.
  */
  lemma UsdRoundTripExample()
    ensures IsAmountText("0.0312") && ParseFloat("0.0312") == Finite(0.0312)
    ensures CalculateOutput("0.0312", USD, 1.249) == "0.02"
    ensures CalculateOutput("0.02", EUR, 1.249) == "0.02"
    ensures 0.0312 - 0.02 > 0.01
  {
    SmallAmountParses();
    CentAmountParses();
    assert Pow10(2) == 100;
    assert RoundedUnits(0.0312 / 1.249, 2) == 2;
    assert RoundedUnits(0.02 * 1.249, 2) == 2;
    assert NatText(0) == "0";
  }

  lemma SmallAmountParses()
    ensures IsAmountText("0.0312") && ParseFloat("0.0312") == Finite(0.0312)
  {
    assert LeadingDigits("0.0312") == 1;
    assert "0.0312"[..1] == "0";
    assert "0"[..0] == "";
    assert "0.0312"[2..] == "0312";
    assert "0312"[..3] == "031";
    assert "031"[..2] == "03";
    assert "03"[..1] == "0";
    assert DigitsValue("0312") == 312;
    assert Pow10(4) == 10000;
  }

  lemma CentAmountParses()
    ensures IsAmountText("0.02") && ParseFloat("0.02") == Finite(0.02)
  {
    assert LeadingDigits("0.02") == 1;
    assert "0.02"[..1] == "0";
    assert "0"[..0] == "";
    assert "0.02"[2..] == "02";
    assert "02"[..1] == "0";
    assert DigitsValue("02") == 2;
    assert Pow10(2) == 100;
  }

  /** The arithmetic of the round trip, with the two roundings as hypotheses. */
  lemma RoundTripBound(a: real, mode: Currency, rate: real, c: real, m: real, c': real, back: real)
    requires a >= 0.0 && rate > 0.0 && m >= 0.0
    requires c == Converted(a, mode, rate).value && Abs(m - c) <= 0.005
    requires c' == Converted(m, Other(mode), rate).value && Abs(back - c') <= 0.005
    ensures Abs(back - a) <= 0.005 + 0.005 * (if mode == EUR then 1.0 / rate else rate)
  {
    var k := if mode == EUR then 1.0 / rate else rate;
    if mode == EUR {
      DividedBack(a, rate, m);
    } else {
      MultipliedBack(a, rate, m);
    }
    ScaledError(m - c, k, 0.005);
    Triangle(back, c', a, 0.005, 0.005 * k);
  }

  lemma DividedBack(a: real, rate: real, m: real)
    requires rate > 0.0
    ensures m / rate - a == (m - a * rate) * (1.0 / rate)
  {
  }

  lemma MultipliedBack(a: real, rate: real, m: real)
    requires rate > 0.0
    ensures m * rate - a == (m - a / rate) * rate
  {
  }

  lemma Triangle(x: real, y: real, z: real, e1: real, e2: real)
    requires Abs(x - y) <= e1 && Abs(y - z) <= e2
    ensures Abs(x - z) <= e1 + e2
  {
  }

  /** An error of at most `bound`, scaled by a positive factor. */
  lemma ScaledError(e: real, factor: real, bound: real)
    requires factor > 0.0 && Abs(e) <= bound
    ensures Abs(e * factor) <= bound * factor
  {
    if e >= 0.0 {
      MulMonotone(e, bound, factor);
    } else {
      MulMonotone(-e, bound, factor);
      assert (-e) * factor == -(e * factor);
    }
  }

  lemma MulMonotone(x: real, y: real, k: real)
    requires x <= y && k >= 0.0
    ensures x * k <= y * k
  {
    assert (y - x) * k >= 0.0;
  }

  /** The amount a history row is made for: a number strictly above zero. */
  predicate IsRecordable(amount: Number) {
    amount.Finite? && amount.value > 0.0
  }

  /** The history row for a conversion of `amount` at the current rates. */
  function NewEntry(now: int, amount: real, mode: Currency, realTimeRate: real,
                    overrideRate: Option<Number>, effective: EffectiveRate): ConversionHistory
    requires amount >= 0.0
  {
    ConversionHistory(
      now, now, realTimeRate,
      if effective.isUsingOverride then overrideRate else None,
      amount, mode, Converted(amount, mode, effective.rate), Other(mode))
  }

  /** The rate a history row's conversion used, as the row itself tells it. */
  function RateUsed(e: ConversionHistory): real {
    match e.overrideRate
    case Some(Finite(o)) => o
    case _ => e.realTimeRate
  }

  /**
    A row is self-consistent: it goes to the other currency, any override
    it names was positive and within tolerance of its real-time rate, and
    its result is its amount converted at the rate it names.
  */
  predicate EntryConsistent(e: ConversionHistory) {
    && e.fromAmount > 0.0
    && e.realTimeRate > 0.0
    && e.toCurrency == Other(e.fromCurrency)
    && (e.overrideRate.Some? ==>
          e.overrideRate.value.Finite? && e.overrideRate.value.value > 0.0 &&
          IsOverrideRateValid(e.overrideRate.value.value, e.realTimeRate))
    && e.toAmount == Converted(e.fromAmount, e.fromCurrency, RateUsed(e))
  }

  /**
    A row built from the resolver's answer names the override exactly when
    it was in use, and is self-consistent.
  */
  lemma NewEntryConsistent(now: int, amount: real, mode: Currency, realTimeRate: real, overrideRate: Option<Number>)
    requires amount > 0.0 && realTimeRate > 0.0
    ensures var effective := GetEffectiveRate(overrideRate, realTimeRate);
            var e := NewEntry(now, amount, mode, realTimeRate, overrideRate, effective);
            EntryConsistent(e) &&
            (e.overrideRate.Some? <==> effective.isUsingOverride) &&
            RateUsed(e) == effective.rate
  {
  }

  /** `[newEntry, ...prev].slice(0, 5)`. */
  function Record(history: seq<ConversionHistory>, entry: ConversionHistory): (r: seq<ConversionHistory>)
    ensures |r| == Min(|history| + 1, MaxHistory)
    ensures r[0] == entry
    ensures r[1..] == history[..|r| - 1]
  {
    ([entry] + history)[..Min(|history| + 1, MaxHistory)]
  }

  /** The history after recording `entries` in order, the first one first. */
  function RecordAll(history: seq<ConversionHistory>, entries: seq<ConversionHistory>): seq<ConversionHistory>
    decreases |entries|
  {
    if entries == [] then history else RecordAll(Record(history, entries[0]), entries[1..])
  }

  function Reversed<T>(s: seq<T>): (r: seq<T>)
    ensures |r| == |s|
  {
    if s == [] then [] else Reversed(s[1..]) + [s[0]]
  }

  lemma TakeOfAppendedTake<T>(a: seq<T>, b: seq<T>, m: nat, n: nat)
    requires m <= |b| && n <= |a| + m
    ensures (a + b[..m])[..n] == (a + b)[..n]
  {
    assert forall i :: 0 <= i < n ==> (a + b[..m])[i] == (a + b)[i];
  }

  /**
    However many conversions are recorded, the history holds the latest
    ones, at most five, newest first, followed by what is left of the old
    history in its order.
  */
  lemma {:induction false} RecordAllKeepsNewest(history: seq<ConversionHistory>, entries: seq<ConversionHistory>)
    requires |history| <= MaxHistory
    ensures RecordAll(history, entries) == (Reversed(entries) + history)[..Min(|entries| + |history|, MaxHistory)]
    decreases |entries|
  {
    if entries == [] {
      assert (Reversed(entries) + history)[..|history|] == history;
    } else {
      var e, rest := entries[0], entries[1..];
      var h' := Record(history, e);
      RecordAllKeepsNewest(h', rest);
      assert Reversed(entries) == Reversed(rest) + [e];
      assert h' == ([e] + history)[..Min(|history| + 1, MaxHistory)];
      TakeOfAppendedTake(Reversed(rest), [e] + history, Min(|history| + 1, MaxHistory), Min(|rest| + |h'|, MaxHistory));
      assert Reversed(rest) + ([e] + history) == Reversed(entries) + history;
    }
  }

  /** Rows ordered newest first by timestamp. */
  predicate NewestFirst(history: seq<ConversionHistory>) {
    forall i, j :: 0 <= i < j < |history| ==> history[i].timestamp >= history[j].timestamp
  }

  /** Recording a row no older than the newest keeps the history ordered. */
  lemma RecordKeepsNewestFirst(history: seq<ConversionHistory>, entry: ConversionHistory)
    requires NewestFirst(history)
    requires history != [] ==> entry.timestamp >= history[0].timestamp
    ensures NewestFirst(Record(history, entry))
  {
    var r := Record(history, entry);
    forall i, j | 0 <= i < j < |r| ensures r[i].timestamp >= r[j].timestamp {
      assert r[j] == history[j - 1];
      if i > 0 {
        assert r[i] == history[i - 1];
      }
    }
  }

  /** 100 EUR at the initial rate of 1.1, with no override, shows "110.00". */
  lemma PlainConversionExample()
    ensures IsAmountText("100")
    ensures CalculateOutput("100", EUR, 1.1) == "110.00"
  {
    assert LeadingDigits("100") == 3;
    assert "100"[..2] == "10" && "10"[..1] == "1" && "1"[..0] == "";
    assert DigitsValue("100") == 100;
    assert "100"[..3] == "100";
    assert ParseFloat("100") == Finite(100.0);
    assert Pow10(2) == 100;
    assert RoundedUnits(110.0, 2) == 11000;
    assert NatText(110) == "110";
  }

  /**
    The override "1.12" against 1.1 is used; 50 EUR then shows "56.00",
    and toggling carries "56.00" over as the new input.
  */
  lemma OverrideConversionExample()
    ensures IsOverrideText("1.12") && IsAmountText("50")
    ensures GetEffectiveRate(OverrideRateOf("1.12"), 1.1) == EffectiveRate(1.12, true)
    ensures CalculateOutput("50", EUR, 1.12) == "56.00"
    ensures ToggleInput(CalculateOutput("50", EUR, 1.12)) == "56.00"
  {
    assert LeadingDigits("1.12") == 1;
    assert "1.12"[..1] == "1" && "1"[..0] == "";
    assert "1.12"[2..] == "12" && "12"[..1] == "1";
    assert DigitsValue("12") == 12;
    assert Pow10(2) == 100;
    assert ParseFloat("1.12") == Finite(1.12);
    AcceptedOverrideExample();
    assert LeadingDigits("50") == 2;
    assert "50"[..2] == "50" && "50"[..1] == "5" && "5"[..0] == "";
    assert DigitsValue("50") == 50;
    assert ParseFloat("50") == Finite(50.0);
    assert RoundedUnits(56.0, 2) == 5600;
    assert NatText(56) == "56";
  }

  /**
    The widget's state. The four cells of the component, plus the
    simulated rate, which the rate hook owns and ticks; here it is a field
    that `RateTick` updates.
  */
  class CurrencyConverter {
    var inputAmount: string
    var mode: Currency
    var overrideRateInput: string
    var history: seq<ConversionHistory>
    var realTimeRate: real

    /**
      The fields hold only what the filters let through, the history is
      bounded and each of its rows is self-consistent, and the simulated
      rate is positive.
    */
    predicate Valid()
      reads this
    {
      && IsAmountText(inputAmount)
      && IsOverrideText(overrideRateInput)
      && |history| <= MaxHistory
      && (forall i :: 0 <= i < |history| ==> EntryConsistent(history[i]))
      && realTimeRate > 0.0
    }

    constructor ()
      ensures Valid()
      ensures inputAmount == "" && mode == EUR && overrideRateInput == "" && history == []
      ensures realTimeRate == RateSimulator.InitialRate
    {
      inputAmount := "";
      mode := EUR;
      overrideRateInput := "";
      history := [];
      realTimeRate := RateSimulator.InitialRate;
    }

    function OverrideRate(): Option<Number>
      reads this
      requires Valid()
    {
      OverrideRateOf(overrideRateInput)
    }

    function Effective(): EffectiveRate
      reads this
      requires Valid()
    {
      GetEffectiveRate(OverrideRate(), realTimeRate)
    }

    function Output(): string
      reads this
      requires Valid()
    {
      CalculateOutput(inputAmount, mode, Effective().rate)
    }

    /**
      `handleInputChange`: text that passes the amount filter replaces the
      input and, when it reads as a positive number, adds a row for its
      conversion at the current effective rate; other text changes nothing.
      `now` stands for the clock readings behind the row's id and timestamp.
    */
    method InputChange(value: string, now: int)
      requires Valid()
      modifies this
      ensures Valid()
      ensures mode == old(mode) && overrideRateInput == old(overrideRateInput) && realTimeRate == old(realTimeRate)
      ensures !IsAmountText(value) ==> inputAmount == old(inputAmount) && history == old(history)
      ensures IsAmountText(value) ==> inputAmount == value
      ensures IsAmountText(value) && IsRecordable(ParseFloat(value)) ==>
                history == Record(old(history),
                                  NewEntry(now, ParseFloat(value).value, mode, realTimeRate,
                                           old(OverrideRate()), old(Effective())))
      ensures IsAmountText(value) && !IsRecordable(ParseFloat(value)) ==> history == old(history)
    {
      if value == "" || IsAmountText(value) {
        inputAmount := value;
        var amount := ParseFloat(value);
        if amount.Finite? && amount.value > 0.0 {
          var overrideRate := OverrideRateOf(overrideRateInput);
          var effective := GetEffectiveRate(overrideRate, realTimeRate);
          var newEntry := NewEntry(now, amount.value, mode, realTimeRate, overrideRate, effective);
          NewEntryConsistent(now, amount.value, mode, realTimeRate, overrideRate);
          history := Record(history, newEntry);
        }
      }
    }

    /** `handleOverrideRateChange`: text that passes the override filter replaces the override. */
    method OverrideChange(value: string)
      requires Valid()
      modifies this
      ensures Valid()
      ensures overrideRateInput == if IsOverrideText(value) then value else old(overrideRateInput)
      ensures inputAmount == old(inputAmount) && mode == old(mode) && history == old(history)
      ensures realTimeRate == old(realTimeRate)
    {
      if value == "" || IsOverrideText(value) {
        overrideRateInput := value;
      }
    }

    /**
      `handleModeToggle`: the direction flips and the current output becomes
      the input, or the field empties when the output is "0.00".
    */
    method ModeToggle()
      requires Valid()
      modifies this
      ensures Valid()
      ensures mode == Other(old(mode))
      ensures inputAmount == ToggleInput(old(Output()))
      ensures overrideRateInput == old(overrideRateInput) && history == old(history)
      ensures realTimeRate == old(realTimeRate)
    {
      var currentOutput := CalculateOutput(inputAmount, mode, Effective().rate);
      EffectiveRatePositive(OverrideRate(), realTimeRate);
      OutputReadsBack(inputAmount, mode, Effective().rate);
      inputAmount := if currentOutput == "0.00" then "" else currentOutput;
      mode := if mode == EUR then USD else EUR;
    }

    /** One tick of the simulated rate, by `delta`. */
    method RateTick(delta: real)
      requires Valid()
      requires RateSimulator.MinDelta <= delta < RateSimulator.MaxDelta
      requires RateSimulator.NextRate(realTimeRate, delta) > 0.0
      modifies this
      ensures Valid()
      ensures realTimeRate == RateSimulator.NextRate(old(realTimeRate), delta)
      ensures inputAmount == old(inputAmount) && mode == old(mode)
      ensures overrideRateInput == old(overrideRateInput) && history == old(history)
    {
      realTimeRate := RateSimulator.NextRate(realTimeRate, delta);
    }
  }
}
