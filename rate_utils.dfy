/**
  The override policy of src/utils/rateUtils.ts: a user-entered rate is
  honoured only when it is positive and within 2% of the real-time rate.
*/
module RateUtils {
  import opened Wrappers
  import opened Numbers

  /** The tolerance, in percent, inclusive. */
  const OverrideThresholdPercentage: real := 2.0

  /** The rate used for conversion and whether it is the user's override. */
  datatype EffectiveRate = EffectiveRate(rate: real, isUsingOverride: bool)

  /**
    `|(rate1 - rate2) / rate2 * 100|`. Dividing by a zero `rate2` gives
    Infinity in JavaScript, or NaN when `rate1` is zero as well.
  */
  function PercentageDifference(rate1: real, rate2: real): (d: Number)
    ensures d.Finite? <==> rate2 != 0.0
    ensures d.Finite? ==> d.value >= 0.0
    ensures d.Finite? ==> (d.value == 0.0 <==> rate1 == rate2)
    ensures d.Finite? ==> d.value * Abs(rate2) == Abs(rate1 - rate2) * 100.0
    ensures d.NaN? <==> rate1 == 0.0 && rate2 == 0.0
  {
    if rate2 == 0.0 then
      if rate1 == 0.0 then NaN else Infinity
    else
      Finite(Abs((rate1 - rate2) / rate2 * 100.0))
  }

  /**
    The override is valid when the percentage difference is at most the
    threshold; Infinity and NaN compare false, so a zero real-time rate
    rejects every override.
  */
  function IsOverrideRateValid(overrideRate: real, realTimeRate: real): bool {
    var difference := PercentageDifference(overrideRate, realTimeRate);
    difference.Finite? && difference.value <= OverrideThresholdPercentage
  }

  /**
    The validity check without the division: the override is within 2% of
    the magnitude of a non-zero real-time rate.
  */
  lemma OverrideValidIff(overrideRate: real, realTimeRate: real)
    ensures IsOverrideRateValid(overrideRate, realTimeRate) <==>
              realTimeRate != 0.0 && Abs(overrideRate - realTimeRate) * 100.0 <= 2.0 * Abs(realTimeRate)
  {
    var difference := PercentageDifference(overrideRate, realTimeRate);
    if difference.Finite? {
      WithinThresholdScaled(difference.value, Abs(overrideRate - realTimeRate) * 100.0, Abs(realTimeRate));
    }
  }

  /** Clearing the division: `d <= 2` exactly when `d * scale <= 2 * scale`. */
  lemma WithinThresholdScaled(d: real, scaled: real, scale: real)
    requires scale > 0.0 && d * scale == scaled
    ensures d <= OverrideThresholdPercentage <==> scaled <= 2.0 * scale
  {
    if d <= 2.0 {
      assert d * scale <= 2.0 * scale;
    } else {
      assert d * scale > 2.0 * scale;
    }
  }

  /**
    The rate to convert with: the override when it is present, a number,
    positive and valid; the real-time rate otherwise. A NaN override (the
    text ".") is neither null nor `<= 0`, and its percentage difference is
    NaN, which fails the threshold, so it falls back as well.
  */
  function GetEffectiveRate(overrideRate: Option<Number>, realTimeRate: real): (e: EffectiveRate)
    ensures e.isUsingOverride <==>
              overrideRate.Some? && overrideRate.value.Finite? && overrideRate.value.value > 0.0 &&
              IsOverrideRateValid(overrideRate.value.value, realTimeRate)
    ensures e.isUsingOverride ==> e.rate == overrideRate.value.value
    ensures !e.isUsingOverride ==> e.rate == realTimeRate
  {
    match overrideRate
    case None => EffectiveRate(realTimeRate, false)
    case Some(Finite(o)) =>
      if o <= 0.0 then EffectiveRate(realTimeRate, false)
      else
        var isValid := IsOverrideRateValid(o, realTimeRate);
        EffectiveRate(if isValid then o else realTimeRate, isValid)
    case Some(_) => EffectiveRate(realTimeRate, false)
  }

  /** An override equal to a non-zero real-time rate differs by 0% and is valid. */
  lemma SameRateIsValid(rate: real)
    requires rate != 0.0
    ensures PercentageDifference(rate, rate) == Finite(0.0)
    ensures IsOverrideRateValid(rate, rate)
  {
  }

  /**
    For a positive real-time rate the accepted overrides form the closed
    band from 98% to 102% of it: exactly 2% off is accepted, anything
    further is rejected.
  */
  lemma ToleranceBand(overrideRate: real, realTimeRate: real)
    requires realTimeRate > 0.0
    ensures IsOverrideRateValid(overrideRate, realTimeRate) <==>
              0.98 * realTimeRate <= overrideRate <= 1.02 * realTimeRate
  {
    OverrideValidIff(overrideRate, realTimeRate);
  }

  /** The effective rate is positive whenever the real-time rate is. */
  lemma EffectiveRatePositive(overrideRate: Option<Number>, realTimeRate: real)
    requires realTimeRate > 0.0
    ensures GetEffectiveRate(overrideRate, realTimeRate).rate > 0.0
  {
  }

  /** 1.12 against 1.1 is about 1.82% off and is used. */
  lemma AcceptedOverrideExample()
    ensures GetEffectiveRate(Some(Finite(1.12)), 1.1) == EffectiveRate(1.12, true)
  {
  }

  /** 1.2 against 1.1 is about 9.09% off and is ignored. */
  lemma RejectedOverrideExample()
    ensures GetEffectiveRate(Some(Finite(1.2)), 1.1) == EffectiveRate(1.1, false)
  {
  }
}
