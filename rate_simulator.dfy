/**
  One tick of the simulated EUR/USD rate (src/hooks/useEurUsdRate.ts): the
  rate moves by a delta drawn from [-0.05, 0.05) and is stored rounded to
  four decimals. The timer and the random draw stay outside the model; the
  delta is a parameter.
*/
module RateSimulator {
  import opened Numbers

  const InitialRate: real := 1.1
  const UpdateIntervalMs: nat := 3000
  const MinDelta: real := -0.05
  const MaxDelta: real := 0.05

  /** `Number((current + delta).toFixed(4))`. */
  function NextRate(current: real, delta: real): (next: real)
    requires MinDelta <= delta < MaxDelta
    ensures Abs(next - (current + delta)) * 10000.0 <= 0.5
    ensures Abs(next - current) <= 0.05005
    ensures (next * 10000.0).Floor as real == next * 10000.0
  {
    assert Pow10(4) == 10000;
    RoundToIsScaledInteger(current + delta, 4);
    IntegerFloor(SignedUnits(current + delta, 4));
    RoundTo(current + delta, 4)
  }
}
