# EUR/USD converter: override policy and conversion engine

A Dafny model of the rate-resolution and conversion core of a single-widget
currency converter (React/TypeScript). The widget simulates a EUR/USD rate,
lets the user type an override rate, and honours it only within 2% of the
simulated rate. It converts an entered amount in either direction and keeps
the last five conversions, newest first.

Files and modules:

- `numbers.dfy`: `Wrappers` (an `Option` for the source's `T | null`) and
  `Numbers`. JavaScript numbers are modelled as exact reals, plus the two
  non-finite values the converter can meet (`Infinity`, `NaN`). This module
  also gives the value `toFixed` rounds to: the nearest multiple of
  10^-digits, ties to the larger magnitude, sign put back in front.
- `decimal_text.dfy`: `DecimalText`. The two input filters (`^\d*\.?\d*$`
  for the amount, `^\d*\.?\d{0,4}$` for the override) with proofs that they
  match the patterns they stand for. `parseFloat` on text that passes the
  filters (`""` and `"."` are NaN, `"5."` is 5, `".5"` is 0.5). `toFixed(2)`
  as text, with the round trip `parseFloat(toFixed2(x)) = x rounded to cents`.
- `rate_utils.dfy`: `RateUtils`, i.e. `src/utils/rateUtils.ts`:
  `PercentageDifference`, `IsOverrideRateValid`, `GetEffectiveRate` and the
  2% threshold.
- `rate_simulator.dfy`: `RateSimulator`, the single step of the simulated
  rate (`Number((rate + delta).toFixed(4))`), with the random delta as a
  parameter.
- `converter.dfy`: `Converter`, i.e. `src/components/CurrencyConverter.tsx`.
  It has the `ConversionHistory` record, `calculateOutput`, the history
  update, and a class `CurrencyConverter`. The class holds the four state
  cells (`inputAmount`, `mode`, `overrideRateInput`, `history`) and the
  simulated rate. Its methods `InputChange`, `OverrideChange` and
  `ModeToggle` are the three handlers, and `RateTick` is the rate hook's
  update. The class invariant `Valid()` says:
  - both fields hold only text their filter accepts;
  - the history has at most five rows;
  - every row is self-consistent: it names the other currency as target, any
    override it names was in tolerance, and its result is its amount
    converted at the rate it names;
  - the simulated rate is positive.

Behaviour of the code worth noting:

- The handlers filter every edit (lines 47 and 77): text the filter
  rejects leaves the field as it was.
- A history row is added whenever the parsed amount is above zero (line
  52), even when the displayed output rounds to `"0.00"`. A row is also
  added for every keystroke that leaves a positive amount, so typing "100"
  records 1, 10 and 100.
- A zero simulated rate is not guarded. `(x - 0) / 0 * 100` is Infinity,
  or NaN when the override is 0, and both fail `<= 2`, so the override is
  rejected.
- Nothing in the code keeps the history ordered by time. The ordering holds
  only if the clock does not go backwards. `RecordKeepsNewestFirst` states
  that condition.
- Converting, toggling and converting back can lose more than a cent. From
  USD at a rate above 1, 0.0312 USD shows 0.02 EUR at 1.249, and 0.02 EUR
  shows 0.02 USD (`UsdRoundTripExample`).

## Model

| member | source | states |
|---|---|---|
| `RateUtils.PercentageDifference` | src/utils/rateUtils.ts:10-15 | the difference is a finite non-negative number exactly when the reference rate is non-zero, zero exactly when the two rates are equal, equal to abs(rate1 - rate2) · 100 / abs(rate2); a zero reference rate gives NaN when rate1 is 0 too, Infinity otherwise |
| `RateUtils.OverrideValidIff` | src/utils/rateUtils.ts:20-26 | the override is valid iff the real-time rate is non-zero and abs(override - rate) · 100 ≤ 2 · abs(rate) (division-free form of the 2% check) |
| `RateUtils.ToleranceBand` | src/utils/rateUtils.ts:5 | for a positive real-time rate, valid overrides are exactly the closed band [0.98 · rate, 1.02 · rate]: exactly 2% is accepted, more is rejected |
| `RateUtils.SameRateIsValid` | src/utils/rateUtils.ts:14 | an override equal to a non-zero real-time rate differs by 0% and is valid |
| `RateUtils.GetEffectiveRate` | src/utils/rateUtils.ts:32-46 | the override is in use iff it is present, a number, positive and valid; the rate is the override exactly when it is in use and the real-time rate otherwise (null, ≤ 0, NaN and out-of-tolerance all fall back) |
| `RateUtils.EffectiveRatePositive` | src/utils/rateUtils.ts:36-45 | a positive real-time rate always yields a positive effective rate |
| `RateUtils.AcceptedOverrideExample` | src/utils/rateUtils.ts:42-45 | 1.12 against 1.1 gives rate 1.12 with the override in use |
| `RateUtils.RejectedOverrideExample` | src/utils/rateUtils.ts:42-45 | 1.2 against 1.1 gives rate 1.1 with the override not in use |
| `RateSimulator.NextRate` | src/hooks/useEurUsdRate.ts:18-25 | the new rate is within half a unit of the fourth decimal of `current + delta` and has at most four decimals, so one tick moves the rate by at most 0.05 plus that half unit |
| `Numbers.RoundedUnits` | src/components/CurrencyConverter.tsx:37 | the integer toFixed picks is the nearest to x · 10^digits, ties to the larger |
| `Numbers.RoundTo` | src/hooks/useEurUsdRate.ts:24 | the rounded value is within half a unit of the last kept digit, and keeps the sign of a non-negative input |
| `Numbers.RoundToIsScaledInteger` | src/hooks/useEurUsdRate.ts:24 | the rounded value has no digits beyond those kept: times 10^digits it is exactly the signed integer toFixed writes |
| `Numbers.CentsRoundingError` | src/components/CurrencyConverter.tsx:37 | rounding to cents moves a value by at most 0.005 |
| `DecimalText.AmountTextMatchesPattern` | src/components/CurrencyConverter.tsx:47 | the amount filter accepts exactly digits, or digits, one point, digits |
| `DecimalText.OverrideTextMatchesPattern` | src/components/CurrencyConverter.tsx:77 | the override filter accepts exactly digits, or digits, one point and at most four digits |
| `DecimalText.OverrideTextIsAmountText` | src/components/CurrencyConverter.tsx:77 | every accepted override text is also accepted amount text, so it parses the same way |
| `DecimalText.ParseFloat` | src/components/CurrencyConverter.tsx:51 | parsing filtered text gives NaN exactly for `""` and `"."`, never Infinity, and otherwise a non-negative number |
| `DecimalText.ParseFloatValue` | src/components/CurrencyConverter.tsx:31 | the parsed number is the digit string with the point removed, divided by ten for each digit after the point (the digits themselves when there is no point) |
| `DecimalText.DigitsValueAppend` | src/components/CurrencyConverter.tsx:31 | appending digits to a digit string multiplies its value by ten per appended digit and adds theirs |
| `DecimalText.TrailingPointExample` | src/components/CurrencyConverter.tsx:51 | `"5."` passes the filter and parses as 5 |
| `DecimalText.LeadingPointExample` | src/components/CurrencyConverter.tsx:51 | `".5"` passes the filter and parses as 0.5 |
| `DecimalText.DecimalExamples` | src/components/CurrencyConverter.tsx:51 | `"007"` parses as 7 and `"12.5"` as 12.5 |
| `DecimalText.NatTextValue` | src/components/CurrencyConverter.tsx:37 | the integer part toFixed writes reads back as that integer |
| `DecimalText.CentsTextParses` | src/components/CurrencyConverter.tsx:37 | n cents written with two decimals passes the amount filter and parses as n / 100 |
| `DecimalText.ToFixed2RoundTrip` | src/components/CurrencyConverter.tsx:37-40 | a non-negative amount written by toFixed(2) passes the amount filter and parses back as the amount rounded to cents |
| `DecimalText.ToFixed2ZeroIff` | src/components/CurrencyConverter.tsx:85 | a non-negative amount shows as "0.00" exactly when it rounds to zero cents |
| `Converter.Converted` | src/components/CurrencyConverter.tsx:53 | a conversion is finite unless it divides by a zero rate, NaN only for 0 / 0, and non-negative at a positive rate |
| `Converter.ConvertedInverse` | src/components/CurrencyConverter.tsx:35-41 | converting back in the other direction at the same positive rate returns the amount exactly |
| `Converter.OverrideRateOf` | src/components/CurrencyConverter.tsx:27 | the override is null exactly for empty text, and otherwise a parsed number that is never Infinity |
| `Converter.CalculateOutput` | src/components/CurrencyConverter.tsx:30-42 | the output is exactly "0.00" when the input is empty or does not parse; at a positive rate the output passes the amount filter |
| `Converter.OutputReadsBack` | src/components/CurrencyConverter.tsx:30-42 | at a positive rate the output parses back as amount × rate (EUR) or amount ÷ rate (USD) rounded to cents, or 0 for unparsable input |
| `Converter.ToggleInput` | src/components/CurrencyConverter.tsx:85 | the new input is the output, and it is empty exactly when the output is "0.00" (or was itself empty) |
| `Converter.ToggleCarriesOutput` | src/components/CurrencyConverter.tsx:82-87 | the carried-over input passes the amount filter, and converting it in the other direction gives the cents-rounded conversion of the cents-rounded first conversion |
| `Converter.ToggleRoundTrip` | src/components/CurrencyConverter.tsx:82-87 | converting, toggling and converting back returns the original amount within 0.005 + 0.005 / rate from EUR (0.005 + 0.005 · rate from USD), which is within 0.01 from EUR at rates ≥ 1 and from USD at rates ≤ 1 (`ToggleRoundTripWithinCent`) |
| `Converter.ToggleRoundTripWithinCent` | src/components/CurrencyConverter.tsx:82-87 | from EUR at a rate of at least 1, or from USD at a rate of at most 1, the round trip returns the amount within 0.01 |
| `Converter.UsdRoundTripExample` | src/components/CurrencyConverter.tsx:30-42 | from USD at 1.249, "0.0312" shows "0.02" EUR and "0.02" EUR shows "0.02" USD: the round trip loses 0.0112 |
| `Converter.NewEntryConsistent` | src/components/CurrencyConverter.tsx:55-64 | a new row names the override exactly when it was in use, goes to the other currency, and its result is its amount converted at the rate it names |
| `Converter.Record` | src/components/CurrencyConverter.tsx:66-69 | after an append the history has min(n + 1, 5) rows: the new row, then the first rows of the previous history in their order |
| `Converter.RecordAllKeepsNewest` | src/components/CurrencyConverter.tsx:66-69 | after any sequence of appends the history is the latest rows, newest first, followed by the remaining old rows, cut at five (six conversions leave the five latest) |
| `Converter.RecordKeepsNewestFirst` | src/components/CurrencyConverter.tsx:56-69 | appending a row no older than the newest keeps the history ordered newest first |
| `Converter.PlainConversionExample` | src/components/CurrencyConverter.tsx:30-42 | "100" EUR at 1.1 shows "110.00" |
| `Converter.OverrideConversionExample` | src/components/CurrencyConverter.tsx:27-42 | override "1.12" at 1.1 is used; "50" EUR then shows "56.00" and toggling carries "56.00" over |
| `Converter.CurrencyConverter.constructor` | src/components/CurrencyConverter.tsx:20-24 | the widget starts with empty input, EUR mode, no override, empty history and rate 1.1 |
| `Converter.CurrencyConverter.InputChange` | src/components/CurrencyConverter.tsx:44-72 | text the filter rejects changes nothing; accepted text becomes the input; the history gains the new row (via `Record`) only when the text parses to a number > 0, else stays the same; mode, override and rate are untouched; the invariant is kept |
| `Converter.CurrencyConverter.OverrideChange` | src/components/CurrencyConverter.tsx:74-80 | the override text is replaced only by text the override filter accepts; nothing else changes |
| `Converter.CurrencyConverter.ModeToggle` | src/components/CurrencyConverter.tsx:82-87 | the mode flips, the input becomes the previous output (empty for "0.00"), history, override and rate are untouched, the invariant is kept |
| `Converter.CurrencyConverter.RateTick` | src/hooks/useEurUsdRate.ts:17-26 | the rate becomes one simulator step from the old rate; nothing else changes |

## Left out

- The timer, `Math.random` and the effect cleanup of the rate hook. The
  random delta is a parameter of `RateTick`, and the timer lifecycle is not
  modelled.
- IEEE-754 doubles. Numbers are exact reals, so float artefacts are absent:
  `1.005.toFixed(2)` rounds exactly, and a huge digit string never
  overflows to Infinity.
- `toFixed` on values of 10^21 or more, which JavaScript writes in exponent
  notation. This cannot arise at a positive rate near 1 from typed amounts
  of realistic length, and is not modelled.
- `parseFloat` on text the filters reject. The source only parses filtered
  text while the simulated rate stays positive.
- `Converter.CurrencyConverter.RateTick`: requires the new rate to be
  positive. The source's random walk has no floor. At a zero or negative
  rate the output could be "-x.yy", "Infinity" or "NaN", and a toggle would
  carry that text, which fails the amount filter, into the input. The
  invariant `realTimeRate > 0` excludes that state.
- `Date.now()` and `new Date()`. Both clock readings are one integer
  parameter `now` of `InputChange`, used for both `id` and `timestamp`.
- React rendering, CSS and `toLocaleTimeString`. The button guard
  `mode !== 'EUR' && handleModeToggle()` is part of the JSX; the model's
  `ModeToggle` is the handler itself.
- React's state batching and stale closures. Each handler is one atomic
  method on the current state.
