# Hurricane Milton report page: counters, tiers and the donation calculator

This project models the few stateful pieces of the report page's `script.js`, with the
browser abstracted away:

- **Donation impact calculator.** A donation amount becomes meals, shelter nights and relief
  kits at $2.50, $25 and $20 each, rounded down. A click on a tier button makes that button,
  and only that one, `active`. It writes `'$' + amount` into the amount label and starts a
  20-tick `animateValue` on each of the three impact displays.
- **`animateValue`.** A display counts from the number it shows to a target. A step counter
  ends the animation on the 20th tick, exactly on the target.
- **Stat counters.** `animateStatNumber`, `animateServiceMetric` and `animateRecoveryStat` read
  a target from the element's own text. They start at 80% of it, climb a thirtieth of the rest
  per tick, and clamp at the target. A `+` is appended only at rest. A per-element `animated`
  flag makes each of them one-shot, and a service metric reading exactly `24/7` is not animated.

Timer ticks are method calls. DOM text is a field: an `int` for the impact displays, a
`string` for the amount label, and a `Text` value for the counters. The buttons' class lists are
an `array<bool>`. The `animated` flags are a set of element identities owned by a dispatcher.
JavaScript numbers are exact `real`s and `int`s.

Modules, one file each: `Wrappers` (Option), `Rounding` (`Math.round`), `Impact`,
`DecimalText` (stripping, `parseFloat`, `'$' + amount`), `Tiers` (the click handler),
`ValueAnimation` (`animateValue`), `StatCounters` (the three counters), `Dispatch` (the
visibility handler and the `animated` flags).

`initializeDonationCalculator` and `animateValue` are defined twice in `script.js` with the same
bodies (lines 185 and 431, 226 and 472). The later definitions are the ones in effect, and one
model covers both; the table cites the first copy.

Three behaviours of the code worth knowing:
- A `24/7` service metric still gets its `animated` flag set, because the flag is written before
  the text is compared.
- No tier is guaranteed active before the first click; the buttons start with whatever classes
  the page ships.
- Rendering the target at rest does not always give back the original text. For example,
  `$1.25M` comes back as `$1.3M`, because `toFixed(1)` keeps one decimal.

## Model

| member | source | states |
|---|---|---|
| `Impact.ImpactOf` | script.js:194-215 | each count is floor(amount / rate) over the reals, for rates 2.5, 25 and 20, and is the largest whole number of units the amount pays for |
| `Impact.ImpactOfHundred` | script.js:213-215 | $100 gives 40 meals, 4 shelter nights and 5 relief kits |
| `Impact.ImpactOfZero` | script.js:213-215 | $0 gives nothing of any kind |
| `Impact.ImpactMonotone` | script.js:213-215 | a larger amount never gives fewer units of any kind |
| `Rounding.Round` | script.js:243 | `Math.round`: the integer within half of x, with halves going up |
| `DecimalText.Strip` | script.js:152 | keeps only digits and points, and is never longer than the text |
| `DecimalText.StripConcat` | script.js:152 | stripping works character by character: strip(a + b) = strip(a) + strip(b) |
| `DecimalText.StripNumeric` | script.js:152 | a text of only digits and points is unchanged by stripping |
| `DecimalText.ParseDecimal` | script.js:152 | `parseFloat` on the stripped text is a number (not NaN) exactly when the text starts with a digit, or with a point followed by a digit; the number is never negative |
| `DecimalText.ParseDigits` | script.js:152 | a run of digits parses to the integer it denotes |
| `DecimalText.ParseFraction` | script.js:152 | digits, a point and digits parse to whole part plus fraction; whatever follows a non-digit (a second point) is ignored |
| `DecimalText.NatDigits` | script.js:210 | `String(n)` for n >= 0 is a non-empty run of digits with no leading zero unless n is 0 |
| `DecimalText.NatDigitsValue` | script.js:210 | the decimal digits written for an integer denote that integer |
| `DecimalText.DollarLabel` | script.js:210 | the label is `$`, then `-` exactly when the amount is negative, then only digits, the first of them `0` only for the amount 0; `LabelDigits` shows those digits are the magnitude's |
| `DecimalText.LabelDigits` | script.js:210 | stripping the label leaves exactly the digits of the amount's magnitude |
| `DecimalText.LabelRoundTrip` | script.js:207-210 | stripping and parsing the amount label gives back the amount's magnitude |
| `Tiers.OnlyAtCount` | script.js:203-204 | after a click on an existing button exactly one button is active |
| `Tiers.ClickTwice` | script.js:203-210 | a click on tier a and then on tier b on one calculator leaves b the one active tier, a inactive when different, and the label showing b's amount |
| `Tiers.DonationCalculator.constructor` | script.js:186-192 | the buttons, their amounts, the label and the three displays as the page ships them |
| `Tiers.DonationCalculator.Click` | script.js:201-220 | button i and no other carries `active`; the label is `'$' + amount`; three fresh animations start from what each display shows, towards that display's impact count, and leave the displays untouched until they tick |
| `ValueAnimation.ValueAnimator.constructor` | script.js:226-233 | the animation reads the displayed number as its start, and is running at step 0 |
| `ValueAnimation.ValueAnimator.Tick` | script.js:234-244 | the step counter advances by one; the timer keeps running exactly while the step is below 20; on step 20 the value is the target; the display shows the rounded value |
| `ValueAnimation.BetweenStartAndTarget` | script.js:230-241 | every value an animation takes lies between its start and its target |
| `ValueAnimation.ShownBetweenStartAndTarget` | script.js:230-243 | every number displayed lies between the start and the target |
| `ValueAnimation.LandsOnTarget` | script.js:238-243 | from step 20 on, the display shows exactly the target |
| `StatCounters.StatSetup` | script.js:146-153 | the target of a stat or recovery number is never negative; that it depends only on the digits and points (scaled by a million with `M`) and on the presence of `$`, `+` and `M` is what `StatSetupIgnores` and `StatSetupExample` prove |
| `StatCounters.MetricSetup` | script.js:354-364 | the target of a service metric is never negative; that only digits, points and `+` matter is what `MetricSetupIgnores` proves (the format's always-round flag holds by definition) |
| `StatCounters.StatSetupExample` | script.js:147-153 | `$13M+` gives a monetary, millions, plus target of 13,000,000 |
| `StatCounters.StatSetupIgnores` | script.js:147-153 | a character that is not a digit, point, `$`, `+` or `M` (a thousands separator) does not change the stat target or its format |
| `StatCounters.MetricSetupIgnores` | script.js:355-364 | a character that is not a digit, point or `+` does not change a service metric's target or format |
| `StatCounters.TickPhase` | script.js:162-166 | one tick never leaves the value above the target; the interval stays set exactly while the value is below it; a running tick added one increment, and a clearing tick is one whose sum reached the target and was clamped to it (also script.js:373-377 and 408-412); `NeverAbove` and `Schedule` follow it over many ticks |
| `StatCounters.NeverAbove` | script.js:156-166 | for a target t >= 0, the counter never holds a value above t |
| `StatCounters.RunningIffBelow` | script.js:161-166 | after the first tick the interval is still set exactly while the value is below the target, and once cleared the value is the target |
| `StatCounters.EvenSteps` | script.js:156-162 | for t > 0, the first 29 ticks step evenly up from 0.8 t and leave the timer running |
| `StatCounters.StaysStopped` | script.js:163-165 | once the interval is cleared, the state never changes again |
| `StatCounters.Schedule` | script.js:156-166 | for t >= 0, by tick 30 the value is t and the interval is cleared; for t > 0 it runs on every earlier tick |
| `StatCounters.Render` | script.js:168-178 | `$` and `+` as the text had them, the `+` only at the target; with `M`, tenths of a million within half a tenth of the value; otherwise the whole number within half of it from 1000 on or for a service metric, and the floor below 1000 (also script.js:379-380 and 414-424); `RenderMonotone` and `PlusOnlyAtRest` build on it |
| `StatCounters.RenderNaN` | script.js:168-178 | for a NaN target the text shows NaN (with `M` when the text had one), keeps `$`, and never gets the `+` |
| `StatCounters.RenderMonotone` | script.js:168-175 | a larger value is never rendered as a smaller number, across the floor/round switch at 1000 |
| `StatCounters.ShownNeverAbove` | script.js:161-180 | no tick displays a number above the one displayed at rest |
| `StatCounters.PlusOnlyAtRest` | script.js:178 | a tick shows the `+` exactly when the text had one and the counter has stopped at the target |
| `StatCounters.StatCounter.constructor` | script.js:155-160 | the counter starts at 80% of the target, running, with the element's text untouched |
| `StatCounters.StatCounter.Tick` | script.js:161-181 | one tick follows the schedule (add, clamp, clear) and writes the rendered value; a NaN target never stops and shows NaN without `+` |
| `Dispatch.SetupFor` | script.js:358-361 | no counter exactly for a service metric reading `24/7`; every other service metric gets the metric setup, every stat or recovery number the stat setup; the target is never negative (also script.js:143-153 and 389-399) |
| `Dispatch.Handle` | script.js:349-364 | a missing or already flagged element leaves the flags as they were and starts nothing; otherwise exactly its id is added to the flags and it starts the counter `SetupFor` gives its role and text (also script.js:143-145 and 389-391) |
| `Dispatch.SecondEventIsNoOp` | script.js:143-145 | a second visibility event for the same element, through any card role and whatever text a counter has written into it since, starts nothing and changes no flag |
| `Dispatch.FirstEventFlags` | script.js:351-353 | the first event for an element always flags it |
| `Dispatch.FirstEventStarts` | script.js:143-153 | the first event for an element that is not a `24/7` metric starts a counter, set up by the metric rules for a service card and by the stat rules otherwise (also script.js:351-364 and 389-399) |
| `Dispatch.AlwaysOnIsSkipped` | script.js:353-361 | a `24/7` metric is flagged and not animated, so its text stays as it is |
| `Dispatch.StartsAtMostOnce` | script.js:389-391 | over any sequence of visibility events no element starts two counters, and none flagged beforehand starts one |
| `Dispatch.Dispatcher.OnVisible` | script.js:83-110 | the flags become those `Handle` gives; a counter is returned exactly when dispatch starts one, fresh, at tick 0, configured from the element's text |

## Left out

- Chart.js setup and chart resizing (script.js:28-74, 342-346): static data handed to a foreign library.
- IntersectionObserver thresholds, root margin and the opacity/transform reveal (script.js:77-126): browser viewport behaviour. A card becoming visible is a call to `Dispatcher.OnVisible`, once per counter class the card carries, in the order of the source's independent checks.
- The service card's extra check before `animateServiceMetric` (script.js:101-104) repeats the guard inside it, and the model has that guard once.
- Progress bar width reset (script.js:129-138), parallax and smooth scrolling (script.js:317-339), map markers and their CSS (script.js:248-314), the loading screen (script.js:4-9): these are pure DOM and CSS.
- Timer periods in milliseconds: each tick is one method call, and any interleaving of calls is allowed.
- A cleared interval never fires again, so both `Tick` methods require a running timer.
- `toLocaleString` thousands separators and the text that `toFixed(1)` produces. A rendered value is a `Shown` datatype holding the integer, or the count of tenths, that those functions would print.
- Floating point: values are exact reals. With IEEE doubles, 0.8 t plus thirty increments can fall just short of t, and the counter then clamps on a 31st tick. The model stops on tick 30.
- `parseInt` of a button's `data-amount` and of a display's text: the model takes both as integers and does not model NaN there. `parseFloat` is modelled on the stripped text only, which contains nothing but digits and points. A NaN target is modelled: that counter never stops.
- Missing calculator elements: with no buttons no click can happen, as in the source. A missing label or display would throw in the source; the model's calculator always has them.
- `StatCounters.StatCounter.constructor`: requires a target that is not negative; `Dispatch.SetupFor` proves every parsed target meets this.
- Rendering the target at rest is not claimed to reproduce the element's text, because `toFixed(1)` and locale separators make that false for some texts (see above).
