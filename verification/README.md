# Taxi booking site: fare engine, client helpers and booking store

A Dafny model of the rule-bearing core of a taxi-booking site. The browser
script computes a fare preview from the selected service type and hours,
validates form input and rate-limits its own API calls. A small Express
server keeps bookings in one JSON file and answers create, list, update,
delete and statistics requests.

Modules, one per concern:

- `Wrappers` (`wrappers.dfy`): `Option`, standing for `NaN`, `undefined` and the `-1` index.
- `JsNumber` (`jsnumber.dfy`): JavaScript white space, decimal digit strings, `parseInt` and `parseFloat` on decimal input (`parseFloat` with its exponent part), and `toFixed(2)` of an integer. Also round-trip lemmas between the renderers and the parsers.
- `JsString` (`jsstring.dfy`): `indexOf` and `replace` with a string pattern, where only the first occurrence is replaced.
- `Fare` (`fare.dfy`): the fare switch of `updateFareEstimate` (integer hours) and of its twin `calculateFare` (real hours). Also the rate-details texts and the display text. The switch is checked against a separate rate-schedule table (`RuleOf`).
- `RateLimit` (`ratelimit.dfy`): `Security.rateLimit.check` as a function of the call table, the endpoint and the clock reading.
- `Validate` (`validate.dfy`): `validateEmail`, `validatePhone` and `validateCoordinates`.
- `Bookings` (`bookings.dfy`): the POST, GET, PATCH and DELETE handlers of `/api/bookings`. Each is a transition from the stored sequence of bookings to a response and the sequence stored afterwards. A booking is a `map<string, string>`, so JavaScript's object spread is map `+`.
- `BookingStats` (`stats.dfy`): the `/api/bookings/stats` handler.

The model takes these as parameters instead of reading them:
- the clock (`now` in milliseconds and the ISO timestamp string);
- the success of the file read and of the file write (`Io`);
- the test of whether a timestamp falls on today's date (`isToday`).

## Model

| member | source | states |
|---|---|---|
| `Fare.ParseServiceType` | js/main.js:602-648 | A selector value that reaches a fare case is exactly that case's tag. Any other value is the unknown service. |
| `Fare.Fare` | js/main.js:599-648 | For each service type, the switch's fare equals the rule of the separate rate schedule applied to the hours. Morning is (8 h, ₹1000, ₹200/h), afternoon (5, 1000, 200), night (2, 750, 250) and tour (12, 1500, 200). Hourly is ₹200/h and night stay ₹250/h. An unrecognised type costs 0. |
| `Fare.FareReal` | js/main.js:129-175 | `calculateFare`'s switch charges each service type the same rate-schedule rule as the integer switch, applied to real hours. An unrecognised type costs 0. |
| `Fare.ApplyRealMonotone` | js/main.js:129-175 | Over real hours, every rule of the schedule charges at least as much for more time. |
| `Fare.FareRealMonotone` | js/main.js:129-175 | `calculateFare`'s total never decreases as the hours grow, fractional hours included. |
| `Fare.RenderFare` | js/main.js:651 | The display text is `₹`, then `-` exactly for a negative fare, then the decimal digits of the fare's magnitude, then `.00`. The characters between `₹` and `.00` read back as the fare under `parseInt`, and everything after `₹` reads back as it under `parseFloat`. |
| `Fare.RenderedDigitsCanonical` | js/main.js:651 | Between `₹` and `.00` of a rendered fare stand a `-` exactly for a negative fare, then only decimal digits, with no leading zero. |
| `Fare.UpdateFareEstimate` | js/main.js:594-679 | The total is the scheduled fare for the hours `parseInt` reads from the field, or for 0 hours when it reads nothing. The display is the rendered text of the total, `₹N.00`. The details text depends only on the service type. An unknown type gives fare 0 and empty details. |
| `Fare.CalculateFare` | js/main.js:123-209 | The total is the real-hours schedule's fare for the hours `parseFloat` reads from the field, or for 0 hours when it reads nothing. The details text depends only on the service type. An unknown type gives total 0 and empty details. |
| `Fare.TagRoundTrip` | js/main.js:602-647 | Tags and known service types are in one-to-one correspondence. |
| `Fare.TieredFare` | js/main.js:603-642 | A tiered service charges its base fare up to and including the included hours. Beyond that it charges base + (hours − included) × rate. |
| `Fare.PerHourFare` | js/main.js:621-647 | Hourly costs 200 × hours and night stay costs 250 × hours. |
| `Fare.NoJumpAtBoundary` | js/main.js:602-642 | At the included hours the fare is exactly the base. One more hour adds exactly one overage rate. |
| `Fare.FareMonotone` | js/main.js:602-648 | For every service type the fare never decreases as hours grow. |
| `Fare.FareNonNegative` | js/main.js:602-648 | Non-negative hours never give a negative fare. |
| `Fare.QuoteOfIntegerHours` | js/main.js:594-648 | For every service selector and every integer h, the hours text holding the decimal digits of h is read back as h and the quote charges exactly the fare switch's amount for h hours. |
| `Fare.NegativeHoursNotClamped` | js/main.js:598-624 | Negative hours are not clamped. For every negative h, the hours text holding the decimal digits of h gives the hourly fare 200 × h, which is negative. |
| `Fare.NegativeNightStayNotClamped` | js/main.js:598-647 | The same for a night stay. For every negative h, the hours text holding the decimal digits of h gives the fare 250 × h, which is negative. |
| `Fare.PerHourAsTiered` | js/main.js:621-647 | A per-hour rule equals a tiered rule with no base and no included hours for hours ≥ 0. Below 0 it charges strictly less. |
| `Fare.RateDetailsQuoteSchedule` | js/main.js:657-677 | Each details text quotes the same base, included hours and rate that the fare switch charges. |
| `Fare.TwinsAgreeOnIntegerHours` | js/main.js:129-175 | The `parseFloat` copy of the switch agrees with the `parseInt` copy on every integer number of hours. |
| `Fare.TwinsAgreeOnIntegerInput` | js/main.js:123-205 | Given the same integer hours text, `calculateFare` and `updateFareEstimate` produce the same fare and the same details. |
| `Fare.TwinsDisagreeOnFractionalInput` | js/main.js:124 | On the hours text `8.5` for the morning service the twins differ: 1000 against 1100. |
| `Fare.TwinsDisagreeOnExponentInput` | js/main.js:124 | On the hours text `1e1` for the morning service the twins differ: `parseInt` stops at the `e` and charges 1000, `parseFloat` reads 10 hours and charges 1400. |
| `JsNumber.ParseIntOfIntToString` | js/main.js:598 | `parseInt` reads back the decimal digits of every integer. |
| `JsNumber.ParseFloatOfToFixed2` | js/main.js:651 | `parseFloat` reads back every integer that `toFixed(2)` renders. |
| `JsNumber.ToFixed2AfterPrefix` | js/main.js:651 | After any prefix, an integer's `toFixed(2)` text ends in `.00`. Before that stand a `-` exactly for a negative integer, then the decimal digits of its magnitude. Those characters read back as the integer under `parseInt`, and the whole text reads back as it under `parseFloat`. |
| `JsNumber.ParseFloatOfExponent` | js/main.js:124 | On the decimal digits of `m` followed by `e`, an optional `-` and the digits of `k`, `parseFloat` reads the mantissa `m` and a scale of 10^k, or 10^−k for a negative exponent. |
| `JsNumber.ExponentOfSuffix` | js/main.js:124 | Whatever precedes it, an exponent part `e±k` stands for the factor 10^±k. |
| `RateLimit.Check` | js/main.js:35-59 | An absent entry, or one whose window is strictly more than 60000 ms old, is reset to count 1 at `now` and the call is allowed. A call is refused exactly when the entry is in its window with count ≥ 100, and a refusal changes nothing. Other endpoints' entries never change. |
| `RateLimit.CheckPreservesWellFormed` | js/main.js:30-59 | Every entry's count stays between 1 and 100, starting from the empty table. |
| `RateLimit.AdmittedInWindow` | js/main.js:53-58 | An allowed call inside the window adds exactly one to the count and keeps the window's start. |
| `RateLimit.WindowBudget` | js/main.js:30-59 | Take a run of calls, none later than 60000 ms after the window opened. It admits exactly min(calls made, 100 − count). The window never moves. |
| `RateLimit.FreshWindowBudget` | js/main.js:36-59 | A burst inside one window, starting with no entry, admits exactly min(calls, 100). |
| `Validate.ValidateEmail` | js/main.js:11-14 | Accepts exactly the strings that split into three non-empty runs without white space or `@`, joined as local `@` domain `.` last. |
| `Validate.ValidatePhone` | js/main.js:17-20 | Accepts exactly the strings of ten ASCII digits. |
| `Validate.PhoneOfNumber` | js/main.js:17-20 | A number's decimal rendering passes iff the number lies in [10^9, 10^10). |
| `Validate.ValidateCoordinates` | js/main.js:23-27 | Accepts exactly finite numbers with −90 ≤ lat ≤ 90 and −180 ≤ lng ≤ 180, bounds included. |
| `Validate.NaNGuardsRedundant` | js/main.js:24-26 | The `isNaN` tests change nothing: every comparison with `NaN` is already false. |
| `Bookings.Create` | server.js:39-57 | If the read or the write fails: 500 and the store is unchanged. Otherwise one booking is appended at the end and earlier ones are untouched. Its fields are the body's plus `id`, `timestamp` and `status`. Every body field wins over the defaults. No field is required. |
| `Bookings.List` | server.js:60-68 | Returns the whole collection in order, or 500 on a failed read. It never writes. |
| `Bookings.FindIndex` | server.js:77 | Finds the first booking whose `id` equals the path id, or reports that none has it. |
| `Bookings.Patch` | server.js:83-87 | The updated booking keeps the old fields and takes every body field. Its `id` is forced back to the path id. |
| `Bookings.Update` | server.js:71-95 | If no booking has the id: 404 and nothing written. Otherwise, when the write succeeds, only the first match is replaced by its patched version, so length and all other positions are unchanged. A failed read, or a failed write with the id present, gives 500 with the store unchanged. |
| `Bookings.RemoveId` | server.js:102 | Keeps exactly the bookings without that id. The length is unchanged iff none had it. |
| `Bookings.Delete` | server.js:98-114 | If nothing had the id: 404 and nothing written. Otherwise, when the write succeeds, the store becomes the filtered, strictly shorter collection. A failed read, or a failed write with the id present, gives 500 with the store unchanged. |
| `Bookings.NewIdInjective` | server.js:42 | Ids created in different milliseconds differ. |
| `Bookings.CreateThenList` | server.js:48-63 | After a create, the list shows the old collection followed by the created booking, verbatim. |
| `Bookings.RemoveIdConcat` | server.js:102 | The delete filter keeps relative order: it distributes over concatenation. |
| `Bookings.CreateThenDelete` | server.js:41-108 | Deleting the id a create just assigned restores the previous collection, given that the id was fresh and the body did not supply one. |
| `Bookings.UpdateSetsStatus` | server.js:83-90 | Any status can be written over any other, since the status lifecycle is not enforced. The booking keeps its id and the length is unchanged. |
| `Bookings.UpdateKeepsPathId` | server.js:83-87 | The returned booking has the path id even when the body names another. |
| `Bookings.DuplicateIds` | server.js:77-108 | With two bookings sharing an id, update changes only the first and delete removes both. |
| `Bookings.SameMillisecondCollides` | server.js:41-50 | Two creates in one millisecond, with bodies that carry no id, store two bookings with the same id. |
| `Bookings.ClientFieldsWin` | server.js:41-46 | A body that supplies `id`, `timestamp` and `status` is stored exactly as sent. |
| `BookingStats.CountStatus` | server.js:124-127 | A status count never exceeds the number of bookings. |
| `BookingStats.CountToday` | server.js:128-130 | The number of today's bookings never exceeds the number of bookings. |
| `BookingStats.CountTodayAppend` | server.js:128-130 | Appending a booking adds one to today's count exactly when its timestamp falls on today. |
| `BookingStats.CreateCountsToday` | server.js:41-50 | A create stamped today, whose body does not supply a timestamp, raises today's count by one. |
| `BookingStats.TodayRevenue` | server.js:131-136 | The reduction fails (500) exactly when some booking of today lacks `estimatedFare`. |
| `BookingStats.ComputeStats` | server.js:122-137 | A report exists exactly when the revenue reduction succeeds. `total` is the collection length. Each status field is the count of bookings with that status, `todayBookings` is the count of today's bookings, and `todayRevenue` is the reduction's sum. The four status counts sum to at most `total`, and `todayBookings` ≤ `total`. |
| `BookingStats.StatusCountsBounded` | server.js:123-127 | Statuses other than the four named ones count only in `total`. |
| `BookingStats.StatsAsWritten` | server.js:117-144 | With the prefix as written, the handler is the stats computation over the stored list. It answers 500 when the read fails or a booking of today has no `estimatedFare`. Today's revenue is 0 whenever every booking of today carries a fare rendered by the form. Older bookings may carry any fare or none. |
| `BookingStats.StatsCorrected` | server.js:117-144 | With `₹` stripped, the handler fails in the same cases as the handler as written. Today's revenue is the sum of today's rendered fares, whatever older bookings carry. |
| `BookingStats.RenderedFareWorthNothing` | server.js:134 | As written, a form-rendered fare `₹N.00` reads as 0. |
| `BookingStats.RenderedFareCounted` | server.js:134 | With `₹` stripped, a form-rendered fare reads as its value N. |
| `BookingStats.RevenueAsWrittenIsZero` | server.js:131-136 | As written, today's revenue is 0 whenever today's bookings carry rendered fares, whatever the fares are. |
| `BookingStats.RevenueCorrectedSumsFares` | server.js:131-136 | Corrected, today's revenue is the sum of today's rendered fares. Bookings from other days are not read. |
| `BookingStats.TotalMatchesList` | server.js:117-144 | For the handler as written, the reported total equals the length of the list the list handler returns. The handler as written and the corrected one fail together and report the same counts; they differ at most in today's revenue. |
| `BookingStats.CreateCountsAsPending` | server.js:41-50 | A create that leaves the status at `pending` adds one to the pending count and leaves every other status count unchanged. |

## Behaviour worth knowing

- Create validates nothing. No field is required, and a body field named `id`, `timestamp` or `status` overrides the server's value, because the body is spread last (server.js:41-46). So a create with an empty or missing name succeeds.
- Update accepts any status string, so any status can follow any other.
- Hourly and night stay are plain products (hours × rate). They are not tiered rules with zero base and zero included hours, and the two differ for negative hours, which are not clamped.
- Both copies of the fare switch use the same rates (₹200 overage, except ₹250 for night and night stay).
- Update touches only the first booking with the id (`findIndex`), while delete removes every booking with it (`filter`).

## Left out

- DOM and event wiring: form validation messages, `sanitizeInput`, notifications, the carousel, geolocation, driver mocks, availability checks, local-storage history and the service-selection URL parsing. These are browser plumbing with no rule logic.
- The early return of `updateFareEstimate` when the form elements are missing: DOM state.
- `calculateFare`'s display text: `toFixed(2)` of a non-integer real rounds in binary floating point. Only its total and details are modelled.
- `JsNumber.ParseInt`: no `0x` hexadecimal prefix, and no precision loss on digit strings beyond 2^53. The hours field is free text as far as this model knows (the page markup is not part of it), so such inputs are possible. The model reads them exactly, so the fare for a 17-digit hours field is exact where JavaScript's is rounded.
- `JsNumber.ParseFloat`: no `Infinity` literal and no overflow to `Infinity` for huge exponents. Both are floating-point values that exact reals do not have.
- `Fare.CalculateFare`: an hours field reading `Infinity` makes JavaScript's fare `Infinity` for every known service. The model reads no number there and charges the fare for 0 hours.
- `JsNumber.IntToString`: renders every integer as plain decimal digits. JavaScript's `String` does so only below 10^21 in magnitude and switches to exponent form (`1e+21`) from there, so the lemmas that read an hours text back speak of the decimal digits, not of `String(h)` for huge h.
- `JsNumber.ToFixed2`: integer fares only, below 10^21 (where JavaScript switches to exponent notation).
- Floating-point arithmetic: hours and fares are exact integers or reals, and the revenue sum is exact.
- Booking field values are strings. A JSON number or object in a field, for which `replace` would throw, is not represented.
- `RateLimit.Check`: endpoint names that collide with `Object.prototype` properties (`constructor`, `__proto__`) are not modelled. The calls in the code use fixed names.
- A failed write is modelled as leaving the stored collection unchanged. A partially written file is not represented.
- Concurrency: the read-modify-write cycle has no locking in the code, so interleavings are not modelled.
- Express setup, CORS, static files, the `/admin` route and creating the bookings file at start-up are server plumbing.
- `toLocaleDateString`, time zones and `toISOString` are not modelled. `isToday` and the ISO timestamp are parameters, and a booking without a timestamp never counts as today's (an invalid date never matches).

## Findings

| source | as written | input that shows it | evidently intended | confidence | as-written member | corrected member |
|---|---|---|---|---|---|---|
| server.js:134 | The stats handler strips `'â‚¹'`, the rupee sign's UTF-8 bytes misread as Windows-1252. The form sends fares as `₹N.00` (js/main.js:651, 426), so nothing is stripped, `parseFloat` gives `NaN` and `\|\| 0` turns each fare into 0. | A booking of today with `estimatedFare` `"₹1000.00"`: `todayRevenue` is 0. | Strip `₹`, so that the same booking contributes 1000. | high; not executed | `BookingStats.RevenueAsWrittenIsZero` | `BookingStats.RevenueCorrectedSumsFares` |
