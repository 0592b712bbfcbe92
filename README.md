# Cheapest-route finder: a Dafny model

The service has a single endpoint, `/get_directions/`, in `main.py`. It asks a
journey planner to disambiguate a free-text origin and destination. It takes
the first ICS code (a stop identifier) on each side and asks for journeys
between those two stops. It then:

- normalises every journey;
- orders the journeys by duration and names them `route1` ... `routeN`;
- estimates a fare for each one from a per-minute tariff;
- answers with the cheapest route and a status line that gives its start
  time in words.

The model treats the two upstream JSON answers as input values, not as
network calls:

- The first answer is the argument `lookup` of `Directions.GetDirections`.
- The second answer is produced by a function parameter `fetch` from the
  chosen codes.
- The method also reports which codes it asked `fetch` for. That makes "no
  second lookup on the error path" observable.

Modules, in pipeline order:

| file | module | what it holds |
|---|---|---|
| `wrappers.dfy` | `Wrappers` | `Option`, `Result` |
| `upstream.dfy` | `Upstream` | the fields of the two upstream payloads the endpoint reads |
| `disambiguation.dfy` | `Disambiguation` | ICS-code filtering and the choice of the first code, or the fixed error |
| `percent_encoding.dfy` | `PercentEncoding` | `urllib.parse.quote` (UTF-8 first, then RFC 3986 section 2.1 percent-encoding; the unreserved set of section 2.3 and `/` are kept) and its inverse |
| `itinerary.dfy` | `Itinerary` | normalised legs and routes, the Google Maps link and its parser, the normalisation loop |
| `ranking.dfy` | `Ranking` | the stable sort by duration and the `routeN` keys |
| `fares.dfy` | `Fares` | the tariff, round-to-hundredths, the per-route fare, the in-place `estimate_fares` loop |
| `decimal.dfy` | `Decimal` | decimal digits of naturals (keys, clock fields, fares) |
| `timestamp.dfy` | `Timestamp` | the `fromisoformat` subset, the Gregorian weekday, `strftime("%A, %B %d, %Y at %I:%M %p")` |
| `selection.dfy` | `Selection` | `get_lowest_fare_route`: first least-fare route and the status text |
| `directions.dfy` | `Directions` | the endpoint as one method, and the end-to-end properties |

The code is a mix of styles, and the model keeps each one:

- The normalisation loop and `estimate_fares` are methods with loops.
  - `Itinerary.Normalise` fills a `map<nat, Route>`.
  - `Fares.EstimateFares` updates the routes of a `RouteTable` object in place
    and returns the same object.
  - Each is proved against a function: `NormaliseJourney` and
    `EstimatedFare`.
- The comprehensions, `sorted`, `min` and the timestamp formatting are
  functions with lemmas.

Fares are exact `real` numbers. `round(x, 2)` is modelled as
round-half-to-even to the nearest hundredth of the exact value.

Three behaviours of the code may surprise a reader of a fare service. The
model follows the code in each:

- The duration is split equally between the legs, so each leg's share is
  the same whatever its position. In the exact-real model a route's fare
  therefore does not depend on the order of its legs
  (`Fares.FareIgnoresLegOrder`). The code adds floats one leg at a time, and
  float addition is not associative. So with four or more legs a reordering
  can still move a fare by one hundredth (see "## Left out").
- A route with no legs does not fail. Its leg loop never runs, so its fare is
  0 (`Fares.FareWithoutLegs`).
- Zero journeys make `min` raise, and an unreadable start time makes
  `fromisoformat` raise. Neither becomes a separate message or a degraded
  status. Both are `Reply.ServerError` here (`Directions.RespondWithoutJourneys`,
  `Selection.LowestFareRouteCorrect`).

## Model

| member | source | states |
|---|---|---|
| Disambiguation.IcsCodesIsSubsequence | main.py:44-45 | the filtered list holds exactly the codes of the options whose place has an `icsCode`, at strictly increasing positions and in their original order; no option with a code is skipped |
| Disambiguation.IcsCodesEmpty | main.py:44-45 | the filtered list is empty if and only if no option carries a code |
| Disambiguation.IcsCodes | main.py:44-45 | the filtered list is never longer than the options; its meaning is pinned by `IcsCodesIsSubsequence`, `IcsCodesEmpty` and `FirstIcsCode` |
| Disambiguation.FirstIcsCode | main.py:44-45 | element 0 of a non-empty filtered list is the code of the first option that has one |
| Disambiguation.Resolve | main.py:52-55 | no contract of its own; pinned by `ResolveCorrect` |
| Disambiguation.ResolveCorrect | main.py:52-55 | resolution succeeds if and only if both sides have an option with a code; it then picks the first such option on each side; otherwise it gives exactly the error message `Try modifying the origin or destination` |
| PercentEncoding.Utf8RoundTrip | main.py:88 | strict UTF-8 decoding of the encoding of a string gives the string back |
| PercentEncoding.PercentRoundTrip | main.py:88 | percent-decoding the quoted bytes gives the bytes back |
| PercentEncoding.Quote | main.py:88 | no contract of its own; pinned by `QuoteRoundTrip`, `QuoteWellQuoted`, `QuoteHasNoAmpersand` and `QuoteSafeIdentity` |
| PercentEncoding.QuoteRoundTrip | main.py:88 | unquoting `quote(name)` gives back `name`, for every string |
| PercentEncoding.QuoteWellQuoted | main.py:88 | quoted text consists only of safe characters and `%XX` triplets with upper-case hex digits |
| PercentEncoding.WellQuotedCharacters | main.py:88 | every character of well-quoted text is unreserved, `/`, `%` or an upper-case hex digit |
| PercentEncoding.QuoteHasNoAmpersand | main.py:88 | a quoted name never contains `&` |
| PercentEncoding.QuoteSafeIdentity | main.py:88 | a name made only of unreserved characters and `/` is left unchanged by `quote` |
| PercentEncoding.HexDigit | main.py:88 | the hex digit written for a nibble is upper-case and reads back as that nibble |
| Itinerary.MapLink | main.py:88 | no contract of its own; pinned by `MapLinkRoundTrip` |
| Itinerary.MapLinkRoundTrip | main.py:88 | reading a map link back gives exactly the origin, destination and mode it was built from, whatever the names contain |
| Itinerary.NormaliseLeg | main.py:84-88 | no contract of its own; pinned by `NormaliseLegFaithful` |
| Itinerary.NormaliseLegFaithful | main.py:84-88 | a normalised leg's `destination`, `_origin`, `__Summary` and `mode` are the arrival name, the departure name, the instruction summary and the mode name; its link asks for the way from the departure to the arrival by that mode |
| Itinerary.NormaliseJourney | main.py:72-91 | no contract of its own; pinned by `NormaliseJourneyShape` |
| Itinerary.NormaliseJourneyShape | main.py:72-91 | a normalised route copies `startBy`, `arrivedBy`, `duration` and `alternativeRoute`, has no fare yet, and has one leg per raw leg in the same order |
| Itinerary.Normalise | main.py:69-91 | after the loop, `route_info` has exactly the keys `0 .. n-1`, and key `i` holds the normalised form of journey `i`; the dict's insertion order, which the method reports, is `0, 1, ..., n-1` |
| Itinerary.Values | main.py:94 | `route_info.values()` yields one record per key of the insertion order, read along that order |
| Itinerary.NormalisedValues | main.py:69-94 | read along the insertion order `Normalise` reports, `route_info.values()` gives journey `i`'s normalised record at position `i` |
| Ranking.SortByDuration | main.py:94 | no contract of its own; pinned by `SortByDurationCorrect` and `SortByDurationUnique` |
| Ranking.SortByDurationCorrect | main.py:94 | the sorted list is non-decreasing in duration and is a permutation of the input; for every duration, the routes with that duration appear in their input order (stability) |
| Ranking.SortByDurationUnique | main.py:94 | any sorted sequence that keeps each duration class in input order equals the model's sort, so every stable sort gives this same result |
| Ranking.SortedWithSameClassesEqual | main.py:94 | two duration-sorted sequences with the same routes in each duration class are equal |
| Ranking.InsertSorted | main.py:94 | inserting one route into a sorted list keeps it sorted |
| Ranking.InsertStable | main.py:94 | insertion puts the route ahead of the routes it ties with |
| Ranking.WithDurationPosition | main.py:94 | the `m`-th route of a duration sits at a position whose earlier same-duration routes are the first `m` of that class |
| Ranking.Rekey | main.py:97 | no contract of its own; pinned by `RekeyCorrect` |
| Ranking.RekeyCorrect | main.py:97 | the keys are `route1` ... `routeN` in sorted order, each on the route at that position, and the keys are pairwise distinct |
| Ranking.RouteKeysDistinct | main.py:97 | different positions get different keys |
| Fares.ModeCostPerMinute | main.py:153-164 | the tariff table (a constant); its bounds are pinned by `TariffRates` |
| Fares.Rate | main.py:145 | no contract of its own; pinned by `TariffRates` |
| Fares.TariffRates | main.py:153-164 | every tariff rate lies between 0 and 0.60; modes missing from the table, such as `rail` and `national-rail`, cost 0 |
| Fares.Round2 | main.py:147 | the rounded fare is a whole number of hundredths, within half a hundredth of the exact total |
| Fares.Round2Nearest | main.py:147 | no whole number of hundredths is closer to the total than the rounded fare |
| Fares.Round2Idempotent | main.py:147 | rounding a whole number of hundredths leaves it unchanged |
| Fares.Round2NonNegative | main.py:147 | rounding a non-negative total gives a non-negative fare |
| Fares.EstimatedFare | main.py:138-147 | no contract of its own; the exact total rounded by `Round2`, pinned by `FareIsShareTimesRates`, `FareIgnoresLegOrder`, `FareBounds`, `FareWithoutLegs` and `FareExample` |
| Fares.LegCostsFactor | main.py:138-145 | the accumulated total equals the per-leg share times the sum of the legs' rates |
| Fares.FareIsShareTimesRates | main.py:138-145 | a route's unrounded fare is `duration / len(legs)` times the sum of the legs' rates |
| Fares.RateSumPermutation | main.py:140-145 | the sum of rates depends only on the multiset of modes |
| Fares.FareIgnoresLegOrder | main.py:138-147 | over exact reals, two routes with the same duration and the same multiset of leg modes get the same fare |
| Fares.FareBounds | main.py:138-147 | when all rates lie in `[0, high]` and the duration is non-negative, the fare is at least 0 and at most `duration * high` plus half a hundredth |
| Fares.FareWithoutLegs | main.py:138-147 | a route without legs gets fare 0, with no division |
| Fares.FareExample | main.py:138-164 | duration 10 with legs bus and tube gives 5 × 0.15 + 5 × 0.25 = 2.0 |
| Fares.EstimateFares | main.py:135-150 | every entry keeps its key and position and gets `estimated_fare` equal to the rounded fare of its route; no other field changes; the same table object is returned |
| Fares.RouteTable.constructor | main.py:97 | the ordered mapping holds the given entries in order |
| Timestamp.Parse | main.py:119 | whatever `fromisoformat` accepts is a valid date-time: year 1-9999, a real calendar day, hour < 24, minute and second < 60, offset under a day |
| Timestamp.ParseRoundTrip | main.py:119 | parsing the ISO 8601 text of any valid date-time, with or without an offset, gives it back |
| Timestamp.NextDayWeekday | main.py:122 | consecutive calendar days, across month and year ends and leap days, have consecutive ordinals and consecutive weekdays |
| Timestamp.DaysBeforeNextYear | main.py:122 | the day count before a year grows by 366 after a Gregorian leap year and by 365 otherwise |
| Timestamp.WeekdayAnchor | main.py:122 | 4 March 2024 is a Monday |
| Timestamp.ClockFace | main.py:122 | `%I` lies in 1..12, `%p` is AM exactly before noon, and the two together give back the 24-hour hour (0 is 12 AM, 13 is 01 PM) |
| Timestamp.Format | main.py:122 | no contract of its own; pinned by `ClockFace`, `FormatIgnoresOffset` and `DisplayExample` |
| Timestamp.FormatTimestamp | main.py:116-123 | no contract of its own; pinned by `FormatExample` and by `Parse` |
| Timestamp.FormatIgnoresOffset | main.py:116-123 | the same wall-clock date and time is formatted identically with any offset or none: no offset conversion takes place |
| Timestamp.FormatExample | main.py:116-123 | `2024-03-04T08:15:00+00:00` is shown as `Monday, March 04, 2024 at 08:15 AM` |
| Timestamp.IsoExample | main.py:119 | the ISO text of the example is `2024-03-04T08:15:00+00:00` |
| Timestamp.DisplayExample | main.py:122 | the display text of the example is `Monday, March 04, 2024 at 08:15 AM` |
| Selection.LowestFareIndex | main.py:128 | `min` by `estimated_fare` picks a route whose fare is at most every route's fare, and every route before it costs strictly more |
| Selection.CheapestIsShortest | main.py:94-103 | over duration-sorted routes, a route tying on fare comes no earlier than the chosen one and is no shorter |
| Selection.FareNumeral | main.py:130 | the fare is printed as a numeral with no leading zeros and one or two decimals without a trailing zero; it carries a minus sign exactly when the fare is negative, so 0 prints without one; for a whole number of hundredths its value is the fare |
| Selection.FareTextTwo | main.py:130 | a fare of 2 is printed `2.0` |
| Selection.FareTextOneHalf | main.py:130 | a fare of 1.5 is printed `1.5` |
| Selection.FareTextThreeQuarters | main.py:130 | a fare of 0.75 is printed `0.75` |
| Selection.LowestFareRoute | main.py:126-132 | no contract of its own; pinned by `LowestFareRouteCorrect` |
| Selection.ShownFare | main.py:130 | no contract of its own; a route without legs shows the integer `0`, others show `FareText` |
| Selection.Status | main.py:130 | no contract of its own; the status text built from the start time and `ShownFare`, stated by `LowestFareRouteCorrect` |
| Selection.LowestFareRouteCorrect | main.py:126-132 | the selector fails with NoRoutes if and only if the mapping is empty, and with MissingFare if and only if some route is unpriced; otherwise it succeeds exactly when the winner's start time parses; the result is the first least-fare route, with the status naming its formatted start time and its fare |
| Directions.GetDirections | main.py:43-109 | with no code on either side, the reply is exactly the error body and no second lookup is made; otherwise the second lookup is asked for the two first codes and the reply is `Respond` of its journeys |
| Directions.Respond | main.py:66-106 | no contract of its own; pinned by `RespondWithoutJourneys`, `RespondPricesEverything` and `RespondPicksCheapest` |
| Directions.RespondWithoutJourneys | main.py:126-128 | zero journeys end in the `min` error |
| Directions.RespondPricesEverything | main.py:100-103 | every route reaching the selector has a fare, so a non-empty list ends in a JSON answer or in the timestamp error |
| Directions.RespondPicksCheapest | main.py:66-106 | the returned route is one of the upstream journeys, normalised and priced; no journey costs less; among equally cheap journeys it is a shortest one, and no equally long journey before it upstream costs as little; the status names its start time and fare |
| Directions.LeastAmongUpstream | main.py:94-103 | a least fare in the sorted order is a least fare among the upstream journeys, and tied journeys are no shorter |
| Directions.FirstAmongUpstream | main.py:94-103 | the first least-fare route of the sorted order has no equal-duration journey of equal or lower fare before it upstream |

## Left out

- The Flask application, request argument parsing, `jsonify` and `app.run`
  are HTTP plumbing. The reply is the `Directions.Reply` value.
- The two HTTP requests are network I/O. Their JSON answers are inputs:
  `lookup` and the function `fetch`.
- The first request's URL (with the free-text origin, destination and `via`
  mode) and the API key are not modelled. The first answer is given, not
  requested.
- Logging is a side effect only.
- A missing key in an upstream payload would raise KeyError. The payload
  datatypes have every field the endpoint indexes, and only `icsCode` is
  optional.
- Fares are exact reals, not IEEE-754 doubles.
  - Fares.Round2: rounds the exact total half-to-even to hundredths. Python
    rounds the binary double nearest to the total, which can differ on ties.
  - Fares.EstimateFares: the float total accumulated leg by leg is modelled
    as an exact sum.
- Fares.FareIgnoresLegOrder: holds for exact sums only. The float code can
  change a fare by one hundredth when four or more legs are reordered and the
  exact total sits on a rounding tie. For example, take duration 2 and the
  legs bus, overground, bus, bus. The float sum is `0.325`, which rounds to
  0.33. The same legs as bus, bus, bus, overground sum to
  `0.32499999999999996`, which rounds to 0.32.
- Selection.FareNumeral: prints a fare that is not a whole number of
  hundredths cut down to hundredths, where Python prints its shortest repr.
  `EstimateFares` never produces such fares.
  - Negative fares come out as `-` plus the magnitude.
  - Python's negative zero is not modelled. `round` turns a small negative
    total into `-0.0`, as in `round(-0.004, 2)`. One route that does this
    has duration -1 and 13 legs, one `cycling` and twelve `walking`: it sums
    to about -0.00385. Python stores and prints `-0.0` for it; the model
    gives `0.0`, printed `0.0`. The journey planner does not send negative
    durations.
  - Python's exponent form (`1e+16`) for very large fares is not modelled.
- Timestamp.Parse: accepts only `YYYY-MM-DD?hh:mm:ss` with an optional
  `±hh:mm` offset, where `?` is any single character.
  - Python's `fromisoformat` also takes, among others: date-only text;
    the `hh` and `hh:mm` time forms; fractional seconds; and offsets with
    seconds.
  - From Python 3.11 on it also takes `Z` and ISO week dates.
  - The offset's minutes are not range-checked on their own, only the whole
    offset, as in CPython.
- Timestamp.Format: assumes the C locale's English day and month names.
  `%Y` is zero-padded to four digits in the model. CPython's `strftime` on
  glibc prints years below 1000 unpadded (year 1 as `1`), so such years
  render differently.
- PercentEncoding.Unquote: accepts only `%XX` triplets and ASCII characters.
  There it is stricter than `urllib.parse.unquote`. It is used only to state
  the round trip.
- The JSON form of `estimated_fare` (`0` for a route without legs, a float
  otherwise) is not modelled. The status text does show the integer `0`
  (`Selection.ShownFare`).
