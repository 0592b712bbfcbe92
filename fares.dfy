/** Fare estimation: the tariff table (main.py, lines 153-164), rounding to
    two places, and `estimate_fares` (lines 135-150), which writes an
    `estimated_fare` into every route of the mapping it is given. */
module Fares {
  import opened Wrappers
  import opened Itinerary
  import opened Ranking

  type Tariff = map<string, real>

  /** `mode_cost_per_minute`, in pounds per minute. */
  const ModeCostPerMinute: Tariff := map[
    "bus" := 0.15, "overground" := 0.20, "tube" := 0.25, "dlr" := 0.20, "tram" := 0.15,
    "tflrail" := 0.20, "river" := 0.50, "walking" := 0.00, "cycling" := 0.05, "taxi" := 0.60]

  /** `mode_cost_per_minute.get(mode, 0)`: a mode missing from the table costs nothing. */
  function Rate(table: Tariff, mode: string): real
  {
    if mode in table then table[mode] else 0.0
  }

  predicate RatesWithin(table: Tariff, low: real, high: real) {
    forall mode :: mode in table ==> low <= table[mode] <= high
  }

  /** Every rate of the table lies between 0 and the taxi rate, and modes such
      as `national-rail` or `rail` are not in it. */
  lemma TariffRates()
    ensures RatesWithin(ModeCostPerMinute, 0.0, 0.60)
    ensures Rate(ModeCostPerMinute, "national-rail") == 0.0 && Rate(ModeCostPerMinute, "rail") == 0.0
  {
  }

  // ------------------------------------------------------------- rounding

  predicate IsWholeHundredths(y: real) {
    (y * 100.0).Floor as real == y * 100.0
  }

  /** `round(x, 2)` taken on exact reals: the nearest hundredth, a tie going to
      the even hundredth. */
  function Round2(x: real): (y: real)
    ensures IsWholeHundredths(y)
    ensures -0.005 <= y - x <= 0.005
  {
    var scaled := x * 100.0;
    var f := scaled.Floor;
    var frac := scaled - f as real;
    var k := if frac < 0.5 then f else if frac > 0.5 then f + 1 else if f % 2 == 0 then f else f + 1;
    k as real / 100.0
  }

  /** No whole number of hundredths is nearer to `x` than Round2(x). */
  lemma Round2Nearest(x: real, z: real)
    requires IsWholeHundredths(z)
    ensures (if Round2(x) >= x then Round2(x) - x else x - Round2(x)) <= (if z >= x then z - x else x - z)
  {
    var scaled := x * 100.0;
    var f := scaled.Floor;
    var j := (z * 100.0).Floor;
    assert z == j as real / 100.0;
    if j <= f {
      assert x - z >= x - f as real / 100.0;
    } else {
      assert j >= f + 1;
      assert z - x >= (f + 1) as real / 100.0 - x;
    }
  }

  /** A value already in whole hundredths is not changed. */
  lemma Round2Idempotent(y: real)
    requires IsWholeHundredths(y)
    ensures Round2(y) == y
  {
    var k := (y * 100.0).Floor;
    assert y * 100.0 == k as real;
  }

  lemma Round2NonNegative(x: real)
    requires x >= 0.0
    ensures Round2(x) >= 0.0
  {
    assert (x * 100.0).Floor >= 0;
  }

  // ----------------------------------------------------------------- fares

  function Modes(legs: seq<Leg>): (modes: seq<string>)
    ensures |modes| == |legs| && forall k :: 0 <= k < |legs| ==> modes[k] == legs[k].mode
  {
    seq(|legs|, k requires 0 <= k < |legs| => legs[k].mode)
  }

  /** `total_fare` after the legs of `legs`, each costing `share` minutes at its mode's rate. */
  function LegCosts(legs: seq<Leg>, share: real, table: Tariff): real
  {
    if legs == [] then 0.0
    else LegCosts(legs[..|legs| - 1], share, table) + share * Rate(table, legs[|legs| - 1].mode)
  }

  /** The sum of the rates of a list of modes. */
  function RateSum(modes: seq<string>, table: Tariff): real
  {
    if modes == [] then 0.0 else RateSum(modes[..|modes| - 1], table) + Rate(table, modes[|modes| - 1])
  }

  /** `route_details["duration"] / len(route_details["legs"])`, the minutes
      given to each leg; 0 for a route without legs, whose loop never runs. */
  function Share(route: Route): real
  {
    if route.legs == [] then 0.0 else route.duration as real / |route.legs| as real
  }

  /** `total_fare` once the loop over the route's legs has finished. */
  function TotalFare(route: Route, table: Tariff): real
  {
    LegCosts(route.legs, Share(route), table)
  }

  /** `round(total_fare, 2)` for one route. */
  function EstimatedFare(route: Route, table: Tariff): real
  {
    Round2(TotalFare(route, table))
  }

  lemma {:induction false} LegCostsFactor(legs: seq<Leg>, share: real, table: Tariff)
    ensures LegCosts(legs, share, table) == share * RateSum(Modes(legs), table)
  {
    if legs != [] {
      var init := legs[..|legs| - 1];
      LegCostsFactor(init, share, table);
      assert Modes(legs)[..|legs| - 1] == Modes(init);
    }
  }

  /** Before rounding, the fare is the share of one leg times the sum of the
      legs' rates. */
  lemma FareIsShareTimesRates(route: Route, table: Tariff)
    ensures TotalFare(route, table) == Share(route) * RateSum(Modes(route.legs), table)
  {
    LegCostsFactor(route.legs, Share(route), table);
  }

  lemma {:induction false} RateSumConcat(a: seq<string>, b: seq<string>, table: Tariff)
    ensures RateSum(a + b, table) == RateSum(a, table) + RateSum(b, table)
    decreases |b|
  {
    if b == [] {
      assert a + b == a;
    } else {
      assert (a + b)[..|a + b| - 1] == a + b[..|b| - 1];
      RateSumConcat(a, b[..|b| - 1], table);
    }
  }

  /** Taking the mode at `j` out of the list takes its rate out of the sum. */
  lemma RateSumRemove(b: seq<string>, j: nat, table: Tariff)
    requires j < |b|
    ensures RateSum(b, table) == RateSum(b[..j] + b[j + 1..], table) + Rate(table, b[j])
  {
    assert b == b[..j] + [b[j]] + b[j + 1..];
    RateSumConcat(b[..j] + [b[j]], b[j + 1..], table);
    RateSumConcat(b[..j], [b[j]], table);
    RateSumConcat(b[..j], b[j + 1..], table);
    assert RateSum([b[j]], table) == Rate(table, b[j]);
  }

  lemma MultisetRemove(b: seq<string>, j: nat)
    requires j < |b|
    ensures multiset(b[..j] + b[j + 1..]) == multiset(b) - multiset{b[j]}
  {
    assert b == b[..j] + [b[j]] + b[j + 1..];
    assert multiset(b) == multiset(b[..j]) + multiset{b[j]} + multiset(b[j + 1..]);
  }

  lemma {:induction false} RateSumPermutation(a: seq<string>, b: seq<string>, table: Tariff)
    requires multiset(a) == multiset(b)
    ensures RateSum(a, table) == RateSum(b, table)
    decreases |a|
  {
    if a != [] {
      var x := a[|a| - 1];
      var init := a[..|a| - 1];
      MultisetRemove(a, |a| - 1);
      assert init == a[..|a| - 1] + a[|a|..];
      assert x in multiset(b);
      var j :| 0 <= j < |b| && b[j] == x;
      MultisetRemove(b, j);
      RateSumPermutation(init, b[..j] + b[j + 1..], table);
      RateSumRemove(b, j, table);
    } else {
      assert |b| == |multiset(b)| == 0;
    }
  }

  /** Since the duration is split equally, the fare depends only on the
      duration and the multiset of modes, not on the order of the legs. */
  lemma FareIgnoresLegOrder(r1: Route, r2: Route, table: Tariff)
    requires r1.duration == r2.duration && |r1.legs| == |r2.legs|
    requires multiset(Modes(r1.legs)) == multiset(Modes(r2.legs))
    ensures EstimatedFare(r1, table) == EstimatedFare(r2, table)
  {
    FareIsShareTimesRates(r1, table);
    FareIsShareTimesRates(r2, table);
    RateSumPermutation(Modes(r1.legs), Modes(r2.legs), table);
    assert Share(r1) == Share(r2);
    assert TotalFare(r1, table) == TotalFare(r2, table);
  }

  lemma {:induction false} RateSumWithin(modes: seq<string>, table: Tariff, high: real)
    requires high >= 0.0 && RatesWithin(table, 0.0, high)
    ensures 0.0 <= RateSum(modes, table) <= |modes| as real * high
  {
    if modes != [] {
      var n := |modes| - 1;
      RateSumWithin(modes[..n], table, high);
      assert Rate(table, modes[n]) <= high;
      assert (n + 1) as real * high == n as real * high + high;
    }
  }

  lemma MultiplyBounds(k: real, x: real, y: real)
    requires k >= 0.0 && x <= y
    ensures k * x <= k * y
  {
  }

  /** With non-negative rates and duration the fare is non-negative, and it
      is at most the whole duration at the highest rate, plus half a penny of
      rounding. */
  lemma FareBounds(route: Route, table: Tariff, high: real)
    requires high >= 0.0 && RatesWithin(table, 0.0, high) && route.duration >= 0
    ensures 0.0 <= EstimatedFare(route, table) <= route.duration as real * high + 0.005
  {
    var n := |route.legs|;
    var sum := RateSum(Modes(route.legs), table);
    FareIsShareTimesRates(route, table);
    RateSumWithin(Modes(route.legs), table, high);
    var raw := TotalFare(route, table);
    if n > 0 {
      var share := route.duration as real / n as real;
      assert share >= 0.0;
      MultiplyBounds(share, sum, n as real * high);
      assert share * (n as real * high) == (share * n as real) * high;
      assert share * n as real == route.duration as real;
    }
    MultiplyBounds(Share(route), 0.0, sum);
    assert 0.0 <= raw <= route.duration as real * high;
    Round2NonNegative(raw);
  }

  /** A route without legs never reaches the division and gets fare 0. */
  lemma FareWithoutLegs(route: Route, table: Tariff)
    requires route.legs == []
    ensures EstimatedFare(route, table) == 0.0
  {
    Round2Idempotent(0.0);
  }

  /** 10 minutes by bus then tube: 5 x 0.15 + 5 x 0.25 = 2.00. */
  lemma FareExample(route: Route)
    requires route.duration == 10 && |route.legs| == 2
    requires route.legs[0].mode == "bus" && route.legs[1].mode == "tube"
    ensures EstimatedFare(route, ModeCostPerMinute) == 2.0
  {
    var legs := route.legs;
    assert Share(route) == 5.0;
    assert legs[..1][..0] == [] && legs[..2] == legs;
    assert LegCosts(legs[..1], 5.0, ModeCostPerMinute) == 5.0 * 0.15;
    assert LegCosts(legs, 5.0, ModeCostPerMinute) == 5.0 * 0.15 + 5.0 * 0.25;
    Round2Idempotent(2.0);
  }

  // ------------------------------------------------------- estimate_fares

  /** The OrderedDict handed to `estimate_fares`, whose route records the
      function updates in place. */
  class RouteTable {
    var entries: seq<Entry>

    constructor (entries: seq<Entry>)
      ensures this.entries == entries
    {
      this.entries := entries;
    }
  }

  /** `after` is `before` with its route's `estimated_fare` filled in and
      nothing else changed. */
  predicate FareWritten(before: Entry, after: Entry, table: Tariff) {
    after == Entry(before.key, before.route.(estimatedFare := Some(EstimatedFare(before.route, table))))
  }

  /** `estimate_fares(route_data, mode_cost_per_minute)`: every route gets its
      `estimated_fare`; keys, order and every other field stay as they were,
      and the same mapping object is returned. */
  method EstimateFares(routeData: RouteTable, table: Tariff) returns (result: RouteTable)
    modifies routeData
    ensures result == routeData
    ensures |routeData.entries| == |old(routeData.entries)|
    ensures forall i :: 0 <= i < |routeData.entries| ==> FareWritten(old(routeData.entries[i]), routeData.entries[i], table)
  {
    var i := 0;
    while i < |routeData.entries|
      invariant 0 <= i <= |routeData.entries| == |old(routeData.entries)|
      invariant forall k :: 0 <= k < i ==> FareWritten(old(routeData.entries[k]), routeData.entries[k], table)
      invariant routeData.entries[i..] == old(routeData.entries)[i..]
    {
      var routeDetails := routeData.entries[i].route;
      var totalFare := 0.0;
      var j := 0;
      while j < |routeDetails.legs|
        invariant 0 <= j <= |routeDetails.legs|
        invariant totalFare == LegCosts(routeDetails.legs[..j], Share(routeDetails), table)
      {
        var mode := routeDetails.legs[j].mode;
        var legDuration := routeDetails.duration as real / |routeDetails.legs| as real;
        assert routeDetails.legs[..j + 1][..j] == routeDetails.legs[..j];
        totalFare := totalFare + legDuration * Rate(table, mode);
        j := j + 1;
      }
      assert routeDetails.legs[..j] == routeDetails.legs;
      assert routeData.entries[i] == old(routeData.entries)[i] by {
        assert routeData.entries[i..][0] == old(routeData.entries)[i..][0];
      }
      routeData.entries := routeData.entries[i := Entry(routeData.entries[i].key,
                                                        routeDetails.(estimatedFare := Some(Round2(totalFare))))];
      assert routeData.entries[i + 1..] == old(routeData.entries)[i + 1..];
      i := i + 1;
    }
    result := routeData;
  }
}
