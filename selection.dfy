/** `get_lowest_fare_route`: Python's `min` over the priced routes by
    `estimated_fare`, and the status message that announces the winner. */
module Selection {
  import opened Wrappers
  import opened Itinerary
  import opened Ranking
  import opened Decimal
  import Fares
  import Timestamp

  /** What makes `get_lowest_fare_route` raise: `min` of an empty mapping
      (ValueError), a route without `estimated_fare` (KeyError), or a start
      time `fromisoformat` rejects (ValueError). */
  datatype Fault = NoRoutes | MissingFare | InvalidTimestamp

  /** The dictionary `{'_status': ..., 'lowest_fare_route': ...}`. */
  datatype Cheapest = Cheapest(status: string, lowestFareRoute: Route)

  predicate Priced(e: Entry) {
    e.route.estimatedFare.Some?
  }

  predicate AllPriced(entries: seq<Entry>) {
    forall i :: 0 <= i < |entries| ==> Priced(entries[i])
  }

  function Fare(e: Entry): real
    requires Priced(e)
  {
    e.route.estimatedFare.value
  }

  // ------------------------------------------------------------------ min

  /** The position `min(data.values(), key=...)` picks: it scans in order and
      replaces its candidate only by a strictly smaller fare, so it settles on
      the first route of least fare. */
  function LowestFareIndex(entries: seq<Entry>): (k: nat)
    requires |entries| > 0 && AllPriced(entries)
    ensures k < |entries|
    ensures forall i :: 0 <= i < |entries| ==> Fare(entries[k]) <= Fare(entries[i])
    ensures forall i :: 0 <= i < k ==> Fare(entries[i]) > Fare(entries[k])
  {
    if |entries| == 1 then 0
    else
      var last := |entries| - 1;
      var k := LowestFareIndex(entries[..last]);
      if Fare(entries[last]) < Fare(entries[k]) then last else k
  }

  /** Over routes in duration order, a tie on fare goes to the shortest
      route, and among equally short ones to the one listed first (which the
      stable sort keeps as the earliest upstream journey). */
  lemma CheapestIsShortest(entries: seq<Entry>, j: nat)
    requires |entries| > 0 && AllPriced(entries)
    requires forall a, b :: 0 <= a < b < |entries| ==> entries[a].route.duration <= entries[b].route.duration
    requires j < |entries| && Fare(entries[j]) == Fare(entries[LowestFareIndex(entries)])
    ensures LowestFareIndex(entries) <= j
    ensures entries[LowestFareIndex(entries)].route.duration <= entries[j].route.duration
  {
  }

  // -------------------------------------------------------------- numerals

  /** A decimal numeral `[-]whole.fraction`. */
  datatype Numeral = Numeral(negative: bool, whole: string, fraction: string)

  predicate WellFormed(n: Numeral) {
    AllDigits(n.whole) && AllDigits(n.fraction) && |n.whole| >= 1 && |n.fraction| >= 1
  }

  function Render(n: Numeral): string {
    (if n.negative then "-" else "") + n.whole + "." + n.fraction
  }

  function NumeralValue(n: Numeral): real
    requires WellFormed(n)
  {
    var magnitude := DigitsValue(n.whole) as real + DigitsValue(n.fraction) as real / Pow10(|n.fraction|) as real;
    if n.negative then -magnitude else magnitude
  }

  /** The decimals of a number whose fractional part is `cents` hundredths:
      one digit when the second would be a trailing zero, two otherwise. */
  function Decimals(cents: nat): (f: string)
    requires cents < 100
    ensures AllDigits(f) && 1 <= |f| <= 2
    ensures |f| == 2 ==> f[1] != '0'
  {
    if cents % 10 == 0 then [DigitChar(cents / 10)]
    else
      TwoDigits(cents);
      PaddedDigits(cents, 2);
      Padded(cents, 2)
  }

  lemma DecimalsValue(cents: nat)
    requires cents < 100
    ensures DigitsValue(Decimals(cents)) as real / Pow10(|Decimals(cents)|) as real == cents as real / 100.0
  {
    var f := Decimals(cents);
    if cents % 10 == 0 {
      assert f[..0] == [];
      assert DigitsValue(f) == cents / 10;
      assert Pow10(1) == 10;
      assert cents == 10 * (cents / 10);
    } else {
      PaddedDigits(cents, 2);
      assert Pow10(2) == 100 by {
        assert Pow10(1) == 10;
      }
    }
  }

  lemma HundredthsSplit(a: nat)
    ensures (a / 100) as real + (a % 100) as real / 100.0 == a as real / 100.0
  {
    assert a == 100 * (a / 100) + a % 100;
  }

  /** The numeral Python prints for a float holding a whole number of
      hundredths: no leading zeros, one or two decimals, and no trailing zero
      after the first decimal (`2.0`, `1.5`, `0.75`). */
  function FareNumeral(y: real): (n: Numeral)
    ensures WellFormed(n) && |n.fraction| <= 2
    ensures |n.whole| > 1 ==> n.whole[0] != '0'
    ensures |n.fraction| == 2 ==> n.fraction[1] != '0'
    ensures Fares.IsWholeHundredths(y) ==> NumeralValue(n) == y
    ensures n.negative <==> y < 0.0
  {
    var c := (y * 100.0).Floor;
    var a: nat := if c < 0 then -c else c;
    var n := Numeral(c < 0, NatToString(a / 100), Decimals(a % 100));
    DecimalsValue(a % 100);
    HundredthsSplit(a);
    assert NumeralValue(n) == c as real / 100.0;
    n
  }

  function FareText(y: real): string {
    Render(FareNumeral(y))
  }

  lemma FareTextOf(y: real, whole: nat, cents: nat)
    requires cents < 100 && (y * 100.0).Floor == 100 * whole + cents
    ensures FareText(y) == NatToString(whole) + "." + Decimals(cents)
  {
    var a := 100 * whole + cents;
    assert a / 100 == whole && a % 100 == cents;
    assert FareNumeral(y) == Numeral(false, NatToString(whole), Decimals(cents));
  }

  lemma FareTextTwo()
    ensures FareText(2.0) == "2.0"
  {
    FareTextOf(2.0, 2, 0);
    assert NatToString(2) + "." + Decimals(0) == "2.0" by {
      assert NatToString(2) == "2";
      assert Decimals(0) == "0";
    }
  }

  lemma FareTextOneHalf()
    ensures FareText(1.5) == "1.5"
  {
    FareTextOf(1.5, 1, 50);
    assert NatToString(1) + "." + Decimals(50) == "1.5" by {
      assert NatToString(1) == "1";
      assert Decimals(50) == "5";
    }
  }

  lemma FareTextThreeQuarters()
    ensures FareText(0.75) == "0.75"
  {
    FareTextOf(0.75, 0, 75);
    assert NatToString(0) + "." + Decimals(75) == "0.75" by {
      assert NatToString(0) == "0";
      assert Decimals(75) == "75" by {
        TwoDigits(75);
      }
    }
  }

  // --------------------------------------------------------------- status

  const StatusLead: string := "The route with the lowest fare is route with start time "
  const FareLead: string := " and fare \U{00A3}"

  /** How the f-string shows a route's `estimated_fare`.  A route without
      legs keeps the integer `total_fare = 0`, which `round` leaves an
      integer, so it shows as `0`; any other fare is a float. */
  function ShownFare(route: Route): string
    requires route.estimatedFare.Some?
  {
    if route.legs == [] then "0" else FareText(route.estimatedFare.value)
  }

  function Status(startTime: string, route: Route): string
    requires route.estimatedFare.Some?
  {
    StatusLead + startTime + FareLead + ShownFare(route)
  }

  /** `get_lowest_fare_route(data)` over the mapping's values in order. */
  function LowestFareRoute(data: seq<Entry>): Result<Cheapest, Fault>
  {
    if |data| == 0 then Err(NoRoutes)
    else if !AllPriced(data) then Err(MissingFare)
    else
      var cheapest := data[LowestFareIndex(data)];
      match Timestamp.FormatTimestamp(cheapest.route.startBy)
      case None => Err(InvalidTimestamp)
      case Some(startTime) => Ok(Cheapest(Status(startTime, cheapest.route), cheapest.route))
  }

  /** The selector fails exactly on an empty mapping, an unpriced route or an
      unreadable start time of the winner; otherwise it returns the first
      route of least fare, and the status names its formatted start time and
      its fare. */
  lemma LowestFareRouteCorrect(data: seq<Entry>)
    ensures data == [] <==> LowestFareRoute(data) == Err(NoRoutes)
    ensures data != [] && !AllPriced(data) <==> LowestFareRoute(data) == Err(MissingFare)
    ensures LowestFareRoute(data).Ok? <==>
      data != [] && AllPriced(data) && Timestamp.FormatTimestamp(data[LowestFareIndex(data)].route.startBy).Some?
    ensures LowestFareRoute(data).Ok? ==>
      var k := LowestFareIndex(data);
      && LowestFareRoute(data).value.lowestFareRoute == data[k].route
      && (forall i :: 0 <= i < |data| ==> Fare(data[k]) <= Fare(data[i]))
      && (forall i :: 0 <= i < k ==> Fare(data[i]) > Fare(data[k]))
      && LowestFareRoute(data).value.status
         == StatusLead + Timestamp.FormatTimestamp(data[k].route.startBy).value + FareLead + ShownFare(data[k].route)
  {
  }
}
