/** The `/get_directions/` endpoint once both upstream answers are in hand:
    resolve the ICS codes, ask for journeys, normalise, rank, price and pick
    the cheapest route. */
module Directions {
  import opened Wrappers
  import opened Upstream
  import opened Disambiguation
  import opened Itinerary
  import opened Ranking
  import opened Fares
  import opened Selection
  import Timestamp

  /** The JSON object the endpoint answers with. */
  datatype Body = Failure(error: string) | Found(status: string, lowestFareRoute: Route)

  /** A JSON reply, or the server error an uncaught exception turns into. */
  datatype Reply = Json(body: Body) | ServerError(fault: Fault)

  // ------------------------------------------------- the pipeline as values

  /** The normalised routes in upstream order. */
  function UpstreamRoutes(journeys: seq<RawJourney>): (routes: seq<Route>)
    ensures |routes| == |journeys|
  {
    seq(|journeys|, i requires 0 <= i < |journeys| => NormaliseJourney(journeys[i]))
  }

  /** A route with the fare `estimate_fares` writes into it. */
  function Fared(route: Route): Route {
    route.(estimatedFare := Some(EstimatedFare(route, ModeCostPerMinute)))
  }

  function WithFares(entries: seq<Entry>): (priced: seq<Entry>)
    ensures |priced| == |entries|
  {
    seq(|entries|, i requires 0 <= i < |entries| => Entry(entries[i].key, Fared(entries[i].route)))
  }

  /** What the endpoint answers once the journeys have arrived. */
  function Respond(journeys: seq<RawJourney>): Reply {
    match LowestFareRoute(WithFares(Rekey(SortByDuration(UpstreamRoutes(journeys)))))
    case Err(fault) => ServerError(fault)
    case Ok(cheapest) => Json(Found(cheapest.status, cheapest.lowestFareRoute))
  }

  // ------------------------------------------------------------- endpoint

  /** `get_directions()` given the first lookup's answer; `fetch` stands for
      the second journey-planner call, and `requested` reports the ICS codes
      it was asked with (None when it was never made). */
  method GetDirections(lookup: LookupResponse, fetch: Query -> JourneyResponse)
    returns (reply: Reply, requested: Option<Query>)
    ensures Resolve(lookup).Err? ==> reply == Json(Failure(ErrorMessage)) && requested == None
    ensures Resolve(lookup).Ok? ==>
      && requested == Some(Resolve(lookup).value)
      && reply == Respond(fetch(Resolve(lookup).value).journeys)
  {
    ResolveCorrect(lookup);
    match Resolve(lookup)
    case Err(message) =>
      reply := Json(Failure(message));
      requested := None;
    case Ok(query) =>
      requested := Some(query);
      var routeOptions := fetch(query).journeys;
      var routeInfo, order := Normalise(routeOptions);
      NormalisedValues(routeOptions, routeInfo, order);
      var values := Values(routeInfo, order);
      assert values == UpstreamRoutes(routeOptions);
      var sortedRoutes := SortByDuration(values);
      var sortedRouteInfo := new RouteTable(Rekey(sortedRoutes));
      var routeDataWithFares := EstimateFares(sortedRouteInfo, ModeCostPerMinute);
      assert routeDataWithFares.entries == WithFares(Rekey(sortedRoutes));
      match LowestFareRoute(routeDataWithFares.entries)
      case Err(fault) =>
        reply := ServerError(fault);
      case Ok(cheapest) =>
        reply := Json(Found(cheapest.status, cheapest.lowestFareRoute));
  }

  // ------------------------------------------------------------ properties

  /** With no journeys `min` has nothing to choose from. */
  lemma RespondWithoutJourneys()
    ensures Respond([]) == ServerError(NoRoutes)
  {
    assert UpstreamRoutes([]) == [];
  }

  /** Every route reaching the selector has been priced, so the selector never
      fails for want of a fare. */
  lemma RespondPricesEverything(journeys: seq<RawJourney>)
    ensures Respond(journeys) != ServerError(MissingFare)
    ensures journeys != [] ==> Respond(journeys).Json? || Respond(journeys) == ServerError(InvalidTimestamp)
  {
    var routes := UpstreamRoutes(journeys);
    SortByDurationCorrect(routes);
    var sorted := SortByDuration(routes);
    assert |sorted| == |routes| by {
      assert |multiset(sorted)| == |multiset(routes)|;
    }
    var data := WithFares(Rekey(sorted));
    assert AllPriced(data);
  }

  function RouteFare(route: Route): real {
    EstimatedFare(route, ModeCostPerMinute)
  }

  /** The selector reads back, on the priced table, the fare of each sorted route. */
  lemma PricedTable(sorted: seq<Route>)
    ensures AllPriced(WithFares(Rekey(sorted)))
    ensures forall i :: 0 <= i < |sorted| ==>
      && WithFares(Rekey(sorted))[i].route == Fared(sorted[i])
      && Fare(WithFares(Rekey(sorted))[i]) == RouteFare(sorted[i])
  {
  }

  /** A least fare among the sorted routes is a least fare among the upstream
      ones, and any upstream route that ties with it is no shorter. */
  lemma LeastAmongUpstream(routes: seq<Route>, sorted: seq<Route>, k: nat)
    requires multiset(sorted) == multiset(routes) && SortedByDuration(sorted)
    requires k < |sorted|
    requires forall i :: 0 <= i < |sorted| ==> RouteFare(sorted[k]) <= RouteFare(sorted[i])
    requires forall i :: 0 <= i < k ==> RouteFare(sorted[i]) > RouteFare(sorted[k])
    ensures forall i :: 0 <= i < |routes| ==> RouteFare(sorted[k]) <= RouteFare(routes[i])
    ensures forall i :: 0 <= i < |routes| && RouteFare(routes[i]) == RouteFare(sorted[k]) ==>
      sorted[k].duration <= routes[i].duration
  {
    forall i | 0 <= i < |routes|
      ensures RouteFare(sorted[k]) <= RouteFare(routes[i])
      ensures RouteFare(routes[i]) == RouteFare(sorted[k]) ==> sorted[k].duration <= routes[i].duration
    {
      assert routes[i] in multiset(sorted);
      var j :| 0 <= j < |sorted| && sorted[j] == routes[i];
    }
  }

  /** The first least-fare route of the sorted order is, upstream, ahead of
      every other route of its duration and fare. */
  lemma FirstAmongUpstream(routes: seq<Route>, sorted: seq<Route>, k: nat) returns (p: nat)
    requires forall d :: WithDuration(sorted, d) == WithDuration(routes, d)
    requires k < |sorted|
    requires forall i :: 0 <= i < k ==> RouteFare(sorted[i]) > RouteFare(sorted[k])
    ensures p < |routes| && routes[p] == sorted[k]
    ensures forall i :: 0 <= i < p && routes[i].duration == routes[p].duration ==>
      RouteFare(routes[i]) > RouteFare(routes[p])
  {
    var d := sorted[k].duration;
    SortedClassIndex(sorted, k);
    var m := |WithDuration(sorted[..k], d)|;
    p := WithDurationPosition(routes, d, m);
    WithDurationMembers(sorted[..k], d);
    forall i | 0 <= i < p && routes[i].duration == d
      ensures RouteFare(routes[i]) > RouteFare(routes[p])
    {
      assert routes[..p][i] == routes[i];
      WithDurationComplete(routes[..p], d, i);
      assert routes[i] in sorted[..k];
      var j :| 0 <= j < k && sorted[..k][j] == routes[i];
    }
  }

  /** A JSON answer is built from the first least-fare route of the sorted order. */
  lemma RespondSelects(journeys: seq<RawJourney>) returns (k: nat)
    requires Respond(journeys).Json?
    ensures var sorted := SortByDuration(UpstreamRoutes(journeys));
      && k < |sorted|
      && (forall i :: 0 <= i < |sorted| ==> RouteFare(sorted[k]) <= RouteFare(sorted[i]))
      && (forall i :: 0 <= i < k ==> RouteFare(sorted[i]) > RouteFare(sorted[k]))
      && Timestamp.FormatTimestamp(sorted[k].startBy).Some?
      && Respond(journeys) == Json(Found(
           Status(Timestamp.FormatTimestamp(sorted[k].startBy).value, Fared(sorted[k])), Fared(sorted[k])))
  {
    var sorted := SortByDuration(UpstreamRoutes(journeys));
    var data := WithFares(Rekey(sorted));
    PricedTable(sorted);
    LowestFareRouteCorrect(data);
    k := LowestFareIndex(data);
  }

  /** The route returned is one of the upstream journeys, normalised and
      priced; no journey is cheaper; among the equally cheap it is a shortest
      one, and no equally long journey listed before it upstream is as cheap;
      the status names its formatted start time and its fare. */
  lemma RespondPicksCheapest(journeys: seq<RawJourney>) returns (p: nat)
    requires Respond(journeys).Json?
    ensures var routes := UpstreamRoutes(journeys);
      && p < |routes|
      && Timestamp.FormatTimestamp(routes[p].startBy).Some?
      && Respond(journeys) == Json(Found(
           StatusLead + Timestamp.FormatTimestamp(routes[p].startBy).value + FareLead + ShownFare(Fared(routes[p])),
           Fared(routes[p])))
      && (forall i :: 0 <= i < |routes| ==> RouteFare(routes[p]) <= RouteFare(routes[i]))
      && (forall i :: 0 <= i < |routes| && RouteFare(routes[i]) == RouteFare(routes[p]) ==>
            routes[p].duration <= routes[i].duration)
      && (forall i :: 0 <= i < p && routes[i].duration == routes[p].duration ==>
            RouteFare(routes[i]) > RouteFare(routes[p]))
  {
    var routes := UpstreamRoutes(journeys);
    SortByDurationCorrect(routes);
    var sorted := SortByDuration(routes);
    var k := RespondSelects(journeys);
    LeastAmongUpstream(routes, sorted, k);
    p := FirstAmongUpstream(routes, sorted, k);
  }
}
