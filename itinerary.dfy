/** The normalised route and leg records and the loop that builds them from
    the upstream journeys (main.py, lines 69-91). */
module Itinerary {
  import opened Wrappers
  import opened Upstream
  import opened PercentEncoding

  /** `leg_info`: the keys `destination`, `_origin`, `__Summary`, `mode`, `mps_link`. */
  datatype Leg = Leg(destination: string, origin: string, summary: string, mode: string, mapsLink: string)

  /** `route_info[index]`; `estimatedFare` is the key that `estimate_fares`
      adds later, absent until then. */
  datatype Route = Route(
    startBy: string,
    arrivedBy: string,
    duration: int,
    alternativeRoute: bool,
    legs: seq<Leg>,
    estimatedFare: Option<real>)

  // ------------------------------------------------------------ map links

  const LinkPrefix: string := "https://www.google.com/maps/dir/?api=1&origin="
  const DestinationParam: string := "&destination="
  const TravelModeParam: string := "&travelmode="

  /** The Google Maps directions link of a leg; the two names are quoted, the
      mode is inserted as it is. */
  function MapLink(origin: string, destination: string, mode: string): string
  {
    LinkPrefix + Quote(origin) + DestinationParam + Quote(destination) + TravelModeParam + mode
  }

  /** What a map link asks for. */
  datatype LinkTarget = LinkTarget(origin: string, destination: string, travelMode: string)

  /** The position of the first `&` of `s`, or `|s|` when there is none. */
  function FirstAmpersand(s: string): (i: nat)
    ensures i <= |s| && '&' !in s[..i]
    ensures i < |s| ==> s[i] == '&'
  {
    if s == [] then 0
    else if s[0] == '&' then 0
    else
      var i := 1 + FirstAmpersand(s[1..]);
      assert s[..i] == [s[0]] + s[1..][..i - 1];
      i
  }

  /** A query value runs up to the next `&`: the value and what follows it. */
  function TakeValue(s: string): (string, string)
  {
    var i := FirstAmpersand(s);
    (s[..i], s[i..])
  }

  lemma TakeValueOf(x: string, y: string)
    requires '&' !in x && y != [] && y[0] == '&'
    ensures TakeValue(x + y) == (x, y)
  {
    assert (x + y)[|x|] == '&';
  }

  /** `s` with the literal `p` taken off its front, if it starts with `p`. */
  function DropPrefix(p: string, s: string): Option<string>
  {
    if |p| <= |s| && s[..|p|] == p then Some(s[|p|..]) else None
  }

  lemma DropPrefixOf(p: string, s: string)
    ensures DropPrefix(p, p + s) == Some(s)
  {
    assert (p + s)[..|p|] == p && (p + s)[|p|..] == s;
  }

  /** Reads a map link back: the origin and destination parameters, unquoted,
      and the travel mode. */
  function ParseMapLink(link: string): Option<LinkTarget>
  {
    match DropPrefix(LinkPrefix, link)
    case None => None
    case Some(a) =>
      var (quotedOrigin, b) := TakeValue(a);
      match DropPrefix(DestinationParam, b)
      case None => None
      case Some(c) =>
        var (quotedDestination, d) := TakeValue(c);
        match DropPrefix(TravelModeParam, d)
        case None => None
        case Some(mode) =>
          match (Unquote(quotedOrigin), Unquote(quotedDestination))
          case (Some(origin), Some(destination)) => Some(LinkTarget(origin, destination, mode))
          case _ => None
  }

  /** Parsing splits a link at the first `&` after each parameter name. */
  lemma ParseLinkParts(quotedOrigin: string, quotedDestination: string, mode: string)
    requires '&' !in quotedOrigin && '&' !in quotedDestination
    ensures ParseMapLink(LinkPrefix + quotedOrigin + DestinationParam + quotedDestination + TravelModeParam + mode)
      == match (Unquote(quotedOrigin), Unquote(quotedDestination))
         case (Some(origin), Some(destination)) => Some(LinkTarget(origin, destination, mode))
         case _ => None
  {
    var d := TravelModeParam + mode;
    var c := quotedDestination + d;
    var b := DestinationParam + c;
    var a := quotedOrigin + b;
    assert LinkPrefix + quotedOrigin + DestinationParam + quotedDestination + TravelModeParam + mode == LinkPrefix + a;
    DropPrefixOf(LinkPrefix, a);
    TakeValueOf(quotedOrigin, b);
    DropPrefixOf(DestinationParam, c);
    TakeValueOf(quotedDestination, d);
    DropPrefixOf(TravelModeParam, mode);
  }

  /** A map link names exactly the origin, destination and mode it was built
      from, whatever characters the names hold. */
  lemma MapLinkRoundTrip(origin: string, destination: string, mode: string)
    ensures ParseMapLink(MapLink(origin, destination, mode)) == Some(LinkTarget(origin, destination, mode))
  {
    QuoteHasNoAmpersand(origin);
    QuoteHasNoAmpersand(destination);
    ParseLinkParts(Quote(origin), Quote(destination), mode);
    QuoteRoundTrip(origin);
    QuoteRoundTrip(destination);
  }

  // --------------------------------------------------------- normalisation

  /** One `leg_info` built from one raw leg. */
  function NormaliseLeg(raw: RawLeg): Leg
  {
    var departure := raw.departurePoint.commonName;
    var arrival := raw.arrivalPoint.commonName;
    Leg(arrival, departure, raw.instruction.summary, raw.mode.name, MapLink(departure, arrival, raw.mode.name))
  }

  function NormaliseLegs(raws: seq<RawLeg>): seq<Leg>
  {
    seq(|raws|, k requires 0 <= k < |raws| => NormaliseLeg(raws[k]))
  }

  /** The record stored at `route_info[index]` once its legs are appended. */
  function NormaliseJourney(raw: RawJourney): Route
  {
    Route(raw.startDateTime, raw.arrivalDateTime, raw.duration, raw.alternativeRoute, NormaliseLegs(raw.legs), None)
  }

  /** A normalised leg copies the arrival name, departure name, instruction
      summary and mode name, and its link asks for the way from the departure
      to the arrival by that mode. */
  lemma NormaliseLegFaithful(raw: RawLeg)
    ensures NormaliseLeg(raw).destination == raw.arrivalPoint.commonName
    ensures NormaliseLeg(raw).origin == raw.departurePoint.commonName
    ensures NormaliseLeg(raw).summary == raw.instruction.summary
    ensures NormaliseLeg(raw).mode == raw.mode.name
    ensures ParseMapLink(NormaliseLeg(raw).mapsLink)
      == Some(LinkTarget(raw.departurePoint.commonName, raw.arrivalPoint.commonName, raw.mode.name))
  {
    MapLinkRoundTrip(raw.departurePoint.commonName, raw.arrivalPoint.commonName, raw.mode.name);
  }

  /** A normalised route copies the four journey fields, has no fare yet, and
      has one leg per raw leg in the same order. */
  lemma NormaliseJourneyShape(raw: RawJourney)
    ensures NormaliseJourney(raw).startBy == raw.startDateTime
    ensures NormaliseJourney(raw).arrivedBy == raw.arrivalDateTime
    ensures NormaliseJourney(raw).duration == raw.duration
    ensures NormaliseJourney(raw).alternativeRoute == raw.alternativeRoute
    ensures NormaliseJourney(raw).estimatedFare == None
    ensures |NormaliseJourney(raw).legs| == |raw.legs|
    ensures forall k :: 0 <= k < |raw.legs| ==> NormaliseJourney(raw).legs[k] == NormaliseLeg(raw.legs[k])
  {
  }

  /** The loop of main.py, lines 69-91: `route_info` maps each journey's
      position to its record, whose `legs` list is filled by `append`.  A
      Python dict remembers the order in which its keys were first inserted;
      `order` is that order: an assignment to a new key appends it, and one
      to a key already present leaves the order alone. */
  method Normalise(journeys: seq<RawJourney>) returns (routeInfo: map<nat, Route>, order: seq<nat>)
    ensures forall index: nat :: index in routeInfo <==> index < |journeys|
    ensures forall index :: 0 <= index < |journeys| ==> routeInfo[index] == NormaliseJourney(journeys[index])
    ensures order == seq(|journeys|, i requires 0 <= i < |journeys| => i)
  {
    routeInfo := map[];
    order := [];
    var index := 0;
    while index < |journeys|
      invariant 0 <= index <= |journeys|
      invariant forall i: nat :: i in routeInfo <==> i < index
      invariant forall i :: 0 <= i < index ==> routeInfo[i] == NormaliseJourney(journeys[i])
      invariant order == seq(index, i requires 0 <= i < index => i)
    {
      var route := journeys[index];
      if index !in routeInfo {
        order := order + [index];
      }
      routeInfo := routeInfo[index := Route(route.startDateTime, route.arrivalDateTime, route.duration,
                                            route.alternativeRoute, [], None)];
      var k := 0;
      while k < |route.legs|
        invariant 0 <= k <= |route.legs|
        invariant forall i: nat :: i in routeInfo <==> i <= index
        invariant forall i :: 0 <= i < index ==> routeInfo[i] == NormaliseJourney(journeys[i])
        invariant routeInfo[index] == NormaliseJourney(route).(legs := NormaliseLegs(route.legs[..k]))
        invariant order == seq(index + 1, i requires 0 <= i < index + 1 => i)
      {
        var leg := route.legs[k];
        var legInfo := Leg(leg.arrivalPoint.commonName, leg.departurePoint.commonName, leg.instruction.summary,
                           leg.mode.name,
                           MapLink(leg.departurePoint.commonName, leg.arrivalPoint.commonName, leg.mode.name));
        assert NormaliseLegs(route.legs[..k + 1]) == NormaliseLegs(route.legs[..k]) + [legInfo];
        routeInfo := routeInfo[index := routeInfo[index].(legs := routeInfo[index].legs + [legInfo])];
        k := k + 1;
      }
      assert route.legs[..k] == route.legs;
      index := index + 1;
    }
  }

  /** `route_info.values()`: the records read along the dict's insertion
      order `order` (the keys as `Normalise` first inserted them). */
  function Values(routeInfo: map<nat, Route>, order: seq<nat>): (routes: seq<Route>)
    requires forall k :: 0 <= k < |order| ==> order[k] in routeInfo
    ensures |routes| == |order|
  {
    seq(|order|, k requires 0 <= k < |order| => routeInfo[order[k]])
  }

  /** Reading the map `Normalise` builds along the order it reports gives
      journey `i`'s record at position `i`, so `sorted` sees the routes in
      upstream order. */
  lemma NormalisedValues(journeys: seq<RawJourney>, routeInfo: map<nat, Route>, order: seq<nat>)
    requires forall index: nat :: index in routeInfo <==> index < |journeys|
    requires forall index :: 0 <= index < |journeys| ==> routeInfo[index] == NormaliseJourney(journeys[index])
    requires order == seq(|journeys|, i requires 0 <= i < |journeys| => i)
    ensures forall k :: 0 <= k < |order| ==> order[k] in routeInfo
    ensures |Values(routeInfo, order)| == |journeys|
    ensures forall i :: 0 <= i < |journeys| ==> Values(routeInfo, order)[i] == NormaliseJourney(journeys[i])
  {
  }
}
