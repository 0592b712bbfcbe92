/** The two upstream journey-planner payloads, as the fields the endpoint reads
    from them.  Every key the endpoint indexes is present; only `icsCode`, which
    the endpoint tests for with `in`, is optional. */
module Upstream {
  import opened Wrappers

  datatype Place = Place(icsCode: Option<string>)

  datatype DisambiguationOption = DisambiguationOption(place: Place)

  datatype Disambiguation = Disambiguation(disambiguationOptions: seq<DisambiguationOption>)

  /** The first response: candidate matches for the free-text origin and destination. */
  datatype LookupResponse = LookupResponse(
    fromLocationDisambiguation: Disambiguation,
    toLocationDisambiguation: Disambiguation)

  datatype Point = Point(commonName: string)

  datatype Instruction = Instruction(summary: string)

  datatype Mode = Mode(name: string)

  datatype RawLeg = RawLeg(
    departurePoint: Point,
    arrivalPoint: Point,
    instruction: Instruction,
    mode: Mode)

  /** One journey of the second response; `duration` is in whole minutes. */
  datatype RawJourney = RawJourney(
    startDateTime: string,
    arrivalDateTime: string,
    duration: int,
    alternativeRoute: bool,
    legs: seq<RawLeg>)

  /** The second response, asked for with the two chosen ICS codes. */
  datatype JourneyResponse = JourneyResponse(journeys: seq<RawJourney>)
}
