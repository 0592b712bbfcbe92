/** Choosing the ICS codes of origin and destination from the upstream
    disambiguation lists (main.py, lines 44-55 and 107-109). */
module Disambiguation {
  import opened Wrappers
  import opened Upstream

  /** The message of the error body returned when either side has no code. */
  const ErrorMessage: string := "Try modifying the origin or destination"

  /** The parameters of the second upstream lookup. */
  datatype Query = Query(origin: string, destination: string)

  predicate HasIcsCode(o: DisambiguationOption) {
    o.place.icsCode.Some?
  }

  /** The list comprehension that keeps the ICS code of every option whose
      place carries one, in order. */
  function IcsCodes(options: seq<DisambiguationOption>): (codes: seq<string>)
    ensures |codes| <= |options|
  {
    if options == [] then []
    else
      var last := options[|options| - 1];
      IcsCodes(options[..|options| - 1]) + (if HasIcsCode(last) then [last.place.icsCode.value] else [])
  }

  /** The positions of the options that carry a code, in increasing order. */
  ghost function CodeIndices(options: seq<DisambiguationOption>): seq<nat>
  {
    if options == [] then []
    else
      CodeIndices(options[..|options| - 1]) + (if HasIcsCode(options[|options| - 1]) then [|options| - 1] else [])
  }

  /** The filtered codes are exactly the codes of the options that carry one,
      in their original order: each code comes from the option at the matching
      increasing position, and no option with a code is skipped. */
  lemma {:induction false} IcsCodesIsSubsequence(options: seq<DisambiguationOption>)
    ensures |CodeIndices(options)| == |IcsCodes(options)|
    ensures forall j :: 0 <= j < |CodeIndices(options)| ==>
      CodeIndices(options)[j] < |options| && HasIcsCode(options[CodeIndices(options)[j]])
      && IcsCodes(options)[j] == options[CodeIndices(options)[j]].place.icsCode.value
    ensures forall j, k :: 0 <= j < k < |CodeIndices(options)| ==> CodeIndices(options)[j] < CodeIndices(options)[k]
    ensures forall i :: 0 <= i < |options| && HasIcsCode(options[i]) ==> i in CodeIndices(options)
  {
    if options != [] {
      var init := options[..|options| - 1];
      IcsCodesIsSubsequence(init);
      assert forall i :: 0 <= i < |init| ==> init[i] == options[i];
    }
  }

  /** The filtered list is empty exactly when no option carries a code. */
  lemma {:induction false} IcsCodesEmpty(options: seq<DisambiguationOption>)
    ensures IcsCodes(options) == [] <==> forall i :: 0 <= i < |options| ==> !HasIcsCode(options[i])
  {
    IcsCodesIsSubsequence(options);
    if IcsCodes(options) != [] {
      assert HasIcsCode(options[CodeIndices(options)[0]]);
    }
  }

  /** Element 0 of a non-empty filtered list is the code of the first option
      that carries one. */
  lemma {:induction false} FirstIcsCode(options: seq<DisambiguationOption>)
    requires IcsCodes(options) != []
    ensures exists k ::
      && 0 <= k < |options| && HasIcsCode(options[k])
      && (forall i :: 0 <= i < k ==> !HasIcsCode(options[i]))
      && IcsCodes(options)[0] == options[k].place.icsCode.value
  {
    IcsCodesIsSubsequence(options);
    var idx := CodeIndices(options);
    var k := idx[0];
    assert HasIcsCode(options[k]);
  }

  /** `if origin_icsCode and dest_icsCode`: both first codes, or the error message. */
  function Resolve(lookup: LookupResponse): (r: Result<Query, string>)
  {
    var origins := IcsCodes(lookup.fromLocationDisambiguation.disambiguationOptions);
    var destinations := IcsCodes(lookup.toLocationDisambiguation.disambiguationOptions);
    if origins != [] && destinations != [] then Ok(Query(origins[0], destinations[0]))
    else Err(ErrorMessage)
  }

  /** The first option on a side that carries a code = `code`. */
  ghost predicate FirstCodeIs(options: seq<DisambiguationOption>, code: string) {
    exists k ::
      && 0 <= k < |options| && HasIcsCode(options[k])
      && (forall i :: 0 <= i < k ==> !HasIcsCode(options[i]))
      && options[k].place.icsCode.value == code
  }

  ghost predicate SomeCode(options: seq<DisambiguationOption>) {
    exists i :: 0 <= i < |options| && HasIcsCode(options[i])
  }

  /** Resolution succeeds exactly when both sides have an option with a code,
      and then picks the first such option on each side; otherwise the result
      is the fixed error message. */
  lemma ResolveCorrect(lookup: LookupResponse)
    ensures Resolve(lookup).Ok? <==>
      SomeCode(lookup.fromLocationDisambiguation.disambiguationOptions)
      && SomeCode(lookup.toLocationDisambiguation.disambiguationOptions)
    ensures Resolve(lookup).Err? ==> Resolve(lookup).error == ErrorMessage
    ensures Resolve(lookup).Ok? ==>
      FirstCodeIs(lookup.fromLocationDisambiguation.disambiguationOptions, Resolve(lookup).value.origin)
      && FirstCodeIs(lookup.toLocationDisambiguation.disambiguationOptions, Resolve(lookup).value.destination)
  {
    var from := lookup.fromLocationDisambiguation.disambiguationOptions;
    var to := lookup.toLocationDisambiguation.disambiguationOptions;
    IcsCodesEmpty(from);
    IcsCodesEmpty(to);
    if Resolve(lookup).Ok? {
      FirstIcsCode(from);
      FirstIcsCode(to);
    }
  }
}
