/** The representative lookup of the page: the address typed in, the
    officials found for it, the error shown instead, the loading flag and
    the address as the lookup service normalized it. One search turns the
    service's reply into either a list of officials or an error message. */
module Lookup {
  import opened Text
  import opened Records

  /** One address match of the lookup service. */
  datatype Candidate = Candidate(matchAddr: Option<string>, officials: Option<seq<Official>>)

  /** What the request produced: a rejection (the network failed, the body
      was not JSON, or its shape made a field access throw), carrying the
      thrown error's message; or a reply with its HTTP success flag, the
      service's error list and its candidate list. */
  datatype Response =
    | Thrown(message: string)
    | Received(ok: bool, errors: Option<seq<string>>, candidates: Option<seq<Candidate>>)

  /** The result of one search: the officials with the normalized address,
      or the message of the error that ended it. */
  datatype Outcome = Found(normalizedAddress: string, officials: seq<Official>) | Failed(message: string)

  const NotFoundMessage := "Could not find representatives for that address. Double-check it and try again."
  const NoRepsMessage := "No representatives found for this address."

  /** The reply is usable: HTTP success, no reported error, and a first
      candidate that carries an officials list (possibly empty). */
  predicate Usable(response: Response) {
    && response.Received?
    && response.ok
    && (response.errors.None? || |response.errors.value| == 0)
    && response.candidates.Some? && |response.candidates.value| > 0
    && response.candidates.value[0].officials.Some?
  }

  /** The checks of the request body, in order: the HTTP status first, then
      the service's errors, then the candidates; the normalized address is
      the first candidate's match when it is not empty, else `address`. */
  function Resolve(address: string, response: Response): (r: Outcome)
    ensures r.Found? <==> Usable(response)
    ensures r.Found? ==>
      && r.officials == response.candidates.value[0].officials.value
      && r.normalizedAddress == Truthy(response.candidates.value[0].matchAddr).GetOr(address)
    ensures response.Thrown? ==> r == Failed(response.message)
    ensures response.Received? && !response.ok ==> r == Failed(NotFoundMessage)
    ensures response.Received? && response.ok && response.errors.Some? && |response.errors.value| > 0 ==>
      r == Failed(response.errors.value[0])
    ensures r.Failed? && response.Received? && response.ok
            && (response.errors.None? || |response.errors.value| == 0)
            ==> r == Failed(NoRepsMessage)
  {
    match response
    case Thrown(message) => Failed(message)
    case Received(ok, errors, candidates) =>
      if !ok then Failed(NotFoundMessage)
      else if errors.Some? && |errors.value| > 0 then Failed(errors.value[0])
      else if candidates.None? || |candidates.value| == 0 || candidates.value[0].officials.None? then
        Failed(NoRepsMessage)
      else
        var first := candidates.value[0];
        Found(if Truthy(first.matchAddr).Some? then first.matchAddr.value else address, first.officials.value)
  }

  /** A failed HTTP status wins over whatever errors the body reports. */
  lemma StatusBeatsErrors(address: string, errors: seq<string>, candidates: Option<seq<Candidate>>)
    ensures Resolve(address, Received(false, Some(errors), candidates)) == Failed(NotFoundMessage)
  {
  }

  /** A first candidate with an empty officials list is a success with no
      officials, not a failure. */
  lemma EmptyOfficialsFound(address: string, matchAddr: Option<string>)
    ensures Resolve(address, Received(true, None, Some([Candidate(matchAddr, Some([]))]))).Found?
    ensures Resolve(address, Received(true, None, Some([Candidate(matchAddr, Some([]))]))).officials == []
  {
  }

  /** A successful search of a non-blank address always has a non-empty
      normalized address. */
  lemma NormalizedNotEmpty(address: string, response: Response)
    requires !Blank(address)
    ensures Resolve(address, response).Found? ==> Resolve(address, response).normalizedAddress != ""
  {
  }

  /** The state of the lookup. */
  class RepLookup {
    var address: string
    var reps: Option<seq<Official>>
    var error: Option<string>
    var loading: bool
    var normalizedAddress: Option<string>

    /** Between searches: nothing is loading, results and an error are never
        shown together, and a normalized address is shown exactly with the
        results. */
    ghost predicate Valid()
      reads this
    {
      && !loading
      && !(reps.Some? && error.Some?)
      && (reps.Some? <==> normalizedAddress.Some?)
    }

    constructor ()
      ensures Valid()
      ensures address == "" && reps == None && error == None && normalizedAddress == None
    {
      address := "";
      reps := None;
      error := None;
      loading := false;
      normalizedAddress := None;
    }

    /** The page shows `outcome`: the officials and the normalized address
        without an error, or the error message without either. */
    ghost predicate Shows(outcome: Outcome)
      reads this
    {
      match outcome
      case Found(n, os) => reps == Some(os) && normalizedAddress == Some(n) && error == None
      case Failed(m) => error == Some(m) && reps == None && normalizedAddress == None
    }

    /** Typing in the address field. */
    method SetAddress(a: string)
      requires Valid()
      modifies this
      ensures Valid()
      ensures address == a
      ensures reps == old(reps) && error == old(error) && loading == old(loading)
      ensures normalizedAddress == old(normalizedAddress)
    {
      address := a;
    }

    /** `fetchReps`, with the reply of the request as its input. A blank
        address does nothing; otherwise loading is set and the error
        cleared, the reply is checked step by step, a failure at any step
        shows its message and clears the results and the normalized
        address, and loading ends. */
    method FetchReps(response: Response)
      requires Valid()
      modifies this
      ensures Valid()
      ensures address == old(address)
      ensures Blank(address) ==>
        reps == old(reps) && error == old(error) && normalizedAddress == old(normalizedAddress)
      ensures !Blank(address) ==> Shows(Resolve(address, response))
    {
      // `!address.trim()`, which holds exactly for blank addresses (TrimEmptyIffBlank)
      if Blank(address) {
        return;
      }
      loading := true;
      error := None;

      ghost var outcome := Resolve(address, response);
      var failure: Option<string> := None;
      match response {
        case Thrown(message) =>
          failure := Some(message);
        case Received(ok, errors, candidates) =>
          if !ok {
            failure := Some(NotFoundMessage);
          } else if errors.Some? && |errors.value| > 0 {
            failure := Some(errors.value[0]);
          } else if candidates.None? || |candidates.value| == 0 || candidates.value[0].officials.None? {
            failure := Some(NoRepsMessage);
          } else {
            var first := candidates.value[0];
            if first.matchAddr.Some? && first.matchAddr.value != "" {
              normalizedAddress := first.matchAddr;
            } else {
              normalizedAddress := Some(address);
            }
            reps := first.officials;
          }
      }
      assert failure.Some? <==> outcome.Failed?;
      if failure.Some? {
        error := failure;
        reps := None;
        normalizedAddress := None;
      }
      loading := false;
    }
  }
}
