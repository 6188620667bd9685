/** Resolving a place name to coordinates by probing the geocoding endpoint
    with each candidate query in turn (services/weather.ts, `geocode`).
    The endpoint is an oracle: `respond(k, q)` is what the k-th request of
    the call, made for query `q`, yields once its JSON has been read. */
module Geocoding {
  import opened Wrappers
  import opened JsString
  import opened PlaceQuery

  datatype GeocodeResult = GeocodeResult(latitude: real, longitude: real, name: string)

  /** One request as `geocode` sees it: a non-ok status, an ok status whose
      body has no first result, an ok status with a first result, or a
      request whose promise rejects (the fetch itself, or reading the body). */
  datatype Response = NotOk | OkEmpty | OkHit(first: GeocodeResult) | Fails

  /** A response after which `geocode` goes on to the next query. */
  predicate Skipped(r: Response) {
    r.NotOk? || r.OkEmpty?
  }

  /** `RegionNotFound` is the error thrown once every probe was skipped;
      `RequestFailed` stands for a rejected promise that `geocode` lets
      propagate to its caller. */
  datatype GeocodeError = RegionNotFound(message: string) | RequestFailed

  const NotFoundMessage: string := "該当する地域が見つかりません"

  /** The queries `geocode` may send, in order: every candidate, then the
      caller's query exactly as given (not trimmed, not normalised). */
  function Plan(query: string): (plan: seq<string>)
    ensures 1 <= |plan| <= 8
    ensures plan[|plan| - 1] == query
    ensures forall i :: 0 <= i < |plan| - 1 ==> plan[i] != []
  {
    CandidatesBounded(query);
    Candidates(query) + [query]
  }

  /** The probing loop and the fallback of `geocode`: the candidates in
      order, request k for candidate k, stopping at the first response that
      is neither a non-ok status nor empty; then the fallback request. */
  method Probe(attempts: seq<string>, query: string, respond: (nat, string) -> Response)
    returns (outcome: Result<GeocodeResult, GeocodeError>, probed: seq<string>)
    ensures 1 <= |probed| <= |attempts| + 1 && probed == (attempts + [query])[..|probed|]
    ensures forall k :: 0 <= k < |probed| - 1 ==> Skipped(respond(k, probed[k]))
    ensures var last := respond(|probed| - 1, probed[|probed| - 1]);
      && (last.OkHit? <==> outcome.Ok?)
      && (last.OkHit? ==> outcome.value == last.first)
      && (last.Fails? <==> outcome == Err(RequestFailed))
      && (Skipped(last) <==> outcome == Err(RegionNotFound(NotFoundMessage)))
      && (Skipped(last) ==> |probed| == |attempts| + 1)
  {
    ghost var plan := attempts + [query];
    probed := [];
    var i := 0;
    while i < |attempts|
      invariant 0 <= i <= |attempts|
      invariant probed == attempts[..i]
      invariant forall k :: 0 <= k < i ==> Skipped(respond(k, probed[k]))
    {
      var q := attempts[i];
      var res := respond(i, q);
      probed := probed + [q];
      if res.Fails? {
        assert probed == plan[..i + 1];
        return Err(RequestFailed), probed;
      } else if res.OkHit? {
        assert probed == plan[..i + 1];
        return Ok(res.first), probed;
      }
      i := i + 1;
    }
    var fallback := respond(|attempts|, query);
    probed := probed + [query];
    assert probed == plan[..|plan|];
    match fallback
    case OkHit(first) =>
      outcome := Ok(first);
    case Fails =>
      outcome := Err(RequestFailed);
    case _ =>
      outcome := Err(RegionNotFound(NotFoundMessage));
  }

  /** `geocode`. */
  method Geocode(query: string, respond: (nat, string) -> Response)
    returns (outcome: Result<GeocodeResult, GeocodeError>, probed: seq<string>)
    ensures 1 <= |probed| <= |Plan(query)| && probed == Plan(query)[..|probed|]
    ensures forall k :: 0 <= k < |probed| - 1 ==> Skipped(respond(k, probed[k]))
    ensures var last := respond(|probed| - 1, probed[|probed| - 1]);
      && (last.OkHit? <==> outcome.Ok?)
      && (last.OkHit? ==> outcome.value == last.first)
      && (last.Fails? <==> outcome == Err(RequestFailed))
      && (Skipped(last) <==> outcome == Err(RegionNotFound(NotFoundMessage)))
      && (Skipped(last) ==> |probed| == |Plan(query)|)
  {
    var attempts := BuildCandidates(query);
    outcome, probed := Probe(attempts, query, respond);
  }

  /** A blank query has no candidates: the only request is the fallback
      with the query as typed. */
  lemma BlankQueryProbesOnlyFallback(query: string)
    requires Words(query) == []
    ensures Plan(query) == [query]
  {
    CandidatesOfOneWord(query);
  }

  /** With a prefecture and a city, the first request is for "city pref". */
  lemma FirstProbeIsCityThenPrefecture(query: string)
    requires |Words(query)| >= 2
    ensures Plan(query)[0] == Join(Words(query)[1..], " ") + " " + Words(query)[0]
  {
    CandidatesOfSeveralWords(query);
  }

  /** A query typed as one word without whitespace is its own first
      candidate, so when nothing hits, the fallback sends it a second time. */
  lemma OneWordQueryIsProbedTwice(query: string)
    requires query != [] && NoSpace(query)
    ensures Plan(query) == [query, query] || Plan(query) == [query, StripSuffix(query), query]
  {
    WordsOfJoin([query]);
    CandidatesOfOneWord(query);
  }
}
