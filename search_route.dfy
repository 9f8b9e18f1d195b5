/** The product-search proxy of `src/app/api/inventory/search/route.ts`:
    it checks the caller, then the query, then forwards the query to the
    external catalogue with the session's bearer token and relays the
    answer. The session lookups and the external call are inputs. */
module SearchRoute {
  import opened Wrappers
  import opened JsValues
  import opened Http

  /** The session the auth client returns; only its access token is used. */
  datatype Session = Session(accessToken: string)

  /** The call made to the external catalogue: `q` (before URI encoding),
      `limit` as text, and the bearer token. */
  datatype UpstreamRequest = UpstreamRequest(query: string, limit: string, bearerToken: string)

  /** How the external call ends: an answer with its status and its body
      parsed as JSON (None if it does not parse), or a thrown `fetch`. */
  datatype Upstream = Answered(status: int, body: Option<Json>) | Unreachable

  /** What one request did: the upstream call, if one was made, and the
      response. */
  datatype SearchOutcome = SearchOutcome(upstreamCall: Option<UpstreamRequest>, response: Response)

  const DefaultLimit := "50"

  /** `!q || q.trim().length === 0`. */
  predicate QueryMissing(q: Option<string>) {
    q.None? || q.value == "" || Trim(q.value) == ""
  }

  /** `GET /api/inventory/search?q=…&limit=…`. */
  function Search(hasUser: bool, session: Option<Session>, q: Option<string>, limit: Option<string>,
                  upstream: Upstream): (o: SearchOutcome)
    ensures !hasUser ==> o == SearchOutcome(None, Response(401, ErrorBody("Unauthorized")))
    ensures hasUser && QueryMissing(q) ==>
      o == SearchOutcome(None, Response(400, ErrorBody("Query parameter \"q\" is required")))
    ensures o.upstreamCall.Some? <==> hasUser && !QueryMissing(q) && session.Some?
    ensures o.upstreamCall.Some? ==>
      o.upstreamCall.value == UpstreamRequest(q.value, StrOr(limit, DefaultLimit), session.value.accessToken)
    ensures hasUser && !QueryMissing(q) && session.None? ==>
      o.response == Response(500, ErrorBody("Internal server error"))
    ensures o.upstreamCall.Some? && upstream.Answered? && !IsOk(upstream.status) && CarriesJson(upstream.status) ==>
      o.response == Response(upstream.status, ErrorBody("Failed to fetch products"))
    ensures o.upstreamCall.Some? && upstream.Answered? && !IsOk(upstream.status) && !CarriesJson(upstream.status) ==>
      o.response == Response(500, ErrorBody("Internal server error"))
    ensures o.upstreamCall.Some? && upstream.Answered? && IsOk(upstream.status) && upstream.body.Some? ==>
      o.response == Response(200, upstream.body.value)
    ensures o.upstreamCall.Some? && (upstream.Unreachable? || (IsOk(upstream.status) && upstream.body.None?)) ==>
      o.response == Response(500, ErrorBody("Internal server error"))
  {
    if !hasUser then SearchOutcome(None, Response(401, ErrorBody("Unauthorized")))
    else if QueryMissing(q) then SearchOutcome(None, Response(400, ErrorBody("Query parameter \"q\" is required")))
    else if session.None? then
      // `session.access_token` throws inside the try before `fetch` runs.
      SearchOutcome(None, Response(500, ErrorBody("Internal server error")))
    else
      var call := UpstreamRequest(q.value, StrOr(limit, DefaultLimit), session.value.accessToken);
      match upstream
      case Unreachable => SearchOutcome(Some(call), Response(500, ErrorBody("Internal server error")))
      case Answered(status, body) =>
        if !IsOk(status) then
          // Relaying a status `Response` refuses throws into the catch.
          if CarriesJson(status) then SearchOutcome(Some(call), Response(status, ErrorBody("Failed to fetch products")))
          else SearchOutcome(Some(call), Response(500, ErrorBody("Internal server error")))
        else if body.None? then SearchOutcome(Some(call), Response(500, ErrorBody("Internal server error")))
        else SearchOutcome(Some(call), Response(200, body.value))
  }

  // ---------------------------------------------------------------------
  // Properties

  /** The query is missing exactly when it is absent or has no character
      that `trim` keeps. */
  lemma QueryMissingIff(q: Option<string>)
    ensures QueryMissing(q) <==> q.None? || !HasVisibleChar(q.value)
  {
    if q.Some? {
      TrimEmptyIff(q.value);
    }
  }

  /** The upstream catalogue is called exactly for a signed-in caller with a
      session whose query has a visible character, and then with the
      caller's own token. */
  lemma CallsUpstreamIff(hasUser: bool, session: Option<Session>, q: Option<string>, limit: Option<string>,
                         upstream: Upstream)
    ensures Search(hasUser, session, q, limit, upstream).upstreamCall.Some? <==>
      hasUser && session.Some? && q.Some? && HasVisibleChar(q.value)
  {
    QueryMissingIff(q);
  }

  /** The caller check comes first: without a user even an empty query gets
      401, not 400. */
  lemma UnauthorizedBeforeBadQuery(session: Option<Session>, limit: Option<string>, upstream: Upstream)
    ensures Search(false, session, None, limit, upstream).response.status == 401
    ensures Search(false, session, Some("   "), limit, upstream).response.status == 401
    ensures Search(true, session, Some("   "), limit, upstream).response.status == 400
  {
    assert Trim("   ") == "";
  }

  /** An absent or empty `limit` becomes "50"; any other text is forwarded
      as it is. */
  lemma LimitDefault(token: string, q: string, l: string, upstream: Upstream)
    requires HasVisibleChar(q)
    ensures Search(true, Some(Session(token)), Some(q), None, upstream).upstreamCall.value.limit == "50"
    ensures Search(true, Some(Session(token)), Some(q), Some(""), upstream).upstreamCall.value.limit == "50"
    ensures l != "" ==> Search(true, Some(Session(token)), Some(q), Some(l), upstream).upstreamCall.value.limit == l
  {
    QueryMissingIff(Some(q));
  }

  /** Every response status is one of 401, 400, 500, 200 or a non-2xx
      status relayed from the catalogue that a JSON response can carry; so
      it always lies in 200-599 and is never 304. */
  lemma SearchStatuses(hasUser: bool, session: Option<Session>, q: Option<string>, limit: Option<string>,
                       upstream: Upstream)
    ensures var s := Search(hasUser, session, q, limit, upstream).response.status;
      s in {401, 400, 500, 200} || (upstream.Answered? && s == upstream.status && !IsOk(s) && CarriesJson(s))
    ensures var s := Search(hasUser, session, q, limit, upstream).response.status;
      200 <= s <= 599 && s != 304
  {
  }

  /** A catalogue answer of 304, or with a status outside 200-599, cannot be
      relayed and ends as 500; a 404 is relayed as it is. */
  lemma UnrelayableStatuses(token: string, q: string, body: Option<Json>)
    requires HasVisibleChar(q)
    ensures Search(true, Some(Session(token)), Some(q), None, Answered(304, body)).response.status == 500
    ensures Search(true, Some(Session(token)), Some(q), None, Answered(199, body)).response.status == 500
    ensures Search(true, Some(Session(token)), Some(q), None, Answered(600, body)).response.status == 500
    ensures Search(true, Some(Session(token)), Some(q), None, Answered(404, body)).response.status == 404
  {
    QueryMissingIff(Some(q));
  }
}
