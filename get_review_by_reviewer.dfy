/**
 * GET /movies/{movieId}/reviews/{reviewer}: the review of one movie by one
 * reviewer, as a list.  Both parameters must be present; the movieId is not
 * checked to be a number, and a NaN key value makes the query itself fail.
 */
module GetReviewByReviewer {
  import opened Wrappers
  import opened Store
  import opened Api

  const MissingParameters := Response(400, false, Message("movieId and reviewer are required."))

  /**
   * The error the store client raises when a key value is NaN: the marshalling
   * of the request refuses special numeric values before anything is sent.
   */
  const NaNRejected := StoreError("Special numeric value NaN is not allowed")

  /** `{ error: 'Internal Server Error', message: error.message || 'An unknown error occurred' }`. */
  function ServerError(error: StoreError): Response {
    Response(500, false, InternalError(if error.message != "" then error.message else "An unknown error occurred"))
  }

  function Handler(event: Event, parseInt: IntParser, rows: map<Key, Item>, fault: Option<StoreError>)
    : (response: Response)
    requires Keyed(rows)
    ensures !response.jsonHeader
    ensures response.statusCode == 400 <==> !Truthy(MovieIdParam(event)) || !Truthy(ReviewerParam(event))
    ensures response.statusCode == 500 <==>
      response.statusCode != 400 && (parseInt(MovieIdParam(event).value).None? || fault.Some?)
    ensures response.statusCode == 500 ==> response.body.InternalError? && response.body.message != ""
    ensures response.statusCode == 500 ==>
      && Truthy(MovieIdParam(event))
      && response == ServerError(if parseInt(MovieIdParam(event).value).None? then NaNRejected else fault.value)
    ensures response.statusCode == 200 || response.statusCode == 400 || response.statusCode == 500
    ensures response.statusCode == 200 ==>
      && Truthy(MovieIdParam(event)) && Truthy(ReviewerParam(event))
      && parseInt(MovieIdParam(event).value).Some?
      && var key := (parseInt(MovieIdParam(event).value).value, ReviewerParam(event).value);
         response.body == ItemList(Some(if key in rows then [rows[key]] else []))
  {
    var movieId := MovieIdParam(event);
    var reviewer := ReviewerParam(event);
    if !Truthy(movieId) || !Truthy(reviewer) then MissingParameters
    else
      var parsed := parseInt(movieId.value);
      if parsed.None? then ServerError(NaNRejected)
      else if fault.Some? then ServerError(fault.value)
      else
        KeyQueryIsLookup(rows, parsed.value, reviewer.value);
        Response(200, false, ItemList(Query(rows, KeyIs(parsed.value, reviewer.value)).items))
  }

  /** At most one review comes back, and it is the one stored under the requested key. */
  lemma AtMostOneReview(event: Event, parseInt: IntParser, rows: map<Key, Item>, fault: Option<StoreError>)
    requires Keyed(rows)
    requires Handler(event, parseInt, rows, fault).statusCode == 200
    ensures var items := Handler(event, parseInt, rows, fault).body.items.value;
      && |items| <= 1
      && forall it :: it in items ==>
           it.movieId == parseInt(MovieIdParam(event).value).value && it.reviewer == ReviewerParam(event).value
  {
  }
}
