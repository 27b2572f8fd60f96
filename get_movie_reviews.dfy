/**
 * GET /movies/{movieId}/reviews: every review of one movie.  The movieId must be
 * present and parse to a number (0 passes: only NaN is rejected); the answer is
 * the whole partition, in reviewer order, as `{ data: Items }`.  Every response
 * carries a JSON content-type header.
 */
module GetMovieReviews {
  import opened Wrappers
  import opened Store
  import opened Api

  const MissingMovieId := Response(400, true, Message("Missing movieId in path parameters"))
  const NotANumber := Response(400, true, Message("movieId must be a valid number"))
  const NoReviews := Response(404, true, Message("No reviews found for this movie"))

  /**
   * The handler over a snapshot of the table.  `fault` is the error the query
   * fails with, if it fails; the handler writes nothing.
   */
  function Handler(event: Event, parseInt: IntParser, rows: map<Key, Item>, fault: Option<StoreError>)
    : (response: Response)
    requires Keyed(rows)
    ensures response.jsonHeader
    ensures response.statusCode == 400 <==>
      !Truthy(MovieIdParam(event)) || parseInt(MovieIdParam(event).value).None?
    ensures response.statusCode == 500 <==> response.statusCode != 400 && fault.Some?
    ensures response.statusCode == 500 ==> response.body == ErrorObject(fault.value)
    ensures response.statusCode == 200 || response.statusCode == 400 || response.statusCode == 500
    ensures response.statusCode == 200 ==>
      && Truthy(MovieIdParam(event))
      && parseInt(MovieIdParam(event).value).Some?
      && response.body.Data?
      && (forall it :: it in response.body.data <==>
            it in rows.Values && it.movieId == parseInt(MovieIdParam(event).value).value)
      && ByReviewer(response.body.data)
  {
    if !Truthy(MovieIdParam(event)) then MissingMovieId
    else
      var movieId := parseInt(MovieIdParam(event).value);
      if movieId.None? then NotANumber
      else if fault.Some? then Response(500, true, ErrorObject(fault.value))
      else
        var output := Query(rows, PartitionIs(movieId.value));
        // The service always answers with an `Items` list, so this branch is not taken.
        if output.items.None? then NoReviews
        else Response(200, true, Data(output.items.value))
  }

  /** A movie without reviews is answered with 200 and an empty list, not with 404. */
  lemma NoReviewsIsEmptyData(event: Event, parseInt: IntParser, rows: map<Key, Item>, movieId: int)
    requires Keyed(rows)
    requires Truthy(MovieIdParam(event)) && parseInt(MovieIdParam(event).value) == Some(movieId)
    requires forall k :: k in rows ==> k.0 != movieId
    ensures Handler(event, parseInt, rows, None) == Response(200, true, Data([]))
  {
    var data := Handler(event, parseInt, rows, None).body.data;
    if data != [] {
      assert false;
    }
  }
}
