/**
 * The reviews of one movie written in a given year: the partition of the movie,
 * restricted to the items whose `reviewDate` begins with the `year` parameter.
 * The year is used as it comes, never checked with `validateYear`, so any prefix
 * of a date selects.
 *
 * A condition on `reviewDate` needs the `ReviewDateIndex` index, which the
 * handler's query does not name; the model answers what the query evidently
 * asks for, from that index, in date order.
 */
module GetReviewsByYear {
  import opened Wrappers
  import opened Store
  import opened Api
  import Util

  const MissingParameters := Response(400, false, Message("movieId and year are required."))
  const InternalServerError := Response(500, false, Message("Internal Server Error"))

  function Handler(event: Event, parseInt: IntParser, rows: map<Key, Item>, fault: Option<StoreError>)
    : (response: Response)
    requires Keyed(rows)
    ensures response.statusCode == 400 <==> !Truthy(MovieIdParam(event)) || !Truthy(YearParam(event))
    ensures response.statusCode == 500 <==>
      response.statusCode != 400 && (parseInt(MovieIdParam(event).value).None? || fault.Some?)
    ensures response.statusCode == 500 ==> response == InternalServerError
    ensures response.statusCode == 200 || response.statusCode == 400 || response.statusCode == 500
    ensures response.statusCode == 200 ==>
      && Truthy(MovieIdParam(event)) && Truthy(YearParam(event))
      && parseInt(MovieIdParam(event).value).Some?
      && response.body.ItemList? && response.body.items.Some?
      && (forall it :: it in response.body.items.value <==>
            && it in rows.Values
            && it.movieId == parseInt(MovieIdParam(event).value).value
            && HasDatePrefix(it, YearParam(event).value))
      && DistinctKeys(response.body.items.value)
      && ByDate(response.body.items.value)
  {
    var movieId := MovieIdParam(event);
    var year := YearParam(event);
    if !Truthy(movieId) || !Truthy(year) then MissingParameters
    else
      var parsed := parseInt(movieId.value);
      // A NaN movieId makes the store client throw, like a failing call.
      if parsed.None? || fault.Some? then InternalServerError
      else Response(200, false, ItemList(Query(rows, DatePrefix(parsed.value, year.value)).items))
  }

  /** A two-digit "year" such as "20" is no year, yet it selects a review of 2023. */
  lemma ShortYearSelectsDecade(event: Event, parseInt: IntParser, rows: map<Key, Item>, item: Item)
    requires Keyed(rows) && item in rows.Values
    requires item.reviewDate == Some("2023-05-01")
    requires MovieIdParam(event) == Some("1") && parseInt("1") == Some(item.movieId)
    requires YearParam(event) == Some("20")
    ensures !Util.ValidateYear("20")
    ensures item in Handler(event, parseInt, rows, None).body.items.value
  {
    assert "2023-05-01"[..2] == "20";
  }
}
