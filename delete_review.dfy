/**
 * DELETE /movies/{movieId}/reviews/{reviewer}: checks the two path parameters,
 * looks the review up, answers 404 when it is missing and deletes it otherwise.
 * Any failing store call answers 500 with the error's message.
 */
module DeleteReview {
  import opened Wrappers
  import opened Store
  import opened Api

  const MissingParameters := Response(400, false, Message("Missing movieId or reviewer in path parameters"))
  const NotFound := Response(404, false, Message("Review not found"))
  const Deleted := Response(200, false, Message("Review deleted successfully"))

  function ServerError(error: StoreError): Response {
    Response(500, false, ErrorMessage(error.message))
  }

  /**
   * The key the request names, or `None` when the handler answers 400: the
   * movieId is parsed only when present and non-empty, and a movieId of 0 or NaN
   * is rejected as falsy, as is an empty or missing reviewer.
   */
  function RequestKey(event: Event, parseInt: IntParser): (key: Option<Key>)
    ensures key.Some? <==>
      && Truthy(MovieIdParam(event))
      && Truthy(ReviewerParam(event))
      && parseInt(MovieIdParam(event).value).Some?
      && parseInt(MovieIdParam(event).value).value != 0
    ensures key.Some? ==>
      && key.value.0 == parseInt(MovieIdParam(event).value).value
      && key.value.1 == ReviewerParam(event).value
      && key.value.0 != 0 && key.value.1 != ""
  {
    var movieId := if Truthy(MovieIdParam(event)) then parseInt(MovieIdParam(event).value) else None;
    var reviewer := ReviewerParam(event);
    if Falsy(movieId) || !Truthy(reviewer) then None
    else Some((movieId.value, reviewer.value))
  }

  /** The response and the new table when both store calls succeed. */
  function DeleteEffect(rows: map<Key, Item>, key: Key): (result: (Response, map<Key, Item>))
    ensures result.0.statusCode == 200 <==> key in rows
    ensures result.0.statusCode == 404 <==> key !in rows
    ensures key !in result.1
    ensures result.1.Keys == rows.Keys - {key}
    ensures forall k :: k in result.1 ==> result.1[k] == rows[k]
  {
    if key in rows then (Deleted, rows - {key}) else (NotFound, rows)
  }

  /**
   * `getFault` and `deleteFault` are the errors the two store calls fail with,
   * if they fail; the delete is only issued once the get has found the item.
   */
  method Handler(table: ReviewTable, event: Event, parseInt: IntParser,
                 getFault: Option<StoreError>, deleteFault: Option<StoreError>)
    returns (response: Response)
    requires table.Valid()
    modifies table
    ensures table.Valid()
    ensures RequestKey(event, parseInt).None? ==>
      response == MissingParameters && table.rows == old(table.rows)
    ensures RequestKey(event, parseInt).Some? && getFault.Some? ==>
      response == ServerError(getFault.value) && table.rows == old(table.rows)
    ensures (&& RequestKey(event, parseInt).Some? && getFault.None?
             && RequestKey(event, parseInt).value in old(table.rows) && deleteFault.Some?) ==>
      response == ServerError(deleteFault.value) && table.rows == old(table.rows)
    ensures (&& RequestKey(event, parseInt).Some? && getFault.None?
             && (RequestKey(event, parseInt).value !in old(table.rows) || deleteFault.None?)) ==>
      (response, table.rows) == DeleteEffect(old(table.rows), RequestKey(event, parseInt).value)
  {
    var key := RequestKey(event, parseInt);
    if key.None? {
      return MissingParameters;
    }
    var found := table.Get(key.value, getFault);
    if found.Failed? {
      return ServerError(found.error);
    }
    if found.value.None? {
      return NotFound;
    }
    var deleted := table.Delete(key.value, deleteFault);
    if deleted.Failed? {
      return ServerError(deleted.error);
    }
    return Deleted;
  }

  /**
   * Deleting the same review twice: once the first succeeds, the second cannot.
   * The table's reads are strongly consistent here; the store's default
   * eventually consistent get may still see the deleted item.
   */
  method DeleteTwice(table: ReviewTable, event: Event, parseInt: IntParser,
                     faults: (Option<StoreError>, Option<StoreError>, Option<StoreError>, Option<StoreError>))
    returns (first: Response, second: Response)
    requires table.Valid()
    modifies table
    ensures table.Valid()
    ensures first == Deleted && faults.2.None? ==> second == NotFound
    ensures first == Deleted && faults.2.Some? ==> second == ServerError(faults.2.value)
    ensures first == Deleted ==>
      && RequestKey(event, parseInt).Some?
      && RequestKey(event, parseInt).value in old(table.rows)
      && table.rows == old(table.rows) - {RequestKey(event, parseInt).value}
  {
    first := Handler(table, event, parseInt, faults.0, faults.1);
    second := Handler(table, event, parseInt, faults.2, faults.3);
  }
}
