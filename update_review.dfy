/**
 * PUT /movies/{movieId}/reviews/{reviewer} with body `{ reviewText }`: checks
 * the path parameters, parses the body, checks the fields, then sets the one
 * attribute `reviewText` of the item under the key.  There is no existence
 * check: the update of a missing key creates an item holding only the key and
 * the text, and answers 200 like any other.
 */
module UpdateReview {
  import opened Wrappers
  import opened Store
  import opened Api

  /**
   * The value `JSON.parse` yields for the body, as far as the handler looks at it:
   * a falsy value (null, false, 0, ""), or a truthy one whose `reviewText`
   * property, when it has one, is a string.
   */
  datatype RequestBody = FalsyJson | JsonValue(reviewText: Option<string>)

  /** `JSON.parse` either yields a value or throws a syntax error. */
  datatype ParsedBody = Parsed(value: RequestBody) | SyntaxError(message: string)

  type JsonParser = string -> ParsedBody

  const MissingPathParameters := Response(400, false, Message("Missing required path parameters"))
  const MissingFields := Response(400, false, Message("Missing required fields"))
  const Updated := Response(200, false, Message("Review updated successfully"))

  /** Every error the handler catches, the JSON syntax error among them. */
  function Failure(message: string): Response {
    Response(500, false, FailureMessage("Failed to update the review", message))
  }

  /** What the checks before the write decide: answer at once, or write `reviewText` under `key`. */
  datatype Decision = Reject(response: Response) | Write(key: Key, reviewText: string)

  /** A request the checks let through to the write. */
  predicate WellFormed(event: Event, parseInt: IntParser, parseJson: JsonParser) {
    && Truthy(MovieIdParam(event))
    && Truthy(ReviewerParam(event))
    && !Falsy(parseInt(MovieIdParam(event).value))
    && Truthy(event.body)
    && parseJson(event.body.value).Parsed?
    && parseJson(event.body.value).value.JsonValue?
    && Truthy(parseJson(event.body.value).value.reviewText)
  }

  /** The checks, in the handler's order. */
  function Decide(event: Event, parseInt: IntParser, parseJson: JsonParser): (d: Decision)
    ensures d.Write? <==> WellFormed(event, parseInt, parseJson)
    ensures d.Write? ==>
      && d.key == (parseInt(MovieIdParam(event).value).value, ReviewerParam(event).value)
      && d.reviewText == parseJson(event.body.value).value.reviewText.value
      && d.key.0 != 0 && d.key.1 != "" && d.reviewText != ""
    ensures d.Reject? ==> d.response.statusCode == 400 || d.response.statusCode == 500
    ensures d.Reject? && d.response.statusCode == 500 ==>
      Truthy(event.body) && parseJson(event.body.value).SyntaxError?
    ensures !Truthy(MovieIdParam(event)) || !Truthy(ReviewerParam(event)) ==>
      d == Reject(MissingPathParameters)
    ensures (&& Truthy(MovieIdParam(event)) && Truthy(ReviewerParam(event))
             && Truthy(event.body) && parseJson(event.body.value).SyntaxError?) ==>
      d == Reject(Failure(parseJson(event.body.value).message))
  {
    if !Truthy(MovieIdParam(event)) || !Truthy(ReviewerParam(event)) then
      Reject(MissingPathParameters)
    else
      var movieId := parseInt(MovieIdParam(event).value);
      var reviewer := ReviewerParam(event).value;
      // The body is parsed before the fields are checked, so a malformed body
      // answers 500 even when the movieId is falsy.
      if Truthy(event.body) && parseJson(event.body.value).SyntaxError? then
        Reject(Failure(parseJson(event.body.value).message))
      else
        var requestBody := if Truthy(event.body) then Some(parseJson(event.body.value).value) else None;
        // The handler's `!reviewer` test is left out here: the reviewer is
        // known to be non-empty at this point.
        if Falsy(movieId) || requestBody.None? || requestBody.value.FalsyJson?
           || !Truthy(requestBody.value.reviewText) then
          Reject(MissingFields)
        else
          Write((movieId.value, reviewer), requestBody.value.reviewText.value)
  }

  /** `writeFault` is the error the update call fails with, if it fails. */
  method Handler(table: ReviewTable, event: Event, parseInt: IntParser, parseJson: JsonParser,
                 writeFault: Option<StoreError>)
    returns (response: Response)
    requires table.Valid()
    modifies table
    ensures table.Valid()
    ensures Decide(event, parseInt, parseJson).Reject? ==>
      response == Decide(event, parseInt, parseJson).response && table.rows == old(table.rows)
    ensures Decide(event, parseInt, parseJson).Write? && writeFault.None? ==>
      var d := Decide(event, parseInt, parseJson);
      response == Updated && table.rows == WithReviewText(old(table.rows), d.key, d.reviewText)
    ensures Decide(event, parseInt, parseJson).Write? && writeFault.Some? ==>
      response == Failure(writeFault.value.message) && table.rows == old(table.rows)
    ensures response.statusCode != 404
  {
    var d := Decide(event, parseInt, parseJson);
    if d.Reject? {
      return d.response;
    }
    var written := table.SetReviewText(d.key, d.reviewText, writeFault);
    if written.Failed? {
      return Failure(written.error.message);
    }
    return Updated;
  }
}
