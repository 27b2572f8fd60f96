/**
 * The request and response shapes shared by the handlers: the gateway event
 * (path parameters and raw body) and the response (status code, body, and
 * whether a JSON content-type header is set).
 */
module Api {
  import opened Wrappers
  import opened Store

  /** Path parameters; a route that does not declare one leaves it undefined. */
  datatype PathParameters = PathParameters(
    movieId: Option<string>,
    reviewer: Option<string>,
    year: Option<string>)

  /** The gateway event; `pathParameters` and `body` may be missing altogether. */
  datatype Event = Event(pathParameters: Option<PathParameters>, body: Option<string>)

  /** `event.pathParameters?.movieId`, and likewise for the other two. */
  function MovieIdParam(event: Event): Option<string> {
    if event.pathParameters.Some? then event.pathParameters.value.movieId else None
  }

  function ReviewerParam(event: Event): Option<string> {
    if event.pathParameters.Some? then event.pathParameters.value.reviewer else None
  }

  function YearParam(event: Event): Option<string> {
    if event.pathParameters.Some? then event.pathParameters.value.year else None
  }

  /** JavaScript truthiness of a possibly undefined string: defined and not "". */
  predicate Truthy(s: Option<string>) {
    s.Some? && s.value != ""
  }

  /**
   * `parseInt` on a string, kept abstract: `None` stands for NaN, `Some(n)` for
   * the integer it reads.
   */
  type IntParser = string -> Option<int>

  /** JavaScript falsiness of a number that may be NaN or undefined (`None`): NaN, undefined or 0. */
  predicate Falsy(n: Option<int>) {
    n.None? || n.value == 0
  }

  /** The JSON response bodies the handlers produce. */
  datatype Body =
    | Message(message: string)                        // { message }
    | FailureMessage(message: string, error: string)  // { message, error: error.message }
    | ErrorMessage(error: string)                     // { error: error.message }
    | ErrorObject(thrown: StoreError)                 // { error }: the whole error object
    | InternalError(message: string)                  // { error: 'Internal Server Error', message, stack }
    | Data(data: seq<Item>)                           // { data: Items }
    | ItemList(items: Option<seq<Item>>)              // Items itself, undefined when absent

  datatype Response = Response(statusCode: int, jsonHeader: bool, body: Body)
}
