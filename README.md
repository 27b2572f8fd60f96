# Movie reviews API: validators and review handlers

A model of the review API of a small serverless movie-review service.  Reviews
live in the `Reviews` table, keyed by (`movieId`, `reviewer`), with a local
secondary index `ReviewDateIndex` on `reviewDate`.  The model covers:

- the shared field validators of a review and the seeding batch builder
  (`Util`, from `shared/util.ts`), with the two date regular expressions
  modelled as anchored patterns of single-character atoms;
- the table (`Store`): a class `ReviewTable` holding `rows: map<Key, Item>`,
  whose get, delete and update calls may each fail; the three queries the
  handlers send, answered from a snapshot of the map in sort-key order
  (`Order` gives the string order the store sorts by);
- the five review handlers, one module each.  `DeleteReview.Handler` and
  `UpdateReview.Handler` are methods that change the table;
  `GetMovieReviews.Handler`, `GetReviewByReviewer.Handler` and
  `GetReviewsByYear.Handler` are functions of the event and a table snapshot.

Environment that the model takes as parameters:

- `parseInt` is an abstract `string -> Option<int>`; `None` stands for NaN.
- `JSON.parse` of the update body is an abstract parser that yields a value or
  a syntax error.
- A failing store call: every store call takes the error it fails with, if
  any, as an `Option<StoreError>` argument (`getFault`, `deleteFault`,
  `writeFault`, `fault`).  Ranging over every value, it stands for a call that
  may or may not fail.

Behaviour of the code that the model keeps, though a reader might expect
otherwise:

- The update handler has no existence check and no 404 answer.  Updating a
  missing key creates an item holding only the key and the text.
- Reading one movie's reviews has no year and no minimum-rating filter.  An empty
  partition answers 200 with `{ data: [] }`; the 404 branch is unreachable,
  because the service always returns an `Items` list.
- Reading by movie and reviewer answers 200 with an empty list when nothing is
  stored.  Its movieId is not checked to be a number.  A NaN key value makes the
  store client throw, so the answer is 500.
- `validateReviewer` accepts the empty name and every whitespace but ' '.
- No handler calls any validator.

## Model

| member | source | states |
|---|---|---|
| Util.ValidateMovieId | shared/util.ts:19-21 | a movie id is accepted iff it is strictly positive |
| Util.ValidateReviewer | shared/util.ts:23-26 | a name is accepted iff no position holds ' ' |
| Util.ValidateRating | shared/util.ts:28-30 | a rating is accepted iff it lies between 1 and 10, both inclusive |
| Util.ValidateReviewText | shared/util.ts:32-34 | a text is accepted iff it has at least 21 characters |
| Util.FullMatchPositions | shared/util.ts:36-43 | an anchored pattern of single-character atoms matches a string iff the lengths agree and every position matches its atom |
| Util.ValidateReviewDate | shared/util.ts:36-39 | a review date is accepted iff it has 10 characters, '-' at 4 and 7 and ASCII digits elsewhere; there is no calendar check |
| Util.ValidateYear | shared/util.ts:40-43 | a year is accepted iff it is exactly four ASCII digits |
| Util.DateBeginsWithYear | shared/util.ts:36-43 | the first four characters of an accepted date are an accepted year |
| Util.ValidateReview | shared/util.ts:46-52 | a review is accepted iff movieId > 0, the reviewer has no ' ', 1 <= rating <= 10, the text has more than 20 characters and the date has the YYYY-MM-DD shape |
| Util.ValidatorBoundaries | shared/util.ts:19-43 | 0 is no movieId; the empty name and "a\tb" (a tab) are reviewers while "a b" is not; ratings 1, 10 and 7.5 pass while 0.99 and 10.01 fail; 20 characters of text fail and 21 pass; "2099-99-99" passes; "20" is no year |
| Util.GenerateItem | shared/util.ts:5-11 | the put request wraps the marshalled entity |
| Util.GenerateBatch | shared/util.ts:5-17 | one put request per entity, in order, the i-th wrapping the marshalled i-th entity |
| Order.Ascending | lib/app-api.ts:94-100 | the reviewers of a partition in sort-key order: each exactly once, strictly ascending |
| Store.Partition | lib/app-api.ts:94-100 | a partition holds exactly the stored items with that movieId, strictly ascending by reviewer |
| Store.Query | lib/app-api.ts:94-106 | a query answers exactly the stored items its key condition selects, each once, in the order of the sort key it ranges over (reviewer, or reviewDate on the index) |
| Store.KeyQueryIsLookup | lambdas/getReviewByReviewer.ts:29-36 | a query on the full key answers the one stored item under it, or nothing |
| Store.WithReviewText | lambdas/updateReview.ts:38-46 | the key then holds the new text; its rating and date are kept, or absent for a new item; every other key is unchanged |
| Store.ReviewTable.constructor | lib/app-api.ts:94-100 | the table starts with the given rows, each stored under its own key |
| Store.ReviewTable.Get | lambdas/deleteReview.ts:22-27 | the get fails exactly when given a fault, with that error; otherwise it finds an item iff the key is stored, and finds the stored item |
| Store.ReviewTable.Delete | lambdas/deleteReview.ts:38-43 | without a fault the delete removes exactly the key (a missing key is no error); with one it fails with that error and changes nothing |
| Store.ReviewTable.SetReviewText | lambdas/updateReview.ts:38-48 | without a fault the update sets the text as WithReviewText says; with one it fails with that error and changes nothing |
| DeleteReview.RequestKey | lambdas/deleteReview.ts:11-20 | the request names a key iff both parameters are present and non-empty and the movieId parses to a non-zero number |
| DeleteReview.DeleteEffect | lambdas/deleteReview.ts:22-48 | a stored key is removed with 200, a missing one answers 404; no other entry changes |
| DeleteReview.Handler | lambdas/deleteReview.ts:8-56 | no key: 400 and the table unchanged; a failing get: 500 with its message, table unchanged; a missing key: 404, table unchanged; a stored key whose delete fails: 500 with its message, table unchanged; otherwise 200 with exactly the key removed |
| DeleteReview.DeleteTwice | lambdas/deleteReview.ts:22-55 | after a successful delete exactly the key is gone, and the same request answers 404 unless its get fails, which answers 500 with that get's message |
| UpdateReview.Decide | lambdas/updateReview.ts:11-62 | a write happens iff the path parameters are present, the movieId is neither 0 nor NaN, the body parses to a truthy value and its reviewText is non-empty; once both path parameters are present, a malformed body answers 500 with the parser's message, before the movieId is checked; all else is 400 |
| UpdateReview.Handler | lambdas/updateReview.ts:7-63 | a rejected request leaves the table unchanged; a well-formed one answers 200 after writing only reviewText of that key whenever the update call succeeds, and 500 with the call's message and the table unchanged when it fails; never 404 |
| GetMovieReviews.Handler | lambdas/getMovieReviews.ts:8-76 | 400 iff the movieId is missing or NaN (0 passes); 500 iff the query fails; never 404; 200 carries exactly the movie's reviews in reviewer order |
| GetMovieReviews.NoReviewsIsEmptyData | lambdas/getMovieReviews.ts:45-64 | a movie without reviews answers 200 with `{ data: [] }` |
| GetReviewByReviewer.Handler | lambdas/getReviewByReviewer.ts:7-68 | 400 iff a parameter is missing; 500 iff the movieId is NaN or the query fails, its message being the NaN marshalling error's or the query error's (or 'An unknown error occurred' when that is empty); 200 carries the one stored review under the key, or an empty list |
| GetReviewByReviewer.AtMostOneReview | lambdas/getReviewByReviewer.ts:29-48 | a 200 answer holds at most one review, matching both movieId and reviewer |
| GetReviewsByYear.Handler | lambdas/getReviewsByYear.ts:7-40 | 400 iff movieId or year is missing; 500 with 'Internal Server Error' iff the movieId is NaN or the query fails; 200 carries exactly the movie's reviews whose date begins with the year, each once, in date order |
| GetReviewsByYear.ShortYearSelectsDecade | lambdas/getReviewsByYear.ts:8-25 | "20" fails the year validator, yet it selects a review dated 2023-05-01 |

## Left out

- lambdas/addReview.ts, lambdas/translate.ts and lambdas/deleteMovie.ts are not part of this model; nor are the infrastructure declarations in lib/, apart from the table's key and index.
- The authorizer, the creation of the store client, and all logging.
- Query pagination: every query answers its whole result, not a first page.
- The query in lambdas/getReviewsByYear.ts:18-25 names no index, while a condition on `reviewDate` needs `ReviewDateIndex`. The base table has no key attribute `reviewDate`, so the store rejects that key condition, and the code as written answers 500 'Internal Server Error' to every request that passes the 400 check. The model's 200 answer is that of the query with `IndexName: 'ReviewDateIndex'`, as the query evidently intends. No route in lib/app-api.ts reaches this handler.
- The order of index items with equal dates is left unspecified by the store. The model happens to keep them in reviewer order.
- JavaScript numbers are modelled as `real` in `Util.Review` and as `int` in table keys. NaN and the infinities are not among the validators' inputs. Key values outside the safe-integer range, which the store client also rejects, are not modelled.
- `parseInt` and `JSON.parse` are abstract; their grammars are not modelled.
- An update body whose `reviewText` is truthy but not a string is not modelled. The code would store that value as it is.
- Text lengths count characters (code points). JavaScript counts UTF-16 code units, so a text with characters outside the Basic Multilingual Plane can differ at the 20/21 boundary.
- The `stack` field of the 500 body in lambdas/getReviewByReviewer.ts:54-58 is not modelled.
- The `typeof` guards of the validators always hold, because the model's arguments are typed.
- Concurrent requests racing on one key are not modelled.
- Answered items are projected to the five attributes of `Store.Item`. Items written by lambdas/addReview.ts carry every attribute of the request body (`reviewId` among them), and the read handlers return items whole.
- Store.ReviewTable.Get, Store.Query and DeleteReview.DeleteTwice: reads are modelled as strongly consistent, so they always see the latest write. The code's get and query commands ask for no consistent read, and the store then serves eventually consistent reads. A get right after a successful delete can still find the item, and the repeated delete then answers 200.
