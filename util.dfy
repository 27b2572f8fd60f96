/**
 * The shared helpers of the review API: the field validators of a review and
 * the batch builder used to seed the tables.
 *
 * JavaScript `number` fields are modelled as `real` (the validators compare them
 * and nothing more), strings as `seq<char>`.  The `typeof` guards of the
 * validators always hold in the model, whose arguments are typed.
 */
module Util {

  /** A review as the API exchanges it. */
  datatype Review = Review(
    movieId: real,
    reviewer: string,
    rating: real,
    reviewText: string,
    reviewDate: string)

  // ---------------------------------------------------------------------------
  // Single-field validators

  /** Only a strictly positive movie id passes; 0 and every negative id fail. */
  function ValidateMovieId(movieId: real): (ok: bool)
    ensures ok <==> movieId > 0.0
  {
    movieId > 0.0
  }

  /** A reviewer name may hold any character but the space ' ' (tabs and the empty name pass). */
  function ValidateReviewer(reviewer: string): (ok: bool)
    ensures ok <==> forall i :: 0 <= i < |reviewer| ==> reviewer[i] != ' '
  {
    ' ' !in reviewer
  }

  /** Both bounds inclusive; a fractional rating such as 7.5 passes. */
  function ValidateRating(rating: real): (ok: bool)
    ensures ok <==> 1.0 <= rating <= 10.0
  {
    rating >= 1.0 && rating <= 10.0
  }

  /** A text of 20 characters is still too short; 21 is the least accepted length. */
  function ValidateReviewText(reviewText: string): (ok: bool)
    ensures ok <==> |reviewText| >= 21
  {
    |reviewText| > 20
  }

  // ---------------------------------------------------------------------------
  // The two regular expressions, /^\d{4}-\d{2}-\d{2}$/ and /^\d{4}$/.
  // Both are anchored at both ends and made of single-character atoms, so a
  // match is a position-by-position comparison of the string with the pattern.
  // Without the `u` flag, `\d` is exactly the ASCII digits '0'..'9'.

  datatype Atom = Digit | Literal(c: char)

  predicate IsDigit(c: char) {
    '0' <= c <= '9'
  }

  predicate AtomMatches(a: Atom, c: char) {
    match a
    case Digit => IsDigit(c)
    case Literal(x) => c == x
  }

  /** The atom `a` repeated `n` times: `a{n}`. */
  function Repeat(a: Atom, n: nat): (p: seq<Atom>)
    ensures |p| == n
    ensures forall i :: 0 <= i < n ==> p[i] == a
  {
    if n == 0 then [] else [a] + Repeat(a, n - 1)
  }

  /** `^p$` matches all of `s`. */
  predicate FullMatch(p: seq<Atom>, s: string)
    decreases |p|
  {
    if p == [] then s == []
    else s != [] && AtomMatches(p[0], s[0]) && FullMatch(p[1..], s[1..])
  }

  lemma {:induction false} FullMatchPositions(p: seq<Atom>, s: string)
    ensures FullMatch(p, s) <==> |s| == |p| && forall i :: 0 <= i < |s| ==> AtomMatches(p[i], s[i])
    decreases |p|
  {
    if p != [] && s != [] {
      FullMatchPositions(p[1..], s[1..]);
      if |s| == |p| && forall i :: 0 <= i < |s| ==> AtomMatches(p[i], s[i]) {
        assert forall i :: 0 <= i < |s| - 1 ==> AtomMatches(p[1..][i], s[1..][i]) by {
          forall i | 0 <= i < |s| - 1
            ensures AtomMatches(p[1..][i], s[1..][i])
          {
            assert p[1..][i] == p[i + 1] && s[1..][i] == s[i + 1];
          }
        }
      }
    }
  }

  const DatePattern: seq<Atom> :=
    Repeat(Digit, 4) + [Literal('-')] + Repeat(Digit, 2) + [Literal('-')] + Repeat(Digit, 2)

  const YearPattern: seq<Atom> := Repeat(Digit, 4)

  /** A review date has the YYYY-MM-DD shape with any digits. */
  function ValidateReviewDate(reviewDate: string): (ok: bool)
    ensures ok <==> DateShaped(reviewDate)
  {
    ReviewDateShape(reviewDate);
    FullMatch(DatePattern, reviewDate)
  }

  /** A year is exactly four ASCII digits. */
  function ValidateYear(year: string): (ok: bool)
    ensures ok <==> |year| == 4 && forall i :: 0 <= i < 4 ==> IsDigit(year[i])
  {
    YearShape(year);
    FullMatch(YearPattern, year)
  }

  /** YYYY-MM-DD with any digits: there is no calendar check. */
  predicate DateShaped(s: string) {
    && |s| == 10
    && s[4] == '-' && s[7] == '-'
    && forall i :: 0 <= i < 10 && i != 4 && i != 7 ==> IsDigit(s[i])
  }

  lemma ReviewDateShape(s: string)
    ensures FullMatch(DatePattern, s) <==> DateShaped(s)
  {
    var p := DatePattern;
    FullMatchPositions(p, s);
    assert |p| == 10;
    assert forall i :: 0 <= i < 10 ==> p[i] == (if i == 4 || i == 7 then Literal('-') else Digit);
  }

  lemma YearShape(s: string)
    ensures FullMatch(YearPattern, s) <==> |s| == 4 && forall i :: 0 <= i < 4 ==> IsDigit(s[i])
  {
    FullMatchPositions(YearPattern, s);
  }

  /** The first four characters of an accepted review date are an accepted year. */
  lemma DateBeginsWithYear(s: string)
    requires ValidateReviewDate(s)
    ensures |s| == 10 && ValidateYear(s[..4])
  {
    assert ValidateYear(s[..4]);
  }

  // ---------------------------------------------------------------------------
  // The whole review

  /** What an accepted review is, field by field. */
  function ValidateReview(review: Review): (ok: bool)
    ensures ok <==>
      && review.movieId > 0.0
      && (forall i :: 0 <= i < |review.reviewer| ==> review.reviewer[i] != ' ')
      && 1.0 <= review.rating <= 10.0
      && |review.reviewText| > 20
      && DateShaped(review.reviewDate)
  {
    && ValidateMovieId(review.movieId)
    && ValidateReviewer(review.reviewer)
    && ValidateRating(review.rating)
    && ValidateReviewText(review.reviewText)
    && ValidateReviewDate(review.reviewDate)
  }

  /** The edges of the validators. */
  lemma ValidatorBoundaries()
    ensures !ValidateMovieId(0.0) && ValidateMovieId(0.5)
    ensures ValidateReviewer("") && ValidateReviewer("a\tb") && !ValidateReviewer("a b")
    ensures ValidateRating(1.0) && ValidateRating(10.0) && ValidateRating(7.5)
    ensures !ValidateRating(0.99) && !ValidateRating(10.01)
    ensures !ValidateReviewText("abcdefghijklmnopqrst") && ValidateReviewText("abcdefghijklmnopqrstu")
    ensures ValidateReviewDate("2099-99-99") && !ValidateReviewDate("2099-9-099")
    ensures !ValidateReviewDate("2099-99-99\n")
    ensures ValidateYear("0000") && !ValidateYear("20") && !ValidateYear("2020-")
  {
    assert ' ' !in "a\tb";
    assert "a b"[1] == ' ';
    assert DateShaped("2099-99-99");
    assert "2099-9-099"[7] != '-';
    assert |"2099-99-99\n"| != 10;
    assert "20"[..] == "20";
  }

  // ---------------------------------------------------------------------------
  // Seeding batches

  /** A batch-write entry; `item` is the marshalled entity. */
  datatype WriteRequest<I> = PutRequest(item: I)

  /** `marshall` (the conversion to the store's attribute format) is a parameter. */
  function GenerateItem<E, I>(marshall: E -> I, entity: E): (request: WriteRequest<I>)
    ensures request.item == marshall(entity)
  {
    PutRequest(marshall(entity))
  }

  /** `data.map(generateItem)`: one put request per entity, in the same order. */
  function GenerateBatch<E, I>(marshall: E -> I, data: seq<E>): (batch: seq<WriteRequest<I>>)
    ensures |batch| == |data|
    ensures forall i :: 0 <= i < |data| ==> batch[i] == PutRequest(marshall(data[i]))
  {
    if data == [] then []
    else [GenerateItem(marshall, data[0])] + GenerateBatch(marshall, data[1..])
  }
}
