/**
 * The `Reviews` table: partition key `movieId` (a number), sort key `reviewer`
 * (a string), and the local secondary index `ReviewDateIndex` whose sort key is
 * `reviewDate`.
 *
 * The table is a map from key to item.  Reads are functions over a snapshot of
 * that map; the three writes the handlers issue (get, delete, update) are
 * methods of `ReviewTable`, each of which may fail instead of answering, as a
 * call over the network can.
 */
module Store {
  import opened Wrappers
  import opened Order

  /** (movieId, reviewer), the table's primary key. */
  type Key = (int, string)

  /**
   * A stored item.  Only the attributes the handlers read or write are kept; an
   * attribute the item lacks is `None` (an update of a missing key creates an
   * item with no rating and no date).
   */
  datatype Item = Item(
    movieId: int,
    reviewer: string,
    rating: Option<real>,
    reviewText: Option<string>,
    reviewDate: Option<string>)

  function KeyOf(item: Item): Key {
    (item.movieId, item.reviewer)
  }

  /** The table invariant: every item is stored under its own key attributes. */
  predicate Keyed(rows: map<Key, Item>) {
    forall k :: k in rows ==> KeyOf(rows[k]) == k
  }

  function Lookup(rows: map<Key, Item>, key: Key): Option<Item> {
    if key in rows then Some(rows[key]) else None
  }

  /**
   * `UpdateItem` with `SET reviewText = :r`: writes one attribute of one item,
   * creating the item (with only its key and the text) when the key is absent.
   */
  function WithReviewText(rows: map<Key, Item>, key: Key, text: string): (r: map<Key, Item>)
    ensures r.Keys == rows.Keys + {key}
    ensures r[key].reviewText == Some(text)
    ensures r[key].rating == (if key in rows then rows[key].rating else None)
    ensures r[key].reviewDate == (if key in rows then rows[key].reviewDate else None)
    ensures forall k :: k in rows && k != key ==> r[k] == rows[k]
    ensures Keyed(rows) ==> Keyed(r)
  {
    var base := if key in rows then rows[key] else Item(key.0, key.1, None, None, None);
    rows[key := base.(reviewText := Some(text))]
  }

  // ---------------------------------------------------------------------------
  // Queries

  /** The key-condition expressions the handlers send. */
  datatype KeyCondition =
    | PartitionIs(movieId: int)                // movieId = :movieId
    | KeyIs(movieId: int, reviewer: string)    // movieId = :movieId and reviewer = :reviewer
    | DatePrefix(movieId: int, prefix: string) // movieId = :movieId and begins_with(reviewDate, :year)

  /** `begins_with(s, prefix)`. */
  predicate BeginsWith(s: string, prefix: string) {
    |prefix| <= |s| && s[..|prefix|] == prefix
  }

  predicate HasDatePrefix(item: Item, prefix: string) {
    item.reviewDate.Some? && BeginsWith(item.reviewDate.value, prefix)
  }

  /** Which items a key condition selects. */
  predicate Matches(cond: KeyCondition, item: Item) {
    item.movieId == cond.movieId &&
    match cond
    case PartitionIs(_) => true
    case KeyIs(_, reviewer) => item.reviewer == reviewer
    case DatePrefix(_, prefix) => HasDatePrefix(item, prefix)
  }

  /** Ascending by the table's sort key; strict, since it is unique in a partition. */
  predicate ByReviewer(items: seq<Item>) {
    forall i, j :: 0 <= i < j < |items| ==> Below(items[i].reviewer, items[j].reviewer)
  }

  /** The sort key of the date index; an item without a date is not in that index. */
  function DateKey(item: Item): string {
    if item.reviewDate.Some? then item.reviewDate.value else ""
  }

  /** Non-decreasing by the index's sort key (dates need not be unique). */
  predicate ByDate(items: seq<Item>) {
    forall i, j :: 0 <= i < j < |items| ==> !Below(DateKey(items[j]), DateKey(items[i]))
  }

  /** No item is answered twice. */
  predicate DistinctKeys(items: seq<Item>) {
    forall i, j :: 0 <= i < j < |items| ==> KeyOf(items[i]) != KeyOf(items[j])
  }

  lemma ByReviewerDistinct(items: seq<Item>)
    requires ByReviewer(items)
    ensures DistinctKeys(items)
  {
    forall i, j | 0 <= i < j < |items|
      ensures KeyOf(items[i]) != KeyOf(items[j])
    {
      BelowIrreflexive(items[i].reviewer);
    }
  }

  function ReviewersIn(rows: map<Key, Item>, movieId: int): set<string> {
    set k | k in rows && k.0 == movieId :: k.1
  }

  function ItemsAt(rows: map<Key, Item>, movieId: int, reviewers: seq<string>): (items: seq<Item>)
    requires forall r :: r in reviewers ==> (movieId, r) in rows
    ensures |items| == |reviewers|
    ensures forall i :: 0 <= i < |items| ==> items[i] == rows[(movieId, reviewers[i])]
  {
    if reviewers == [] then []
    else [rows[(movieId, reviewers[0])]] + ItemsAt(rows, movieId, reviewers[1..])
  }

  /** Every item of the partition is found under its reviewer. */
  lemma ItemsAtComplete(rows: map<Key, Item>, movieId: int, reviewers: seq<string>)
    requires Keyed(rows)
    requires forall r :: r in reviewers <==> r in ReviewersIn(rows, movieId)
    ensures forall it :: it in rows.Values && it.movieId == movieId ==> it in ItemsAt(rows, movieId, reviewers)
  {
    var items := ItemsAt(rows, movieId, reviewers);
    forall it | it in rows.Values && it.movieId == movieId
      ensures it in items
    {
      var k :| k in rows && rows[k] == it;
      assert k.1 in ReviewersIn(rows, movieId);
      var i :| 0 <= i < |reviewers| && reviewers[i] == k.1;
      assert items[i] == it;
    }
  }

  /** Items found under ascending reviewers are ascending by reviewer, and belong to the partition. */
  lemma ItemsAtSound(rows: map<Key, Item>, movieId: int, reviewers: seq<string>)
    requires Keyed(rows)
    requires forall r :: r in reviewers ==> (movieId, r) in rows
    requires StrictlyAscending(reviewers)
    ensures ByReviewer(ItemsAt(rows, movieId, reviewers))
    ensures forall it :: it in ItemsAt(rows, movieId, reviewers) ==> it in rows.Values && it.movieId == movieId
  {
    var items := ItemsAt(rows, movieId, reviewers);
    forall i | 0 <= i < |items|
      ensures items[i].reviewer == reviewers[i] && items[i].movieId == movieId
    {
      assert KeyOf(rows[(movieId, reviewers[i])]) == (movieId, reviewers[i]);
    }
  }

  /** All items of one partition, in sort-key order. */
  function Partition(rows: map<Key, Item>, movieId: int): (items: seq<Item>)
    requires Keyed(rows)
    ensures forall it :: it in items <==> it in rows.Values && it.movieId == movieId
    ensures ByReviewer(items)
  {
    var reviewers := Ascending(ReviewersIn(rows, movieId));
    ItemsAtComplete(rows, movieId, reviewers);
    ItemsAtSound(rows, movieId, reviewers);
    ItemsAt(rows, movieId, reviewers)
  }

  function Filter(items: seq<Item>, keep: Item -> bool): (kept: seq<Item>)
    ensures forall it :: it in kept <==> it in items && keep(it)
    ensures ByReviewer(items) ==> ByReviewer(kept)
  {
    if items == [] then []
    else
      var rest := Filter(items[1..], keep);
      if keep(items[0]) then
        assert items == [items[0]] + items[1..];
        ConsByReviewer(items[0], rest, items[1..]);
        [items[0]] + rest
      else rest
  }

  lemma ConsByReviewer(x: Item, rest: seq<Item>, tail: seq<Item>)
    requires forall it :: it in rest ==> it in tail
    ensures ByReviewer([x] + tail) && ByReviewer(rest) ==> ByReviewer([x] + rest)
  {
    if ByReviewer([x] + tail) && ByReviewer(rest) {
      forall j | 0 <= j < |rest|
        ensures Below(x.reviewer, rest[j].reviewer)
      {
        assert rest[j] in tail;
        var k :| 0 <= k < |tail| && tail[k] == rest[j];
        assert ([x] + tail)[0] == x && ([x] + tail)[k + 1] == rest[j];
      }
    }
  }

  /** Puts `x` before the first item whose date is not below its own. */
  function Insert(x: Item, items: seq<Item>): (r: seq<Item>)
    ensures |r| == |items| + 1
    ensures forall it :: it in r <==> it == x || it in items
  {
    if items == [] || !Below(DateKey(items[0]), DateKey(x)) then [x] + items
    else [items[0]] + Insert(x, items[1..])
  }

  lemma {:induction false} InsertByDate(x: Item, items: seq<Item>)
    requires ByDate(items)
    ensures ByDate(Insert(x, items))
  {
    var r := Insert(x, items);
    if items == [] || !Below(DateKey(items[0]), DateKey(x)) {
      forall i, j | 0 <= i < j < |r|
        ensures !Below(DateKey(r[j]), DateKey(r[i]))
      {
        if i == 0 && j > 1 {
          AtOrAfterTransitive(DateKey(x), DateKey(items[0]), DateKey(items[j - 1]));
        }
      }
    } else {
      var rest := Insert(x, items[1..]);
      InsertByDate(x, items[1..]);
      forall j | 1 <= j < |r|
        ensures !Below(DateKey(r[j]), DateKey(items[0]))
      {
        assert r[j] in rest;
        if r[j] == x {
          BelowAsymmetric(DateKey(items[0]), DateKey(x));
        } else {
          var k :| 0 <= k < |items[1..]| && items[1..][k] == r[j];
          assert items[k + 1] == r[j];
        }
      }
    }
  }

  lemma {:induction false} InsertDistinct(x: Item, items: seq<Item>)
    requires DistinctKeys(items)
    requires forall it :: it in items ==> KeyOf(it) != KeyOf(x)
    ensures DistinctKeys(Insert(x, items))
  {
    var r := Insert(x, items);
    if items != [] && Below(DateKey(items[0]), DateKey(x)) {
      var rest := Insert(x, items[1..]);
      InsertDistinct(x, items[1..]);
      forall j | 1 <= j < |r|
        ensures KeyOf(r[j]) != KeyOf(items[0])
      {
        assert r[j] in rest;
        if r[j] != x {
          var k :| 0 <= k < |items[1..]| && items[1..][k] == r[j];
          assert items[k + 1] == r[j];
        }
      }
    }
  }

  /** Orders items by the date index's sort key (insertion sort). */
  function SortByDate(items: seq<Item>): (r: seq<Item>)
    ensures |r| == |items|
    ensures forall it :: it in r <==> it in items
  {
    if items == [] then [] else Insert(items[0], SortByDate(items[1..]))
  }

  lemma {:induction false} SortByDateOrdered(items: seq<Item>)
    ensures ByDate(SortByDate(items))
  {
    if items != [] {
      SortByDateOrdered(items[1..]);
      InsertByDate(items[0], SortByDate(items[1..]));
    }
  }

  lemma {:induction false} SortByDateDistinct(items: seq<Item>)
    requires DistinctKeys(items)
    ensures DistinctKeys(SortByDate(items))
  {
    if items != [] {
      var rest := SortByDate(items[1..]);
      SortByDateDistinct(items[1..]);
      forall it | it in rest
        ensures KeyOf(it) != KeyOf(items[0])
      {
        var k :| 0 <= k < |items[1..]| && items[1..][k] == it;
        assert items[k + 1] == it;
      }
      InsertDistinct(items[0], rest);
    }
  }

  /** What a query answers; the service may leave `Items` out of its reply. */
  datatype QueryOutput = QueryOutput(items: Option<seq<Item>>)

  /**
   * `QueryCommand` with the given key condition: exactly the matching items,
   * each once, in the order of the sort key the condition ranges over.
   */
  function Query(rows: map<Key, Item>, cond: KeyCondition): (out: QueryOutput)
    requires Keyed(rows)
    ensures out.items.Some?
    ensures forall it :: it in out.items.value <==> it in rows.Values && Matches(cond, it)
    ensures DistinctKeys(out.items.value)
    ensures if cond.DatePrefix? then ByDate(out.items.value) else ByReviewer(out.items.value)
  {
    var partition := Partition(rows, cond.movieId);
    ByReviewerDistinct(partition);
    match cond
    case PartitionIs(_) =>
      QueryOutput(Some(partition))
    case KeyIs(_, reviewer) =>
      var kept := Filter(partition, (it: Item) => it.reviewer == reviewer);
      ByReviewerDistinct(kept);
      QueryOutput(Some(kept))
    case DatePrefix(_, prefix) =>
      var kept := Filter(partition, (it: Item) => HasDatePrefix(it, prefix));
      ByReviewerDistinct(kept);
      SortByDateOrdered(kept);
      SortByDateDistinct(kept);
      QueryOutput(Some(SortByDate(kept)))
  }

  /** A query on the full key answers exactly what a point lookup finds. */
  lemma KeyQueryIsLookup(rows: map<Key, Item>, movieId: int, reviewer: string)
    requires Keyed(rows)
    ensures Query(rows, KeyIs(movieId, reviewer)).items.value ==
      if (movieId, reviewer) in rows then [rows[(movieId, reviewer)]] else []
  {
    var items := Query(rows, KeyIs(movieId, reviewer)).items.value;
    SingleKeyAnswer(rows, (movieId, reviewer), items);
  }

  /** An ordered answer holding exactly the items stored under one key is that item, or nothing. */
  lemma SingleKeyAnswer(rows: map<Key, Item>, key: Key, items: seq<Item>)
    requires Keyed(rows)
    requires forall it :: it in items <==> it in rows.Values && KeyOf(it) == key
    requires ByReviewer(items)
    ensures items == if key in rows then [rows[key]] else []
  {
    if |items| >= 2 {
      assert items[0] in items && items[1] in items;
      assert Below(items[0].reviewer, items[1].reviewer);
      BelowIrreflexive(key.1);
      assert false;
    }
    if items != [] {
      assert items[0] in items;
      StoredUnderOwnKey(rows, items[0]);
    }
    if key in rows {
      assert rows[key] in items;
      assert items == [rows[key]];
    }
  }

  lemma StoredUnderOwnKey(rows: map<Key, Item>, item: Item)
    requires Keyed(rows) && item in rows.Values
    ensures KeyOf(item) in rows && rows[KeyOf(item)] == item
  {
    var k :| k in rows && rows[k] == item;
  }

  // ---------------------------------------------------------------------------
  // The table and its single-item operations

  datatype StoreError = StoreError(message: string)

  /** The reply to one call: a value, or the error the call was rejected with. */
  datatype Answer<T> = Ok(value: T) | Failed(error: StoreError)

  class ReviewTable {
    var rows: map<Key, Item>

    ghost predicate Valid()
      reads this
    {
      Keyed(rows)
    }

    constructor (initial: map<Key, Item>)
      requires Keyed(initial)
      ensures Valid() && rows == initial
    {
      rows := initial;
    }

    // Each call takes `fault`, the error the store rejects it with, if any:
    // ranging over every value, it stands for a call that may fail.

    /** `GetCommand`: the item under `key`, if any. */
    method Get(key: Key, fault: Option<StoreError>) returns (answer: Answer<Option<Item>>)
      ensures answer.Failed? <==> fault.Some?
      ensures answer.Failed? ==> answer.error == fault.value
      ensures answer.Ok? ==> (answer.value.Some? <==> key in rows)
      ensures answer.Ok? && key in rows ==> answer.value.value == rows[key]
    {
      answer := if fault.Some? then Failed(fault.value) else Ok(Lookup(rows, key));
    }

    /** `DeleteCommand`: removes the item under `key` (a missing key is no error). */
    method Delete(key: Key, fault: Option<StoreError>) returns (answer: Answer<()>)
      requires Valid()
      modifies this
      ensures Valid()
      ensures answer == if fault.Some? then Failed(fault.value) else Ok(())
      ensures rows == if fault.None? then old(rows) - {key} else old(rows)
    {
      if fault.Some? {
        answer := Failed(fault.value);
      } else {
        rows := rows - {key};
        answer := Ok(());
      }
    }

    /** `UpdateCommand` setting `reviewText` of the item under `key`. */
    method SetReviewText(key: Key, text: string, fault: Option<StoreError>) returns (answer: Answer<()>)
      requires Valid()
      modifies this
      ensures Valid()
      ensures answer == if fault.Some? then Failed(fault.value) else Ok(())
      ensures rows == if fault.None? then WithReviewText(old(rows), key, text) else old(rows)
    {
      if fault.Some? {
        answer := Failed(fault.value);
      } else {
        rows := WithReviewText(rows, key, text);
        answer := Ok(());
      }
    }
  }
}
