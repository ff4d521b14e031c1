/** The paginated listing: `ORDER BY updated_at DESC LIMIT ? OFFSET ?` (`src/database/database.cpp`). */
module Listing {
  import opened Cars
  import opened Timestamps

  ghost predicate Distinct<T>(xs: seq<T>) {
    forall i, j | 0 <= i < j < |xs| :: xs[i] != xs[j]
  }

  /** The keys in an order that a query without LIMIT may return: each row once, latest
      `updated_at` first. Nothing is said of rows with equal `updated_at`: any fixed tie-break will do. */
  ghost predicate IsListing(rows: map<int, Row>, order: seq<int>) {
    && Distinct(order)
    && (forall id :: id in order <==> id in rows)
    && (forall i, j | 0 <= i < j < |order| :: NotNewer(rows, order[j], order[i]))
  }

  predicate NotNewer(rows: map<int, Row>, a: int, b: int) {
    a in rows && b in rows && TextLeq(rows[a].updatedAt, rows[b].updatedAt)
  }

  function ClampLimit(limit: int): int {
    if limit > 100 then 100 else if limit < 1 then 1 else limit
  }

  /** The clamped limit is the allowed limit nearest to the requested one. */
  lemma ClampIsNearest(limit: int, other: int)
    requires 1 <= other <= 100
    ensures 1 <= ClampLimit(limit) <= 100
    ensures limit <= ClampLimit(limit) <= other || other <= ClampLimit(limit) <= limit
  {
  }

  function Min(a: int, b: int): int {
    if a < b then a else b
  }

  /** LIMIT and OFFSET over an ordered result; no LIMIT clause without a positive limit, and a
      negative offset counts as zero. */
  function Page<T>(order: seq<T>, limit: int, offset: int): seq<T> {
    if limit <= 0 then order else
      var from := Min(if offset < 0 then 0 else offset, |order|);
      order[from..Min(from + limit, |order|)]
  }

  function FullCars(rows: map<int, Row>, ids: seq<int>): seq<Car>
    requires forall id | id in ids :: id in rows
  {
    seq(|ids|, i requires 0 <= i < |ids| => Decode(ids[i], rows[ids[i]]))
  }

  function WithoutImage(car: Car): Car {
    car.(imageDataUrl := "")
  }

  /** A summary has no image, and everything else of the car. */
  ghost predicate Summarises(summary: Car, car: Car) {
    && summary.carId == car.carId && summary.createdAt == car.createdAt && summary.updatedAt == car.updatedAt
    && summary.imageDataUrl == ""
    && forall f: Field | f != Image :: FieldOf(summary, f) == FieldOf(car, f)
  }

  // ----- Every table has a listing -----

  lemma AnyOf<T>(s: set<T>) returns (x: T)
    requires s != {}
    ensures x in s
  {
    x :| x in s;
  }

  lemma Newer(rows: map<int, Row>, ids: set<int>, newest: int, one: int) returns (best: int)
    requires newest in ids && ids <= rows.Keys && one in rows
    requires forall id | id in ids :: NotNewer(rows, id, newest)
    ensures best in ids + {one} && forall id | id in ids + {one} :: NotNewer(rows, id, best)
  {
    TextLeqTotal(rows[one].updatedAt, rows[newest].updatedAt);
    if NotNewer(rows, one, newest) {
      return newest;
    }
    forall id | id in ids ensures NotNewer(rows, id, one) {
      assert NotNewer(rows, id, newest);
      TextLeqTransitive(rows[id].updatedAt, rows[newest].updatedAt, rows[one].updatedAt);
    }
    TextLeqReflexive(rows[one].updatedAt);
    return one;
  }

  lemma {:induction false} NewestOf(rows: map<int, Row>, ids: set<int>, one: int) returns (newest: int)
    requires one in ids && ids <= rows.Keys
    ensures newest in ids && forall id | id in ids :: NotNewer(rows, id, newest)
  {
    var rest := ids - {one};
    assert ids == rest + {one};
    if rest == {} {
      newest := one;
      TextLeqReflexive(rows[one].updatedAt);
    } else {
      var other := AnyOf(rest);
      newest := NewestOf(rows, rest, other);
      newest := Newer(rows, rest, newest, one);
    }
  }

  lemma {:induction false} ListingExists(rows: map<int, Row>, ids: set<int>) returns (order: seq<int>)
    requires ids <= rows.Keys
    ensures Distinct(order) && (forall id :: id in order <==> id in ids)
    ensures forall i, j | 0 <= i < j < |order| :: NotNewer(rows, order[j], order[i])
    ensures ids == rows.Keys ==> IsListing(rows, order)
  {
    if ids == {} {
      order := [];
    } else {
      var one := AnyOf(ids);
      var newest := NewestOf(rows, ids, one);
      var rest := ListingExists(rows, ids - {newest});
      order := [newest] + rest;
      assert forall j | 0 <= j < |rest| :: rest[j] in rest;
      forall j | 0 < j < |order| ensures NotNewer(rows, order[j], newest) && order[j] != newest {
        assert order[j] == rest[j - 1] && rest[j - 1] in ids - {newest};
      }
    }
  }

  // ----- Pages tile the listing -----

  /** The pages at `offset`, `offset + limit`, ... until one starts past the end, end to end. */
  function PagesFrom<T>(order: seq<T>, limit: int, offset: nat): seq<T>
    requires limit >= 1
    decreases |order| - offset
  {
    if offset >= |order| then [] else Page(order, limit, offset) + PagesFrom(order, limit, offset + limit)
  }

  lemma {:induction false} PagesCoverTail<T>(order: seq<T>, limit: int, offset: nat)
    requires limit >= 1
    ensures PagesFrom(order, limit, offset) == order[Min(offset, |order|)..]
    decreases |order| - offset
  {
    if offset >= |order| {
    } else {
      PagesCoverTail(order, limit, offset + limit);
      var next := Min(offset + limit, |order|);
      assert order[offset..next] + order[next..] == order[offset..];
    }
  }

  lemma {:induction false} DistinctAsMultiset(order: seq<int>)
    requires Distinct(order)
    ensures multiset(order) == multiset(set id | id in order)
  {
    if order == [] {
    } else {
      var first, rest := order[0], order[1..];
      assert order == [first] + rest;
      assert first !in rest by {
        assert forall i | 0 <= i < |rest| :: rest[i] == order[i + 1];
      }
      DistinctAsMultiset(rest);
      assert (set id | id in order) == {first} + set id | id in rest;
    }
  }

  lemma ListingNamesAllRows(rows: map<int, Row>, order: seq<int>)
    requires IsListing(rows, order)
    ensures multiset(order) == multiset(rows.Keys) && |order| == |rows|
  {
    DistinctAsMultiset(order);
    assert (set id | id in order) == rows.Keys by {
      assert forall id :: id in order <==> id in rows.Keys;
    }
    assert |multiset(order)| == |order| && |multiset(rows.Keys)| == |rows.Keys|;
  }

  /** For every requested limit, the pages of the clamped limit concatenate to the whole listing,
      which names each live row exactly once. */
  lemma PagesTile(rows: map<int, Row>, order: seq<int>, requested: int)
    requires IsListing(rows, order)
    ensures PagesFrom(order, ClampLimit(requested), 0) == order
    ensures multiset(order) == multiset(rows.Keys)
  {
    PagesCoverTail(order, ClampLimit(requested), 0);
    ListingNamesAllRows(rows, order);
  }

  /** With printable timestamps the listing is newest first in time. */
  lemma NewestFirst(rows: map<int, Row>, order: seq<int>, at: map<int, DateTime>, i: nat, j: nat)
    requires IsListing(rows, order) && i < j < |order|
    requires at.Keys == rows.Keys
    requires forall id | id in rows :: Printable(at[id]) && rows[id].updatedAt == Format(at[id])
    ensures order[i] in at && order[j] in at && NotAfter(at[order[j]], at[order[i]])
  {
    assert order[i] in order && order[j] in order;
    assert NotNewer(rows, order[j], order[i]);
    TextOrderIsTimeOrder(at[order[j]], at[order[i]]);
  }

  /** Position by position: a page of at most `limit` elements from the offset on, or everything
      without a positive limit. */
  lemma PageIs<T>(order: seq<T>, limit: int, offset: int)
    ensures limit <= 0 ==> Page(order, limit, offset) == order
    ensures limit >= 1 ==> var from, page := if offset < 0 then 0 else offset, Page(order, limit, offset);
      && |page| <= limit && (|page| < limit ==> from + |page| >= |order|)
      && (from >= |order| ==> page == []) && (from < |order| ==> from + |page| <= |order|)
      && forall k | 0 <= k < |page| :: page[k] == order[from + k]
  {
  }
}
