/**
 * The admin listing: all rows ordered by code descending, then by market
 * ascending, cut to the first 100.
 */
module Listing {

  /** A row as the listing reads it. */
  datatype Row = Row(code: string, market: char, head: string, specials: string)

  const Limit: nat := 100

  /** Strict lexicographic order on strings, character by character. */
  predicate StrLess(a: string, b: string) {
    if a == [] then b != []
    else if b == [] then false
    else a[0] < b[0] || (a[0] == b[0] && StrLess(a[1..], b[1..]))
  }

  lemma {:induction false} StrLessIrreflexive(a: string)
    ensures !StrLess(a, a)
  {
    if a != [] {
      StrLessIrreflexive(a[1..]);
    }
  }

  lemma {:induction false} StrLessTransitive(a: string, b: string, c: string)
    requires StrLess(a, b) && StrLess(b, c)
    ensures StrLess(a, c)
  {
    if a != [] && b != [] && c != [] && a[0] == b[0] == c[0] {
      StrLessTransitive(a[1..], b[1..], c[1..]);
    }
  }

  lemma {:induction false} StrLessTotal(a: string, b: string)
    ensures a == b || StrLess(a, b) || StrLess(b, a)
  {
    if a != [] && b != [] && a[0] == b[0] {
      StrLessTotal(a[1..], b[1..]);
      if a[1..] == b[1..] {
        assert a == [a[0]] + a[1..] && b == [b[0]] + b[1..];
      }
    }
  }

  /** `x` may be listed before `y`: a later code first, and within one code the markets in order. */
  predicate Precedes(x: Row, y: Row) {
    StrLess(y.code, x.code) || (x.code == y.code && x.market <= y.market)
  }

  lemma PrecedesTotal(x: Row, y: Row)
    ensures Precedes(x, y) || Precedes(y, x)
  {
    StrLessTotal(x.code, y.code);
  }

  lemma PrecedesTransitive(x: Row, y: Row, z: Row)
    requires Precedes(x, y) && Precedes(y, z)
    ensures Precedes(x, z)
  {
    if StrLess(y.code, x.code) && StrLess(z.code, y.code) {
      StrLessTransitive(z.code, y.code, x.code);
    }
  }

  predicate Sorted(s: seq<Row>) {
    forall i, j :: 0 <= i < j < |s| ==> Precedes(s[i], s[j])
  }

  /** Places `x` in front of the first row it precedes. */
  function Insert(x: Row, s: seq<Row>): (r: seq<Row>)
    ensures multiset(r) == multiset(s) + multiset{x}
  {
    if s == [] then [x]
    else if Precedes(x, s[0]) then [x] + s
    else
      assert s == [s[0]] + s[1..];
      [s[0]] + Insert(x, s[1..])
  }

  /** The rows in listing order. */
  function Sort(s: seq<Row>): (r: seq<Row>)
    ensures multiset(r) == multiset(s)
  {
    if s == [] then []
    else
      assert s == [s[0]] + s[1..];
      Insert(s[0], Sort(s[1..]))
  }

  /** `query.order_by(code.desc(), market.asc()).limit(limit)`. */
  function Recent(table: seq<Row>, limit: nat): (r: seq<Row>)
    ensures |r| <= limit
  {
    var sorted := Sort(table);
    if |sorted| <= limit then sorted else sorted[..limit]
  }

  /** `y` comes no later than any row of `s`. */
  predicate Bounds(y: Row, s: seq<Row>) {
    forall k :: 0 <= k < |s| ==> Precedes(y, s[k])
  }

  /** A row that precedes `x` and all of `s` precedes all of `Insert(x, s)`. */
  lemma {:induction false} InsertBounds(y: Row, x: Row, s: seq<Row>)
    requires Precedes(y, x) && Bounds(y, s)
    ensures Bounds(y, Insert(x, s))
  {
    if s != [] && !Precedes(x, s[0]) {
      InsertBounds(y, x, s[1..]);
    }
  }

  lemma {:induction false} InsertSorted(x: Row, s: seq<Row>)
    requires Sorted(s)
    ensures Sorted(Insert(x, s))
  {
    if s != [] && !Precedes(x, s[0]) {
      PrecedesTotal(x, s[0]);
      InsertSorted(x, s[1..]);
      InsertBounds(s[0], x, s[1..]);
    } else if s != [] {
      forall k | 1 <= k < |s| ensures Precedes(x, s[k]) {
        PrecedesTransitive(x, s[0], s[k]);
      }
    }
  }

  lemma {:induction false} SortSorted(s: seq<Row>)
    ensures Sorted(Sort(s))
  {
    if s != [] {
      SortSorted(s[1..]);
      InsertSorted(s[0], Sort(s[1..]));
    }
  }

  /**
   * The listing is in order, holds at most `limit` rows, all of them rows of
   * the table, and every row of the table it leaves out comes after every row
   * it shows.
   */
  lemma RecentSpec(table: seq<Row>, limit: nat)
    ensures var r := Recent(table, limit);
      && Sorted(r)
      && |r| == (if |table| <= limit then |table| else limit)
      && multiset(r) <= multiset(table)
      && forall x, y :: x in r && y in table && y !in r ==> Precedes(x, y)
  {
    var sorted := Sort(table);
    SortSorted(table);
    var r := Recent(table, limit);
    assert |sorted| == |multiset(sorted)| == |table|;
    if |sorted| > limit {
      assert sorted == r + sorted[limit..];
      assert multiset(sorted) == multiset(r) + multiset(sorted[limit..]);
      forall x, y | x in r && y in table && y !in r ensures Precedes(x, y) {
        var i :| 0 <= i < |r| && r[i] == x;
        assert y in multiset(sorted);
        var j :| 0 <= j < |sorted| && sorted[j] == y;
        assert j >= limit;
      }
    } else {
      forall y | y in table ensures y in r {
        assert y in multiset(sorted);
      }
    }
  }

  /** The admin page's query. */
  function AdminListing(table: seq<Row>): (r: seq<Row>)
    ensures |r| <= Limit
  {
    RecentSpec(table, Limit);
    Recent(table, Limit)
  }
}
