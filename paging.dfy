/** The page arithmetic of the listing handlers: `skip = (page - 1) * limit`,
    `take: limit` and `totalPages = Math.ceil(total / limit)`. */
module Paging {
  import opened Seqs

  /** The `pagination` object of a listing response. */
  datatype Pagination = Pagination(page: int, limit: int, total: nat, totalPages: nat)

  /** `(page - 1) * limit`: the rows before the page. */
  function Skip(page: int, limit: int): (n: int)
    requires page >= 1 && limit >= 0
    ensures n >= 0
  {
    MulMono(0, page - 1, limit);
    (page - 1) * limit
  }

  /** `Math.ceil(total / limit)`: the fewest pages of `limit` rows that hold
      `total` rows. */
  function TotalPages(total: nat, limit: int): (n: nat)
    requires limit >= 1
    ensures total <= n * limit
    ensures n > 0 ==> (n - 1) * limit < total
    ensures n == 0 <==> total == 0
  {
    (total + limit - 1) / limit
  }

  /** At most `n` rows from position `lo` on: `skip: lo, take: n`. */
  function Window<T>(rows: seq<T>, lo: nat, n: nat): (r: seq<T>)
    ensures |r| <= n
    ensures forall k :: 0 <= k < |r| ==> lo + k < |rows| && r[k] == rows[lo + k]
    ensures lo + n <= |rows| ==> |r| == n
    ensures lo <= |rows| < lo + n ==> |r| == |rows| - lo
  {
    if |rows| <= lo then [] else if |rows| <= lo + n then rows[lo..] else rows[lo..lo + n]
  }

  /** The rows a query with `skip` and `take: limit` returns. */
  function PageOf<T>(rows: seq<T>, page: int, limit: int): (r: seq<T>)
    requires page >= 1 && limit >= 1
    ensures |r| <= limit
    ensures forall k :: 0 <= k < |r| ==> Skip(page, limit) + k < |rows| && r[k] == rows[Skip(page, limit) + k]
    ensures Skip(page, limit) + limit <= |rows| ==> |r| == limit
  {
    Window(rows, Skip(page, limit), limit)
  }

  /** Every row appears on exactly the page its position says, and that page
      is within `totalPages`: walking pages 1 to `totalPages` lists every row once. */
  lemma PagesCoverRows<T>(rows: seq<T>, limit: int, i: nat)
    requires limit >= 1 && i < |rows|
    ensures var page := i / limit + 1;
      && 1 <= page <= TotalPages(|rows|, limit)
      && i % limit < |PageOf(rows, page, limit)|
      && PageOf(rows, page, limit)[i % limit] == rows[i]
  {
    var d := i / limit;
    var page := d + 1;
    assert Skip(page, limit) == d * limit == i - i % limit;
    var n := TotalPages(|rows|, limit);
    if n < page {
      MulMono(n, d, limit);
      assert false;
    }
  }

  lemma MulMono(a: int, b: int, c: int)
    requires a <= b && c >= 0
    ensures a * c <= b * c
  {
  }

  /** A page past the last one is empty. */
  lemma PageBeyondLastIsEmpty<T>(rows: seq<T>, page: int, limit: int)
    requires limit >= 1 && page > TotalPages(|rows|, limit)
    ensures PageOf(rows, page, limit) == []
  {
    var n := TotalPages(|rows|, limit);
    MulMono(n, page - 1, limit);
  }

  /** A page of rows in non-increasing order of `key` is itself in that order. */
  lemma PageOfSorted<T>(rows: seq<T>, page: int, limit: int, key: T -> int)
    requires page >= 1 && limit >= 1 && SortedDesc(rows, key)
    ensures SortedDesc(PageOf(rows, page, limit), key)
  {
    var r := PageOf(rows, page, limit);
    var lo := Skip(page, limit);
    forall i, j | 0 <= i < j < |r| ensures key(r[i]) >= key(r[j]) {
      assert r[i] == rows[lo + i] && r[j] == rows[lo + j];
    }
  }

  /** A listing query: the rows that pass the `where` filter `p`, ordered
      by `key` descending. */
  function Listing<T>(rows: seq<T>, p: T -> bool, key: T -> int): seq<T> {
    SortDesc(Filter(rows, p), key)
  }

  /** The listing holds exactly the rows that pass the filter, in order. */
  lemma ListingRows<T>(rows: seq<T>, p: T -> bool, key: T -> int)
    ensures var l := Listing(rows, p, key);
      && SortedDesc(l, key)
      && multiset(l) == multiset(Filter(rows, p))
      && (forall i :: 0 <= i < |l| ==> p(l[i]))
      && (forall i :: 0 <= i < |rows| && p(rows[i]) ==> rows[i] in l)
  {
    var l := Listing(rows, p, key);
    var m := Filter(rows, p);
    forall i | 0 <= i < |l| ensures p(l[i]) {
      assert l[i] in multiset(m);
      var k :| 0 <= k < |m| && m[k] == l[i];
    }
    forall i | 0 <= i < |rows| && p(rows[i]) ensures rows[i] in l {
      assert rows[i] in multiset(m);
    }
  }

  /** Every page of a listing is in order and holds only rows that pass. */
  lemma ListingPage<T>(rows: seq<T>, p: T -> bool, key: T -> int, page: int, limit: int)
    requires page >= 1 && limit >= 1
    ensures var r := PageOf(Listing(rows, p, key), page, limit);
      SortedDesc(r, key) && forall i :: 0 <= i < |r| ==> p(r[i])
  {
    var l := Listing(rows, p, key);
    ListingRows(rows, p, key);
    PageOfSorted(l, page, limit, key);
  }
}
