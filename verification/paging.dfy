/** The pagination envelope of `src/utils/pagingUtils.ts` and the
    `skip`/`take` window that every list query asks storage for. */
module Paging {
  import opened Base

  function Min(a: int, b: int): int { if a <= b then a else b }
  function Max(a: int, b: int): int { if a >= b then a else b }

  /** The JSON envelope of every list response. */
  datatype PagingData<T> = PagingData(data: seq<T>, page: int, limit: int, total: nat, totalPages: int)

  /** `Math.ceil(total / limit)` for a non-zero integer limit. For a positive
      limit this is the least n with n * limit >= total; for a negative limit
      the division is negative and the ceiling rounds toward zero. */
  function CeilDiv(total: nat, limit: int): (n: int)
    requires limit != 0
    ensures limit > 0 ==> (n - 1) * limit < total <= n * limit
    ensures limit < 0 ==> n * limit <= total < (n - 1) * limit
    ensures limit > 0 ==> (n == 0 <==> total == 0) && n >= 0
  {
    if limit > 0 then
      var q := (total + limit - 1) / limit;
      assert q * limit + (total + limit - 1) % limit == total + limit - 1;
      q
    else
      var q := total / -limit;
      assert q * -limit + total % -limit == total;
      -q
  }

  /** `paginate(data, page, limit, total)`: echoes its inputs and adds the
      page count. A zero limit would make the page count infinite or NaN;
      every caller passes a non-zero limit. */
  function Paginate<T>(data: seq<T>, page: int, limit: int, total: nat): (r: PagingData<T>)
    requires limit != 0
    ensures r.data == data && r.page == page && r.limit == limit && r.total == total
    ensures limit > 0 ==> (r.totalPages - 1) * limit < total <= r.totalPages * limit
    ensures limit > 0 ==> (r.totalPages == 0 <==> total == 0)
    ensures limit > 0 && total > 0 ==> r.totalPages >= 1
    ensures limit < 0 ==> r.totalPages * limit <= total < (r.totalPages - 1) * limit
  {
    PagingData(data, page, limit, total, CeilDiv(total, limit))
  }

  /** `parseInt(query) || fallback`: a missing, non-numeric or zero query
      parameter yields the fallback; any other number, negative ones
      included, is used as given. */
  function QueryInt(query: Option<int>, fallback: int): (r: int)
    ensures query.Some? && query.value != 0 ==> r == query.value
    ensures query.None? || query.value == 0 ==> r == fallback
    ensures fallback != 0 ==> r != 0
  {
    if query.Some? && query.value != 0 then query.value else fallback
  }

  /** The rows a storage `findMany` returns for `skip` and `take` over rows
      already in query order. Storage rejects a negative `skip` (the query
      throws, modelled as `None`); a negative `take` counts rows back from
      the end of the list instead of forward from the start. */
  function Window<T>(rows: seq<T>, skip: int, take: int): (r: Option<seq<T>>)
    ensures r.Some? <==> skip >= 0
    ensures r.Some? && take >= 0 ==>
              && |r.value| == Min(take, Max(0, |rows| - skip))
              && forall k :: 0 <= k < |r.value| ==> skip + k < |rows| && r.value[k] == rows[skip + k]
    ensures r.Some? && take < 0 ==>
              && |r.value| == Min(-take, Max(0, |rows| - skip))
              && forall k :: 0 <= k < |r.value| ==>
                   r.value[k] == rows[Max(0, |rows| - skip) - |r.value| + k]
  {
    if skip < 0 then None
    else if take >= 0 then
      Some(rows[Min(skip, |rows|)..Min(skip + take, |rows|)])
    else
      var hi := Max(0, |rows| - skip);
      Some(rows[Max(0, hi + take)..hi])
  }

  /** The page a 1-based `page` number selects with a positive `limit`:
      `skip = (page - 1) * limit`, `take = limit`. */
  function PageOf<T>(rows: seq<T>, page: int, limit: int): Option<seq<T>>
    requires limit > 0
  {
    Window(rows, (page - 1) * limit, limit)
  }

  /** Every row appears on exactly the page its position predicts, and that
      page is within the page count `paginate` reports. */
  lemma RowOnItsPage<T>(rows: seq<T>, limit: int, i: nat)
    requires limit > 0 && i < |rows|
    ensures var page := i / limit + 1;
            && 1 <= page <= CeilDiv(|rows|, limit)
            && PageOf(rows, page, limit).Some?
            && i % limit < |PageOf(rows, page, limit).value|
            && PageOf(rows, page, limit).value[i % limit] == rows[i]
  {
    var page := i / limit + 1;
    var n := CeilDiv(|rows|, limit);
    assert i == (i / limit) * limit + i % limit;
    assert (page - 1) * limit == i - i % limit;
    if page > n {
      assert page - 1 >= n;
      MulMono(n, page - 1, limit);
      assert false;
    }
  }

  lemma MulMono(a: int, b: int, limit: int)
    requires limit > 0 && a <= b
    ensures a * limit <= b * limit
  {
  }

  /** The skip `(page - 1) * limit` of a 1-based page is non-negative
      exactly on page 1 and where page and limit point the same way: pages
      after the first with a positive limit, pages before it with a
      negative one. */
  lemma SkipSign(page: int, limit: int)
    requires limit != 0
    ensures (page - 1) * limit >= 0 <==> page == 1 || (page > 1 <==> limit > 0)
  {
    var a := page - 1;
    if a > 0 && limit > 0 {
      MulPos(a, limit);
    } else if a > 0 {
      MulPos(a, -limit);
      assert a * limit == -(a * -limit);
    } else if a < 0 && limit > 0 {
      MulPos(-a, limit);
      assert a * limit == -(-a * limit);
    } else if a < 0 {
      MulPos(-a, -limit);
      assert a * limit == -a * -limit;
    }
  }

  lemma MulPos(a: int, b: int)
    requires a > 0 && b > 0
    ensures a * b > 0
  {
  }

  /** For a positive limit, a 1-based page holds rows exactly when its number
      is at most the reported page count; later pages are empty, never an error. */
  lemma PageNonEmptyIff<T>(rows: seq<T>, page: int, limit: int)
    requires limit > 0 && page >= 1
    ensures PageOf(rows, page, limit).Some?
    ensures |PageOf(rows, page, limit).value| > 0 <==> page <= CeilDiv(|rows|, limit)
  {
    var n := CeilDiv(|rows|, limit);
    var w := PageOf(rows, page, limit).value;
    if page <= n {
      MulMono(page - 1, n - 1, limit);
      assert (page - 1) * limit < |rows|;
    } else {
      MulMono(n, page - 1, limit);
      assert (page - 1) * limit >= |rows|;
    }
  }

  /** The example of a 23-row listing with 10 rows per page. */
  lemma TwentyThreeRowsTenPerPage<T>(rows: seq<T>)
    requires |rows| == 23
    ensures Paginate(rows[..10], 1, 10, |rows|).totalPages == 3
    ensures |PageOf(rows, 1, 10).value| == 10
    ensures |PageOf(rows, 3, 10).value| == 3
    ensures |PageOf(rows, 4, 10).value| == 0
  {
  }
}
