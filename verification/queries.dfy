/** Storage queries over the News table ordered by `publishedAt: 'desc'`
    with `skip` and `take`, as the news and group handlers issue them, and
    what the order leaves open when publication times tie. */
module Queries {
  import opened Base
  import opened Store
  import opened Paging

  /** A run of consecutive rows of a newest-first list is newest first. */
  lemma SliceOfNewestFirst(rows: seq<News>, skip: nat, items: seq<News>)
    requires NewestFirst(rows)
    requires forall k :: 0 <= k < |items| ==> skip + k < |rows| && items[k] == rows[skip + k]
    ensures NewestFirst(items)
  {
    forall i, j | 0 <= i < j < |items|
      ensures items[i].publishedAt >= items[j].publishedAt
    {
      var x, y := items[i], items[j];
      assert skip + i < |rows| && x == rows[skip + i];
      assert skip + j < |rows| && y == rows[skip + j];
    }
  }

  /** `findMany({ orderBy: { publishedAt: 'desc' }, skip, take })` over
      `rows`: a newest-first run of at most `|take|` rows, or `None` when
      storage rejects a negative skip. A non-negative `take` counts from the
      newest row on. */
  function NewestFirstWindow(rows: seq<News>, skip: int, take: int): (r: Option<seq<News>>)
    ensures r.Some? <==> skip >= 0
    ensures r.Some? ==>
              && |r.value| <= Max(take, -take)
              && NewestFirst(r.value)
              && (forall n :: n in r.value ==> n in rows)
    ensures r.Some? && take >= 0 ==> |r.value| == Min(take, Max(0, |rows| - skip))
    ensures r.Some? && take >= 0 ==>
              forall k :: 0 <= k < |r.value| ==>
                skip + k < |rows| && r.value[k] == NewestFirstOrder(rows)[skip + k]
  {
    var ordered := NewestFirstOrder(rows);
    var w := Window(ordered, skip, take);
    if w.Some? then
      WindowOfNewestFirst(ordered, skip, take);
      w
    else w
  }

  /** Every window of a newest-first list is a newest-first run of its rows. */
  lemma WindowOfNewestFirst(ordered: seq<News>, skip: int, take: int)
    requires NewestFirst(ordered) && skip >= 0
    ensures NewestFirst(Window(ordered, skip, take).value)
    ensures forall n :: n in Window(ordered, skip, take).value ==> n in ordered
  {
    var w := Window(ordered, skip, take).value;
    if take >= 0 {
      SliceOfNewestFirst(ordered, skip, w);
    } else {
      var start := Max(0, |ordered| - skip) - |w|;
      SliceOfNewestFirst(ordered, start, w);
    }
    forall n | n in w ensures n in ordered {
      var k :| 0 <= k < |w| && w[k] == n;
    }
  }

  /** No two different rows share a publication time. */
  predicate DistinctTimes(rows: seq<News>) {
    forall m, n :: m in rows && n in rows && m != n ==> m.publishedAt != n.publishedAt
  }

  /** Without ties, two newest-first arrangements of the same rows are equal:
      the order storage returns is forced. */
  lemma {:induction false} NewestFirstUnique(a: seq<News>, b: seq<News>)
    requires NewestFirst(a) && NewestFirst(b) && multiset(a) == multiset(b)
    requires DistinctTimes(a)
    ensures a == b
    decreases |a|
  {
    assert |multiset(a)| == |a| && |multiset(b)| == |b|;
    if |a| > 0 {
      NewestFirstHeadsAgree(a, b);
      TailsPermute(a, b);
      assert forall n :: n in a[1..] ==> n in a;
      NewestFirstUnique(a[1..], b[1..]);
    }
  }

  /** Dropping the same first row from two arrangements of the same rows
      leaves two arrangements of the same rows. */
  lemma TailsPermute<T>(a: seq<T>, b: seq<T>)
    requires |a| > 0 && |b| > 0 && a[0] == b[0] && multiset(a) == multiset(b)
    ensures multiset(a[1..]) == multiset(b[1..])
  {
    assert a == [a[0]] + a[1..];
    assert b == [b[0]] + b[1..];
    assert multiset(a[1..]) == multiset(a) - multiset{a[0]};
    assert multiset(b[1..]) == multiset(b) - multiset{a[0]};
  }

  /** Without ties, the newest row of the rows is the same in every
      newest-first arrangement. */
  lemma NewestFirstHeadsAgree(a: seq<News>, b: seq<News>)
    requires NewestFirst(a) && NewestFirst(b) && multiset(a) == multiset(b)
    requires DistinctTimes(a) && |a| > 0
    ensures |b| > 0 && a[0] == b[0]
  {
    assert |multiset(a)| == |a| && |multiset(b)| == |b|;
    assert a[0] in multiset(b);
    var k :| 0 <= k < |b| && b[k] == a[0];
    assert b[0].publishedAt >= a[0].publishedAt;
    assert b[0] in multiset(a);
    var m :| 0 <= m < |a| && a[m] == b[0];
    assert a[0].publishedAt >= b[0].publishedAt;
  }

  /** Without ties, every newest-first arrangement storage may return for a
      query is the model's order. */
  lemma NoTiesOneOrder(rows: seq<News>, order: seq<News>)
    requires DistinctTimes(rows)
    requires NewestFirst(order) && multiset(order) == multiset(rows)
    ensures order == NewestFirstOrder(rows)
  {
    NewestFirstOrderPermutes(rows);
    NewestFirstUnique(NewestFirstOrder(rows), order);
  }

  /** With a tie, both arrangements of two rows are newest first, and two
      queries that each pick one can show the same row on pages 1 and 2 of
      size 1 while the other row is shown on neither. */
  lemma TiedRowsTwoOrders(x: News, y: News)
    requires x != y && x.publishedAt == y.publishedAt
    ensures NewestFirst([x, y]) && NewestFirst([y, x])
    ensures multiset([x, y]) == multiset([y, x])
    ensures Window([x, y], 0, 1) == Some([x]) && Window([y, x], 1, 1) == Some([x])
  {
    var first := Window([x, y], 0, 1).value;
    assert |first| == 1 && first[0] == x;
    assert first == [x];
    var second := Window([y, x], 1, 1).value;
    assert |second| == 1 && second[0] == x;
    assert second == [x];
  }
}
