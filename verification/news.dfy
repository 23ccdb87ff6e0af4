/** The request handlers of src/controllers/newsController.ts and of its
    compiled twin src/controllers/newsController.js: the news listing that
    first ingests the feed, the group timeline of one news item, the groups
    a user follows, and the lookup that precedes an AI answer. */
module NewsController {
  import opened Base
  import opened Store
  import opened Paging
  import opened Ingestion
  import opened Queries

  /** The outcome of the request to the external news feed. */
  datatype Feed = Fetched(articles: seq<Article>) | FetchFailed

  const NewsPageSize: nat := 5
  const TimelinePageSize: nat := 50
  const FollowUpPageSize: nat := 50

  const NewsError := "An error occurred while fetching news"
  const TimelineError := "An error occurred while fetching the timeline"
  const FollowUpError := "An error occurred while fetching follow-up groups"

  /** The listing half of `getNews`: a newest-first page of five of all
      stored news, with the count of all stored news as total. */
  function NewsPage(stored: Store, pageQuery: Option<int>): (r: Reply<PagingData<News>>)
    ensures r.Ok? || r == Fail(500, NewsError)
    ensures r.Ok? <==> QueryInt(pageQuery, 1) >= 1
    ensures r.Ok? ==>
              && r.value.page == QueryInt(pageQuery, 1)
              && r.value.limit == NewsPageSize
              && r.value.total == |stored.news|
              && |r.value.data| == Min(NewsPageSize, Max(0, |stored.news| - (r.value.page - 1) * NewsPageSize))
              && NewestFirst(r.value.data)
              && (forall n :: n in r.value.data ==> n in stored.news)
              && forall k :: 0 <= k < |r.value.data| ==>
                   && (r.value.page - 1) * NewsPageSize + k < |stored.news|
                   && r.value.data[k] == NewestFirstOrder(stored.news)[(r.value.page - 1) * NewsPageSize + k]
  {
    var page := QueryInt(pageQuery, 1);
    var skip := (page - 1) * NewsPageSize;
    assert skip >= 0 <==> page >= 1;
    match NewestFirstWindow(stored.news, skip, NewsPageSize)
    case None => Fail(500, NewsError)
    case Some(items) =>
      var env := Paginate(items, page, NewsPageSize, |stored.news|);
      assert env.data == items && env.page == page;
      Ok(env)
  }

  /** Paging through the listing meets every stored item exactly where the
      newest-first order puts it: position `i` is entry `i % 5` of page
      `i / 5 + 1`. */
  lemma EveryNewsOnItsPage(stored: Store, i: nat)
    requires i < |stored.news|
    ensures NewsPage(stored, Some(i / NewsPageSize + 1)).Ok?
    ensures i % NewsPageSize < |NewsPage(stored, Some(i / NewsPageSize + 1)).value.data|
    ensures NewsPage(stored, Some(i / NewsPageSize + 1)).value.data[i % NewsPageSize] == NewestFirstOrder(stored.news)[i]
  {
    var page := i / NewsPageSize + 1;
    PageArithmetic(i, NewsPageSize);
    var r := NewsPage(stored, Some(page));
    assert r.value.page == page;
    assert |r.value.data| == Min(NewsPageSize, Max(0, |stored.news| - (i - i % NewsPageSize)));
  }

  /** Each page is a query of its own, and storage may order rows with equal
      publication times differently on each. When no two rows tie, whatever
      newest-first order storage uses for a query, page `i / 5 + 1` holds
      the row at position `i` of it, so paging meets every row once. */
  lemma EveryNewsOnItsPageWithoutTies(stored: Store, i: nat, order: seq<News>)
    requires i < |stored.news| && DistinctTimes(stored.news)
    requires NewestFirst(order) && multiset(order) == multiset(stored.news)
    ensures i < |order|
    ensures NewsPage(stored, Some(i / NewsPageSize + 1)).Ok?
    ensures i % NewsPageSize < |NewsPage(stored, Some(i / NewsPageSize + 1)).value.data|
    ensures NewsPage(stored, Some(i / NewsPageSize + 1)).value.data[i % NewsPageSize] == order[i]
  {
    NoTiesOneOrder(stored.news, order);
    EveryNewsOnItsPage(stored, i);
  }

  lemma PageArithmetic(i: nat, size: nat)
    requires size > 0
    ensures (i / size + 1 - 1) * size == i - i % size
    ensures 0 <= i % size < size
  {
  }

  /** `getNews`: ingest the feed, then list. `upsertFailsAt` is the position
      of the first article whose upsert throws, if any: the loop stops there,
      everything before it stays committed, and the reply is a 500. */
  function GetNews(st: Store, pageQuery: Option<int>, feed: Feed, upsertFailsAt: Option<nat>): (r: Step<PagingData<News>>)
    requires Valid(st)
    ensures Valid(r.store)
    ensures r.store.groups == st.groups && r.store.links == st.links && r.store.subs == st.subs
    ensures feed.FetchFailed? ==> r == Step(st, Fail(500, NewsError))
    ensures feed.Fetched? && upsertFailsAt.Some? && upsertFailsAt.value < |feed.articles| ==>
              r == Step(Ingest(st, feed.articles[..upsertFailsAt.value]), Fail(500, NewsError))
    ensures feed.Fetched? && (upsertFailsAt.None? || upsertFailsAt.value >= |feed.articles|) ==>
              r.store == Ingest(st, feed.articles) && r.reply == NewsPage(r.store, pageQuery)
  {
    match feed
    case FetchFailed => Step(st, Fail(500, NewsError))
    case Fetched(articles) =>
      if upsertFailsAt.Some? && upsertFailsAt.value < |articles| then
        Step(Ingest(st, articles[..upsertFailsAt.value]), Fail(500, NewsError))
      else
        var stored := Ingest(st, articles);
        Step(stored, NewsPage(stored, pageQuery))
  }

  /** The group a timeline is drawn from: that of the first link row that
      mentions the news item (`groupNews.findFirst({ where: { newsId } })`). */
  function TimelineGroup(links: seq<GroupNews>, newsId: NewsId): (g: Option<GroupId>)
    ensures g.None? <==> forall l :: l in links ==> l.newsId != newsId
    ensures g.Some? ==> GroupNews(g.value, newsId) in links
    ensures g.Some? ==> exists i :: 0 <= i < |links| && links[i] == GroupNews(g.value, newsId) &&
                           forall j :: 0 <= j < i ==> links[j].newsId != newsId
  {
    match FirstIndex(links, (l: GroupNews) => l.newsId == newsId)
    case None => None
    case Some(i) =>
      assert links[i] == GroupNews(links[i].groupId, newsId);
      Some(links[i].groupId)
  }

  /** `getTimeline`: the news of the group the item belongs to, newest first,
      fifty per page; 404 when no link mentions the item. */
  function GetTimeline(st: Store, newsId: NewsId, pageQuery: Option<int>): (r: Reply<PagingData<News>>)
    ensures r == Fail(404, "News not found in any group") <==> forall l :: l in st.links ==> l.newsId != newsId
    ensures r.Ok? || r == Fail(404, "News not found in any group") || r == Fail(500, TimelineError)
    ensures r.Ok? <==> TimelineGroup(st.links, newsId).Some? && QueryInt(pageQuery, 1) >= 1
    ensures r.Ok? ==>
              && GroupNews(TimelineGroup(st.links, newsId).value, newsId) in st.links
              && r.value.total == |LinksOf(st.links, TimelineGroup(st.links, newsId).value)|
              && r.value.page == QueryInt(pageQuery, 1)
              && r.value.limit == TimelinePageSize
              && |r.value.data| <= TimelinePageSize
              && NewestFirst(r.value.data)
              && forall n :: n in r.value.data ==>
                   n in st.news && GroupNews(TimelineGroup(st.links, newsId).value, n.id) in st.links
  {
    match TimelineGroup(st.links, newsId)
    case None => Fail(404, "News not found in any group")
    case Some(g) =>
      var page := QueryInt(pageQuery, 1);
      match NewestFirstWindow(NewsOfGroup(st, g), (page - 1) * TimelinePageSize, TimelinePageSize)
      case None => Fail(500, TimelineError)
      case Some(items) => Ok(Paginate(items, page, TimelinePageSize, |LinksOf(st.links, g)|))
  }

  /** The timeline of a stored, linked item is drawn from a group the item
      itself belongs to: the item is among that group's news. */
  lemma TimelineIncludesItem(st: Store, newsId: NewsId)
    requires Valid(st) && TimelineGroup(st.links, newsId).Some?
    ensures FindNews(st.news, newsId).Some?
    ensures FindNews(st.news, newsId).value in NewsOfGroup(st, TimelineGroup(st.links, newsId).value)
  {
  }

  /** The groups of a run of subscription rows, in the same order
      (`include: { group: true }`). */
  function GroupsOf(groups: seq<Group>, rows: seq<UserGroup>): (r: seq<Group>)
    requires forall s :: s in rows ==> HasGroup(groups, s.groupId)
    ensures |r| == |rows|
    ensures forall k :: 0 <= k < |r| ==> r[k] in groups && r[k].id == rows[k].groupId
  {
    if |rows| == 0 then []
    else [FindGroup(groups, rows[0].groupId).value] + GroupsOf(groups, rows[1..])
  }

  /** The subscription rows of one user. */
  function SubscriptionsOfUser(subs: seq<UserGroup>, u: UserId): seq<UserGroup> {
    Filter(subs, (s: UserGroup) => s.userId == u)
  }

  /** `getFollowUp`: the groups the signed-in user follows, fifty per page.
      A request without a user fails on the `req.user!` dereference inside
      the handler's `try`, and is answered with status 500. */
  function GetFollowUp(st: Store, user: Option<User>, pageQuery: Option<int>): (r: Reply<PagingData<Group>>)
    requires Valid(st)
    ensures r.Ok? || r == Fail(500, FollowUpError)
    ensures r.Ok? <==> user.Some? && QueryInt(pageQuery, 1) >= 1
    ensures r.Ok? ==>
              && r.value.total == |SubscriptionsOfUser(st.subs, user.value.id)|
              && r.value.page == QueryInt(pageQuery, 1)
              && r.value.limit == FollowUpPageSize
              && |r.value.data| <= FollowUpPageSize
              && forall g :: g in r.value.data ==> g in st.groups && UserGroup(user.value.id, g.id) in st.subs
  {
    match user
    case None => Fail(500, FollowUpError)
    case Some(u) =>
      var page := QueryInt(pageQuery, 1);
      var rows := SubscriptionsOfUser(st.subs, u.id);
      match Window(rows, (page - 1) * FollowUpPageSize, FollowUpPageSize)
      case None => Fail(500, FollowUpError)
      case Some(w) =>
        assert forall k :: 0 <= k < |w| ==> w[k] in rows;
        var groups := GroupsOf(st.groups, w);
        assert forall g :: g in groups ==> exists k :: 0 <= k < |w| && groups[k] == g;
        Ok(Paginate(groups, page, FollowUpPageSize, |rows|))
  }

  /** `getAiAnswerForNews` up to the answer: 404 for an unknown news id,
      otherwise the stored item the answer is about. */
  function AiAnswerSubject(st: Store, newsId: NewsId): (r: Reply<News>)
    ensures r == Fail(404, "News not found") <==> !HasNews(st.news, newsId)
    ensures r.Ok? || r == Fail(404, "News not found")
    ensures r.Ok? ==> r.value in st.news && r.value.id == newsId
  {
    match FindNews(st.news, newsId)
    case None => Fail(404, "News not found")
    case Some(n) => Ok(n)
  }

  /** Every article of an ingested batch can be asked about: the row that
      holds its URL is what the lookup by that row's id finds. */
  lemma IngestedArticleIsAnswerable(st: Store, batch: seq<Article>, u: string)
    requires Valid(st) && u in BatchUrls(batch)
    ensures exists i :: 0 <= i < |Ingest(st, batch).news| && Ingest(st, batch).news[i].url == u &&
              AiAnswerSubject(Ingest(st, batch), Ingest(st, batch).news[i].id) == Ok(Ingest(st, batch).news[i])
  {
    var r := Ingest(st, batch);
    assert u in Urls(r.news);
    var n :| n in r.news && n.url == u;
    var i :| 0 <= i < |r.news| && r.news[i] == n;
    FindNewsFindsRow(r.news, i);
  }
}
