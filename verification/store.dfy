/** The records of `src/models/types.ts` and the four storage tables the
    controllers read and write: News, Group, GroupNews links and UserGroup
    subscriptions. Each table is a sequence of rows in storage order; the
    order stands in for the order storage returns rows in when a query does
    not ask for one. */
module Store {
  import opened Base

  type NewsId = nat
  type GroupId = nat
  type UserId = string
  /** A publication time; only its order matters. */
  type Timestamp = int

  datatype News = News(
    id: NewsId,
    title: string,
    description: Option<string>,
    content: Option<string>,
    author: Option<string>,
    sourceId: Option<string>,
    sourceName: Option<string>,
    url: string,
    urlToImage: Option<string>,
    publishedAt: Timestamp)

  datatype Group = Group(id: GroupId, name: string, description: Option<string>)

  /** A link row: the news item `newsId` belongs to group `groupId`. */
  datatype GroupNews = GroupNews(groupId: GroupId, newsId: NewsId)

  /** A subscription row: user `userId` follows group `groupId`. */
  datatype UserGroup = UserGroup(userId: UserId, groupId: GroupId)

  /** The payload of a verified token. */
  datatype User = User(id: UserId, username: string)

  /** The database. `nextId` is where storage's id generator stands: every
      id it has handed out is below it. */
  datatype Store = Store(
    news: seq<News>,
    groups: seq<Group>,
    links: seq<GroupNews>,
    subs: seq<UserGroup>,
    nextId: nat)

  /** What a handler sends back. `Thrown` is an exception handed to
      `next(error)`, which the framework answers with status 500. */
  datatype Reply<T> =
    | Ok(value: T)
    | Created(value: T)
    | Fail(status: nat, error: string)
    | Thrown

  /** A handler that may change the database: the new database and the reply. */
  datatype Step<T> = Step(store: Store, reply: Reply<T>)

  predicate UniqueUrls(news: seq<News>) {
    forall i, j :: 0 <= i < j < |news| ==> news[i].url != news[j].url
  }

  predicate UniqueNewsIds(news: seq<News>) {
    forall i, j :: 0 <= i < j < |news| ==> news[i].id != news[j].id
  }

  predicate UniqueGroupIds(groups: seq<Group>) {
    forall i, j :: 0 <= i < j < |groups| ==> groups[i].id != groups[j].id
  }

  predicate HasNews(news: seq<News>, id: NewsId) {
    exists i :: 0 <= i < |news| && news[i].id == id
  }

  predicate HasGroup(groups: seq<Group>, id: GroupId) {
    exists i :: 0 <= i < |groups| && groups[i].id == id
  }

  /** What storage guarantees of every state: `url` is the unique key of News
      (the upsert is keyed by it), ids are unique and come from the generator,
      link and subscription rows are unique by their compound key and point at
      existing rows. */
  predicate Valid(st: Store) {
    && UniqueUrls(st.news)
    && UniqueNewsIds(st.news)
    && (forall i :: 0 <= i < |st.news| ==> st.news[i].id < st.nextId)
    && UniqueGroupIds(st.groups)
    && (forall i :: 0 <= i < |st.groups| ==> st.groups[i].id < st.nextId)
    && NoDuplicates(st.links)
    && NoDuplicates(st.subs)
    && (forall l :: l in st.links ==> HasNews(st.news, l.newsId) && HasGroup(st.groups, l.groupId))
    && (forall s :: s in st.subs ==> HasGroup(st.groups, s.groupId))
  }

  /** The set of URLs stored. */
  function Urls(news: seq<News>): set<string> {
    set n | n in news :: n.url
  }

  /** With unique URLs a stored URL sits in exactly one row. */
  lemma RowOfUrl(news: seq<News>, u: string)
    requires UniqueUrls(news) && u in Urls(news)
    ensures exists i :: 0 <= i < |news| && news[i].url == u &&
              forall j :: 0 <= j < |news| && news[j].url == u ==> j == i
  {
    var n :| n in news && n.url == u;
    var i :| 0 <= i < |news| && news[i] == n;
    assert forall j :: 0 <= j < |news| && news[j].url == u ==> j == i;
  }

  /** `findUnique` on News by id. */
  function FindNews(news: seq<News>, id: NewsId): (r: Option<News>)
    ensures r.None? <==> !HasNews(news, id)
    ensures r.Some? ==> r.value in news && r.value.id == id
  {
    match FirstIndex(news, (n: News) => n.id == id)
    case None => None
    case Some(i) => Some(news[i])
  }

  /** With unique ids the lookup finds exactly the row with the id. */
  lemma FindNewsFindsRow(news: seq<News>, i: nat)
    requires UniqueNewsIds(news) && i < |news|
    ensures FindNews(news, news[i].id) == Some(news[i])
  {
    var found := FindNews(news, news[i].id).value;
    var j :| 0 <= j < |news| && news[j] == found;
    assert j == i;
  }

  /** `findUnique` on Group by id. */
  function FindGroup(groups: seq<Group>, id: GroupId): (r: Option<Group>)
    ensures r.None? <==> !HasGroup(groups, id)
    ensures r.Some? ==> r.value in groups && r.value.id == id
  {
    match FirstIndex(groups, (g: Group) => g.id == id)
    case None => None
    case Some(i) => Some(groups[i])
  }

  /** The link rows of one group, as `groupNews.count({ where: { groupId } })` counts them. */
  function LinksOf(links: seq<GroupNews>, g: GroupId): seq<GroupNews> {
    Filter(links, (l: GroupNews) => l.groupId == g)
  }

  /** The subscription rows of one group. */
  function FollowersOf(subs: seq<UserGroup>, g: GroupId): seq<UserGroup> {
    Filter(subs, (s: UserGroup) => s.groupId == g)
  }

  /** The News rows that some link ties to group `g`. */
  function NewsOfGroup(st: Store, g: GroupId): (r: seq<News>)
    ensures forall n :: n in r <==> n in st.news && GroupNews(g, n.id) in st.links
  {
    Filter(st.news, (n: News) => GroupNews(g, n.id) in st.links)
  }

  /** Newest first: `orderBy: { publishedAt: 'desc' }`. */
  predicate NewestFirst(s: seq<News>) {
    forall i, j :: 0 <= i < j < |s| ==> s[i].publishedAt >= s[j].publishedAt
  }

  /** Inserting one row into a newest-first list, before the first row
      that is not newer than it. */
  function InsertByDate(x: News, s: seq<News>): (r: seq<News>)
    requires NewestFirst(s)
    ensures NewestFirst(r)
    ensures |r| == |s| + 1
    ensures r[0] == x || (|s| > 0 && r[0] == s[0])
    decreases |s|
  {
    if |s| == 0 || x.publishedAt >= s[0].publishedAt then [x] + s
    else
      var rest := InsertByDate(x, s[1..]);
      assert rest[0].publishedAt <= s[0].publishedAt;
      assert forall k :: 0 <= k < |rest| ==> rest[k].publishedAt <= rest[0].publishedAt;
      [s[0]] + rest
  }

  /** Insertion adds exactly the one row, to the rows present. */
  lemma {:induction false} InsertByDateMembers(x: News, s: seq<News>)
    requires NewestFirst(s)
    ensures forall n :: n in InsertByDate(x, s) <==> n == x || n in s
    decreases |s|
  {
    if |s| > 0 && x.publishedAt < s[0].publishedAt {
      InsertByDateMembers(x, s[1..]);
      assert s == [s[0]] + s[1..];
    }
  }

  /** Insertion adds exactly the one row, counting repetitions. */
  lemma {:induction false} InsertByDatePermutes(x: News, s: seq<News>)
    requires NewestFirst(s)
    ensures multiset(InsertByDate(x, s)) == multiset(s) + multiset{x}
    decreases |s|
  {
    if |s| > 0 && x.publishedAt < s[0].publishedAt {
      InsertByDatePermutes(x, s[1..]);
      assert s == [s[0]] + s[1..];
    }
  }

  /** The rows of `s` ordered newest first. Storage leaves the order of rows
      with equal timestamps open; this ordering is one admissible choice. */
  function NewestFirstOrder(s: seq<News>): (r: seq<News>)
    ensures NewestFirst(r)
    ensures |r| == |s|
    ensures forall n :: n in r <==> n in s
    decreases |s|
  {
    if |s| == 0 then []
    else
      var rest := NewestFirstOrder(s[1..]);
      InsertByDateMembers(s[0], rest);
      assert forall n :: n in s <==> n == s[0] || n in s[1..];
      InsertByDate(s[0], rest)
  }

  /** The newest-first order is a permutation of the rows. */
  lemma {:induction false} NewestFirstOrderPermutes(s: seq<News>)
    ensures multiset(NewestFirstOrder(s)) == multiset(s)
    decreases |s|
  {
    if |s| > 0 {
      NewestFirstOrderPermutes(s[1..]);
      InsertByDatePermutes(s[0], NewestFirstOrder(s[1..]));
      assert s == [s[0]] + s[1..];
    }
  }
}
