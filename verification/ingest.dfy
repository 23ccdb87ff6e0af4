/** The ingestion loop of `getNews`: every feed article is upserted into the
    News table keyed by its URL (src/controllers/newsController.ts:20-45 and
    its compiled twin src/controllers/newsController.js:55-89). */
module Ingestion {
  import opened Base
  import opened Store

  datatype Source = Source(id: Option<string>, name: Option<string>)

  /** One article of the feed, with its publication time already parsed. An
      absent field is a JSON `null`; a key missing from the feed altogether,
      which an update would skip, is not represented. */
  datatype Article = Article(
    source: Source,
    author: Option<string>,
    title: string,
    description: Option<string>,
    url: string,
    urlToImage: Option<string>,
    publishedAt: Timestamp,
    content: Option<string>)

  /** `value || 'unknown'`, the default for the source id and name. */
  function SourceField(value: Option<string>): (r: string)
    ensures r != ""
    ensures Truthy(value) ==> r == value.value
    ensures !Truthy(value) ==> r == "unknown"
  {
    OrElse(value, "unknown")
  }

  /** The row carries the article's fields: those both branches of the
      upsert write, with the 'unknown' defaults for the source. */
  predicate Reflects(n: News, a: Article) {
    && n.title == a.title
    && n.description == a.description
    && n.content == a.content
    && n.author == a.author
    && n.sourceId == Some(SourceField(a.source.id))
    && n.sourceName == Some(SourceField(a.source.name))
    && n.urlToImage == a.urlToImage
    && n.publishedAt == a.publishedAt
  }

  /** The `create` branch of the upsert: a new row with a storage-assigned id. */
  function Create(id: NewsId, a: Article): (r: News)
    ensures r.id == id && r.url == a.url
    ensures Reflects(r, a)
  {
    News(id, a.title, a.description, a.content, a.author,
         Some(SourceField(a.source.id)), Some(SourceField(a.source.name)),
         a.url, a.urlToImage, a.publishedAt)
  }

  /** The `update` branch of the upsert: the mutable fields are overwritten,
      `id` and `url` are kept. */
  function Refresh(n: News, a: Article): (r: News)
    ensures r.id == n.id && r.url == n.url
    ensures Reflects(r, a)
  {
    n.(title := a.title, description := a.description, content := a.content,
       author := a.author, sourceId := Some(SourceField(a.source.id)),
       sourceName := Some(SourceField(a.source.name)),
       urlToImage := a.urlToImage, publishedAt := a.publishedAt)
  }

  /** Refreshing a row changes nothing exactly when the row already carries
      the article's fields. */
  lemma RefreshFixesReflecting(n: News, a: Article)
    ensures Refresh(n, a) == n <==> Reflects(n, a)
  {
  }

  /** Both branches write the same fields, the 'unknown' defaults included:
      a created row is exactly what refreshing any row with its id and URL gives. */
  lemma CreateAgreesWithRefresh(n: News, a: Article)
    requires n.url == a.url
    ensures Create(n.id, a) == Refresh(n, a)
    ensures Reflects(Create(n.id, a), a)
    ensures Create(n.id, a).sourceId == Some("unknown") <==> !Truthy(a.source.id) || a.source.id.value == "unknown"
    ensures Create(n.id, a).sourceName == Some("unknown") <==> !Truthy(a.source.name) || a.source.name.value == "unknown"
  {
  }

  /** `prisma.news.upsert({ where: { url }, update, create })`. */
  function Upsert(st: Store, a: Article): (r: Store)
    requires Valid(st)
    ensures Valid(r)
    ensures r.groups == st.groups && r.links == st.links && r.subs == st.subs
    ensures Urls(r.news) == Urls(st.news) + {a.url}
    ensures |st.news| <= |r.news|
    // an existing row with the URL is refreshed in place, keeping id and URL
    ensures forall i :: 0 <= i < |st.news| ==>
              r.news[i] == (if st.news[i].url == a.url then Refresh(st.news[i], a) else st.news[i])
    // a missing URL gains exactly one row, with a fresh id
    ensures a.url in Urls(st.news) ==> |r.news| == |st.news| && r.nextId == st.nextId
    ensures a.url !in Urls(st.news) ==>
              && |r.news| == |st.news| + 1 && r.nextId == st.nextId + 1
              && r.news[|st.news|] == Create(st.nextId, a)
  {
    match FirstIndex(st.news, (n: News) => n.url == a.url)
    case Some(i) =>
      RefreshKeepsValid(st, i, a);
      st.(news := st.news[i := Refresh(st.news[i], a)])
    case None =>
      AppendKeepsValid(st, a);
      st.(news := st.news + [Create(st.nextId, a)], nextId := st.nextId + 1)
  }

  lemma RefreshKeepsValid(st: Store, i: nat, a: Article)
    requires Valid(st) && i < |st.news| && st.news[i].url == a.url
    ensures var r := st.(news := st.news[i := Refresh(st.news[i], a)]);
            Valid(r) && Urls(r.news) == Urls(st.news)
  {
    var r := st.(news := st.news[i := Refresh(st.news[i], a)]);
    assert forall j :: 0 <= j < |st.news| ==> r.news[j].id == st.news[j].id && r.news[j].url == st.news[j].url;
    forall id | HasNews(st.news, id) ensures HasNews(r.news, id) {
      var j :| 0 <= j < |st.news| && st.news[j].id == id;
      assert r.news[j].id == id;
    }
    forall u | u in Urls(st.news) ensures u in Urls(r.news) {
      var n :| n in st.news && n.url == u;
      var j :| 0 <= j < |st.news| && st.news[j] == n;
      assert r.news[j].url == u;
    }
    forall u | u in Urls(r.news) ensures u in Urls(st.news) {
      var n :| n in r.news && n.url == u;
      var j :| 0 <= j < |r.news| && r.news[j] == n;
      assert st.news[j].url == u;
    }
  }

  lemma AppendKeepsValid(st: Store, a: Article)
    requires Valid(st) && forall j :: 0 <= j < |st.news| ==> st.news[j].url != a.url
    ensures var r := st.(news := st.news + [Create(st.nextId, a)], nextId := st.nextId + 1);
            Valid(r) && Urls(r.news) == Urls(st.news) + {a.url}
  {
    var r := st.(news := st.news + [Create(st.nextId, a)], nextId := st.nextId + 1);
    assert forall j :: 0 <= j < |st.news| ==> r.news[j] == st.news[j];
    forall id | HasNews(st.news, id) ensures HasNews(r.news, id) {
      var j :| 0 <= j < |st.news| && st.news[j].id == id;
      assert r.news[j].id == id;
    }
    assert r.news == st.news + [Create(st.nextId, a)];
  }

  /** The URLs of a batch. */
  function BatchUrls(batch: seq<Article>): set<string> {
    set a | a in batch :: a.url
  }

  /** The last article of the batch with URL `u`: the one whose fields win. */
  function Last(batch: seq<Article>, u: string): (a: Article)
    requires u in BatchUrls(batch)
    ensures a.url == u
    ensures exists i :: 0 <= i < |batch| && batch[i] == a && forall j :: i < j < |batch| ==> batch[j].url != u
    decreases |batch|
  {
    var n := |batch| - 1;
    if batch[n].url == u then batch[n]
    else
      assert batch == batch[..n] + [batch[n]];
      assert u in BatchUrls(batch[..n]) by {
        var a :| a in batch && a.url == u;
        assert a in batch[..n];
      }
      var a := Last(batch[..n], u);
      assert exists i :: 0 <= i < n && batch[i] == a && forall j :: i < j < |batch| ==> batch[j].url != u;
      a
  }

  /** How one more article at the end of a batch changes the winner for a URL. */
  lemma LastOfExtended(pre: seq<Article>, a: Article, u: string)
    ensures u in BatchUrls(pre + [a]) <==> u in BatchUrls(pre) || u == a.url
    ensures u == a.url ==> Last(pre + [a], u) == a
    ensures u != a.url && u in BatchUrls(pre) ==> Last(pre + [a], u) == Last(pre, u)
  {
    var batch := pre + [a];
    assert batch[|pre|] == a && batch[..|pre|] == pre;
    assert BatchUrls(batch) == BatchUrls(pre) + {a.url} by {
      assert forall x :: x in batch <==> x in pre || x == a;
    }
  }

  /** The ingestion loop: the articles are upserted one after another, in
      feed order. */
  function Ingest(st: Store, batch: seq<Article>): (r: Store)
    requires Valid(st)
    ensures Valid(r)
    ensures r.groups == st.groups && r.links == st.links && r.subs == st.subs
    ensures Urls(r.news) == Urls(st.news) + BatchUrls(batch)
    ensures |st.news| <= |r.news| && r.nextId == st.nextId + (|r.news| - |st.news|)
    decreases |batch|
  {
    if |batch| == 0 then st
    else
      var n := |batch| - 1;
      assert batch == batch[..n] + [batch[n]];
      assert BatchUrls(batch) == BatchUrls(batch[..n]) + {batch[n].url};
      Upsert(Ingest(st, batch[..n]), batch[n])
  }

  /** Rows that existed keep their place, id and URL; those the batch names
      carry the fields of the last article with their URL, the others are unchanged. */
  lemma {:induction false} IngestOldRows(st: Store, batch: seq<Article>)
    requires Valid(st)
    ensures forall i :: 0 <= i < |st.news| ==>
              Ingest(st, batch).news[i] ==
                (if st.news[i].url in BatchUrls(batch)
                 then Refresh(st.news[i], Last(batch, st.news[i].url))
                 else st.news[i])
    decreases |batch|
  {
    if |batch| > 0 {
      var n := |batch| - 1;
      var a := batch[n];
      var pre := batch[..n];
      assert batch == pre + [a];
      assert BatchUrls(batch) == BatchUrls(pre) + {a.url};
      IngestOldRows(st, pre);
      var p := Ingest(st, pre);
      var r := Ingest(st, batch);
      assert r == Upsert(p, a);
      forall i | 0 <= i < |st.news|
        ensures r.news[i] == (if st.news[i].url in BatchUrls(batch)
                              then Refresh(st.news[i], Last(batch, st.news[i].url))
                              else st.news[i])
      {
        var u := st.news[i].url;
        assert p.news[i].url == u;
        LastOfExtended(pre, a, u);
      }
    }
  }

  /** Rows that were added are for URLs new to the table, one per URL, and
      carry the fields of the last article with their URL. */
  lemma {:induction false} IngestNewRows(st: Store, batch: seq<Article>)
    requires Valid(st)
    ensures forall i :: |st.news| <= i < |Ingest(st, batch).news| ==>
              NewRowFor(st, batch, Ingest(st, batch).news[i])
    decreases |batch|
  {
    if |batch| > 0 {
      var n := |batch| - 1;
      var a := batch[n];
      var pre := batch[..n];
      assert batch == pre + [a];
      IngestNewRows(st, pre);
      assert Ingest(st, batch) == Upsert(Ingest(st, pre), a);
      NewRowsStep(st, Ingest(st, pre), pre, a);
    }
  }

  /** A row added by ingesting `batch`: its URL is named by the batch, was
      not stored before, and the row carries the winning article's fields. */
  predicate NewRowFor(st: Store, batch: seq<Article>, row: News) {
    && row.url in BatchUrls(batch)
    && row.url !in Urls(st.news)
    && Reflects(row, Last(batch, row.url))
  }

  /** One upsert at the end of the batch keeps the added rows as described. */
  lemma NewRowsStep(st: Store, p: Store, pre: seq<Article>, a: Article)
    requires Valid(p) && |st.news| <= |p.news|
    requires Urls(st.news) <= Urls(p.news)
    requires forall i :: |st.news| <= i < |p.news| ==> NewRowFor(st, pre, p.news[i])
    ensures forall i :: |st.news| <= i < |Upsert(p, a).news| ==>
              NewRowFor(st, pre + [a], Upsert(p, a).news[i])
  {
    var r := Upsert(p, a);
    forall i | |st.news| <= i < |r.news|
      ensures NewRowFor(st, pre + [a], r.news[i])
    {
      if i < |p.news| {
        var u := p.news[i].url;
        LastOfExtended(pre, a, u);
        if u == a.url {
          assert r.news[i] == Refresh(p.news[i], a);
        } else {
          assert r.news[i] == p.news[i];
        }
      } else {
        LastOfExtended(pre, a, a.url);
        assert r.news[i] == Create(p.nextId, a);
      }
    }
  }

  /** After ingestion every URL of the batch is held by exactly one row. */
  lemma OneRowPerUrl(st: Store, batch: seq<Article>, u: string)
    requires Valid(st) && u in BatchUrls(batch)
    ensures exists i :: 0 <= i < |Ingest(st, batch).news| && Ingest(st, batch).news[i].url == u &&
              forall j :: 0 <= j < |Ingest(st, batch).news| && Ingest(st, batch).news[j].url == u ==> j == i
  {
    RowOfUrl(Ingest(st, batch).news, u);
  }

  /** After ingestion every row whose URL the batch names carries the
      fields of the last article with that URL. */
  lemma IngestReflectsLast(st: Store, batch: seq<Article>)
    requires Valid(st)
    ensures forall i :: 0 <= i < |Ingest(st, batch).news| && Ingest(st, batch).news[i].url in BatchUrls(batch) ==>
              Reflects(Ingest(st, batch).news[i], Last(batch, Ingest(st, batch).news[i].url))
  {
    var once := Ingest(st, batch);
    IngestOldRows(st, batch);
    IngestNewRows(st, batch);
    forall i | 0 <= i < |once.news| && once.news[i].url in BatchUrls(batch)
      ensures Reflects(once.news[i], Last(batch, once.news[i].url))
    {
      if i < |st.news| {
        assert once.news[i] == Refresh(st.news[i], Last(batch, st.news[i].url));
      }
    }
  }

  /** Ingesting the same batch a second time changes nothing: no row is
      added and every row already carries the fields it would be given. */
  lemma IngestIdempotent(st: Store, batch: seq<Article>)
    requires Valid(st)
    ensures Ingest(Ingest(st, batch), batch) == Ingest(st, batch)
  {
    var once := Ingest(st, batch);
    var twice := Ingest(once, batch);
    SameNews(st, batch);
    assert twice.news == once.news;
    KnownUrlsAddNoRow(once, batch);
  }

  /** The row contents of `IngestIdempotent`. */
  lemma SameNews(st: Store, batch: seq<Article>)
    requires Valid(st)
    ensures Ingest(Ingest(st, batch), batch).news == Ingest(st, batch).news
  {
    var once := Ingest(st, batch);
    var twice := Ingest(once, batch);
    IngestReflectsLast(st, batch);
    KnownUrlsAddNoRow(once, batch);
    IngestOldRows(once, batch);
    forall i | 0 <= i < |once.news|
      ensures twice.news[i] == once.news[i]
    {
      var n := once.news[i];
      if n.url in BatchUrls(batch) {
        assert Reflects(n, Last(batch, n.url));
        RefreshFixesReflecting(n, Last(batch, n.url));
      }
    }
  }

  /** Ingesting a batch whose URLs are all stored already adds no row. */
  lemma {:induction false} KnownUrlsAddNoRow(st: Store, batch: seq<Article>)
    requires Valid(st) && BatchUrls(batch) <= Urls(st.news)
    ensures |Ingest(st, batch).news| == |st.news|
    ensures Ingest(st, batch).nextId == st.nextId
    decreases |batch|
  {
    if |batch| > 0 {
      var n := |batch| - 1;
      var pre := batch[..n];
      assert batch == pre + [batch[n]];
      assert BatchUrls(batch) == BatchUrls(pre) + {batch[n].url};
      KnownUrlsAddNoRow(st, pre);
      assert Ingest(st, batch) == Upsert(Ingest(st, pre), batch[n]);
    }
  }
}
