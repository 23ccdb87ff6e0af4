# news-app: a Dafny model of the request handlers

This project models the server core of the news-app backend (Express handlers over a
Prisma database) as pure Dafny functions over an immutable database value, and proves
what the handlers promise.

- **Paging** (`paging.dfy`). This covers the `paginate` envelope, with `totalPages` as
  the JavaScript ceiling of `total / limit`. It also covers the `parseInt(q) || default`
  reading of query numbers and the `skip`/`take` window that every listing asks storage for.
- **Storage** (`store.dfy`). There are four tables: News, Group, GroupNews links and
  UserGroup subscriptions.
  - Each table is a sequence of rows in storage order.
  - The invariant `Valid` states what storage guarantees:
    - a unique URL per News row;
    - unique ids drawn from one id generator;
    - no duplicate link or subscription;
    - links and subscriptions refer to existing rows.
  - The order `publishedAt desc` is an insertion sort.
- **Ingestion** (`ingest.dfy`). This is the loop of `getNews`. It upserts every feed
  article keyed by its URL, with the `'unknown'` default for the source id and name.
  When a batch repeats a URL, the last article with that URL wins. Ingesting the same
  batch again changes nothing.
- **Queries** (`queries.dfy`). This is the newest-first `findMany` with `skip` and
  `take` that the listings issue. It also records what the order leaves open: rows
  with equal publication times may come back in either order, and without such ties
  the order is forced.
- **News handlers** (`news.dfy`). These are `getNews` (including the failure of the
  fetch or of any single upsert), `getTimeline`, `getFollowUp` and the lookup that
  precedes `getAiAnswerForNews`. The TypeScript file and its compiled JavaScript twin
  behave the same in every modelled respect.
- **Group handlers** (`groups.dfy`):
  - follow and unfollow, both with a token in the path and as the signed-in user;
  - `createGroup`;
  - `getGroups`, `getGroupById` and `getGroupNews`.
- **Authentication gate** (`auth.dfy`):
  - which token a request carries, where the Authorization header wins over the
    `jwtToken` query parameter;
  - the 401 / 403 / continue decision of `authMiddleware` and `optionalAuthMiddleware`;
  - the header-only compiled variant of both.

  Token verification (`jwt.verify` with the configured secret) is a function parameter.

Handlers that write return `Step(store, reply)`, and read-only handlers return a
`Reply`. A reply is one of:
- `Ok(value)`: status 200;
- `Created(value)`: status 201;
- `Fail(status, error)`: an error response written by the handler;
- `Thrown`: an exception handed to `next(error)`, which Express answers with status 500.

Other modelling choices:
- Ids are opaque strings in the program. Here they are naturals handed out by one
  counter, `nextId`, which stands for storage's id generator.
- A publication time is an integer that is only compared.

Storage behaviour the model assumes, because the schema and the client library are
not part of this model:
- A `findMany` with a negative `skip` throws.
- A negative `take` counts rows back from the end of the ordered list.
- Creating a subscription to a group that does not exist violates the reference from
  UserGroup to Group and throws.
- When several news rows share a publication time, storage leaves their order open.
  The model fixes one admissible order. The pages of a listing are separate queries,
  so with ties a row can show up on two pages and another on none
  (`Queries.TiedRowsTwoOrders`).

## Model

| member | source | states |
|---|---|---|
| Paging.CeilDiv | src/utils/pagingUtils.js:4-5 | for a positive limit the page count is the least n with n·limit ≥ total; it is 0 exactly when total is 0; for a negative limit the JavaScript ceiling of the negative quotient is pinned by the mirrored bounds |
| Paging.Paginate | src/utils/pagingUtils.ts:9-18 | data, page, limit and total come back unchanged; totalPages is the ceiling of total/limit (≥ 1 whenever total and limit are positive, 0 for total 0); a zero limit is excluded by the precondition since the source has no guard |
| Paging.QueryInt | src/controllers/newsController.ts:14 | a missing or zero parameter gives the default; any other number, negative ones included, is used as given; a non-zero default never yields 0 |
| Paging.Window | src/controllers/newsController.ts:47-51 | a negative skip makes the query throw; otherwise a non-negative take yields exactly the rows from skip on, at most take of them, and a negative take yields the last rows before the skipped tail |
| Paging.SkipSign | src/controllers/groupController.ts:119-124 | the skip (page−1)·limit is non-negative exactly on page 1 and when page and limit point the same way |
| Paging.RowOnItsPage | src/utils/pagingUtils.ts:10 | with a positive limit, row i is entry i mod limit of page ⌊i/limit⌋+1, and that page lies within the reported page count |
| Paging.PageNonEmptyIff | src/utils/pagingUtils.ts:10 | with a positive limit a page holds rows exactly when its number is at most totalPages; later pages are empty, not an error |
| Paging.TwentyThreeRowsTenPerPage | src/utils/pagingUtils.ts:9-18 | 23 rows at 10 per page report 3 pages, and pages 1, 3 and 4 hold 10, 3 and 0 rows |
| Store.FindNews | src/controllers/newsController.ts:104 | finds a row with the id exactly when one exists |
| Store.FindGroup | src/controllers/groupController.ts:26-28 | finds a group with the id exactly when one exists |
| Store.NewsOfGroup | src/controllers/groupController.ts:270-277 | a News row is listed exactly when a link ties it to the group |
| Store.NewestFirstOrder | src/controllers/newsController.ts:47-51 | the rows ordered by publication time descending: sorted newest first, of the same length and with the same members as the input |
| Store.NewestFirstOrderPermutes | src/controllers/newsController.ts:50 | the newest-first order is a permutation of the rows: each occurs as often as in the input |
| Store.InsertByDate | src/controllers/newsController.ts:50 | inserting into a newest-first list keeps it newest first and one longer, with the new row or the old head in front |
| Store.InsertByDateMembers | src/controllers/newsController.ts:50 | the list after insertion holds exactly the inserted row and the rows before |
| Store.InsertByDatePermutes | src/controllers/newsController.ts:50 | insertion adds exactly one occurrence of the row and keeps every other count |
| Store.FindNewsFindsRow | src/controllers/newsController.ts:104 | with unique ids, the lookup by a row's id returns that row |
| Store.RowOfUrl | src/controllers/newsController.ts:22 | with unique URLs, a stored URL sits in exactly one row |
| Ingestion.SourceField | src/controllers/newsController.ts:28-29 | a falsy source id or name (absent or empty) becomes 'unknown'; any other value is kept; the result is never empty |
| Ingestion.Create | src/controllers/newsController.ts:33-43 | the created row has the given id and the article's URL, and carries the article's fields with the 'unknown' source defaults |
| Ingestion.Refresh | src/controllers/newsController.ts:23-32 | the updated row keeps its id and URL and carries the article's fields with the 'unknown' source defaults |
| Ingestion.RefreshFixesReflecting | src/controllers/newsController.ts:21-32 | an update changes a row exactly when the row does not already carry the article's fields |
| Ingestion.CreateAgreesWithRefresh | src/controllers/newsController.ts:21-43 | the create and update branches write the same fields, 'unknown' defaults included, so a created row already reflects its article |
| Ingestion.Upsert | src/controllers/newsController.ts:21-44 | a stored URL has its row refreshed in place with its id and URL kept and every other row untouched; a new URL gains exactly one row with a fresh id; the URL set grows by the article's URL; the invariant holds |
| Ingestion.Last | src/controllers/newsController.ts:20-45 | the article whose fields win for a URL is one carrying that URL after which no article carries it |
| Ingestion.LastOfExtended | src/controllers/newsController.ts:20-45 | one more article at the end of a batch wins for its own URL and leaves the winner of every other URL as it was |
| Ingestion.Ingest | src/controllers/newsController.ts:20-45 | after the loop the stored URLs are the old ones plus the batch's; one new id is used per added row; the other tables are unchanged; the invariant holds |
| Ingestion.IngestOldRows | src/controllers/newsController.ts:21-32 | every pre-existing row keeps its position, id and URL, and carries the fields of the last batch article with its URL if there is one, and is unchanged otherwise |
| Ingestion.IngestNewRows | src/controllers/newsController.js:72-82 | every added row is for a URL of the batch that was not stored before, and carries the fields of the last article with that URL |
| Ingestion.OneRowPerUrl | src/controllers/newsController.ts:20-45 | after ingestion every URL of the batch is held by exactly one row |
| Ingestion.IngestReflectsLast | src/controllers/newsController.ts:21-43 | after ingestion every row whose URL the batch names carries the fields of the last article with that URL |
| Ingestion.SameNews | src/controllers/newsController.ts:20-45 | ingesting the batch a second time leaves the News table as the first pass left it |
| Ingestion.IngestIdempotent | src/controllers/newsController.js:55-89 | ingesting the same batch twice gives the same database as ingesting it once |
| Ingestion.KnownUrlsAddNoRow | src/controllers/newsController.ts:20-45 | a batch of already-stored URLs adds no row and uses no id |
| NewsController.NewsPage | src/controllers/newsController.ts:47-56 | the listing succeeds exactly for page ≥ 1 (otherwise 500); it has page size 5 and the count of all news as total; it holds the entries of the newest-first order from position (page−1)·5 on, as many as remain up to 5 |
| NewsController.EveryNewsOnItsPage | src/controllers/newsController.js:90-100 | in the model's fixed newest-first order, page i/5+1 holds the item at position i as its entry i mod 5, so paging meets every stored item exactly once |
| NewsController.EveryNewsOnItsPageWithoutTies | src/controllers/newsController.ts:47-51 | when no two rows tie, whatever newest-first order storage uses for a page query, page i/5+1 holds the row at position i of it, so paging meets every row exactly once |
| NewsController.GetNews | src/controllers/newsController.js:44-111 | a failed fetch is a 500 with nothing stored; a failed upsert is a 500 with the articles before it committed; otherwise the whole feed is ingested and the listing is taken from the new database |
| Queries.NewestFirstWindow | src/controllers/newsController.ts:83-88 | a window of the newest-first order is itself newest first, holds only rows of the input and at most abs(take) of them, and for a non-negative take is exactly the slice at skip |
| Queries.WindowOfNewestFirst | src/controllers/groupController.ts:278-280 | any window, forward or backward, of a newest-first list is newest first and drawn from the list |
| Queries.NewestFirstUnique | src/controllers/newsController.ts:50 | when no two rows share a publication time, any two newest-first arrangements of the same rows are equal |
| Queries.NoTiesOneOrder | src/controllers/newsController.ts:47-51 | without ties, every newest-first arrangement that storage may return for the listing query is the model's order |
| Queries.TiedRowsTwoOrders | src/controllers/newsController.js:90-94 | with two tied rows, both arrangements are newest first, and pages 1 and 2 of size 1, taken from the two arrangements, both show the same row |
| NewsController.TimelineGroup | src/controllers/newsController.ts:69-76 | no group exactly when no link mentions the item; otherwise the group of the first such link in storage order |
| NewsController.GetTimeline | src/controllers/newsController.ts:63-98 | 404 exactly when no link mentions the item; a page below 1 is a 500; otherwise at most 50 items, newest first, all linked to the chosen group, with that group's link count as total |
| NewsController.TimelineIncludesItem | src/controllers/newsController.js:122-148 | the group a timeline is drawn from contains the item itself |
| NewsController.GroupsOf | src/controllers/newsController.ts:123-130 | each subscription row is replaced by its stored group, in the same order |
| NewsController.GetFollowUp | src/controllers/newsController.ts:117-139 | a missing user or a page below 1 is a 500; otherwise at most 50 groups, each stored and followed by the user, with the user's subscription count as total |
| NewsController.AiAnswerSubject | src/controllers/newsController.js:167-173 | 404 "News not found" exactly for an unknown id; otherwise the stored item with that id |
| NewsController.IngestedArticleIsAnswerable | src/controllers/newsController.ts:100-107 | after ingestion, the row holding an article's URL is what the lookup by its id finds |
| Auth.FirstSep | src/middleware/authMiddleware.ts:16 | the first space in the header, or none exactly when it has no space |
| Auth.HeaderToken | src/middleware/authMiddleware.ts:16 | the second space-separated piece of the header exists exactly when the header has a space, and contains no space |
| Auth.SecondPiece | src/middleware/authMiddleware.ts:16 | after a first piece and a space, the token is the longest space-free prefix of the rest |
| Auth.BearerHeaderYieldsToken | src/middleware/authMiddleware.ts:15-16 | "Bearer t" yields exactly t for a space-free t |
| Auth.SelectToken | src/middleware/authMiddleware.ts:13-19 | a non-empty header decides the token; only without one is a non-empty query token used; otherwise there is no token |
| Auth.SignedIn | src/controllers/groupController.ts:200-205 | the `if (!userId)` test on `req.user?.id` passes exactly when a user is set and its id is non-empty |
| Auth.AuthGate | src/middleware/authMiddleware.ts:9-32 | 401 exactly when no usable token is selected; 403 exactly when the token fails verification; otherwise continue once with the verified payload as user |
| Auth.OptionalAuthGate | src/middleware/authMiddleware.ts:34-54 | always continues; a user is set exactly when a usable token verifies, and it is the payload |
| Auth.HeaderOnlyAuthGate | src/middleware/authMiddleware.js:6-21 | 401 exactly without a header, with the query never read; otherwise the header's second piece, possibly missing, goes to verification, and a failure is 403 while a success continues with the payload |
| Auth.HeaderOnlyOptionalAuthGate | src/middleware/authMiddleware.js:23-34 | always continues; a user is set exactly when a header is present and its second piece verifies |
| Auth.HeaderWinsOverQuery | src/middleware/authMiddleware.ts:15-19 | with a non-empty header the query token changes nothing, and a header without a space is a 401 even when a query token is present |
| Auth.OptionalGateFollowsStrictGate | src/middleware/authMiddleware.ts:46-53 | the optional gate passes on exactly the user the strict gate would, and no user where the strict gate refuses (both variants) |
| Auth.VariantsAgreeOnWellFormedHeader | src/middleware/authMiddleware.js:7-17 | when the header carries a non-empty token, the compiled gate decides as the TypeScript gate does |
| GroupController.Subscribe | src/controllers/groupController.ts:221-226 | the subscription table gains one row, for exactly the pair; every other table is unchanged |
| GroupController.Unsubscribe | src/controllers/groupController.ts:244-251 | the pair's row is gone and every other subscription row stays; duplicates are not introduced; every other table is unchanged |
| GroupController.SubscribeKeepsValid | src/controllers/groupController.ts:221-226 | adding a missing subscription to an existing group keeps the invariant and adds exactly that pair |
| GroupController.UnsubscribeKeepsValid | src/controllers/groupController.ts:244-251 | deleting a subscription keeps the invariant and removes exactly that pair |
| GroupController.FollowGroupWithToken | src/controllers/groupController.ts:10-71 | 401 exactly for a token that fails verification, 404 exactly for an unknown group, 400 exactly for an existing pair, each leaving the store unchanged; otherwise exactly the pair is added and reported with the stored name of the group |
| GroupController.UnfollowGroupWithToken | src/controllers/groupController.ts:73-115 | 401 exactly for a failed verification; 404 exactly when the pair is absent, store unchanged; otherwise exactly the pair is removed |
| GroupController.FollowGroup | src/controllers/groupController.ts:197-232 | 401 exactly without a user id, 400 exactly for an existing pair, an exception for an unknown group, none of which changes the store; otherwise exactly the pair is added |
| GroupController.UnfollowGroup | src/controllers/groupController.ts:234-262 | 401 exactly without a user id; 404 exactly when the pair is absent, store unchanged; otherwise exactly the pair is removed |
| GroupController.CreateGroup | src/controllers/groupController.ts:295-335 | 400 for a falsy name, then 400 for a name in use, both leaving the store unchanged; otherwise exactly one group with the given name and description and a fresh id is added and returned with 201; names stay unique if they were |
| GroupController.AddGroupKeepsValid | src/controllers/groupController.ts:318-323 | adding a group with a fresh id keeps the invariant |
| GroupController.Summaries | src/controllers/groupController.ts:132-138 | each listed group is reported with its link count and follower count |
| GroupController.GetGroups | src/controllers/groupController.ts:117-147 | the query throws exactly when the skip is negative; otherwise at most abs(limit) stored groups with their counts, total the number of groups |
| GroupController.DefaultGroupsPage | src/controllers/groupController.ts:119-124 | without parameters the first ten groups in storage order are listed |
| GroupController.GetGroupById | src/controllers/groupController.ts:149-195 | 404 exactly for an unknown id; otherwise the group with its link and follower counts, isUserFollowing exactly when the viewer follows it, and the min(5, n) newest of its news |
| GroupController.Briefs | src/controllers/groupController.ts:184-188 | each recent item keeps the id, title and publication time of its news row, in order |
| GroupController.GetGroupNews | src/controllers/groupController.ts:264-293 | the query throws exactly when the skip is negative; otherwise at most abs(limit) news, newest first, each stored and linked to the group, with the group's link count as total |
| GroupController.UnknownGroupListsNothing | src/controllers/groupController.ts:270-285 | an unknown group lists no news and a total of 0 rather than a 404 |
| GroupController.FollowThenUnfollowWithToken | src/controllers/groupController.ts:51-56 | a successful token follow followed by a token unfollow succeeds and restores the database exactly |
| GroupController.FollowThenUnfollow | src/controllers/groupController.ts:221-251 | the same for the signed-in variants |
| GroupController.UnfollowThenFollow | src/controllers/groupController.ts:197-262 | unfollow then follow succeeds and restores who follows what |
| GroupController.FollowTwice | src/controllers/groupController.ts:207-219 | a second follow changes nothing and answers 400; a second unfollow answers 404 |
| GroupController.FollowRaisesFollowerCount | src/controllers/groupController.ts:166-183 | a successful follow raises the group's followersCount by one and turns isUserFollowing on for the follower |
| GroupController.FollowRaisesFollowUpTotal | src/controllers/newsController.ts:131 | a successful follow raises the follower's follow-up total by one |
| GroupController.CreatedGroupStartsEmpty | src/controllers/groupController.ts:318-326 | a new group has no news, no followers and no recent news, and nobody follows it |
| GroupController.CreateTwice | src/controllers/groupController.ts:307-315 | creating the same name a second time answers 400 and stores nothing |

## Left out

- The news feed request (src/services/newsApiService.ts) is an input. It is either the
  list of articles or a failure.
- A storage fault during the upsert loop is an input: the position of the first
  failing upsert. Storage faults in the other handlers are not modelled.
- `new Date(...)` parsing is not modelled: publication times are integers.
- `QueryInt`, `NewsPage`, `GetTimeline`, `GetFollowUp`, `GetGroups`, `GetGroupNews`: page,
  limit and skip numbers are unbounded integers. In the program they are JavaScript
  doubles, `parseInt` loses precision on long digit strings, and storage takes `skip`
  and `take` as bounded integers and may reject one out of range, which the handlers
  answer with 500 or `next(error)`. So for a page such as 99999999999999999999 the
  model answers an empty page, while the program may fail. Double precision and
  storage's integer range are not modelled.
- `HeaderOnlyAuthGate`, `HeaderOnlyOptionalAuthGate`: the model assumes that
  `jsonwebtoken_1.default.verify` in src/middleware/authMiddleware.js:10 and :27 resolves
  to jsonwebtoken's `verify`. That file loads the module with a plain `require` and
  without an interop helper, so `default` may be undefined there. Read that way, any
  request with a truthy header throws a TypeError before verification, Express answers
  500, and the optional gate never continues. The same pattern appears in index.js:9.
- `Refresh`, `IngestOldRows`, `IngestNewRows`, `IngestReflectsLast`: every feed field
  is modelled as present or null, as src/models/types.ts:23-34 declares every key. In
  the program, a key missing from the feed's JSON is `undefined`, and storage's update
  skips an undefined field, so the column keeps its stored value (or the value of an
  earlier article with the same URL in the batch). The model writes the absent value
  instead. This concerns `description`, `content`, `author` and `urlToImage`.
- `parseInt` is not modelled in detail: a query number is an optional integer, and
  non-numeric text counts as absent.
- `Math.ceil` on floating point is replaced by exact integer ceiling division.
- The AI answer itself (src/services/aiService.ts) is left out, because it is a
  placeholder string. Only the 404 lookup before it is modelled.
- The classifier (src/services/geminiService.ts) is left out, because no handler calls
  it. Links between news and groups are therefore an input relation.
- `getAllSides` is left out, because its filters are empty placeholders.
- Authentication and sign-in (src/controllers/authController.ts, src/utils/googleAuth.ts)
  are left out, and so are the internals of `jwt.verify`. Verification is an
  unconstrained parameter, so the model does not claim that a missing token is rejected.
- Routes, app wiring and configuration are left out. They decide which gate runs in
  front of which handler. Every handler is modelled on its own.
- Concurrency is left out. Each handler is one atomic step, so check-then-create races
  on follow and createGroup are not represented.
- `GetGroupById`: only a defined viewer id is modelled. Without a signed-in user, the
  reply depends on how the storage client treats an undefined filter, which is not part
  of this model.
- Token payloads without an `id` field are not modelled. The gate's `User` always
  carries an id.
- `GetGroups`: outside the default first page, the listed groups are stated by
  membership and counts, not by position.
- `GetGroupNews`: the listed items are stated by membership and order, not by position.
- `GetFollowUp`: the listed groups are stated by membership, not by position.
- `GetTimeline`: the listed items are stated by membership and order, not by position.
- `EveryNewsOnItsPage`: holds across the separate page queries only if storage orders
  rows with equal publication times the same way on every query. The program's
  queries have no tie-breaker. Without ties the order is forced, and
  `EveryNewsOnItsPageWithoutTies` states the property for any order storage may use.
- `GetNews`: the reply's JSON body on an error is modelled. The extra `next(error)`
  call after the 500 response is not.
