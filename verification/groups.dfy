/** The request handlers of src/controllers/groupController.ts: following
    and unfollowing a group (by token in the path, or as the signed-in
    user), creating a group, and the three group listings. */
module GroupController {
  import opened Base
  import opened Store
  import opened Paging
  import opened Queries
  import opened NewsController
  import opened Auth

  const GroupPageSize: int := 10
  const RecentNewsCount: nat := 5

  const InvalidToken := "Invalid token"
  const NotAuthenticated := "User not authenticated"
  const GroupNotFound := "Group not found"
  const AlreadyFollowing := "User already follows this group"
  const NotFollowing := "User was not following this group"
  const NameRequired := "Group name is required"
  const NameTaken := "A group with this name already exists"
  const FollowedMessage := "Successfully followed the group"
  const UnfollowedMessage := "Successfully unfollowed the group"

  /** The `data` object of the token variants' replies; `groupName` is only
      reported on a follow. */
  datatype FollowDetail = FollowDetail(userId: UserId, groupId: GroupId, groupName: Option<string>)

  /** A confirmation: its message and, for the token variants, its details. */
  datatype Ack = Ack(message: string, detail: Option<FollowDetail>)

  /** One entry of the `getGroups` listing. */
  datatype GroupSummary = GroupSummary(
    id: GroupId, name: string, description: Option<string>,
    newsCount: nat, followersCount: nat)

  /** One entry of `recentNews` in the `getGroupById` reply. */
  datatype RecentNews = RecentNews(id: NewsId, title: string, publishedAt: Timestamp)

  /** The `getGroupById` reply. */
  datatype GroupDetail = GroupDetail(
    id: GroupId, name: string, description: Option<string>,
    newsCount: nat, followersCount: nat,
    isUserFollowing: bool, recentNews: seq<RecentNews>)

  predicate Follows(st: Store, u: UserId, g: GroupId) {
    UserGroup(u, g) in st.subs
  }

  /** Who follows what, regardless of row order. */
  function Subscriptions(st: Store): set<UserGroup> {
    set s | s in st.subs
  }

  /** `userGroup.create({ data: { userId, groupId } })`: one more row for
      the pair; the other tables are untouched. */
  function Subscribe(st: Store, u: UserId, g: GroupId): (r: Store)
    ensures r.(subs := st.subs) == st
    ensures |r.subs| == |st.subs| + 1
    ensures forall s :: s in r.subs <==> s in st.subs || s == UserGroup(u, g)
  {
    st.(subs := st.subs + [UserGroup(u, g)])
  }

  /** `userGroup.delete({ where: { userId_groupId } })`: the pair's row is
      gone, every other row stays; the other tables are untouched. */
  function Unsubscribe(st: Store, u: UserId, g: GroupId): (r: Store)
    ensures r.(subs := st.subs) == st
    ensures forall s :: s in r.subs <==> s in st.subs && s != UserGroup(u, g)
    ensures NoDuplicates(st.subs) ==> NoDuplicates(r.subs)
  {
    st.(subs := Without(st.subs, UserGroup(u, g)))
  }

  lemma SubscribeKeepsValid(st: Store, u: UserId, g: GroupId)
    requires Valid(st) && HasGroup(st.groups, g) && !Follows(st, u, g)
    ensures Valid(Subscribe(st, u, g))
    ensures Subscriptions(Subscribe(st, u, g)) == Subscriptions(st) + {UserGroup(u, g)}
  {
    var subs := Subscribe(st, u, g).subs;
    assert forall i :: 0 <= i < |st.subs| ==> subs[i] == st.subs[i];
    assert subs[|st.subs|] == UserGroup(u, g);
  }

  lemma UnsubscribeKeepsValid(st: Store, u: UserId, g: GroupId)
    requires Valid(st)
    ensures Valid(Unsubscribe(st, u, g))
    ensures Subscriptions(Unsubscribe(st, u, g)) == Subscriptions(st) - {UserGroup(u, g)}
  {
  }

  /** `followGroupWithToken`: 401 for a token that does not verify, 404 for
      an unknown group, 400 when the subscription exists, and otherwise
      the subscription is added and reported with the group's name. */
  function FollowGroupWithToken(st: Store, groupId: GroupId, token: string, verify: Verifier): (r: Step<Ack>)
    requires Valid(st)
    ensures Valid(r.store)
    ensures r.store.(subs := st.subs) == st
    ensures r.reply == Fail(401, InvalidToken) <==> verify(Some(token)).Rejected?
    ensures r.reply == Fail(404, GroupNotFound) <==>
              verify(Some(token)).Verified? && !HasGroup(st.groups, groupId)
    ensures r.reply == Fail(400, AlreadyFollowing) <==>
              verify(Some(token)).Verified? && HasGroup(st.groups, groupId) &&
              Follows(st, verify(Some(token)).user.id, groupId)
    ensures r.reply.Ok? || r.reply.Fail?
    ensures r.reply.Ok? <==>
              verify(Some(token)).Verified? && HasGroup(st.groups, groupId) &&
              !Follows(st, verify(Some(token)).user.id, groupId)
    ensures r.reply.Fail? ==> r.store == st
    ensures r.reply.Ok? ==>
              && verify(Some(token)).Verified?
              && var u := verify(Some(token)).user.id;
              && !Follows(st, u, groupId)
              && r.store.subs == st.subs + [UserGroup(u, groupId)]
              && Subscriptions(r.store) == Subscriptions(st) + {UserGroup(u, groupId)}
              && r.reply.value.message == FollowedMessage
              && r.reply.value.detail.Some?
              && r.reply.value.detail.value.userId == u
              && r.reply.value.detail.value.groupId == groupId
              && r.reply.value.detail.value.groupName == Some(FindGroup(st.groups, groupId).value.name)
  {
    match verify(Some(token))
    case Rejected => Step(st, Fail(401, InvalidToken))
    case Verified(user) =>
      match FindGroup(st.groups, groupId)
      case None => Step(st, Fail(404, GroupNotFound))
      case Some(group) =>
        if Follows(st, user.id, groupId) then Step(st, Fail(400, AlreadyFollowing))
        else
          SubscribeKeepsValid(st, user.id, groupId);
          Step(Subscribe(st, user.id, groupId),
               Ok(Ack(FollowedMessage, Some(FollowDetail(user.id, groupId, Some(group.name))))))
  }

  /** `unfollowGroupWithToken`: 401 for a token that does not verify, 404
      when there is no subscription to delete (whether or not the group
      exists), and otherwise the subscription is removed. */
  function UnfollowGroupWithToken(st: Store, groupId: GroupId, token: string, verify: Verifier): (r: Step<Ack>)
    requires Valid(st)
    ensures Valid(r.store)
    ensures r.store.(subs := st.subs) == st
    ensures r.reply == Fail(401, InvalidToken) <==> verify(Some(token)).Rejected?
    ensures r.reply == Fail(404, NotFollowing) <==>
              verify(Some(token)).Verified? && !Follows(st, verify(Some(token)).user.id, groupId)
    ensures r.reply.Ok? || r.reply.Fail?
    ensures r.reply.Fail? ==> r.store == st
    ensures verify(Some(token)).Verified? ==> !Follows(r.store, verify(Some(token)).user.id, groupId)
    ensures r.reply.Ok? ==>
              && verify(Some(token)).Verified?
              && var u := verify(Some(token)).user.id;
              && Follows(st, u, groupId)
              && Subscriptions(r.store) == Subscriptions(st) - {UserGroup(u, groupId)}
              && r.reply.value == Ack(UnfollowedMessage, Some(FollowDetail(u, groupId, None)))
  {
    match verify(Some(token))
    case Rejected => Step(st, Fail(401, InvalidToken))
    case Verified(user) =>
      if !Follows(st, user.id, groupId) then Step(st, Fail(404, NotFollowing))
      else
        UnsubscribeKeepsValid(st, user.id, groupId);
        Step(Unsubscribe(st, user.id, groupId),
             Ok(Ack(UnfollowedMessage, Some(FollowDetail(user.id, groupId, None)))))
  }

  /** `followGroup` for the signed-in user: 401 without a user id, 400 when
      the subscription exists. The group is not looked up first: creating a
      subscription to an unknown group violates the reference to Group and
      the exception goes to the error handler. */
  function FollowGroup(st: Store, groupId: GroupId, user: Option<User>): (r: Step<Ack>)
    requires Valid(st)
    ensures Valid(r.store)
    ensures r.store.(subs := st.subs) == st
    ensures r.reply == Fail(401, NotAuthenticated) <==> !SignedIn(user)
    ensures r.reply == Fail(400, AlreadyFollowing) <==> SignedIn(user) && Follows(st, user.value.id, groupId)
    ensures r.reply.Thrown? <==>
              SignedIn(user) && !Follows(st, user.value.id, groupId) && !HasGroup(st.groups, groupId)
    ensures r.reply.Ok? || r.reply.Fail? || r.reply.Thrown?
    ensures r.reply.Ok? <==>
              SignedIn(user) && HasGroup(st.groups, groupId) && !Follows(st, user.value.id, groupId)
    ensures !r.reply.Ok? ==> r.store == st
    ensures r.reply.Ok? ==>
              && SignedIn(user)
              && HasGroup(st.groups, groupId)
              && !Follows(st, user.value.id, groupId)
              && r.store.subs == st.subs + [UserGroup(user.value.id, groupId)]
              && Subscriptions(r.store) == Subscriptions(st) + {UserGroup(user.value.id, groupId)}
              && r.reply.value == Ack(FollowedMessage, None)
  {
    if !SignedIn(user) then Step(st, Fail(401, NotAuthenticated))
    else if Follows(st, user.value.id, groupId) then Step(st, Fail(400, AlreadyFollowing))
    else if FindGroup(st.groups, groupId).None? then Step(st, Thrown)
    else
      SubscribeKeepsValid(st, user.value.id, groupId);
      Step(Subscribe(st, user.value.id, groupId), Ok(Ack(FollowedMessage, None)))
  }

  /** `unfollowGroup` for the signed-in user: 401 without a user id, 404
      when there is no subscription to delete, otherwise it is removed. */
  function UnfollowGroup(st: Store, groupId: GroupId, user: Option<User>): (r: Step<Ack>)
    requires Valid(st)
    ensures Valid(r.store)
    ensures r.store.(subs := st.subs) == st
    ensures r.reply == Fail(401, NotAuthenticated) <==> !SignedIn(user)
    ensures r.reply == Fail(404, NotFollowing) <==> SignedIn(user) && !Follows(st, user.value.id, groupId)
    ensures r.reply.Ok? || r.reply.Fail?
    ensures r.reply.Fail? ==> r.store == st
    ensures SignedIn(user) ==> !Follows(r.store, user.value.id, groupId)
    ensures r.reply.Ok? ==>
              && SignedIn(user)
              && Follows(st, user.value.id, groupId)
              && Subscriptions(r.store) == Subscriptions(st) - {UserGroup(user.value.id, groupId)}
              && r.reply.value == Ack(UnfollowedMessage, None)
  {
    if !SignedIn(user) then Step(st, Fail(401, NotAuthenticated))
    else if !Follows(st, user.value.id, groupId) then Step(st, Fail(404, NotFollowing))
    else
      UnsubscribeKeepsValid(st, user.value.id, groupId);
      Step(Unsubscribe(st, user.value.id, groupId), Ok(Ack(UnfollowedMessage, None)))
  }

  /** A group already carries this name. */
  predicate NameInUse(groups: seq<Group>, name: string) {
    exists i :: 0 <= i < |groups| && groups[i].name == name
  }

  /** No two groups share a name. */
  predicate UniqueNames(groups: seq<Group>) {
    forall i, j :: 0 <= i < j < |groups| ==> groups[i].name != groups[j].name
  }

  /** `createGroup`: 400 for a missing or empty name, 400 when a group
      already has the name, and otherwise a new group with a fresh id is
      stored and returned with status 201. */
  function CreateGroup(st: Store, name: Option<string>, description: Option<string>): (r: Step<Group>)
    requires Valid(st)
    ensures Valid(r.store)
    ensures r.store.news == st.news && r.store.links == st.links && r.store.subs == st.subs
    ensures r.reply == Fail(400, NameRequired) <==> !Truthy(name)
    ensures r.reply == Fail(400, NameTaken) <==> Truthy(name) && NameInUse(st.groups, name.value)
    ensures r.reply.Created? || r.reply.Fail?
    ensures r.reply.Created? <==> Truthy(name) && !NameInUse(st.groups, name.value)
    ensures r.reply.Fail? ==> r.store == st
    ensures r.reply.Created? ==>
              && Truthy(name)
              && r.reply.value.name == name.value
              && r.reply.value.description == description
              && !HasGroup(st.groups, r.reply.value.id)
              && r.store.groups == st.groups + [r.reply.value]
    ensures UniqueNames(st.groups) ==> UniqueNames(r.store.groups)
  {
    if !Truthy(name) then Step(st, Fail(400, NameRequired))
    else if FirstIndex(st.groups, (g: Group) => g.name == name.value).Some? then
      Step(st, Fail(400, NameTaken))
    else
      var group := Group(st.nextId, name.value, description);
      var next := st.(groups := st.groups + [group], nextId := st.nextId + 1);
      AddGroupKeepsValid(st, group);
      Step(next, Created(group))
  }

  lemma AddGroupKeepsValid(st: Store, group: Group)
    requires Valid(st) && group.id == st.nextId
    ensures Valid(st.(groups := st.groups + [group], nextId := st.nextId + 1))
  {
    var groups := st.groups + [group];
    assert forall i :: 0 <= i < |st.groups| ==> groups[i] == st.groups[i];
    forall l | l in st.links ensures HasGroup(groups, l.groupId) {
      var i :| 0 <= i < |st.groups| && st.groups[i].id == l.groupId;
      assert groups[i].id == l.groupId;
    }
    forall s | s in st.subs ensures HasGroup(groups, s.groupId) {
      var i :| 0 <= i < |st.groups| && st.groups[i].id == s.groupId;
      assert groups[i].id == s.groupId;
    }
  }

  /** The listing entry of a group, with its link and follower counts
      (`_count: { select: { news: true, users: true } }`). */
  function Summary(st: Store, g: Group): GroupSummary {
    GroupSummary(g.id, g.name, g.description, |LinksOf(st.links, g.id)|, |FollowersOf(st.subs, g.id)|)
  }

  function Summaries(st: Store, rows: seq<Group>): (r: seq<GroupSummary>)
    ensures |r| == |rows|
    ensures forall k :: 0 <= k < |r| ==> r[k] == Summary(st, rows[k])
    ensures forall s :: s in r ==>
              && Group(s.id, s.name, s.description) in rows
              && s.newsCount == |LinksOf(st.links, s.id)|
              && s.followersCount == |FollowersOf(st.subs, s.id)|
  {
    if |rows| == 0 then [] else [Summary(st, rows[0])] + Summaries(st, rows[1..])
  }

  /** `getGroups`: the groups in storage order, `limit` (default ten) per
      page, each with its counts; the total is the number of groups. The
      query parameters are used as given: a skip that comes out negative
      makes the query throw, and a negative limit counts from the end. */
  function GetGroups(st: Store, pageQuery: Option<int>, limitQuery: Option<int>): (r: Reply<PagingData<GroupSummary>>)
    ensures r.Ok? || r.Thrown?
    ensures r.Ok? <==>
              var page, limit := QueryInt(pageQuery, 1), QueryInt(limitQuery, GroupPageSize);
              page == 1 || (page > 1 <==> limit > 0)
    ensures r.Ok? ==>
              && r.value.page == QueryInt(pageQuery, 1)
              && r.value.limit == QueryInt(limitQuery, GroupPageSize)
              && r.value.total == |st.groups|
              && |r.value.data| <= Max(r.value.limit, -r.value.limit)
              && forall s :: s in r.value.data ==>
                   && Group(s.id, s.name, s.description) in st.groups
                   && s.newsCount == |LinksOf(st.links, s.id)|
                   && s.followersCount == |FollowersOf(st.subs, s.id)|
  {
    var page, limit := QueryInt(pageQuery, 1), QueryInt(limitQuery, GroupPageSize);
    SkipSign(page, limit);
    match Window(st.groups, (page - 1) * limit, limit)
    case None => Thrown
    case Some(rows) =>
      assert forall g :: g in rows ==> g in st.groups;
      Ok(Paginate(Summaries(st, rows), page, limit, |st.groups|))
  }

  /** Without query parameters `getGroups` lists the first ten groups in
      storage order. */
  lemma DefaultGroupsPage(st: Store)
    ensures GetGroups(st, None, None).Ok?
    ensures GetGroups(st, None, None).value.data ==
              Summaries(st, st.groups[..Min(GroupPageSize, |st.groups|)])
  {
  }

  /** `getGroupById`: 404 for an unknown id, otherwise the group with its
      counts, whether the viewer follows it, and its five newest news. */
  function GetGroupById(st: Store, groupId: GroupId, viewer: UserId): (r: Reply<GroupDetail>)
    ensures r == Fail(404, GroupNotFound) <==> !HasGroup(st.groups, groupId)
    ensures r.Ok? || r == Fail(404, GroupNotFound)
    ensures r.Ok? ==>
              && Group(r.value.id, r.value.name, r.value.description) in st.groups
              && r.value.id == groupId
              && r.value.newsCount == |LinksOf(st.links, groupId)|
              && r.value.followersCount == |FollowersOf(st.subs, groupId)|
              && (r.value.isUserFollowing <==> Follows(st, viewer, groupId))
              && |r.value.recentNews| == Min(RecentNewsCount, |NewsOfGroup(st, groupId)|)
              && forall k :: 0 <= k < |r.value.recentNews| ==>
                   r.value.recentNews[k] == Brief(NewestFirstOrder(NewsOfGroup(st, groupId))[k])
  {
    match FindGroup(st.groups, groupId)
    case None => Fail(404, GroupNotFound)
    case Some(group) =>
      var following := |Filter(st.subs, (s: UserGroup) => s.groupId == groupId && s.userId == viewer)| > 0;
      assert following ==> Filter(st.subs, (s: UserGroup) => s.groupId == groupId && s.userId == viewer)[0] in st.subs;
      var recent := NewestFirstWindow(NewsOfGroup(st, groupId), 0, RecentNewsCount).value;
      Ok(GroupDetail(group.id, group.name, group.description,
                     |LinksOf(st.links, groupId)|, |FollowersOf(st.subs, groupId)|,
                     following, Briefs(recent)))
  }

  function Brief(n: News): RecentNews {
    RecentNews(n.id, n.title, n.publishedAt)
  }

  function Briefs(rows: seq<News>): (r: seq<RecentNews>)
    ensures |r| == |rows|
    ensures forall k :: 0 <= k < |r| ==> r[k] == Brief(rows[k])
  {
    if |rows| == 0 then [] else [Brief(rows[0])] + Briefs(rows[1..])
  }

  /** `getGroupNews`: the news linked to the group, newest first, `limit`
      (default ten) per page, with the group's link count as total. An
      unknown group is not an error: its listing is empty. */
  function GetGroupNews(st: Store, groupId: GroupId, pageQuery: Option<int>, limitQuery: Option<int>): (r: Reply<PagingData<News>>)
    ensures r.Ok? || r.Thrown?
    ensures r.Ok? <==>
              var page, limit := QueryInt(pageQuery, 1), QueryInt(limitQuery, GroupPageSize);
              page == 1 || (page > 1 <==> limit > 0)
    ensures r.Ok? ==>
              && r.value.page == QueryInt(pageQuery, 1)
              && r.value.limit == QueryInt(limitQuery, GroupPageSize)
              && r.value.total == |LinksOf(st.links, groupId)|
              && |r.value.data| <= Max(r.value.limit, -r.value.limit)
              && NewestFirst(r.value.data)
              && forall n :: n in r.value.data ==> n in st.news && GroupNews(groupId, n.id) in st.links
  {
    var page, limit := QueryInt(pageQuery, 1), QueryInt(limitQuery, GroupPageSize);
    SkipSign(page, limit);
    match NewestFirstWindow(NewsOfGroup(st, groupId), (page - 1) * limit, limit)
    case None => Thrown
    case Some(items) => Ok(Paginate(items, page, limit, |LinksOf(st.links, groupId)|))
  }

  /** A group nobody linked news to, an unknown one in particular, lists no
      news and a total of zero on every page. */
  lemma UnknownGroupListsNothing(st: Store, groupId: GroupId, pageQuery: Option<int>, limitQuery: Option<int>)
    requires Valid(st) && !HasGroup(st.groups, groupId)
    ensures GetGroupNews(st, groupId, pageQuery, limitQuery).Ok? ==>
              GetGroupNews(st, groupId, pageQuery, limitQuery).value.data == [] &&
              GetGroupNews(st, groupId, pageQuery, limitQuery).value.total == 0
  {
    FilterDropsAll(st.links, (l: GroupNews) => l.groupId == groupId);
    FilterDropsAll(st.news, (n: News) => GroupNews(groupId, n.id) in st.links);
  }

  /** Following by token and then unfollowing by the same token leaves the
      database exactly as it was. */
  lemma FollowThenUnfollowWithToken(st: Store, groupId: GroupId, token: string, verify: Verifier)
    requires Valid(st)
    requires FollowGroupWithToken(st, groupId, token, verify).reply.Ok?
    ensures UnfollowGroupWithToken(FollowGroupWithToken(st, groupId, token, verify).store, groupId, token, verify).reply.Ok?
    ensures UnfollowGroupWithToken(FollowGroupWithToken(st, groupId, token, verify).store, groupId, token, verify).store == st
  {
    var u := verify(Some(token)).user.id;
    WithoutAppended(st.subs, UserGroup(u, groupId));
  }

  /** The same for the signed-in variants. */
  lemma FollowThenUnfollow(st: Store, groupId: GroupId, user: Option<User>)
    requires Valid(st)
    requires FollowGroup(st, groupId, user).reply.Ok?
    ensures UnfollowGroup(FollowGroup(st, groupId, user).store, groupId, user).reply.Ok?
    ensures UnfollowGroup(FollowGroup(st, groupId, user).store, groupId, user).store == st
  {
    WithoutAppended(st.subs, UserGroup(user.value.id, groupId));
  }

  /** Unfollowing and following again restores who follows what; only the
      row's position among the subscriptions may change. */
  lemma UnfollowThenFollow(st: Store, groupId: GroupId, user: Option<User>)
    requires Valid(st)
    requires UnfollowGroup(st, groupId, user).reply.Ok?
    ensures FollowGroup(UnfollowGroup(st, groupId, user).store, groupId, user).reply.Ok?
    ensures Subscriptions(FollowGroup(UnfollowGroup(st, groupId, user).store, groupId, user).store) == Subscriptions(st)
  {
  }

  /** Following is idempotent on the database: a second follow changes
      nothing and answers 400. Unfollowing twice answers 404 the second time. */
  lemma FollowTwice(st: Store, groupId: GroupId, user: Option<User>, token: string, verify: Verifier)
    requires Valid(st)
    ensures var once := FollowGroup(st, groupId, user).store;
            FollowGroup(once, groupId, user).store == once &&
            (SignedIn(user) && HasGroup(st.groups, groupId) ==>
               FollowGroup(once, groupId, user).reply == Fail(400, AlreadyFollowing))
    ensures var once := FollowGroupWithToken(st, groupId, token, verify).store;
            FollowGroupWithToken(once, groupId, token, verify).store == once &&
            (verify(Some(token)).Verified? && HasGroup(st.groups, groupId) ==>
               FollowGroupWithToken(once, groupId, token, verify).reply == Fail(400, AlreadyFollowing))
    ensures var once := UnfollowGroup(st, groupId, user).store;
            SignedIn(user) ==> UnfollowGroup(once, groupId, user).reply == Fail(404, NotFollowing)
  {
  }

  /** A successful follow raises the follower count `getGroupById` reports
      by one and makes it report the follower as following. */
  lemma FollowRaisesFollowerCount(st: Store, groupId: GroupId, user: Option<User>)
    requires Valid(st)
    requires FollowGroup(st, groupId, user).reply.Ok?
    ensures GetGroupById(FollowGroup(st, groupId, user).store, groupId, user.value.id).Ok?
    ensures GetGroupById(FollowGroup(st, groupId, user).store, groupId, user.value.id).value.followersCount ==
              GetGroupById(st, groupId, user.value.id).value.followersCount + 1
    ensures GetGroupById(FollowGroup(st, groupId, user).store, groupId, user.value.id).value.isUserFollowing
    ensures !GetGroupById(st, groupId, user.value.id).value.isUserFollowing
  {
    var u := user.value.id;
    FilterAppend(st.subs, [UserGroup(u, groupId)], (s: UserGroup) => s.groupId == groupId);
  }

  /** A successful follow raises the follower's `getFollowUp` total by one. */
  lemma FollowRaisesFollowUpTotal(st: Store, groupId: GroupId, user: Option<User>, pageQuery: Option<int>)
    requires Valid(st)
    requires FollowGroup(st, groupId, user).reply.Ok?
    requires QueryInt(pageQuery, 1) >= 1
    ensures GetFollowUp(FollowGroup(st, groupId, user).store, user, pageQuery).Ok?
    ensures GetFollowUp(FollowGroup(st, groupId, user).store, user, pageQuery).value.total ==
              GetFollowUp(st, user, pageQuery).value.total + 1
  {
    var u := user.value.id;
    FilterAppend(st.subs, [UserGroup(u, groupId)], (s: UserGroup) => s.userId == u);
  }

  /** A freshly created group has no news, no followers and nobody
      following it. */
  lemma CreatedGroupStartsEmpty(st: Store, name: Option<string>, description: Option<string>, viewer: UserId)
    requires Valid(st)
    requires CreateGroup(st, name, description).reply.Created?
    ensures var r := CreateGroup(st, name, description);
            && GetGroupById(r.store, r.reply.value.id, viewer).Ok?
            && GetGroupById(r.store, r.reply.value.id, viewer).value.newsCount == 0
            && GetGroupById(r.store, r.reply.value.id, viewer).value.followersCount == 0
            && !GetGroupById(r.store, r.reply.value.id, viewer).value.isUserFollowing
            && GetGroupById(r.store, r.reply.value.id, viewer).value.recentNews == []
  {
    var r := CreateGroup(st, name, description);
    var g := r.reply.value.id;
    assert r.store.groups[|st.groups|] == r.reply.value;
    FilterDropsAll(st.links, (l: GroupNews) => l.groupId == g);
    FilterDropsAll(st.subs, (s: UserGroup) => s.groupId == g);
    FilterDropsAll(st.news, (n: News) => GroupNews(g, n.id) in st.links);
  }

  /** Creating the same name twice stores one group and answers 400 the
      second time. */
  lemma CreateTwice(st: Store, name: string, d1: Option<string>, d2: Option<string>)
    requires Valid(st) && name != ""
    ensures var once := CreateGroup(st, Some(name), d1).store;
            CreateGroup(once, Some(name), d2) == Step(once, Fail(400, NameTaken))
  {
    var once := CreateGroup(st, Some(name), d1).store;
    if CreateGroup(st, Some(name), d1).reply.Created? {
      assert once.groups[|st.groups|].name == name;
    }
  }
}
