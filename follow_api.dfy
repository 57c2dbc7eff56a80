/** FollowController: the follow and unfollow endpoints, the list of the users
    one follows, the feed of their guides and the is-following query. */
module FollowApi {
  import opened Outcomes
  import opened SeqUtil
  import opened Tables
  import opened UserEntity
  import opened UserTable
  import opened FollowTable
  import opened SocialGraph
  import opened GuideEntity
  import opened GuideTable
  import opened MarkTable
  import opened AuthFilter
  import opened WebApi

  /** `UserBriefResp` */
  datatype UserBrief = UserBrief(id: int, username: string, displayName: string, following: bool)

  /** `GuideCardResp` of the feed. */
  datatype FeedCard = FeedCard(id: int, authorId: int, title: string, category: Option<GuideCategory>,
                               authorName: string, createdAt: Instant, likeCount: nat, favoriteCount: nat)

  function FolloweeOf(f: FollowRecord): int { f.followUserId }
  function BriefId(b: UserBrief): int { b.id }
  function FeedCardId(c: FeedCard): int { c.id }
  function FeedCardCreatedAt(c: FeedCard): int { c.createdAt }

  /** The ids of the users `u` follows, most recently followed first. */
  function FollowedIds(follows: seq<FollowRecord>, u: int): (ids: seq<int>)
    ensures forall v :: v in ids <==> ExistsEdge(follows, u, v)
  {
    var edges := FollowTable.FindByUserIdOrderByCreatedAtDesc(follows, u);
    var ids := Map(edges, FolloweeOf);
    assert forall v :: v in ids ==> ExistsEdge(follows, u, v) by {
      forall v | v in ids ensures ExistsEdge(follows, u, v) {
        var i :| 0 <= i < |ids| && ids[i] == v;
        assert edges[i] in edges;
      }
    }
    assert forall v :: ExistsEdge(follows, u, v) ==> v in ids by {
      forall v | ExistsEdge(follows, u, v) ensures v in ids {
        var f :| f in follows && f.userId == u && f.followUserId == v;
        var i :| 0 <= i < |edges| && edges[i] == f;
        assert ids[i] == v;
      }
    }
    ids
  }

  // ---------------------------------------------------------------------------
  // myFollowing
  // ---------------------------------------------------------------------------

  function UserLookup(users: seq<UserRecord>): int -> Option<UserRecord>
  {
    id => FindUserById(users, id)
  }

  function AnyUser(): UserRecord -> bool
  {
    u => true
  }

  function HasUserRow(users: seq<UserRecord>): int -> bool
  {
    id => ExistsUserById(users, id)
  }

  /** The entry of a followed user: the stored display name, not the masked one. */
  function Brief(u: UserRecord): UserBrief
  {
    UserBrief(u.id, u.username, u.displayName, true)
  }

  /** The users `me` follows that have a row, most recently followed first. */
  function FollowedBriefs(follows: seq<FollowRecord>, users: seq<UserRecord>, me: int): (r: seq<UserBrief>)
    ensures forall b :: b in r ==>
      && b.following
      && (exists u :: u in users && b == Brief(u))
      && ExistsEdge(follows, me, b.id)
  {
    var ids := FollowedIds(follows, me);
    var found := Somes(Map(ids, UserLookup(users)));
    UsersFound(ids, users);
    BriefsOf(found);
    Map(found, Brief)
  }

  /** The users found for a list of ids are stored and have one of those ids. */
  lemma UsersFound(ids: seq<int>, users: seq<UserRecord>)
    ensures forall u :: u in Somes(Map(ids, UserLookup(users))) ==> u in users && u.id in ids
  {
    forall u | u in Somes(Map(ids, UserLookup(users))) ensures u in users && u.id in ids {
      assert Some(u) in Map(ids, UserLookup(users));
      var i :| 0 <= i < |ids| && Map(ids, UserLookup(users))[i] == Some(u);
      assert FindUserById(users, ids[i]) == Some(u);
    }
  }

  /** Each brief of a list of users is the brief of one of them. */
  lemma BriefsOf(found: seq<UserRecord>)
    ensures forall b :: b in Map(found, Brief) ==> exists u :: u in found && b == Brief(u)
  {
    var r := Map(found, Brief);
    forall b | b in r ensures exists u :: u in found && b == Brief(u) {
      var i :| 0 <= i < |r| && r[i] == b;
      assert found[i] in found;
    }
  }

  /** `myFollowing(auth)`: the users one follows, most recently followed
      first, without ids that have no user row. */
  function MyFollowing(follows: seq<FollowRecord>, users: seq<UserRecord>, auth: Option<Authentication>)
    : (r: Result<seq<UserBrief>>)
    ensures r.Err? <==> auth.None?
    ensures r.Err? ==> r.error == ApiException(Unauthorized, LoginRequiredMessage)
    ensures r.Ok? ==> forall b :: b in r.value ==>
      && b.following
      && (exists u :: u in users && b == Brief(u))
      && ExistsEdge(follows, auth.value.principal.id, b.id)
  {
    match MustAuth(auth)
    case Err(e) => Err(e)
    case Ok(me) => Ok(FollowedBriefs(follows, users, me.id))
  }

  /** The entries are the followed ids that have a user row, in follow order. */
  lemma MyFollowingKeepsFollowOrder(follows: seq<FollowRecord>, users: seq<UserRecord>, auth: Option<Authentication>)
    requires auth.Some?
    ensures Map(MyFollowing(follows, users, auth).value, BriefId)
         == Filter(FollowedIds(follows, auth.value.principal.id), HasUserRow(users))
  {
    var ids := FollowedIds(follows, auth.value.principal.id);
    var look := UserLookup(users);
    var found := Somes(Map(ids, look));
    LookUpAllKeys(ids, look, AnyUser(), UserIdOf);
    FilterAll(found, AnyUser());
    assert Map(Map(found, Brief), BriefId) == Map(found, UserIdOf);
    FilterCongruent(ids, Kept(look, AnyUser()), HasUserRow(users));
  }

  // ---------------------------------------------------------------------------
  // feed
  // ---------------------------------------------------------------------------

  /** The card of a feed guide: its author's public name and its like and
      favorite counts. */
  function FeedCardOf(users: seq<UserRecord>, likes: seq<MarkRecord>, favorites: seq<MarkRecord>, g: GuideRecord): FeedCard
    requires ExistsUserById(users, g.authorId)
  {
    FeedCard(g.id, g.authorId, g.title, g.category, DisplayNamePublic(AuthorOf(users, g)), g.createdAt,
             CountByGuideId(likes, g.id), CountByGuideId(favorites, g.id))
  }

  function FeedCards(users: seq<UserRecord>, likes: seq<MarkRecord>, favorites: seq<MarkRecord>, gs: seq<GuideRecord>)
    : (r: seq<FeedCard>)
    requires AuthorsExist(gs, users)
    ensures |r| == |gs|
    ensures forall i :: 0 <= i < |gs| ==> r[i] == FeedCardOf(users, likes, favorites, gs[i])
  {
    seq(|gs|, i requires 0 <= i < |gs| => FeedCardOf(users, likes, favorites, gs[i]))
  }

  /** Cards keep the order of the guides they show. */
  lemma FeedCardsKeepOrder(users: seq<UserRecord>, likes: seq<MarkRecord>, favorites: seq<MarkRecord>, gs: seq<GuideRecord>)
    requires AuthorsExist(gs, users) && SortedDescBy(gs, GuideCreatedAt)
    ensures SortedDescBy(FeedCards(users, likes, favorites, gs), FeedCardCreatedAt)
  {
  }

  /** `feed(auth, page, size)`: nothing when one follows nobody, whatever the
      page; otherwise the page of the followed users' guides that are not
      deleted, newest first, or the failure of an illegal page request. */
  function Feed(follows: seq<FollowRecord>, guides: seq<GuideRecord>, users: seq<UserRecord>,
                likes: seq<MarkRecord>, favorites: seq<MarkRecord>, auth: Option<Authentication>,
                page: int, size: int): (r: Result<seq<FeedCard>>)
    requires AuthorsExist(guides, users)
    ensures auth.None? ==> r == Err(ApiException(Unauthorized, LoginRequiredMessage))
    ensures auth.Some? && FollowedIds(follows, auth.value.principal.id) == [] ==> r == Ok([])
    ensures auth.Some? && FollowedIds(follows, auth.value.principal.id) != [] ==>
      (r.Ok? <==> page >= 0 && size >= 1) && (r.Err? ==> r.error == UncheckedException)
    ensures r.Ok? ==> |r.value| <= if size < 0 then 0 else size
    ensures r.Ok? ==> SortedDescBy(r.value, FeedCardCreatedAt)
    ensures r.Ok? ==> forall c :: c in r.value ==> exists g ::
      && g in guides && !g.deleted && ExistsEdge(follows, auth.value.principal.id, g.authorId)
      && c == FeedCardOf(users, likes, favorites, g)
  {
    match MustAuth(auth)
    case Err(e) => Err(e)
    case Ok(me) =>
      var authorIds := FollowedIds(follows, me.id);
      if authorIds == [] then Ok([])
      else match PageRequestOf(page, size)
        case Err(e) => Err(e)
        case Ok(pr) =>
          var gs := FindFeed(guides, authorIds, pr);
          var cards := FeedCards(users, likes, favorites, gs);
          FeedCardsKeepOrder(users, likes, favorites, gs);
          assert forall c :: c in cards ==> exists g :: g in gs && c == FeedCardOf(users, likes, favorites, g) by {
            forall c | c in cards ensures exists g :: g in gs && c == FeedCardOf(users, likes, favorites, g) {
              var i :| 0 <= i < |cards| && cards[i] == c;
              assert gs[i] in gs;
            }
          }
          Ok(cards)
  }

  /** Past the guards, the feed is the cards of one page of the feed query. */
  lemma FeedIsCardsOfPage(follows: seq<FollowRecord>, guides: seq<GuideRecord>, users: seq<UserRecord>,
                          likes: seq<MarkRecord>, favorites: seq<MarkRecord>, auth: Option<Authentication>,
                          page: int, size: int)
    requires AuthorsExist(guides, users)
    requires auth.Some? && FollowedIds(follows, auth.value.principal.id) != [] && page >= 0 && size >= 1
    ensures var ids := FollowedIds(follows, auth.value.principal.id);
      Feed(follows, guides, users, likes, favorites, auth, page, size)
        == Ok(FeedCards(users, likes, favorites, FindFeed(guides, ids, PageRequest(page, size))))
  {
  }

  /** A first page that can hold every matching guide holds each of them. */
  lemma FirstFeedPageHoldsAll(guides: seq<GuideRecord>, ids: seq<int>, size: nat, g: GuideRecord)
    requires |Filter(guides, LiveByAuthors(ids))| <= size
    requires g in guides && !g.deleted && g.authorId in ids
    ensures g in FindFeed(guides, ids, PageRequest(0, size))
  {
    assert g in Filter(guides, LiveByAuthors(ids));
    assert g in multiset(FindFeed(guides, ids, PageRequest(0, size)));
  }

  /** A first page large enough for every followed guide holds all of them. */
  lemma FeedFirstPageIsComplete(follows: seq<FollowRecord>, guides: seq<GuideRecord>, users: seq<UserRecord>,
                                likes: seq<MarkRecord>, favorites: seq<MarkRecord>, auth: Option<Authentication>,
                                size: int, g: GuideRecord)
    requires AuthorsExist(guides, users)
    requires auth.Some? && size >= 1
    requires |Filter(guides, LiveByAuthors(FollowedIds(follows, auth.value.principal.id)))| <= size
    requires g in guides && !g.deleted && ExistsEdge(follows, auth.value.principal.id, g.authorId)
    ensures FeedCardOf(users, likes, favorites, g) in Feed(follows, guides, users, likes, favorites, auth, 0, size).value
  {
    var ids := FollowedIds(follows, auth.value.principal.id);
    assert g.authorId in ids;
    FeedIsCardsOfPage(follows, guides, users, likes, favorites, auth, 0, size);
    FirstFeedPageHoldsAll(guides, ids, size, g);
    var gs := FindFeed(guides, ids, PageRequest(0, size));
    var i :| 0 <= i < |gs| && gs[i] == g;
    assert FeedCards(users, likes, favorites, gs)[i] == FeedCardOf(users, likes, favorites, g);
  }

  /** A card shows a deactivated author under the placeholder name. */
  lemma FeedCardMasksDeactivatedAuthor(users: seq<UserRecord>, usersNextId: int, likes: seq<MarkRecord>,
                                       favorites: seq<MarkRecord>, g: GuideRecord, u: UserRecord)
    requires UsersValid(users, usersNextId)
    requires u in users && u.id == g.authorId && IsDeactivated(u)
    ensures ExistsUserById(users, g.authorId) && FeedCardOf(users, likes, favorites, g).authorName == DeactivatedDisplayName
  {
    AuthorIsTheUserWithThatId(users, usersNextId, g, u);
  }

  /** Every card of the feed whose author is deactivated shows the placeholder name. */
  lemma FeedMasksDeactivatedAuthors(follows: seq<FollowRecord>, guides: seq<GuideRecord>, users: seq<UserRecord>,
                                    usersNextId: int, likes: seq<MarkRecord>, favorites: seq<MarkRecord>,
                                    auth: Option<Authentication>, page: int, size: int, c: FeedCard, u: UserRecord)
    requires AuthorsExist(guides, users) && UsersValid(users, usersNextId)
    requires Feed(follows, guides, users, likes, favorites, auth, page, size).Ok?
    requires c in Feed(follows, guides, users, likes, favorites, auth, page, size).value
    requires u in users && u.id == c.authorId && IsDeactivated(u)
    ensures c.authorName == DeactivatedDisplayName
  {
    assert exists g :: g in guides && c == FeedCardOf(users, likes, favorites, g);
    var g :| g in guides && c == FeedCardOf(users, likes, favorites, g);
    FeedCardMasksDeactivatedAuthor(users, usersNextId, likes, favorites, g, u);
  }

  // ---------------------------------------------------------------------------
  // isFollowing
  // ---------------------------------------------------------------------------

  /** `isFollowing(id, auth)`: false for an anonymous caller, not a 401. */
  function IsFollowing(follows: seq<FollowRecord>, auth: Option<Authentication>, id: int): (b: bool)
    ensures b <==> auth.Some? && exists f :: f in follows && f.userId == auth.value.principal.id && f.followUserId == id
  {
    auth.Some? && ExistsEdge(follows, auth.value.principal.id, id)
  }

  // ---------------------------------------------------------------------------
  // the mutating endpoints
  // ---------------------------------------------------------------------------

  class FollowController {
    const service: FollowService

    constructor (service: FollowService)
      ensures this.service == service
    {
      this.service := service;
    }

    /** `follow(id, auth)` at `now` */
    method Follow(auth: Option<Authentication>, id: int, now: Instant) returns (o: Outcome)
      requires service.Valid()
      modifies service.follows
      ensures service.Valid()
      ensures auth.None? ==>
        o == Throw(Unauthorized, LoginRequiredMessage) && service.follows.rows == old(service.follows.rows) && service.follows.nextId == old(service.follows.nextId)
      ensures auth.Some? ==>
        Step(service.follows.rows, service.follows.nextId, o) == FollowSpec(old(service.follows.rows), old(service.follows.nextId), service.users.rows, auth.value.principal.id, id, now)
    {
      var u := MustAuth(auth);
      if u.Err? {
        return Fail(u.error);
      }
      o := service.Follow(u.value.id, id, now);
    }

    /** `unfollow(id, auth)` */
    method Unfollow(auth: Option<Authentication>, id: int) returns (o: Outcome)
      requires service.Valid()
      modifies service.follows
      ensures service.Valid()
      ensures auth.None? ==> o == Throw(Unauthorized, LoginRequiredMessage) && service.follows.rows == old(service.follows.rows)
      ensures auth.Some? ==> o == Pass && service.follows.rows == UnfollowSpec(old(service.follows.rows), auth.value.principal.id, id)
      ensures service.follows.nextId == old(service.follows.nextId)
    {
      var u := MustAuth(auth);
      if u.Err? {
        return Fail(u.error);
      }
      service.Unfollow(u.value.id, id);
      o := Pass;
    }
  }
}
