/** GuidesController: the public list and detail of guides, their comments
    and one's own check-ins, and the endpoints that create, edit, delete,
    like, favorite, comment on and check in to a guide.

    The read endpoints are functions of the tables they read; the others are
    methods of `GuidesController`, proved to validate the request body, then
    demand a login, then do what the matching `GuideService` operation does. */
module GuidesApi {
  import opened Outcomes
  import opened SeqUtil
  import opened Tables
  import opened JavaText
  import opened UserEntity
  import opened UserTable
  import opened GuideEntity
  import opened GuideTable
  import opened MarkTable
  import opened CommentTable
  import opened CheckInEntity
  import opened CheckInTable
  import opened GuideContent
  import opened AuthFilter
  import opened WebApi

  /** `GuideCardResp` */
  datatype GuideCard = GuideCard(id: int, authorId: int, title: string, category: Option<GuideCategory>,
                                 templateKey: Option<string>, authorName: string, createdAt: Instant,
                                 likeCount: nat, favoriteCount: nat)

  /** `GuideDetailResp` */
  datatype GuideDetail = GuideDetail(id: int, authorId: int, title: string, category: Option<GuideCategory>,
                                     templateKey: Option<string>, contentMarkdown: string, authorName: string,
                                     createdAt: Instant, updatedAt: Instant, likeCount: nat, favoriteCount: nat,
                                     liked: bool, favorited: bool, checkinCount: nat, checkinToday: bool)

  /** `CommentResp` */
  datatype CommentView = CommentView(id: int, userName: string, content: string, createdAt: Instant)

  /** `CheckInResp`; the day of a stored check-in is always set. */
  datatype CheckInView = CheckInView(id: int, day: Option<Day>, progress: int, note: Option<string>, createdAt: Instant)

  function CardCreatedAt(c: GuideCard): int { c.createdAt }
  function CommentViewCreatedAt(v: CommentView): int { v.createdAt }
  function CheckInViewDay(v: CheckInView): int { if v.day.Some? then v.day.value else 0 }

  // ---------------------------------------------------------------------------
  // list
  // ---------------------------------------------------------------------------

  /** The `sort` value that orders by the last edit. */
  const UpdatedSort: string := "updated"

  /** The order of `list`: by `updatedAt` when `sort` is `updated` in any
      case, by `createdAt` for anything else, newest first either way. */
  function SortKey(sort: string): GuideRecord -> int
  {
    if EqualsIgnoreCase(UpdatedSort, sort) then GuideUpdatedAt else GuideCreatedAt
  }

  /** The `sort` parameter is read without regard to case. */
  lemma SortKeyIgnoresCase(a: string, b: string)
    requires EqualsIgnoreCase(a, b)
    ensures SortKey(a) == SortKey(b)
  {
    EqualsIgnoreCaseProperties(UpdatedSort, a, b);
    EqualsIgnoreCaseProperties(UpdatedSort, b, a);
  }

  /** The card of a listed guide: its author's public name and its like and
      favorite counts. */
  function CardOf(users: seq<UserRecord>, likes: seq<MarkRecord>, favorites: seq<MarkRecord>, g: GuideRecord): GuideCard
    requires ExistsUserById(users, g.authorId)
  {
    GuideCard(g.id, g.authorId, g.title, g.category, g.templateKey, DisplayNamePublic(AuthorOf(users, g)),
              g.createdAt, CountByGuideId(likes, g.id), CountByGuideId(favorites, g.id))
  }

  function Cards(users: seq<UserRecord>, likes: seq<MarkRecord>, favorites: seq<MarkRecord>, gs: seq<GuideRecord>)
    : (r: seq<GuideCard>)
    requires AuthorsExist(gs, users)
    ensures |r| == |gs|
    ensures forall i :: 0 <= i < |gs| ==> r[i] == CardOf(users, likes, favorites, gs[i])
  {
    seq(|gs|, i requires 0 <= i < |gs| => CardOf(users, likes, favorites, gs[i]))
  }

  /** The guides of one page of `list`: guides that are not deleted, of the
      category if one is given, matching the text if a non-blank one is
      given, in the order `sort` asks for. */
  function ListedGuides(guides: seq<GuideRecord>, category: Option<GuideCategory>, q: Option<string>,
                        p: Pageable, sort: string): (gs: seq<GuideRecord>)
    ensures |gs| <= p.size
    ensures SortedDescBy(gs, SortKey(sort))
    ensures forall g :: g in gs ==>
      && g in guides && !g.deleted
      && (category.None? || g.category == category)
      && (q.Some? && !IsBlank(q.value) ==> TextMatches(g, q.value))
  {
    NewestFirstPage(SearchGuides(guides, category, q), p, SortKey(sort))
  }

  /** `list(category, q, page, size, sort)`: the cards of one page of the
      matching guides, or the failure of an illegal page request. The bounds
      on `page` and `size` declared on the parameters are not enforced. */
  function List(guides: seq<GuideRecord>, users: seq<UserRecord>, likes: seq<MarkRecord>, favorites: seq<MarkRecord>,
                category: Option<GuideCategory>, q: Option<string>, page: int, size: int, sort: string)
    : (r: Result<seq<GuideCard>>)
    requires AuthorsExist(guides, users)
    ensures r.Ok? <==> page >= 0 && size >= 1
    ensures r.Err? ==> r.error == UncheckedException
    ensures r.Ok? ==> |r.value| <= size
    ensures r.Ok? && !EqualsIgnoreCase(UpdatedSort, sort) ==> SortedDescBy(r.value, CardCreatedAt)
    ensures r.Ok? ==> forall c :: c in r.value ==> exists g ::
      && g in guides && !g.deleted && (category.None? || g.category == category)
      && (q.Some? && !IsBlank(q.value) ==> TextMatches(g, q.value))
      && c == CardOf(users, likes, favorites, g)
  {
    match PageRequestOf(page, size)
    case Err(e) => Err(e)
    case Ok(pr) =>
      var gs := ListedGuides(guides, category, q, pr, sort);
      var cards := Cards(users, likes, favorites, gs);
      assert forall c :: c in cards ==> exists g :: g in gs && c == CardOf(users, likes, favorites, g) by {
        forall c | c in cards ensures exists g :: g in gs && c == CardOf(users, likes, favorites, g) {
          var i :| 0 <= i < |cards| && cards[i] == c;
          assert gs[i] in gs;
        }
      }
      Ok(cards)
  }

  /** A legal page of `list` is the cards of that page of the listed guides. */
  lemma ListIsCardsOfPage(guides: seq<GuideRecord>, users: seq<UserRecord>, likes: seq<MarkRecord>,
                          favorites: seq<MarkRecord>, category: Option<GuideCategory>, q: Option<string>,
                          page: int, size: int, sort: string)
    requires AuthorsExist(guides, users) && page >= 0 && size >= 1
    ensures List(guides, users, likes, favorites, category, q, page, size, sort)
         == Ok(Cards(users, likes, favorites, ListedGuides(guides, category, q, PageRequest(page, size), sort)))
  {
  }

  /** With `sort` set to `updated` in any case, the listed guides are the most
      recently edited first. */
  lemma ListByUpdate(guides: seq<GuideRecord>, category: Option<GuideCategory>, q: Option<string>, p: Pageable, sort: string)
    requires EqualsIgnoreCase(UpdatedSort, sort)
    ensures SortedDescBy(ListedGuides(guides, category, q, p, sort), GuideUpdatedAt)
  {
  }

  /** A first page that can hold every matching guide shows each live guide
      of the category that matches the text, when one is given. */
  lemma ListFirstPageIsComplete(guides: seq<GuideRecord>, users: seq<UserRecord>, likes: seq<MarkRecord>,
                                favorites: seq<MarkRecord>, category: Option<GuideCategory>, q: Option<string>,
                                size: int, sort: string, g: GuideRecord)
    requires AuthorsExist(guides, users) && size >= 1
    requires |SearchGuides(guides, category, q)| <= size
    requires g in guides && !g.deleted && (category.None? || g.category == category)
    requires q.Some? && !IsBlank(q.value) ==> TextMatches(g, q.value)
    ensures CardOf(users, likes, favorites, g) in List(guides, users, likes, favorites, category, q, 0, size, sort).value
  {
    ListIsCardsOfPage(guides, users, likes, favorites, category, q, 0, size, sort);
    var gs := ListedGuides(guides, category, q, PageRequest(0, size), sort);
    FirstPageHoldsAll(guides, category, q, size, sort, g);
    var i :| 0 <= i < |gs| && gs[i] == g;
    assert Cards(users, likes, favorites, gs)[i] == CardOf(users, likes, favorites, g);
  }

  /** A first page that can hold every match holds each live guide of the
      category that matches the text, when one is given. */
  lemma FirstPageHoldsAll(guides: seq<GuideRecord>, category: Option<GuideCategory>, q: Option<string>,
                          size: int, sort: string, g: GuideRecord)
    requires size >= 1
    requires |SearchGuides(guides, category, q)| <= size
    requires g in guides && !g.deleted && (category.None? || g.category == category)
    requires q.Some? && !IsBlank(q.value) ==> TextMatches(g, q.value)
    ensures g in ListedGuides(guides, category, q, PageRequest(0, size), sort)
  {
    var all := SearchGuides(guides, category, q);
    assert g in all;
    var gs := ListedGuides(guides, category, q, PageRequest(0, size), sort);
    assert multiset(gs) == multiset(all);
    assert g in multiset(gs);
  }

  // ---------------------------------------------------------------------------
  // detail
  // ---------------------------------------------------------------------------

  /** The guide fields a detail shows. */
  predicate Shows(d: GuideDetail, g: GuideRecord)
  {
    && d.id == g.id && d.authorId == g.authorId && d.title == g.title && d.category == g.category
    && d.templateKey == g.templateKey && d.contentMarkdown == g.contentMarkdown
    && d.createdAt == g.createdAt && d.updatedAt == g.updatedAt
  }

  /** Whether the caller has a check-in on guide `g` for day `d`. */
  function CheckedInOn(checkIns: seq<CheckInRecord>, u: int, g: int, d: Day): (b: bool)
    ensures b <==> exists c :: c in checkIns && c.userId == u && c.guideId == g && c.day == Some(d)
  {
    FindByUserIdAndGuideIdAndDay(checkIns, u, g, d).Some?
  }

  /** The detail of the stored guide `g` as `auth` sees it on `today`. */
  function DetailOf(g: GuideRecord, users: seq<UserRecord>, likes: seq<MarkRecord>, favorites: seq<MarkRecord>,
                    checkIns: seq<CheckInRecord>, auth: Option<Authentication>, today: Day)
    : (d: GuideDetail)
    requires ExistsUserById(users, g.authorId)
    ensures Shows(d, g) && d.authorName == DisplayNamePublic(AuthorOf(users, g))
    ensures d.likeCount == CountByGuideId(likes, g.id) && d.favoriteCount == CountByGuideId(favorites, g.id)
    ensures d.checkinCount == CountDistinctUserIdByGuideId(checkIns, g.id)
    ensures d.liked <==> auth.Some? && exists m :: m in likes && m.userId == auth.value.principal.id && m.guideId == g.id
    ensures d.favorited <==> auth.Some? && exists m :: m in favorites && m.userId == auth.value.principal.id && m.guideId == g.id
    ensures d.checkinToday <==>
      auth.Some? && exists c :: c in checkIns && c.userId == auth.value.principal.id && c.guideId == g.id && c.day == Some(today)
  {
    var liked := auth.Some? && ExistsPair(likes, auth.value.principal.id, g.id);
    var favorited := auth.Some? && ExistsPair(favorites, auth.value.principal.id, g.id);
    var checkinToday := auth.Some? && CheckedInOn(checkIns, auth.value.principal.id, g.id, today);
    GuideDetail(g.id, g.authorId, g.title, g.category, g.templateKey, g.contentMarkdown,
                DisplayNamePublic(AuthorOf(users, g)), g.createdAt, g.updatedAt,
                CountByGuideId(likes, g.id), CountByGuideId(favorites, g.id),
                liked, favorited, CountDistinctUserIdByGuideId(checkIns, g.id), checkinToday)
  }

  /** `detail(id, auth)` on `today`: 404 unless the guide exists and is not
      deleted; the counts for everyone, and whether the caller liked,
      favorited and checked in today only for a logged-in caller. The
      check-in count is the number of different users who checked in. */
  function Detail(guides: seq<GuideRecord>, users: seq<UserRecord>, likes: seq<MarkRecord>, favorites: seq<MarkRecord>,
                  checkIns: seq<CheckInRecord>, auth: Option<Authentication>, id: int, today: Day)
    : (r: Result<GuideDetail>)
    requires AuthorsExist(guides, users)
    ensures r.Ok? <==> ExistsByIdAndDeletedFalse(guides, id)
    ensures r.Err? ==> r.error == ApiException(NotFound, GuideMissingMessage)
    ensures r.Ok? ==> exists g :: g in guides && g.id == id && !g.deleted && Shows(r.value, g)
                                && r.value.authorName == DisplayNamePublic(AuthorOf(users, g))
    ensures r.Ok? ==> r.value.likeCount == CountByGuideId(likes, id) && r.value.favoriteCount == CountByGuideId(favorites, id)
    ensures r.Ok? ==> r.value.checkinCount == CountDistinctUserIdByGuideId(checkIns, id)
    ensures r.Ok? ==> (r.value.liked <==> auth.Some? && exists m :: m in likes && m.userId == auth.value.principal.id && m.guideId == id)
    ensures r.Ok? ==> (r.value.favorited <==> auth.Some? && exists m :: m in favorites && m.userId == auth.value.principal.id && m.guideId == id)
    ensures r.Ok? ==> (r.value.checkinToday <==>
      auth.Some? && exists c :: c in checkIns && c.userId == auth.value.principal.id && c.guideId == id && c.day == Some(today))
  {
    match GetByIdWithAuthor(guides, id)
    case Err(e) => Err(e)
    case Ok(g) => Ok(DetailOf(g, users, likes, favorites, checkIns, auth, today))
  }

  /** Every guide that is not deleted has a detail, and it shows that guide. */
  lemma DetailShowsStoredGuide(guides: seq<GuideRecord>, nextId: int, users: seq<UserRecord>, likes: seq<MarkRecord>,
                               favorites: seq<MarkRecord>, checkIns: seq<CheckInRecord>, auth: Option<Authentication>,
                               g: GuideRecord, today: Day)
    requires GuidesValid(guides, nextId) && AuthorsExist(guides, users)
    requires g in guides && !g.deleted
    ensures var r := Detail(guides, users, likes, favorites, checkIns, auth, g.id, today);
      r.Ok? && Shows(r.value, g) && r.value.authorName == DisplayNamePublic(AuthorOf(users, g))
  {
    LookupsAndDeletion(guides, nextId, g);
  }

  /** An anonymous caller sees the same detail as anyone else, with the three
      personal flags false. */
  lemma AnonymousDetail(guides: seq<GuideRecord>, users: seq<UserRecord>, likes: seq<MarkRecord>,
                        favorites: seq<MarkRecord>, checkIns: seq<CheckInRecord>, a: Authentication, id: int, today: Day)
    requires AuthorsExist(guides, users)
    ensures var anon := Detail(guides, users, likes, favorites, checkIns, None, id, today);
      var known := Detail(guides, users, likes, favorites, checkIns, Some(a), id, today);
      && (anon.Ok? <==> known.Ok?)
      && (anon.Ok? ==> !anon.value.liked && !anon.value.favorited && !anon.value.checkinToday)
      && (anon.Ok? ==> anon.value == known.value.(liked := false, favorited := false, checkinToday := false))
  {
  }

  /** Where a user can like a guide only once, its like count is the number
      of different users who liked it. */
  lemma DetailCountsLikers(guides: seq<GuideRecord>, users: seq<UserRecord>, likes: seq<MarkRecord>,
                           favorites: seq<MarkRecord>, checkIns: seq<CheckInRecord>, auth: Option<Authentication>,
                           id: int, today: Day)
    requires AuthorsExist(guides, users) && KeysUnique(likes, PairOf)
    requires Detail(guides, users, likes, favorites, checkIns, auth, id, today).Ok?
    ensures Detail(guides, users, likes, favorites, checkIns, auth, id, today).value.likeCount
         == DistinctCount(Filter(likes, OnGuide(id)), MarkUserOf)
  {
    CountIsDistinctUsers(likes, id);
  }

  // ---------------------------------------------------------------------------
  // comments
  // ---------------------------------------------------------------------------

  /** The foreign key `comments.user_id -> users.id`. */
  predicate CommentersExist(comments: seq<CommentRecord>, users: seq<UserRecord>)
  {
    forall c :: c in comments ==> ExistsUserById(users, c.userId)
  }

  /** A comment as shown: its author's public name. */
  function CommentViewOf(users: seq<UserRecord>, c: CommentRecord): CommentView
    requires ExistsUserById(users, c.userId)
  {
    CommentView(c.id, DisplayNamePublic(FindUserById(users, c.userId).value), c.content, c.createdAt)
  }

  function CommentViews(users: seq<UserRecord>, cs: seq<CommentRecord>): (r: seq<CommentView>)
    requires CommentersExist(cs, users)
    ensures |r| == |cs|
    ensures forall i :: 0 <= i < |cs| ==> r[i] == CommentViewOf(users, cs[i])
  {
    seq(|cs|, i requires 0 <= i < |cs| => CommentViewOf(users, cs[i]))
  }

  /** Every view of a comment list is the view of one of its comments, and
      the other way round. */
  lemma CommentViewsMembers(users: seq<UserRecord>, cs: seq<CommentRecord>)
    requires CommentersExist(cs, users)
    ensures forall v :: v in CommentViews(users, cs) <==> exists c :: c in cs && v == CommentViewOf(users, c)
  {
    var vs := CommentViews(users, cs);
    forall v | v in vs ensures exists c :: c in cs && v == CommentViewOf(users, c) {
      var i :| 0 <= i < |vs| && vs[i] == v;
      assert cs[i] in cs;
    }
    forall c | c in cs ensures CommentViewOf(users, c) in vs {
      var i :| 0 <= i < |cs| && cs[i] == c;
      assert vs[i] == CommentViewOf(users, c);
    }
  }

  /** The comments on guide `id` as views, oldest first. */
  function CommentsOn(users: seq<UserRecord>, comments: seq<CommentRecord>, id: int): (r: seq<CommentView>)
    requires CommentersExist(comments, users)
    ensures |r| == |Filter(comments, OnCommentGuide(id))|
    ensures SortedBy(r, CommentViewCreatedAt)
    ensures forall v :: v in r <==> exists c :: c in comments && c.guideId == id && v == CommentViewOf(users, c)
  {
    var cs := FindByGuideIdOrderByCreatedAtAsc(comments, id);
    assert |cs| == |Filter(comments, OnCommentGuide(id))| by {
      assert |multiset(cs)| == |multiset(Filter(comments, OnCommentGuide(id)))|;
    }
    var vs := CommentViews(users, cs);
    CommentViewsMembers(users, cs);
    assert SortedBy(vs, CommentViewCreatedAt) by {
      forall i, j | 0 <= i < j < |vs| ensures CommentViewCreatedAt(vs[i]) <= CommentViewCreatedAt(vs[j]) {
        assert CommentCreatedAt(cs[i]) <= CommentCreatedAt(cs[j]);
      }
    }
    vs
  }

  /** `listComments(id)`: 404 when no guide row exists, so the comments of a
      deleted guide are still listed; otherwise every comment on it, oldest
      first. */
  function ListComments(guides: seq<GuideRecord>, users: seq<UserRecord>, comments: seq<CommentRecord>, id: int)
    : (r: Result<seq<CommentView>>)
    requires CommentersExist(comments, users)
    ensures r.Ok? <==> ExistsGuideById(guides, id)
    ensures r.Err? ==> r.error == ApiException(NotFound, GuideMissingMessage)
    ensures r.Ok? ==> |r.value| == |Filter(comments, OnCommentGuide(id))|
    ensures r.Ok? ==> SortedBy(r.value, CommentViewCreatedAt)
    ensures r.Ok? ==> forall v :: v in r.value <==>
      exists c :: c in comments && c.guideId == id && v == CommentViewOf(users, c)
  {
    if !ExistsGuideById(guides, id) then Err(ApiException(NotFound, GuideMissingMessage))
    else Ok(CommentsOn(users, comments, id))
  }

  /** A deleted guide keeps its comment list. */
  lemma DeletedGuideKeepsComments(guides: seq<GuideRecord>, users: seq<UserRecord>, comments: seq<CommentRecord>,
                                  g: GuideRecord, c: CommentRecord)
    requires CommentersExist(comments, users)
    requires g in guides && g.deleted && c in comments && c.guideId == g.id
    ensures ListComments(guides, users, comments, g.id).Ok?
    ensures CommentViewOf(users, c) in ListComments(guides, users, comments, g.id).value
  {
    assert GuideHasId(g.id)(g);
  }

  // ---------------------------------------------------------------------------
  // check-ins
  // ---------------------------------------------------------------------------

  function CheckInViewOf(c: CheckInRecord): CheckInView
  {
    CheckInView(c.id, c.day, c.progress, c.note, c.createdAt)
  }

  /** User `u`'s check-ins on guide `id` as views, by day. */
  function OwnCheckInViews(checkIns: seq<CheckInRecord>, u: int, id: int): (r: seq<CheckInView>)
    ensures SortedBy(r, CheckInViewDay)
    ensures forall v :: v in r <==> exists c :: c in checkIns && c.userId == u && c.guideId == id && v == CheckInViewOf(c)
  {
    var cs := FindByUserIdAndGuideIdOrderByDayAsc(checkIns, u, id);
    var vs := Map(cs, CheckInViewOf);
    assert forall v :: v in vs <==> exists c :: c in cs && v == CheckInViewOf(c) by {
      forall v | v in vs ensures exists c :: c in cs && v == CheckInViewOf(c) {
        var i :| 0 <= i < |vs| && vs[i] == v;
        assert cs[i] in cs;
      }
      forall c | c in cs ensures CheckInViewOf(c) in vs {
        var i :| 0 <= i < |cs| && cs[i] == c;
        assert vs[i] == CheckInViewOf(c);
      }
    }
    assert SortedBy(vs, CheckInViewDay) by {
      forall i, j | 0 <= i < j < |vs| ensures CheckInViewDay(vs[i]) <= CheckInViewDay(vs[j]) {
        assert DayKey(cs[i]) <= DayKey(cs[j]);
      }
    }
    vs
  }

  /** `listCheckIns(id, auth)`: 401 for an anonymous caller, then 404 for a
      missing or deleted guide, then 400 unless it is a study or game guide;
      otherwise the caller's own check-ins on it, by day. */
  function ListCheckIns(guides: seq<GuideRecord>, checkIns: seq<CheckInRecord>, auth: Option<Authentication>, id: int)
    : (r: Result<seq<CheckInView>>)
    ensures auth.None? ==> r == Err(ApiException(Unauthorized, LoginRequiredMessage))
    ensures auth.Some? && !ExistsByIdAndDeletedFalse(guides, id) ==> r == Err(ApiException(NotFound, GuideMissingMessage))
    ensures auth.Some? && ExistsByIdAndDeletedFalse(guides, id) ==>
      && (r.Err? <==> !SupportsCheckIn(GetByIdWithAuthor(guides, id).value))
      && (r.Err? ==> r.error == ApiException(BadRequest, CheckInUnsupportedMessage))
    ensures r.Ok? ==> SortedBy(r.value, CheckInViewDay)
    ensures r.Ok? ==> forall v :: v in r.value <==>
      exists c :: c in checkIns && c.userId == auth.value.principal.id && c.guideId == id && v == CheckInViewOf(c)
  {
    match MustAuth(auth)
    case Err(e) => Err(e)
    case Ok(me) =>
      match GetByIdWithAuthor(guides, id)
      case Err(e) => Err(e)
      case Ok(g) =>
        if !SupportsCheckIn(g) then Err(ApiException(BadRequest, CheckInUnsupportedMessage))
        else Ok(OwnCheckInViews(checkIns, me.id, id))
  }

  /** With one check-in per user, guide and day, the list has each day once,
      in strictly increasing order, and every entry has a day. */
  lemma CheckInDaysStrictlyAscending(guides: seq<GuideRecord>, checkIns: seq<CheckInRecord>, nextId: int,
                                     auth: Option<Authentication>, id: int)
    requires CheckInsValid(checkIns, nextId)
    requires ListCheckIns(guides, checkIns, auth, id).Ok?
    ensures var vs := ListCheckIns(guides, checkIns, auth, id).value;
      forall i, j :: 0 <= i < j < |vs| ==> vs[i].day.Some? && vs[i].day.value < vs[j].day.value
  {
    var cs := FindByUserIdAndGuideIdOrderByDayAsc(checkIns, auth.value.principal.id, id);
    DaysStrictlyAscending(checkIns, nextId, auth.value.principal.id, id);
    assert ListCheckIns(guides, checkIns, auth, id).value == Map(cs, CheckInViewOf);
  }

  // ---------------------------------------------------------------------------
  // request bodies
  // ---------------------------------------------------------------------------

  const TitleMaxLength: nat := 120
  const CommentMaxLength: nat := 800
  const ProgressMax: int := 100

  /** `UpsertGuideReq` */
  datatype UpsertGuideReq = UpsertGuideReq(title: Option<string>, category: Option<GuideCategory>,
                                           templateKey: Option<string>, contentMarkdown: Option<string>)

  /** Its constraints: a non-blank title of at most 120 characters, a
      category, and non-blank content; the template key is free. */
  predicate ValidGuideReq(req: UpsertGuideReq)
  {
    && NotBlank(req.title) && |req.title.value| <= TitleMaxLength
    && req.category.Some?
    && NotBlank(req.contentMarkdown)
  }

  /** `CreateCommentReq`: non-blank content of at most 800 characters. */
  datatype CreateCommentReq = CreateCommentReq(content: Option<string>)

  predicate ValidCommentReq(req: CreateCommentReq)
  {
    NotBlank(req.content) && |req.content.value| <= CommentMaxLength
  }

  /** `UpsertCheckInReq`: a day, and a progress from 0 to 100; the note is free. */
  datatype UpsertCheckInReq = UpsertCheckInReq(day: Option<Day>, progress: Option<int>, note: Option<string>)

  predicate ValidCheckInReq(req: UpsertCheckInReq)
  {
    req.day.Some? && req.progress.Some? && 0 <= req.progress.value <= ProgressMax
  }

  /** A blank title or content is refused whatever surrounds it: a title of
      spaces and line breaks fails like an empty one. */
  lemma BlankTitleRefused(title: string, category: Option<GuideCategory>, templateKey: Option<string>, content: Option<string>)
    requires forall i :: 0 <= i < |title| ==> IsTrimmable(title[i])
    ensures !ValidGuideReq(UpsertGuideReq(Some(title), category, templateKey, content))
  {

  }

  // ---------------------------------------------------------------------------
  // keeping the foreign keys
  // ---------------------------------------------------------------------------

  /** Saving a guide whose author exists keeps every guide's author present. */
  lemma SaveKeepsAuthors(rows: seq<GuideRecord>, nextId: int, users: seq<UserRecord>, e: GuideRecord)
    requires GuidesValid(rows, nextId) && e.id >= 0
    requires AuthorsExist(rows, users) && ExistsUserById(users, e.authorId)
    ensures AuthorsExist(SaveGuide(rows, nextId, e).rows, users)
  {
    UpsertRows(rows, nextId, e, GuideIdOf, WithGuideId);
  }

  lemma CreateKeepsAuthors(rows: seq<GuideRecord>, nextId: int, users: seq<UserRecord>, authorId: int,
                           title: string, category: Option<GuideCategory>, templateKey: Option<string>,
                           content: string, now: Instant)
    requires GuidesValid(rows, nextId) && AuthorsExist(rows, users)
    ensures AuthorsExist(CreateSpec(rows, nextId, users, authorId, title, category, templateKey, content, now).rows, users)
  {
    if ExistsUserById(users, authorId) {
      SaveKeepsAuthors(rows, nextId, users, NewGuide(authorId, title, category, templateKey, content, now));
    }
  }

  lemma UpdateKeepsAuthors(rows: seq<GuideRecord>, nextId: int, users: seq<UserRecord>, guideId: int, authorId: int,
                           title: string, category: Option<GuideCategory>, templateKey: Option<string>,
                           content: string, now: Instant)
    requires GuidesValid(rows, nextId) && AuthorsExist(rows, users)
    ensures AuthorsExist(UpdateSpec(rows, nextId, guideId, authorId, title, category, templateKey, content, now).rows, users)
  {
    var found := GetByIdWithAuthor(rows, guideId);
    if found.Ok? && found.value.authorId == authorId {
      StoredIdIssued(rows, GuideIdOf, nextId, found.value);
      SaveKeepsAuthors(rows, nextId, users, Edited(found.value, title, category, templateKey, content, now));
    }
  }

  lemma DeleteKeepsAuthors(rows: seq<GuideRecord>, nextId: int, users: seq<UserRecord>, guideId: int, authorId: int)
    requires GuidesValid(rows, nextId) && AuthorsExist(rows, users)
    ensures AuthorsExist(DeleteSpec(rows, nextId, guideId, authorId).rows, users)
  {
    var found := GetById(rows, guideId);
    if found.Ok? && found.value.authorId == authorId {
      StoredIdIssued(rows, GuideIdOf, nextId, found.value);
      SaveKeepsAuthors(rows, nextId, users, found.value.(deleted := true));
    }
  }

  lemma CreateCommentKeepsCommenters(guides: seq<GuideRecord>, users: seq<UserRecord>, rows: seq<CommentRecord>,
                                     nextId: int, guideId: int, userId: int, content: string, now: Instant)
    requires CommentsValid(rows, nextId) && CommentersExist(rows, users)
    ensures CommentersExist(CreateCommentSpec(guides, users, rows, nextId, guideId, userId, content, now).rows, users)
  {
    CreateCommentChecks(guides, users, rows, nextId, guideId, userId, content, now);
  }

  /** The detail answered after a successful create shows the new guide, by
      its author, under the next id. */
  lemma CreatedGuideIsShown(rows: seq<GuideRecord>, nextId: int, users: seq<UserRecord>, likes: seq<MarkRecord>,
                            favorites: seq<MarkRecord>, checkIns: seq<CheckInRecord>, auth: Option<Authentication>,
                            authorId: int, title: string, category: Option<GuideCategory>, templateKey: Option<string>,
                            content: string, now: Instant, today: Day)
    requires GuidesValid(rows, nextId) && AuthorsExist(rows, users)
    requires CreateSpec(rows, nextId, users, authorId, title, category, templateKey, content, now).result.Ok?
    ensures var s := CreateSpec(rows, nextId, users, authorId, title, category, templateKey, content, now);
      AuthorsExist(s.rows, users) &&
      var d := Detail(s.rows, users, likes, favorites, checkIns, auth, s.result.value.id, today);
      && d.Ok?
      && Shows(d.value, GuideRecord(nextId, authorId, title, category, templateKey, content, now, now, false))
  {
    var s := CreateSpec(rows, nextId, users, authorId, title, category, templateKey, content, now);
    CreateAppendsGuide(rows, nextId, users, authorId, title, category, templateKey, content, now);
    CreateKeepsAuthors(rows, nextId, users, authorId, title, category, templateKey, content, now);
    var g := GuideRecord(nextId, authorId, title, category, templateKey, content, now, now, false);
    assert s.rows[|rows|] == g;
    DetailShowsStoredGuide(s.rows, s.nextId, users, likes, favorites, checkIns, auth, g, today);
  }

  // ---------------------------------------------------------------------------
  // the mutating endpoints
  // ---------------------------------------------------------------------------

  class GuidesController {
    const service: GuideService

    /** The service's invariant and the two foreign keys into `users` that the
        responses rely on. */
    ghost predicate Valid()
      reads this, service, service.guides, service.users, service.likes, service.favorites, service.comments, service.checkIns
    {
      && service.Valid()
      && AuthorsExist(service.guides.rows, service.users.rows)
      && CommentersExist(service.comments.rows, service.users.rows)
    }

    constructor (service: GuideService)
      ensures this.service == service
    {
      this.service := service;
    }

    /** `create(req, auth)` at `now` on `today`: the body is validated first,
        then the login demanded; the answer is the new guide's detail. */
    method Create(req: UpsertGuideReq, auth: Option<Authentication>, now: Instant, today: Day) returns (r: Result<GuideDetail>)
      requires Valid()
      modifies service.guides
      ensures Valid()
      ensures !ValidGuideReq(req) ==> r == Err(ValidationFailure)
      ensures ValidGuideReq(req) && auth.None? ==> r == Err(ApiException(Unauthorized, LoginRequiredMessage))
      ensures !ValidGuideReq(req) || auth.None? ==>
        service.guides.rows == old(service.guides.rows) && service.guides.nextId == old(service.guides.nextId)
      ensures ValidGuideReq(req) && auth.Some? ==>
        var s := CreateSpec(old(service.guides.rows), old(service.guides.nextId), service.users.rows, auth.value.principal.id,
                            req.title.value, req.category, req.templateKey, req.contentMarkdown.value, now);
        && service.guides.rows == s.rows && service.guides.nextId == s.nextId
        && (s.result.Err? ==> r == Err(s.result.error))
        && (s.result.Ok? ==> r == Detail(service.guides.rows, service.users.rows, service.likes.rows, service.favorites.rows,
                                         service.checkIns.rows, auth, s.result.value.id, today))
    {
      if !ValidGuideReq(req) {
        return Err(ValidationFailure);
      }
      var u := MustAuth(auth);
      if u.Err? {
        return Err(u.error);
      }
      CreateKeepsAuthors(service.guides.rows, service.guides.nextId, service.users.rows, u.value.id,
                         req.title.value, req.category, req.templateKey, req.contentMarkdown.value, now);
      var saved := service.Create(u.value.id, req.title.value, req.category, req.templateKey, req.contentMarkdown.value, now);
      if saved.Err? {
        return Err(saved.error);
      }
      r := Detail(service.guides.rows, service.users.rows, service.likes.rows, service.favorites.rows,
                  service.checkIns.rows, auth, saved.value.id, today);
    }

    /** `update(id, req, auth)` at `now` on `today`: validated, then the login,
        then the service's edit; the answer is the guide's detail. */
    method Update(id: int, req: UpsertGuideReq, auth: Option<Authentication>, now: Instant, today: Day)
      returns (r: Result<GuideDetail>)
      requires Valid()
      modifies service.guides
      ensures Valid()
      ensures !ValidGuideReq(req) ==> r == Err(ValidationFailure)
      ensures ValidGuideReq(req) && auth.None? ==> r == Err(ApiException(Unauthorized, LoginRequiredMessage))
      ensures !ValidGuideReq(req) || auth.None? ==>
        service.guides.rows == old(service.guides.rows) && service.guides.nextId == old(service.guides.nextId)
      ensures ValidGuideReq(req) && auth.Some? ==>
        var s := UpdateSpec(old(service.guides.rows), old(service.guides.nextId), id, auth.value.principal.id,
                            req.title.value, req.category, req.templateKey, req.contentMarkdown.value, now);
        && service.guides.rows == s.rows && service.guides.nextId == s.nextId
        && (s.result.Err? ==> r == Err(s.result.error))
        && (s.result.Ok? ==> r == Detail(service.guides.rows, service.users.rows, service.likes.rows, service.favorites.rows,
                                         service.checkIns.rows, auth, id, today))
    {
      if !ValidGuideReq(req) {
        return Err(ValidationFailure);
      }
      var u := MustAuth(auth);
      if u.Err? {
        return Err(u.error);
      }
      UpdateKeepsAuthors(service.guides.rows, service.guides.nextId, service.users.rows, id, u.value.id,
                         req.title.value, req.category, req.templateKey, req.contentMarkdown.value, now);
      var saved := service.Update(id, u.value.id, req.title.value, req.category, req.templateKey, req.contentMarkdown.value, now);
      if saved.Err? {
        return Err(saved.error);
      }
      r := Detail(service.guides.rows, service.users.rows, service.likes.rows, service.favorites.rows,
                  service.checkIns.rows, auth, id, today);
    }

    /** `delete(id, auth)` */
    method Delete(id: int, auth: Option<Authentication>) returns (o: Outcome)
      requires Valid()
      modifies service.guides
      ensures Valid()
      ensures auth.None? ==> o == Throw(Unauthorized, LoginRequiredMessage)
      ensures auth.None? ==> service.guides.rows == old(service.guides.rows) && service.guides.nextId == old(service.guides.nextId)
      ensures auth.Some? ==>
        Step(service.guides.rows, service.guides.nextId, o)
        == DeleteSpec(old(service.guides.rows), old(service.guides.nextId), id, auth.value.principal.id)
    {
      var u := MustAuth(auth);
      if u.Err? {
        return Fail(u.error);
      }
      DeleteKeepsAuthors(service.guides.rows, service.guides.nextId, service.users.rows, id, u.value.id);
      o := service.Delete(id, u.value.id);
    }

    /** `like(id, auth)` at `now` */
    method Like(id: int, auth: Option<Authentication>, now: Instant) returns (o: Outcome)
      requires Valid()
      modifies service.likes
      ensures Valid()
      ensures auth.None? ==> o == Throw(Unauthorized, LoginRequiredMessage)
      ensures auth.None? ==> service.likes.rows == old(service.likes.rows) && service.likes.nextId == old(service.likes.nextId)
      ensures auth.Some? ==>
        Step(service.likes.rows, service.likes.nextId, o)
        == MarkSpec(service.guides.rows, old(service.likes.rows), old(service.likes.nextId), true, id, auth.value.principal.id, now)
    {
      var u := MustAuth(auth);
      if u.Err? {
        return Fail(u.error);
      }
      o := service.Like(id, u.value.id, now);
    }

    /** `unlike(id, auth)` */
    method Unlike(id: int, auth: Option<Authentication>) returns (o: Outcome)
      requires Valid()
      modifies service.likes
      ensures Valid()
      ensures auth.None? ==> o == Throw(Unauthorized, LoginRequiredMessage) && service.likes.rows == old(service.likes.rows)
      ensures auth.Some? ==> o == Pass && service.likes.rows == UnmarkSpec(old(service.likes.rows), id, auth.value.principal.id)
      ensures service.likes.nextId == old(service.likes.nextId)
    {
      var u := MustAuth(auth);
      if u.Err? {
        return Fail(u.error);
      }
      service.Unlike(id, u.value.id);
      o := Pass;
    }

    /** `favorite(id, auth)` at `now` */
    method Favorite(id: int, auth: Option<Authentication>, now: Instant) returns (o: Outcome)
      requires Valid()
      modifies service.favorites
      ensures Valid()
      ensures auth.None? ==> o == Throw(Unauthorized, LoginRequiredMessage)
      ensures auth.None? ==> service.favorites.rows == old(service.favorites.rows) && service.favorites.nextId == old(service.favorites.nextId)
      ensures auth.Some? ==>
        Step(service.favorites.rows, service.favorites.nextId, o)
        == MarkSpec(service.guides.rows, old(service.favorites.rows), old(service.favorites.nextId), false, id, auth.value.principal.id, now)
    {
      var u := MustAuth(auth);
      if u.Err? {
        return Fail(u.error);
      }
      o := service.Favorite(id, u.value.id, now);
    }

    /** `unfavorite(id, auth)` */
    method Unfavorite(id: int, auth: Option<Authentication>) returns (o: Outcome)
      requires Valid()
      modifies service.favorites
      ensures Valid()
      ensures auth.None? ==> o == Throw(Unauthorized, LoginRequiredMessage) && service.favorites.rows == old(service.favorites.rows)
      ensures auth.Some? ==> o == Pass && service.favorites.rows == UnmarkSpec(old(service.favorites.rows), id, auth.value.principal.id)
      ensures service.favorites.nextId == old(service.favorites.nextId)
    {
      var u := MustAuth(auth);
      if u.Err? {
        return Fail(u.error);
      }
      service.Unfavorite(id, u.value.id);
      o := Pass;
    }

    /** `createComment(id, req, auth)` at `now`: validated, then the login,
        then the service; the answer shows the commenter's public name. */
    method CreateComment(id: int, req: CreateCommentReq, auth: Option<Authentication>, now: Instant)
      returns (r: Result<CommentView>)
      requires Valid()
      modifies service.comments
      ensures Valid()
      ensures !ValidCommentReq(req) ==> r == Err(ValidationFailure)
      ensures ValidCommentReq(req) && auth.None? ==> r == Err(ApiException(Unauthorized, LoginRequiredMessage))
      ensures !ValidCommentReq(req) || auth.None? ==>
        service.comments.rows == old(service.comments.rows) && service.comments.nextId == old(service.comments.nextId)
      ensures ValidCommentReq(req) && auth.Some? ==>
        var s := CreateCommentSpec(service.guides.rows, service.users.rows, old(service.comments.rows), old(service.comments.nextId),
                                   id, auth.value.principal.id, req.content.value, now);
        && service.comments.rows == s.rows && service.comments.nextId == s.nextId
        && (s.result.Err? ==> r == Err(s.result.error))
        && (s.result.Ok? ==> r == Ok(CommentViewOf(service.users.rows, s.result.value)))
    {
      if !ValidCommentReq(req) {
        return Err(ValidationFailure);
      }
      var u := MustAuth(auth);
      if u.Err? {
        return Err(u.error);
      }
      CreateCommentKeepsCommenters(service.guides.rows, service.users.rows, service.comments.rows, service.comments.nextId,
                                   id, u.value.id, req.content.value, now);
      var saved := service.CreateComment(id, u.value.id, req.content.value, now);
      if saved.Err? {
        return Err(saved.error);
      }
      r := Ok(CommentViewOf(service.users.rows, saved.value));
    }

    /** `upsertCheckIn(id, req, auth)` at `now`: validated, then the login,
        then the service; the answer is the saved check-in. */
    method UpsertCheckIn(id: int, req: UpsertCheckInReq, auth: Option<Authentication>, now: Instant)
      returns (r: Result<CheckInView>)
      requires Valid()
      modifies service.checkIns
      ensures Valid()
      ensures !ValidCheckInReq(req) ==> r == Err(ValidationFailure)
      ensures ValidCheckInReq(req) && auth.None? ==> r == Err(ApiException(Unauthorized, LoginRequiredMessage))
      ensures !ValidCheckInReq(req) || auth.None? ==>
        service.checkIns.rows == old(service.checkIns.rows) && service.checkIns.nextId == old(service.checkIns.nextId)
      ensures ValidCheckInReq(req) && auth.Some? ==>
        var s := UpsertCheckInSpec(service.guides.rows, old(service.checkIns.rows), old(service.checkIns.nextId),
                                   id, auth.value.principal.id, req.day.value, req.progress.value, req.note, now);
        && service.checkIns.rows == s.rows && service.checkIns.nextId == s.nextId
        && (s.result.Err? ==> r == Err(s.result.error))
        && (s.result.Ok? ==> r == Ok(CheckInViewOf(s.result.value)))
    {
      if !ValidCheckInReq(req) {
        return Err(ValidationFailure);
      }
      var u := MustAuth(auth);
      if u.Err? {
        return Err(u.error);
      }
      var saved := service.UpsertCheckIn(id, u.value.id, req.day.value, req.progress.value, req.note, now);
      if saved.Err? {
        return Err(saved.error);
      }
      r := Ok(CheckInViewOf(saved.value));
    }
  }
}
