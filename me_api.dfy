/** MeController: the caller's own account, guides, favorites and check-ins,
    and the endpoints that change the caller's username and password. */
module MeApi {
  import opened Outcomes
  import opened SeqUtil
  import opened Tables
  import opened JavaText
  import opened UserEntity
  import opened UserTable
  import opened GuideEntity
  import opened GuideTable
  import opened MarkTable
  import opened CheckInEntity
  import opened CheckInTable
  import opened Accounts
  import opened AuthFilter
  import opened WebApi

  // ---------------------------------------------------------------------------
  // me
  // ---------------------------------------------------------------------------

  /** `MeResp`: the stored display name, not the public one. */
  datatype MeView = MeView(id: int, username: string, displayName: string, role: UserRole)

  /** `me(auth)`: 401 for an anonymous caller and for a principal whose
      account has no row, 403 for an account that is banned or deactivated,
      else the account. */
  function Me(users: seq<UserRecord>, auth: Option<Authentication>): (r: Result<MeView>)
    ensures auth.None? ==> r == Err(ApiException(Unauthorized, LoginRequiredMessage))
    ensures auth.Some? && !ExistsUserById(users, auth.value.principal.id) ==>
      r == Err(ApiException(Unauthorized, UserMissingMessage))
    ensures auth.Some? && ExistsUserById(users, auth.value.principal.id) ==>
      && (r.Err? <==> FindUserById(users, auth.value.principal.id).value.status != StatusNormal)
      && (r.Err? ==> r.error == ApiException(Forbidden, AccountBlockedMessage))
    ensures r.Ok? ==> exists u :: u in users && u.id == auth.value.principal.id && u.status == StatusNormal
                                 && r.value == MeView(u.id, u.username, u.displayName, RoleOf(u))
  {
    match MustAuth(auth)
    case Err(e) => Err(e)
    case Ok(p) =>
      match FindUserOrUnauthorized(users, p.id, UserMissingMessage)
      case Err(e) => Err(e)
      case Ok(u) =>
        if u.status != StatusNormal then Err(ApiException(Forbidden, AccountBlockedMessage))
        else Ok(MeView(u.id, u.username, u.displayName, RoleOf(u)))
  }

  /** Once an account is deactivated, its still valid token gets 403 from `me`. */
  lemma MeAfterDeactivation(users: seq<UserRecord>, nextId: int, auth: Option<Authentication>)
    requires UsersValid(users, nextId) && auth.Some?
    ensures var s := DeactivateUserSpec(users, nextId, auth.value.principal.id);
      s.outcome.Pass? ==> Me(s.rows, auth) == Err(ApiException(Forbidden, AccountBlockedMessage))
  {
    var id := auth.value.principal.id;
    var s := DeactivateUserSpec(users, nextId, id);
    if s.outcome.Pass? {
      DeactivateIsStatusTwo(users, nextId, id);
      var u := FindUser(users, id).value;
      var e := u.(status := StatusDeactivated);
      StoredIdIssued(users, UserIdOf, nextId, u);
      assert SaveUser(users, nextId, e).result.Ok?;
      assert e in s.rows;
      assert ExistsUserById(s.rows, id) by {
        assert UserHasId(id)(e);
      }
    }
  }

  // ---------------------------------------------------------------------------
  // my guides, my favorites
  // ---------------------------------------------------------------------------

  /** How many of one's own guides `myGuides` lists, and how many check-ins
      `myCheckins` reads. */
  const MyGuidesLimit: nat := 50
  const MyCheckinsLimit: nat := 200

  /** `GuideSimpleResp` */
  datatype GuideSimple = GuideSimple(id: int, title: string, createdAt: Instant)

  function SimpleOf(g: GuideRecord): GuideSimple { GuideSimple(g.id, g.title, g.createdAt) }
  function SimpleId(e: GuideSimple): int { e.id }
  function SimpleCreatedAt(e: GuideSimple): int { e.createdAt }

  /** `myGuides(auth)`: the first 50 of one's guides that are not deleted, newest first. */
  function MyGuides(guides: seq<GuideRecord>, auth: Option<Authentication>): (r: Result<seq<GuideSimple>>)
    ensures r.Err? <==> auth.None?
    ensures r.Err? ==> r.error == ApiException(Unauthorized, LoginRequiredMessage)
    ensures r.Ok? ==> |r.value| <= MyGuidesLimit
    ensures r.Ok? ==> SortedDescBy(r.value, SimpleCreatedAt)
    ensures r.Ok? ==> forall e :: e in r.value ==> exists g ::
      g in guides && g.authorId == auth.value.principal.id && !g.deleted && e == SimpleOf(g)
  {
    match MustAuth(auth)
    case Err(e) => Err(e)
    case Ok(p) =>
      var gs := FindByAuthorIdAndDeletedFalseOrderByCreatedAtDesc(guides, p.id, PageRequest(0, MyGuidesLimit));
      SimplesOf(gs);
      Ok(Map(gs, SimpleOf))
  }

  /** Projecting guides keeps their number, their order and where they came from. */
  lemma SimplesOf(gs: seq<GuideRecord>)
    ensures |Map(gs, SimpleOf)| == |gs|
    ensures SortedDescBy(gs, GuideCreatedAt) ==> SortedDescBy(Map(gs, SimpleOf), SimpleCreatedAt)
    ensures forall e :: e in Map(gs, SimpleOf) ==> exists g :: g in gs && e == SimpleOf(g)
  {
    var r := Map(gs, SimpleOf);
    forall e | e in r ensures exists g :: g in gs && e == SimpleOf(g) {
      var i :| 0 <= i < |r| && r[i] == e;
      assert gs[i] in gs;
    }
    if SortedDescBy(gs, GuideCreatedAt) {
      forall i, j | 0 <= i < j < |r| ensures SimpleCreatedAt(r[i]) >= SimpleCreatedAt(r[j]) {
        assert GuideCreatedAt(gs[i]) >= GuideCreatedAt(gs[j]);
      }
    }
  }

  /** With at most 50 of them, every guide of one's own that is not deleted is listed. */
  lemma MyGuidesComplete(guides: seq<GuideRecord>, auth: Option<Authentication>, g: GuideRecord)
    requires auth.Some? && |Filter(guides, LiveByAuthor(auth.value.principal.id))| <= MyGuidesLimit
    requires g in guides && g.authorId == auth.value.principal.id && !g.deleted
    ensures SimpleOf(g) in MyGuides(guides, auth).value
  {
    var a := auth.value.principal.id;
    var p := PageRequest(0, MyGuidesLimit);
    var gs := FindByAuthorIdAndDeletedFalseOrderByCreatedAtDesc(guides, a, p);
    assert g in Filter(guides, LiveByAuthor(a));
    assert multiset(gs) == multiset(Filter(guides, LiveByAuthor(a)));
    assert g in multiset(gs);
    SimpleOfListed(gs, g);
  }

  lemma SimpleOfListed(gs: seq<GuideRecord>, g: GuideRecord)
    requires g in gs
    ensures SimpleOf(g) in Map(gs, SimpleOf)
  {
    var i :| 0 <= i < |gs| && gs[i] == g;
    assert Map(gs, SimpleOf)[i] == SimpleOf(g);
  }

  function FavoriteGuideOf(m: MarkRecord): int { m.guideId }

  /** `findById` as a function of the id. */
  function GuideLookup(guides: seq<GuideRecord>): int -> Option<GuideRecord>
  {
    (id: int) => FindGuideById(guides, id)
  }

  function IsLive(): GuideRecord -> bool
  {
    (g: GuideRecord) => !g.deleted
  }

  /** The ids of the guides `u` favorited, most recently favorited first. */
  function FavoritedIds(favorites: seq<MarkRecord>, u: int): seq<int>
  {
    Map(MarkTable.FindByUserIdOrderByCreatedAtDesc(favorites, u), FavoriteGuideOf)
  }

  /** The guides `u` favorited that still exist and are not deleted, most
      recently favorited first. */
  function FavoriteSimples(favorites: seq<MarkRecord>, guides: seq<GuideRecord>, u: int): (r: seq<GuideSimple>)
    ensures forall e :: e in r ==> exists g ::
      && g in guides && !g.deleted && e == SimpleOf(g)
      && exists m :: m in favorites && m.userId == u && m.guideId == g.id
  {
    var gs := LookUpAll(FavoritedIds(favorites, u), GuideLookup(guides), IsLive());
    FavoritesLookedUp(favorites, guides, u);
    SimplesOf(gs);
    Map(gs, SimpleOf)
  }

  /** The guides looked up for `u`'s favorites exist, are not deleted and
      were favorited by `u`. */
  lemma FavoritesLookedUp(favorites: seq<MarkRecord>, guides: seq<GuideRecord>, u: int)
    ensures forall g :: g in LookUpAll(FavoritedIds(favorites, u), GuideLookup(guides), IsLive()) ==>
      && g in guides && !g.deleted
      && exists m :: m in favorites && m.userId == u && m.guideId == g.id
  {
    var ids := FavoritedIds(favorites, u);
    var found := Map(ids, GuideLookup(guides));
    var gs := LookUpAll(ids, GuideLookup(guides), IsLive());
    forall g | g in gs
      ensures g in guides && !g.deleted && exists m :: m in favorites && m.userId == u && m.guideId == g.id
    {
      assert Some(g) in found;
      var i :| 0 <= i < |found| && found[i] == Some(g);
      var ms := MarkTable.FindByUserIdOrderByCreatedAtDesc(favorites, u);
      assert ms[i] in ms;
    }
  }

  /** `myFavorites(auth)`: one's favorites, most recent first, without the
      guides that are gone or deleted. */
  function MyFavorites(favorites: seq<MarkRecord>, guides: seq<GuideRecord>, auth: Option<Authentication>)
    : (r: Result<seq<GuideSimple>>)
    ensures r.Err? <==> auth.None?
    ensures r.Err? ==> r.error == ApiException(Unauthorized, LoginRequiredMessage)
    ensures r.Ok? ==> forall e :: e in r.value ==> exists g ::
      && g in guides && !g.deleted && e == SimpleOf(g)
      && exists m :: m in favorites && m.userId == auth.value.principal.id && m.guideId == g.id
  {
    match MustAuth(auth)
    case Err(e) => Err(e)
    case Ok(p) => Ok(FavoriteSimples(favorites, guides, p.id))
  }

  /** The list follows the order of the favorites and drops exactly the ids
      with no guide or a deleted one. */
  lemma MyFavoritesKeepOrder(favorites: seq<MarkRecord>, guides: seq<GuideRecord>, auth: Option<Authentication>)
    requires auth.Some?
    ensures Map(MyFavorites(favorites, guides, auth).value, SimpleId)
         == Filter(FavoritedIds(favorites, auth.value.principal.id), Kept(GuideLookup(guides), IsLive()))
  {
    var ids := FavoritedIds(favorites, auth.value.principal.id);
    var gs := LookUpAll(ids, GuideLookup(guides), IsLive());
    LookUpAllKeys(ids, GuideLookup(guides), IsLive(), GuideIdOf);
    assert Map(Map(gs, SimpleOf), SimpleId) == Map(gs, GuideIdOf);
  }

  /** Every favorited guide that is not deleted is listed. */
  lemma MyFavoritesComplete(favorites: seq<MarkRecord>, guides: seq<GuideRecord>, nextId: int,
                            auth: Option<Authentication>, g: GuideRecord, m: MarkRecord)
    requires GuidesValid(guides, nextId) && auth.Some?
    requires g in guides && !g.deleted
    requires m in favorites && m.userId == auth.value.principal.id && m.guideId == g.id
    ensures SimpleOf(g) in MyFavorites(favorites, guides, auth).value
  {
    FavoriteIdKept(favorites, guides, nextId, auth.value.principal.id, g, m);
    MyFavoritesKeepOrder(favorites, guides, auth);
    ListedIdShowsGuide(guides, nextId, MyFavorites(favorites, guides, auth).value, g);
  }

  /** A favorited guide that is not deleted passes the lookup. */
  lemma FavoriteIdKept(favorites: seq<MarkRecord>, guides: seq<GuideRecord>, nextId: int, u: int,
                       g: GuideRecord, m: MarkRecord)
    requires GuidesValid(guides, nextId)
    requires g in guides && !g.deleted
    requires m in favorites && m.userId == u && m.guideId == g.id
    ensures g.id in Filter(FavoritedIds(favorites, u), Kept(GuideLookup(guides), IsLive()))
  {
    var ids := FavoritedIds(favorites, u);
    var ms := MarkTable.FindByUserIdOrderByCreatedAtDesc(favorites, u);
    var i :| 0 <= i < |ms| && ms[i] == m;
    assert ids[i] == g.id;
    LookupsAndDeletion(guides, nextId, g);
    assert Kept(GuideLookup(guides), IsLive())(g.id);
  }

  /** In a list of live guides, the entry with a stored guide's id shows that guide. */
  lemma ListedIdShowsGuide(guides: seq<GuideRecord>, nextId: int, r: seq<GuideSimple>, g: GuideRecord)
    requires GuidesValid(guides, nextId) && g in guides
    requires forall e :: e in r ==> exists h :: h in guides && !h.deleted && e == SimpleOf(h)
    requires g.id in Map(r, SimpleId)
    ensures SimpleOf(g) in r
  {
    var k :| 0 <= k < |r| && Map(r, SimpleId)[k] == g.id;
    assert r[k] in r;
    var h :| h in guides && !h.deleted && r[k] == SimpleOf(h);
    assert h.id == g.id;
    LookupsAndDeletion(guides, nextId, h);
    LookupsAndDeletion(guides, nextId, g);
  }

  // ---------------------------------------------------------------------------
  // my check-ins
  // ---------------------------------------------------------------------------

  /** `CheckInRecordResp`: the check-in with the title of its guide. */
  datatype CheckInEntry = CheckInEntry(id: int, guideId: int, guideTitle: string, day: Option<Day>, createdAt: Instant)

  function EntryOf(c: CheckInRecord, g: GuideRecord): CheckInEntry
  {
    CheckInEntry(c.id, c.guideId, g.title, c.day, c.createdAt)
  }

  function EntryId(e: CheckInEntry): int { e.id }
  function EntryCreatedAt(e: CheckInEntry): int { e.createdAt }
  function CheckInGuideOf(c: CheckInRecord): int { c.guideId }

  /** The map `toMap` collects: each distinct guide id of the check-ins, when
      `findById` finds a guide that is not deleted, to that guide. */
  function LiveGuidesById(guides: seq<GuideRecord>, ids: seq<int>): (m: map<int, GuideRecord>)
    ensures forall id :: id in m <==> id in ids && Kept(GuideLookup(guides), IsLive())(id)
    ensures forall id :: id in m ==> m[id] in guides && m[id].id == id && !m[id].deleted
  {
    map id | id in ids && Kept(GuideLookup(guides), IsLive())(id) :: FindGuideById(guides, id).value
  }

  function HasGuideIn(m: map<int, GuideRecord>): CheckInRecord -> bool
  {
    (c: CheckInRecord) => c.guideId in m
  }

  /** Whether a check-in's guide exists and is not deleted. */
  function OnLiveGuide(guides: seq<GuideRecord>): CheckInRecord -> bool
  {
    (c: CheckInRecord) => Kept(GuideLookup(guides), IsLive())(c.guideId)
  }

  /** One's latest 200 check-ins, newest first. */
  function CheckInPage(checkIns: seq<CheckInRecord>, u: int): seq<CheckInRecord>
  {
    CheckInTable.FindByUserIdOrderByCreatedAtDesc(checkIns, u, PageRequest(0, MyCheckinsLimit))
  }

  function Entries(cs: seq<CheckInRecord>, m: map<int, GuideRecord>): (r: seq<CheckInEntry>)
    requires forall c :: c in cs ==> c.guideId in m
    ensures |r| == |cs|
    ensures forall i :: 0 <= i < |cs| ==> r[i] == EntryOf(cs[i], m[cs[i].guideId])
  {
    seq(|cs|, i requires 0 <= i < |cs| => EntryOf(cs[i], m[cs[i].guideId]))
  }

  /** The live guides of the check-ins on `u`'s page, by id. */
  function PageGuides(checkIns: seq<CheckInRecord>, guides: seq<GuideRecord>, u: int): map<int, GuideRecord>
  {
    LiveGuidesById(guides, Distinct(Map(CheckInPage(checkIns, u), CheckInGuideOf)))
  }

  /** The check-ins of `u`'s page whose guide is live, newest first. */
  function KeptPage(checkIns: seq<CheckInRecord>, guides: seq<GuideRecord>, u: int): (kept: seq<CheckInRecord>)
    ensures |kept| <= MyCheckinsLimit
    ensures SortedDescBy(kept, CheckInCreatedAt)
    ensures forall c :: c in kept ==> c in checkIns && c.userId == u && c.guideId in PageGuides(checkIns, guides, u)
  {
    var list := CheckInPage(checkIns, u);
    KeptKeepsOrder(list, HasGuideIn(PageGuides(checkIns, guides, u)));
    Filter(list, HasGuideIn(PageGuides(checkIns, guides, u)))
  }

  /** Each entry is the entry of one of the check-ins, and entries keep a
      newest-first order. */
  lemma EntriesOfCheckIns(cs: seq<CheckInRecord>, m: map<int, GuideRecord>)
    requires forall c :: c in cs ==> c.guideId in m
    ensures forall e :: e in Entries(cs, m) ==> exists c :: c in cs && e == EntryOf(c, m[c.guideId])
    ensures SortedDescBy(cs, CheckInCreatedAt) ==> SortedDescBy(Entries(cs, m), EntryCreatedAt)
  {
    var r := Entries(cs, m);
    forall e | e in r ensures exists c :: c in cs && e == EntryOf(c, m[c.guideId]) {
      var i :| 0 <= i < |r| && r[i] == e;
      assert cs[i] in cs;
    }
    if SortedDescBy(cs, CheckInCreatedAt) {
      forall i, j | 0 <= i < j < |r| ensures EntryCreatedAt(r[i]) >= EntryCreatedAt(r[j]) {
        assert CheckInCreatedAt(cs[i]) >= CheckInCreatedAt(cs[j]);
      }
    }
  }

  /** User `u`'s latest check-ins whose guide is live, newest first, each
      with its guide's title. */
  function OwnEntries(checkIns: seq<CheckInRecord>, guides: seq<GuideRecord>, u: int): (r: seq<CheckInEntry>)
    ensures |r| <= MyCheckinsLimit
    ensures SortedDescBy(r, EntryCreatedAt)
    ensures forall e :: e in r ==> exists c, g ::
      && c in checkIns && c.userId == u
      && g in guides && g.id == c.guideId && !g.deleted
      && e == EntryOf(c, g)
  {
    var m := PageGuides(checkIns, guides, u);
    var kept := KeptPage(checkIns, guides, u);
    var r := Entries(kept, m);
    EntriesOfCheckIns(kept, m);
    forall e | e in r ensures exists c, g ::
      && c in checkIns && c.userId == u
      && g in guides && g.id == c.guideId && !g.deleted
      && e == EntryOf(c, g)
    {
      var c :| c in kept && e == EntryOf(c, m[c.guideId]);
      var g := m[c.guideId];
      assert c in checkIns && c.userId == u && g in guides && g.id == c.guideId && !g.deleted;
    }
    r
  }

  /** `myCheckins(auth)`: one's latest 200 check-ins, newest first, without
      those whose guide is gone or deleted, each with its guide's title. */
  function MyCheckins(checkIns: seq<CheckInRecord>, guides: seq<GuideRecord>, auth: Option<Authentication>)
    : (r: Result<seq<CheckInEntry>>)
    ensures r.Err? <==> auth.None?
    ensures r.Err? ==> r.error == ApiException(Unauthorized, LoginRequiredMessage)
    ensures r.Ok? ==> |r.value| <= MyCheckinsLimit
    ensures r.Ok? ==> SortedDescBy(r.value, EntryCreatedAt)
    ensures r.Ok? ==> forall e :: e in r.value ==> exists c, g ::
      && c in checkIns && c.userId == auth.value.principal.id
      && g in guides && g.id == c.guideId && !g.deleted
      && e == EntryOf(c, g)
  {
    match MustAuth(auth)
    case Err(e) => Err(e)
    case Ok(p) => Ok(OwnEntries(checkIns, guides, p.id))
  }

  /** Filtering keeps a newest-first order. */
  lemma {:induction false} KeptKeepsOrder(s: seq<CheckInRecord>, p: CheckInRecord -> bool)
    requires SortedDescBy(s, CheckInCreatedAt)
    ensures SortedDescBy(Filter(s, p), CheckInCreatedAt)
  {
    if s != [] {
      assert SortedDescBy(s[1..], CheckInCreatedAt) by {
        forall i, j | 0 <= i < j < |s[1..]| ensures CheckInCreatedAt(s[1..][i]) >= CheckInCreatedAt(s[1..][j]) {
          assert s[1..][i] == s[i + 1] && s[1..][j] == s[j + 1];
        }
      }
      KeptKeepsOrder(s[1..], p);
      var rest := Filter(s[1..], p);
      if p(s[0]) {
        var r := [s[0]] + rest;
        forall i, j | 0 <= i < j < |r| ensures CheckInCreatedAt(r[i]) >= CheckInCreatedAt(r[j]) {
          if i == 0 {
            assert r[j] in s[1..];
            var k :| 0 <= k < |s[1..]| && s[1..][k] == r[j];
            assert s[k + 1] == r[j];
          } else {
            assert r[i] == rest[i - 1] && r[j] == rest[j - 1];
          }
        }
      }
    }
  }

  /** The entries are exactly the check-ins of the page whose guide exists
      and is not deleted, in the page's order. */
  lemma MyCheckinsAreLivePage(checkIns: seq<CheckInRecord>, guides: seq<GuideRecord>, auth: Option<Authentication>)
    requires auth.Some?
    ensures Map(MyCheckins(checkIns, guides, auth).value, EntryId)
         == Map(Filter(CheckInPage(checkIns, auth.value.principal.id), OnLiveGuide(guides)), CheckInIdOf)
  {
    var u := auth.value.principal.id;
    var kept := KeptPage(checkIns, guides, u);
    assert MyCheckins(checkIns, guides, auth).value == Entries(kept, PageGuides(checkIns, guides, u));
    EntryIds(kept, PageGuides(checkIns, guides, u));
    KeptPageIsLive(checkIns, guides, u);
  }

  /** A check-in of the page has its guide in the map exactly when that guide
      exists and is not deleted. */
  lemma KeptPageIsLive(checkIns: seq<CheckInRecord>, guides: seq<GuideRecord>, u: int)
    ensures KeptPage(checkIns, guides, u) == Filter(CheckInPage(checkIns, u), OnLiveGuide(guides))
  {
    var list := CheckInPage(checkIns, u);
    var m := PageGuides(checkIns, guides, u);
    forall c | c in list ensures HasGuideIn(m)(c) == OnLiveGuide(guides)(c) {
      var i :| 0 <= i < |list| && list[i] == c;
      assert Map(list, CheckInGuideOf)[i] == c.guideId;
    }
    FilterCongruent(list, HasGuideIn(m), OnLiveGuide(guides));
  }

  /** Entries carry the ids of their check-ins, in order. */
  lemma EntryIds(cs: seq<CheckInRecord>, m: map<int, GuideRecord>)
    requires forall c :: c in cs ==> c.guideId in m
    ensures Map(Entries(cs, m), EntryId) == Map(cs, CheckInIdOf)
  {
  }

  // ---------------------------------------------------------------------------
  // request bodies and the mutating endpoints
  // ---------------------------------------------------------------------------

  const UsernameMinLength: nat := 3
  const UsernameMaxLength: nat := 32
  const PasswordMinLength: nat := 6
  const PasswordMaxLength: nat := 72

  /** `UpdateUsernameReq` */
  datatype UpdateUsernameReq = UpdateUsernameReq(username: Option<string>)

  /** Not blank, and from 3 to 32 characters before trimming. */
  predicate ValidUsernameReq(req: UpdateUsernameReq)
  {
    NotBlank(req.username) && UsernameMinLength <= |req.username.value| <= UsernameMaxLength
  }

  /** `UpdatePasswordReq` */
  datatype UpdatePasswordReq = UpdatePasswordReq(oldPassword: Option<string>, newPassword: Option<string>)

  /** A non-blank old password and a non-blank new one of 6 to 72 characters. */
  predicate ValidPasswordReq(req: UpdatePasswordReq)
  {
    && NotBlank(req.oldPassword)
    && NotBlank(req.newPassword) && PasswordMinLength <= |req.newPassword.value| <= PasswordMaxLength
  }

  class MeController {
    const userService: UserService

    constructor (userService: UserService)
      ensures this.userService == userService
    {
      this.userService := userService;
    }

    /** `updateUsername(auth, req)`: validated, then the login, then the service. */
    method UpdateUsername(auth: Option<Authentication>, req: UpdateUsernameReq) returns (o: Outcome)
      requires userService.Valid()
      modifies userService.users
      ensures userService.Valid()
      ensures !ValidUsernameReq(req) ==> o == Fail(ValidationFailure)
      ensures ValidUsernameReq(req) && auth.None? ==> o == Throw(Unauthorized, LoginRequiredMessage)
      ensures !ValidUsernameReq(req) || auth.None? ==>
        userService.users.rows == old(userService.users.rows) && userService.users.nextId == old(userService.users.nextId)
      ensures ValidUsernameReq(req) && auth.Some? ==>
        Step(userService.users.rows, userService.users.nextId, o)
        == UpdateUsernameSpec(old(userService.users.rows), old(userService.users.nextId), auth.value.principal.id, req.username.value)
    {
      if !ValidUsernameReq(req) {
        return Fail(ValidationFailure);
      }
      var u := MustAuth(auth);
      if u.Err? {
        return Fail(u.error);
      }
      o := userService.UpdateUsername(u.value.id, req.username.value);
    }

    /** `updatePassword(auth, req)` at `now`: validated, then the login, then the service. */
    method UpdatePassword(auth: Option<Authentication>, req: UpdatePasswordReq, now: Instant) returns (o: Outcome)
      requires userService.Valid()
      modifies userService.users
      ensures userService.Valid()
      ensures !ValidPasswordReq(req) ==> o == Fail(ValidationFailure)
      ensures ValidPasswordReq(req) && auth.None? ==> o == Throw(Unauthorized, LoginRequiredMessage)
      ensures !ValidPasswordReq(req) || auth.None? ==>
        userService.users.rows == old(userService.users.rows) && userService.users.nextId == old(userService.users.nextId)
      ensures ValidPasswordReq(req) && auth.Some? ==>
        Step(userService.users.rows, userService.users.nextId, o)
        == UpdatePasswordSpec(old(userService.users.rows), old(userService.users.nextId), userService.enc,
                              userService.cooldownDays, auth.value.principal.id,
                              req.oldPassword.value, req.newPassword.value, now)
    {
      if !ValidPasswordReq(req) {
        return Fail(ValidationFailure);
      }
      var u := MustAuth(auth);
      if u.Err? {
        return Fail(u.error);
      }
      o := userService.UpdatePassword(u.value.id, req.oldPassword.value, req.newPassword.value, now);
    }
  }
}
