/** GuideService: creating, editing and logically deleting guides, likes and
    favorites, comments and check-ins.

    Each operation is specified by a function from the old tables (and the
    tables it only reads) to the new table and the result; the lemmas below
    state what the service promises about those functions, and the methods of
    `GuideService` are proved to compute them. */
module GuideContent {
  import opened Outcomes
  import opened SeqUtil
  import opened Tables
  import opened JavaText
  import opened UserEntity
  import opened UserTable
  import opened GuideEntity
  import opened GuideTable
  import opened MarkTable
  import opened CommentTable
  import opened CheckInEntity
  import opened CheckInTable

  const GuideMissingMessage: string := "攻略不存在"
  const AuthorMissingMessage: string := "用户不存在"
  const UpdateForbiddenMessage: string := "只能修改自己的攻略"
  const DeleteForbiddenMessage: string := "只能删除自己的攻略"
  const CheckInUnsupportedMessage: string := "仅学习、游戏类攻略支持打卡"

  // ---------------------------------------------------------------------------
  // lookups and search
  // ---------------------------------------------------------------------------

  /** `getByIdWithAuthor(id)`: a guide that is not deleted, or 404. */
  function GetByIdWithAuthor(rows: seq<GuideRecord>, id: int): (r: Result<GuideRecord>)
    ensures r.Ok? <==> ExistsByIdAndDeletedFalse(rows, id)
    ensures r.Ok? ==> r.value in rows && r.value.id == id && !r.value.deleted
    ensures r.Err? ==> r.error == ApiException(NotFound, GuideMissingMessage)
  {
    match FindByIdWithAuthor(rows, id)
    case Some(g) => Ok(g)
    case None => Err(ApiException(NotFound, GuideMissingMessage))
  }

  /** `getById(id)`: any guide with that id, deleted or not, or 404. */
  function GetById(rows: seq<GuideRecord>, id: int): (r: Result<GuideRecord>)
    ensures r.Ok? <==> ExistsGuideById(rows, id)
    ensures r.Ok? ==> r.value in rows && r.value.id == id
    ensures r.Err? ==> r.error == ApiException(NotFound, GuideMissingMessage)
  {
    match FindGuideById(rows, id)
    case Some(g) => Ok(g)
    case None => Err(ApiException(NotFound, GuideMissingMessage))
  }

  /** `search`'s text argument: a null or blank `q` is passed on as null,
      anything else unchanged (not trimmed). */
  function SearchText(q: Option<string>): (r: Option<string>)
    ensures r.None? <==> q.None? || IsBlank(q.value)
    ensures r.Some? ==> r == q
  {
    if q.None? || IsBlank(q.value) then None else q
  }

  /** `search(category, q, pageable)` before ordering and paging. */
  function SearchGuides(rows: seq<GuideRecord>, category: Option<GuideCategory>, q: Option<string>): seq<GuideRecord>
  {
    Search(rows, category, SearchText(q))
  }

  /** A blank `q` filters nothing, whatever whitespace it holds. */
  lemma BlankSearchIsUnfiltered(rows: seq<GuideRecord>, category: Option<GuideCategory>, q: string)
    requires IsBlank(q)
    ensures SearchGuides(rows, category, Some(q)) == Search(rows, category, None)
    ensures forall g :: g in rows && !g.deleted && (category.None? || g.category == category) ==>
      g in SearchGuides(rows, category, Some(q))
  {
  }

  // ---------------------------------------------------------------------------
  // create, update, delete
  // ---------------------------------------------------------------------------

  /** The row `create` builds: `new Guide()` at `now` with the given fields. */
  function NewGuide(authorId: int, title: string, category: Option<GuideCategory>,
                    templateKey: Option<string>, content: string, now: Instant): GuideRecord
  {
    GuideRecord(0, authorId, title, category, templateKey, content, now, now, false)
  }

  /** `create(authorId, …)` at `now`: 401 when the author has no row, else save
      a new guide. */
  function CreateSpec(rows: seq<GuideRecord>, nextId: int, users: seq<UserRecord>, authorId: int,
                      title: string, category: Option<GuideCategory>, templateKey: Option<string>,
                      content: string, now: Instant): (s: Saved<GuideRecord>)
    requires GuidesValid(rows, nextId)
    ensures GuidesValid(s.rows, s.nextId)
    ensures s.result.Err? ==> s.rows == rows && s.nextId == nextId
  {
    if !ExistsUserById(users, authorId) then
      Saved(rows, nextId, Err(ApiException(Unauthorized, AuthorMissingMessage)))
    else
      SaveGuide(rows, nextId, NewGuide(authorId, title, category, templateKey, content, now))
  }

  /** `create` by an existing author appends one guide: a fresh id, both
      timestamps `now`, not deleted. An unknown author is a 401; a row the
      columns reject is a 409; neither changes the table. */
  lemma CreateAppendsGuide(rows: seq<GuideRecord>, nextId: int, users: seq<UserRecord>, authorId: int,
                           title: string, category: Option<GuideCategory>, templateKey: Option<string>,
                           content: string, now: Instant)
    requires GuidesValid(rows, nextId)
    ensures var s := CreateSpec(rows, nextId, users, authorId, title, category, templateKey, content, now);
      var g := GuideRecord(nextId, authorId, title, category, templateKey, content, now, now, false);
      && (!ExistsUserById(users, authorId) ==> s == Saved(rows, nextId, Err(ApiException(Unauthorized, AuthorMissingMessage))))
      && (ExistsUserById(users, authorId) && !GuideStorable(g) ==> s == Saved(rows, nextId, Err(DataIntegrityViolation)))
      && (ExistsUserById(users, authorId) && GuideStorable(g) ==> s == Saved(rows + [g], nextId + 1, Ok(g)))
  {
  }

  /** The row `update` saves: the loaded guide with the four fields replaced
      and `updatedAt` touched; id, author, `createdAt` and the flag are kept. */
  function Edited(g: GuideRecord, title: string, category: Option<GuideCategory>,
                  templateKey: Option<string>, content: string, now: Instant): GuideRecord
  {
    g.(title := title, category := category, templateKey := templateKey, contentMarkdown := content, updatedAt := now)
  }

  /** `update(guideId, authorId, …)` at `now`: 404 for a missing or deleted
      guide, 403 for a caller who is not its author, else save the edit. */
  function UpdateSpec(rows: seq<GuideRecord>, nextId: int, guideId: int, authorId: int,
                      title: string, category: Option<GuideCategory>, templateKey: Option<string>,
                      content: string, now: Instant): (s: Saved<GuideRecord>)
    requires GuidesValid(rows, nextId)
    ensures GuidesValid(s.rows, s.nextId)
    ensures s.result.Err? ==> s.rows == rows && s.nextId == nextId
  {
    match GetByIdWithAuthor(rows, guideId)
    case Err(e) => Saved(rows, nextId, Err(e))
    case Ok(g) =>
      if g.authorId != authorId then Saved(rows, nextId, Err(ApiException(Forbidden, UpdateForbiddenMessage)))
      else SaveGuide(rows, nextId, Edited(g, title, category, templateKey, content, now))
  }

  /** `update` rejects a missing or deleted guide with 404 and another user's
      guide with 403, and changes nothing. */
  lemma UpdateRejects(rows: seq<GuideRecord>, nextId: int, guideId: int, authorId: int,
                      title: string, category: Option<GuideCategory>, templateKey: Option<string>,
                      content: string, now: Instant)
    requires GuidesValid(rows, nextId)
    ensures var s := UpdateSpec(rows, nextId, guideId, authorId, title, category, templateKey, content, now);
      && (!ExistsByIdAndDeletedFalse(rows, guideId) ==> s == Saved(rows, nextId, Err(ApiException(NotFound, GuideMissingMessage))))
      && (forall g :: g in rows && g.id == guideId && !g.deleted && g.authorId != authorId ==>
            s == Saved(rows, nextId, Err(ApiException(Forbidden, UpdateForbiddenMessage))))
  {
    forall g | g in rows && g.id == guideId && !g.deleted && g.authorId != authorId
      ensures UpdateSpec(rows, nextId, guideId, authorId, title, category, templateKey, content, now)
           == Saved(rows, nextId, Err(ApiException(Forbidden, UpdateForbiddenMessage)))
    {
      LookupsAndDeletion(rows, nextId, g);
    }
  }

  /** `update` by the author replaces that one row with the edited guide and
      leaves every other row and the id counter as they were. */
  lemma UpdateByAuthor(rows: seq<GuideRecord>, nextId: int, g: GuideRecord,
                       title: string, category: Option<GuideCategory>, templateKey: Option<string>,
                       content: string, now: Instant)
    requires GuidesValid(rows, nextId) && g in rows && !g.deleted
    requires GuideStorable(Edited(g, title, category, templateKey, content, now))
    ensures var s := UpdateSpec(rows, nextId, g.id, g.authorId, title, category, templateKey, content, now);
      var e := Edited(g, title, category, templateKey, content, now);
      && s.result == Ok(e) && s.nextId == nextId && |s.rows| == |rows|
      && e.id == g.id && e.authorId == g.authorId && e.createdAt == g.createdAt && !e.deleted && e.updatedAt == now
      && (forall i :: 0 <= i < |rows| ==> s.rows[i] == if rows[i].id == g.id then e else rows[i])
  {
    LookupsAndDeletion(rows, nextId, g);
    StoredIdIssued(rows, GuideIdOf, nextId, g);
  }

  /** `delete(guideId, authorId)`: 404 only when no row exists (the flag is
      ignored), 403 for a caller who is not the author, else set the flag. */
  function DeleteSpec(rows: seq<GuideRecord>, nextId: int, guideId: int, authorId: int): (s: Step<GuideRecord>)
    requires GuidesValid(rows, nextId)
    ensures GuidesValid(s.rows, s.nextId)
    ensures s.outcome.Fail? ==> s.rows == rows && s.nextId == nextId
  {
    match GetById(rows, guideId)
    case Err(e) => Step(rows, nextId, Fail(e))
    case Ok(g) =>
      if g.authorId != authorId then Step(rows, nextId, Throw(Forbidden, DeleteForbiddenMessage))
      else
        var s := SaveGuide(rows, nextId, g.(deleted := true));
        Step(s.rows, s.nextId, Discard(s.result))
  }

  /** Deletion is logical: the author's `delete` keeps every row, sets the flag
      on that one and changes nothing else; another user gets 403. */
  lemma DeleteSetsFlag(rows: seq<GuideRecord>, nextId: int, g: GuideRecord, caller: int)
    requires GuidesValid(rows, nextId) && g in rows
    ensures caller == g.authorId ==>
      var s := DeleteSpec(rows, nextId, g.id, caller);
      && s.outcome == Pass && s.nextId == nextId && |s.rows| == |rows|
      && (forall i :: 0 <= i < |rows| ==> s.rows[i] == if rows[i].id == g.id then g.(deleted := true) else rows[i])
    ensures caller != g.authorId ==>
      DeleteSpec(rows, nextId, g.id, caller) == Step(rows, nextId, Throw(Forbidden, DeleteForbiddenMessage))
  {
    LookupsAndDeletion(rows, nextId, g);
    StoredIdIssued(rows, GuideIdOf, nextId, g);
    assert rows[..] == rows;
    var k :| 0 <= k < |rows| && rows[k] == g;
    assert GuideStorable(rows[k]);
  }

  /** Deleting an already deleted guide succeeds again and changes nothing. */
  lemma DeleteTwice(rows: seq<GuideRecord>, nextId: int, g: GuideRecord)
    requires GuidesValid(rows, nextId) && g in rows
    ensures var s := DeleteSpec(rows, nextId, g.id, g.authorId);
      DeleteSpec(s.rows, s.nextId, g.id, g.authorId) == Step(s.rows, s.nextId, Pass)
  {
    DeleteSetsFlag(rows, nextId, g, g.authorId);
    var s := DeleteSpec(rows, nextId, g.id, g.authorId);
    var d := g.(deleted := true);
    var k :| 0 <= k < |rows| && rows[k] == g;
    assert s.rows[k] == d;
    LookupsAndDeletion(s.rows, s.nextId, d);
    ReplaceSameRow(s.rows, GuideIdOf, s.nextId, d);
    StoredIdIssued(s.rows, GuideIdOf, s.nextId, d);
  }

  // ---------------------------------------------------------------------------
  // likes and favorites
  // ---------------------------------------------------------------------------

  /** `like(guideId, userId)` and `favorite(guideId, userId)` at `now`, on the
      like or the favorite table: 404 when no guide row exists (deleted guides
      have one), silent when the pair is already marked, else insert it. */
  function MarkSpec(guides: seq<GuideRecord>, rows: seq<MarkRecord>, nextId: int, uniquePair: bool,
                    guideId: int, userId: int, now: Instant): (s: Step<MarkRecord>)
    requires MarksValid(rows, nextId, uniquePair)
    ensures MarksValid(s.rows, s.nextId, uniquePair)
    ensures s.outcome.Fail? ==> s.rows == rows && s.nextId == nextId
  {
    if !ExistsGuideById(guides, guideId) then Step(rows, nextId, Throw(NotFound, GuideMissingMessage))
    else if ExistsPair(rows, userId, guideId) then Step(rows, nextId, Pass)
    else
      var s := SaveMark(rows, nextId, uniquePair, MarkRecord(0, userId, guideId, now));
      Step(s.rows, s.nextId, Discard(s.result))
  }

  /** `unlike` and `unfavorite`: delete the pair; no guide check. */
  function UnmarkSpec(rows: seq<MarkRecord>, guideId: int, userId: int): seq<MarkRecord>
  {
    Filter(rows, Not(IsPair(userId, guideId)))
  }

  /** Marking fails exactly when the guide has no row at all; otherwise the
      pair is marked afterwards, by a single row when pairs were single. */
  lemma MarkEstablishesPair(guides: seq<GuideRecord>, rows: seq<MarkRecord>, nextId: int, uniquePair: bool,
                            guideId: int, userId: int, now: Instant)
    requires MarksValid(rows, nextId, uniquePair)
    ensures var s := MarkSpec(guides, rows, nextId, uniquePair, guideId, userId, now);
      && (s.outcome.Fail? <==> !ExistsGuideById(guides, guideId))
      && (s.outcome.Fail? ==> s.outcome == Throw(NotFound, GuideMissingMessage))
      && (s.outcome.Pass? ==> ExistsPair(s.rows, userId, guideId))
      && (KeysUnique(rows, PairOf) ==> KeysUnique(s.rows, PairOf) && (s.outcome.Pass? ==> Count(s.rows, IsPair(userId, guideId)) == 1))
  {
    var s := MarkSpec(guides, rows, nextId, uniquePair, guideId, userId, now);
    var x := MarkRecord(nextId, userId, guideId, now);
    if ExistsGuideById(guides, guideId) && !ExistsPair(rows, userId, guideId) {
      assert s.rows == rows + [x];
      assert x in s.rows;
      if KeysUnique(rows, PairOf) {
        UpsertKeepsKeys(rows, nextId, MarkRecord(0, userId, guideId, now), MarkIdOf, WithMarkId, PairOf);
      }
    }
    if KeysUnique(rows, PairOf) {
      AtMostOnePair(s.rows, userId, guideId);
    }
  }

  /** A logically deleted guide can still be liked and favorited. */
  lemma MarkDeletedGuide(guides: seq<GuideRecord>, guidesNextId: int, g: GuideRecord, rows: seq<MarkRecord>,
                         nextId: int, uniquePair: bool, userId: int, now: Instant)
    requires GuidesValid(guides, guidesNextId) && g in guides && g.deleted
    requires MarksValid(rows, nextId, uniquePair)
    ensures var s := MarkSpec(guides, rows, nextId, uniquePair, g.id, userId, now);
      s.outcome == Pass && ExistsPair(s.rows, userId, g.id)
  {
    LookupsAndDeletion(guides, guidesNextId, g);
    MarkEstablishesPair(guides, rows, nextId, uniquePair, g.id, userId, now);
  }

  /** Marking twice: the second call returns silently and changes nothing. */
  lemma MarkTwice(guides: seq<GuideRecord>, rows: seq<MarkRecord>, nextId: int, uniquePair: bool,
                  guideId: int, userId: int, now: Instant, later: Instant)
    requires MarksValid(rows, nextId, uniquePair)
    ensures var s := MarkSpec(guides, rows, nextId, uniquePair, guideId, userId, now);
      MarkSpec(guides, s.rows, s.nextId, uniquePair, guideId, userId, later) == Step(s.rows, s.nextId, s.outcome)
  {
    MarkEstablishesPair(guides, rows, nextId, uniquePair, guideId, userId, now);
  }

  /** Marking adds no row other than the (user, guide) pair's and removes none. */
  lemma MarkFrame(guides: seq<GuideRecord>, rows: seq<MarkRecord>, nextId: int, uniquePair: bool,
                  guideId: int, userId: int, now: Instant)
    requires MarksValid(rows, nextId, uniquePair)
    ensures var s := MarkSpec(guides, rows, nextId, uniquePair, guideId, userId, now);
      && (forall m :: m in rows ==> m in s.rows)
      && (forall m :: m in s.rows && PairOf(m) != (userId, guideId) ==> m in rows)
  {
    var s := MarkSpec(guides, rows, nextId, uniquePair, guideId, userId, now);
    if ExistsGuideById(guides, guideId) && !ExistsPair(rows, userId, guideId) {
      assert s.rows == rows + [MarkRecord(nextId, userId, guideId, now)];
    }
  }

  /** Unmarking leaves the pair unmarked and keeps every other row. */
  lemma UnmarkRemovesOnlyPair(rows: seq<MarkRecord>, guideId: int, userId: int)
    ensures !ExistsPair(UnmarkSpec(rows, guideId, userId), userId, guideId)
    ensures forall m :: PairOf(m) != (userId, guideId) ==> (m in UnmarkSpec(rows, guideId, userId) <==> m in rows)
  {
  }

  /** Unmarking a pair that is not marked changes nothing. */
  lemma UnmarkAbsentIsNoOp(rows: seq<MarkRecord>, guideId: int, userId: int)
    requires !ExistsPair(rows, userId, guideId)
    ensures UnmarkSpec(rows, guideId, userId) == rows
  {
    DeleteAbsentPair(rows, userId, guideId);
  }

  /** Unmarking undoes a mark that inserted the pair. */
  lemma UnmarkUndoesMark(guides: seq<GuideRecord>, rows: seq<MarkRecord>, nextId: int, uniquePair: bool,
                         guideId: int, userId: int, now: Instant)
    requires MarksValid(rows, nextId, uniquePair)
    requires !ExistsPair(rows, userId, guideId)
    ensures UnmarkSpec(MarkSpec(guides, rows, nextId, uniquePair, guideId, userId, now).rows, guideId, userId) == rows
  {
    var s := MarkSpec(guides, rows, nextId, uniquePair, guideId, userId, now);
    var p := Not(IsPair(userId, guideId));
    DeleteAbsentPair(rows, userId, guideId);
    if ExistsGuideById(guides, guideId) {
      var x := MarkRecord(nextId, userId, guideId, now);
      assert s.rows == rows + [x];
      FilterConcat(rows, [x], p);
      assert Filter([x], p) == [];
    }
  }

  // ---------------------------------------------------------------------------
  // comments
  // ---------------------------------------------------------------------------

  /** `createComment(guideId, userId, content)` at `now`: 404 for a missing or
      deleted guide, then 401 for a user with no row, else save the comment. */
  function CreateCommentSpec(guides: seq<GuideRecord>, users: seq<UserRecord>, rows: seq<CommentRecord>, nextId: int,
                             guideId: int, userId: int, content: string, now: Instant): (s: Saved<CommentRecord>)
    requires CommentsValid(rows, nextId)
    ensures CommentsValid(s.rows, s.nextId)
    ensures s.result.Ok? ==> ExistsUserById(users, userId) && s.result.value.userId == userId && s.result.value.guideId == guideId
  {
    match GetByIdWithAuthor(guides, guideId)
    case Err(e) => Saved(rows, nextId, Err(e))
    case Ok(_) =>
      if !ExistsUserById(users, userId) then Saved(rows, nextId, Err(ApiException(Unauthorized, AuthorMissingMessage)))
      else SaveComment(rows, nextId, CommentRecord(0, guideId, userId, content, now))
  }

  /** The guide is checked before the user; with both present one comment is
      appended. */
  lemma CreateCommentChecks(guides: seq<GuideRecord>, users: seq<UserRecord>, rows: seq<CommentRecord>, nextId: int,
                            guideId: int, userId: int, content: string, now: Instant)
    requires CommentsValid(rows, nextId)
    ensures var s := CreateCommentSpec(guides, users, rows, nextId, guideId, userId, content, now);
      && (!ExistsByIdAndDeletedFalse(guides, guideId) ==> s == Saved(rows, nextId, Err(ApiException(NotFound, GuideMissingMessage))))
      && (ExistsByIdAndDeletedFalse(guides, guideId) && !ExistsUserById(users, userId) ==>
            s == Saved(rows, nextId, Err(ApiException(Unauthorized, AuthorMissingMessage))))
      && (ExistsByIdAndDeletedFalse(guides, guideId) && ExistsUserById(users, userId) ==>
            var c := CommentRecord(nextId, guideId, userId, content, now);
            s == Saved(rows + [c], nextId + 1, Ok(c)))
  {
  }

  // ---------------------------------------------------------------------------
  // check-ins
  // ---------------------------------------------------------------------------

  /** The row `upsertCheckIn` saves: the found record (or `new StudyCheckIn()`
      at `now`) with the five setters applied. */
  function Applied(base: CheckInRecord, userId: int, guideId: int, day: Day, progress: int, note: Option<string>): CheckInRecord
  {
    base.(userId := userId, guideId := guideId, day := Some(day), progress := progress, note := note)
  }

  /** `upsertCheckIn(guideId, userId, day, progress, note)` at `now`: 404 for a
      missing or deleted guide, 400 unless it is a study or game guide, else
      overwrite that day's record or create it. */
  function UpsertCheckInSpec(guides: seq<GuideRecord>, rows: seq<CheckInRecord>, nextId: int,
                             guideId: int, userId: int, day: Day, progress: int, note: Option<string>,
                             now: Instant): (s: Saved<CheckInRecord>)
    requires CheckInsValid(rows, nextId)
    ensures CheckInsValid(s.rows, s.nextId)
    ensures s.result.Err? ==> s.rows == rows && s.nextId == nextId
  {
    match GetByIdWithAuthor(guides, guideId)
    case Err(e) => Saved(rows, nextId, Err(e))
    case Ok(g) =>
      if !SupportsCheckIn(g) then Saved(rows, nextId, Err(ApiException(BadRequest, CheckInUnsupportedMessage)))
      else
        var base := match FindByUserIdAndGuideIdAndDay(rows, userId, guideId, day)
          case Some(c) => c
          case None => CheckInRecord(0, 0, 0, None, 0, None, now);
        SaveCheckIn(rows, nextId, Applied(base, userId, guideId, day, progress, note))
  }

  /** `upsertCheckIn` rejects a missing or deleted guide with 404, and a live
      guide of another category (or none) with 400. */
  lemma UpsertCheckInRejects(guides: seq<GuideRecord>, guidesNextId: int, rows: seq<CheckInRecord>, nextId: int,
                             guideId: int, userId: int, day: Day, progress: int, note: Option<string>, now: Instant)
    requires GuidesValid(guides, guidesNextId) && CheckInsValid(rows, nextId)
    ensures var s := UpsertCheckInSpec(guides, rows, nextId, guideId, userId, day, progress, note, now);
      && (!ExistsByIdAndDeletedFalse(guides, guideId) ==> s == Saved(rows, nextId, Err(ApiException(NotFound, GuideMissingMessage))))
      && (forall g :: g in guides && g.id == guideId && !g.deleted && !SupportsCheckIn(g) ==>
            s == Saved(rows, nextId, Err(ApiException(BadRequest, CheckInUnsupportedMessage))))
  {
    forall g | g in guides && g.id == guideId && !g.deleted && !SupportsCheckIn(g)
      ensures UpsertCheckInSpec(guides, rows, nextId, guideId, userId, day, progress, note, now)
           == Saved(rows, nextId, Err(ApiException(BadRequest, CheckInUnsupportedMessage)))
    {
      LookupsAndDeletion(guides, guidesNextId, g);
    }
  }

  /** On an existing record for the day, `upsertCheckIn` overwrites progress
      and note in place: same id, same `createdAt`, still the day's only
      record, and every other record untouched. */
  lemma UpsertCheckInReuses(guides: seq<GuideRecord>, guidesNextId: int, g: GuideRecord,
                            rows: seq<CheckInRecord>, nextId: int, c: CheckInRecord,
                            progress: int, note: Option<string>, now: Instant)
    requires GuidesValid(guides, guidesNextId) && g in guides && !g.deleted && SupportsCheckIn(g)
    requires CheckInsValid(rows, nextId) && c in rows && c.guideId == g.id && c.day.Some?
    requires note.None? || |note.value| <= NoteLength
    ensures var s := UpsertCheckInSpec(guides, rows, nextId, g.id, c.userId, c.day.value, progress, note, now);
      var e := c.(progress := progress, note := note);
      && s.result == Ok(e) && s.nextId == nextId && |s.rows| == |rows|
      && (forall i :: 0 <= i < |rows| ==> s.rows[i] == if rows[i].id == c.id then e else rows[i])
      && Count(s.rows, IsSlot(c.userId, g.id, c.day.value)) == 1
  {
    LookupsAndDeletion(guides, guidesNextId, g);
    SlotLookupUnique(rows, nextId, c);
    assert Applied(c, c.userId, g.id, c.day.value, progress, note) == c.(progress := progress, note := note);
    SaveOverwritesCheckIn(rows, nextId, c, progress, note);
  }

  /** Without a record for the day, `upsertCheckIn` appends a fresh one. */
  lemma UpsertCheckInCreates(guides: seq<GuideRecord>, guidesNextId: int, g: GuideRecord,
                             rows: seq<CheckInRecord>, nextId: int, userId: int, day: Day,
                             progress: int, note: Option<string>, now: Instant)
    requires GuidesValid(guides, guidesNextId) && g in guides && !g.deleted && SupportsCheckIn(g)
    requires CheckInsValid(rows, nextId)
    requires forall c :: c in rows ==> !(c.userId == userId && c.guideId == g.id && c.day == Some(day))
    requires note.None? || |note.value| <= NoteLength
    ensures var s := UpsertCheckInSpec(guides, rows, nextId, g.id, userId, day, progress, note, now);
      var e := CheckInRecord(nextId, userId, g.id, Some(day), progress, note, now);
      s == Saved(rows + [e], nextId + 1, Ok(e))
  {
    LookupsAndDeletion(guides, guidesNextId, g);
  }

  // ---------------------------------------------------------------------------
  // the service
  // ---------------------------------------------------------------------------

  /** The entity `create` saves: `new Guide()` at `now` with the five setters applied. */
  method BuildGuide(authorId: int, title: string, category: Option<GuideCategory>, templateKey: Option<string>,
                    content: string, now: Instant) returns (g: Guide)
    ensures fresh(g) && g.Record() == NewGuide(authorId, title, category, templateKey, content, now)
  {
    g := new Guide(now);
    g.SetAuthor(authorId);
    g.SetTitle(title);
    g.SetCategory(category);
    g.SetTemplateKey(templateKey);
    g.SetContentMarkdown(content);
  }

  /** The four setters of `update`, then the edit time `now`. */
  method EditGuide(g: Guide, title: string, category: Option<GuideCategory>, templateKey: Option<string>,
                   content: string, now: Instant)
    modifies g
    ensures g.Record() == Edited(old(g.Record()), title, category, templateKey, content, now)
  {
    g.SetTitle(title);
    g.SetCategory(category);
    g.SetTemplateKey(templateKey);
    g.SetContentMarkdown(content);
    g.TouchUpdatedAt(now);
  }

  /** The entity `upsertCheckIn` saves: the record found for that day, or
      `new StudyCheckIn()` at `now`, with the five setters applied. */
  method BuildCheckIn(existing: Option<CheckInRecord>, now: Instant, userId: int, guideId: int, day: Day,
                      progress: int, note: Option<string>) returns (ci: StudyCheckIn)
    ensures fresh(ci)
    ensures existing.Some? ==> ci.Record() == Applied(existing.value, userId, guideId, day, progress, note)
    ensures existing.None? ==>
      ci.Record() == Applied(CheckInRecord(0, 0, 0, None, 0, None, now), userId, guideId, day, progress, note)
  {
    if existing.Some? {
      ci := new StudyCheckIn.Load(existing.value);
    } else {
      ci := new StudyCheckIn(now);
    }
    ci.SetUserId(userId);
    ci.SetGuideId(guideId);
    ci.SetDay(day);
    ci.SetProgress(progress);
    ci.SetNote(note);
  }

  class GuideService {
    const guides: GuideRepository
    const users: UserRepository
    const likes: MarkRepository
    const favorites: MarkRepository
    const comments: CommentRepository
    const checkIns: CheckInRepository

    /** The repositories' invariants, plus one favorite row per pair, which
        the favorite table itself does not enforce. */
    ghost predicate Valid()
      reads this, guides, users, likes, favorites, comments, checkIns
    {
      && guides.Valid() && users.Valid() && likes.Valid() && favorites.Valid()
      && comments.Valid() && checkIns.Valid()
      && likes != favorites && likes.uniquePair && !favorites.uniquePair
      && KeysUnique(favorites.rows, PairOf)
    }

    constructor (guides: GuideRepository, users: UserRepository, likes: MarkRepository,
                 favorites: MarkRepository, comments: CommentRepository, checkIns: CheckInRepository)
      ensures this.guides == guides && this.users == users && this.likes == likes
      ensures this.favorites == favorites && this.comments == comments && this.checkIns == checkIns
    {
      this.guides := guides;
      this.users := users;
      this.likes := likes;
      this.favorites := favorites;
      this.comments := comments;
      this.checkIns := checkIns;
    }

    /** `create(authorId, title, category, templateKey, contentMarkdown)` */
    method Create(authorId: int, title: string, category: Option<GuideCategory>, templateKey: Option<string>,
                  content: string, now: Instant) returns (r: Result<GuideRecord>)
      requires Valid()
      modifies guides
      ensures Valid()
      ensures Saved(guides.rows, guides.nextId, r)
           == CreateSpec(old(guides.rows), old(guides.nextId), users.rows, authorId, title, category, templateKey, content, now)
    {
      var author := FindUserById(users.rows, authorId);
      if author.None? {
        return Err(ApiException(Unauthorized, AuthorMissingMessage));
      }
      var g := BuildGuide(authorId, title, category, templateKey, content, now);
      r := guides.Save(g);
    }

    /** `update(guideId, authorId, title, category, templateKey, contentMarkdown)` */
    method Update(guideId: int, authorId: int, title: string, category: Option<GuideCategory>,
                  templateKey: Option<string>, content: string, now: Instant) returns (r: Result<GuideRecord>)
      requires Valid()
      modifies guides
      ensures Valid()
      ensures Saved(guides.rows, guides.nextId, r)
           == UpdateSpec(old(guides.rows), old(guides.nextId), guideId, authorId, title, category, templateKey, content, now)
    {
      var found := GetByIdWithAuthor(guides.rows, guideId);
      if found.Err? {
        return found;
      }
      StoredIdIssued(guides.rows, GuideIdOf, guides.nextId, found.value);
      var g := new Guide.Load(found.value);
      if g.authorId != authorId {
        return Err(ApiException(Forbidden, UpdateForbiddenMessage));
      }
      EditGuide(g, title, category, templateKey, content, now);
      r := guides.Save(g);
    }

    /** `delete(guideId, authorId)` */
    method Delete(guideId: int, authorId: int) returns (o: Outcome)
      requires Valid()
      modifies guides
      ensures Valid()
      ensures Step(guides.rows, guides.nextId, o) == DeleteSpec(old(guides.rows), old(guides.nextId), guideId, authorId)
    {
      var found := GetById(guides.rows, guideId);
      if found.Err? {
        return Fail(found.error);
      }
      StoredIdIssued(guides.rows, GuideIdOf, guides.nextId, found.value);
      var g := new Guide.Load(found.value);
      if g.authorId != authorId {
        return Throw(Forbidden, DeleteForbiddenMessage);
      }
      g.SetDeleted(true);
      var r := guides.Save(g);
      o := Discard(r);
    }

    /** `like(guideId, userId)` */
    method Like(guideId: int, userId: int, now: Instant) returns (o: Outcome)
      requires Valid()
      modifies likes
      ensures Valid()
      ensures Step(likes.rows, likes.nextId, o)
           == MarkSpec(guides.rows, old(likes.rows), old(likes.nextId), true, guideId, userId, now)
    {
      o := MarkIn(likes, guideId, userId, now);
    }

    /** `unlike(guideId, userId)` */
    method Unlike(guideId: int, userId: int)
      requires Valid()
      modifies likes
      ensures Valid()
      ensures likes.rows == UnmarkSpec(old(likes.rows), guideId, userId) && likes.nextId == old(likes.nextId)
    {
      likes.DeleteByUserIdAndGuideId(userId, guideId);
    }

    /** `favorite(guideId, userId)`: the check before the insert keeps one row
        per pair in a table that does not enforce it. */
    method Favorite(guideId: int, userId: int, now: Instant) returns (o: Outcome)
      requires Valid()
      modifies favorites
      ensures Valid()
      ensures Step(favorites.rows, favorites.nextId, o)
           == MarkSpec(guides.rows, old(favorites.rows), old(favorites.nextId), false, guideId, userId, now)
    {
      MarkEstablishesPair(guides.rows, favorites.rows, favorites.nextId, false, guideId, userId, now);
      o := MarkIn(favorites, guideId, userId, now);
    }

    /** `unfavorite(guideId, userId)` */
    method Unfavorite(guideId: int, userId: int)
      requires Valid()
      modifies favorites
      ensures Valid()
      ensures favorites.rows == UnmarkSpec(old(favorites.rows), guideId, userId) && favorites.nextId == old(favorites.nextId)
    {
      KeysUniqueFilter(favorites.rows, PairOf, Not(IsPair(userId, guideId)));
      favorites.DeleteByUserIdAndGuideId(userId, guideId);
    }

    /** The body `like` and `favorite` share, on the table `marks`. */
    method MarkIn(marks: MarkRepository, guideId: int, userId: int, now: Instant) returns (o: Outcome)
      requires marks.Valid()
      modifies marks
      ensures marks.Valid()
      ensures Step(marks.rows, marks.nextId, o)
           == MarkSpec(guides.rows, old(marks.rows), old(marks.nextId), marks.uniquePair, guideId, userId, now)
    {
      if !ExistsGuideById(guides.rows, guideId) {
        return Throw(NotFound, GuideMissingMessage);
      }
      if ExistsPair(marks.rows, userId, guideId) {
        return Pass;
      }
      var r := marks.Save(MarkRecord(0, userId, guideId, now));
      o := Discard(r);
    }

    /** `createComment(guideId, userId, content)` */
    method CreateComment(guideId: int, userId: int, content: string, now: Instant) returns (r: Result<CommentRecord>)
      requires Valid()
      modifies comments
      ensures Valid()
      ensures Saved(comments.rows, comments.nextId, r)
           == CreateCommentSpec(guides.rows, users.rows, old(comments.rows), old(comments.nextId), guideId, userId, content, now)
    {
      var found := GetByIdWithAuthor(guides.rows, guideId);
      if found.Err? {
        return Err(found.error);
      }
      var user := FindUserById(users.rows, userId);
      if user.None? {
        return Err(ApiException(Unauthorized, AuthorMissingMessage));
      }
      r := comments.Save(CommentRecord(0, guideId, userId, content, now));
    }

    /** `upsertCheckIn(guideId, userId, day, progress, note)` */
    method UpsertCheckIn(guideId: int, userId: int, day: Day, progress: int, note: Option<string>, now: Instant)
      returns (r: Result<CheckInRecord>)
      requires Valid()
      modifies checkIns
      ensures Valid()
      ensures Saved(checkIns.rows, checkIns.nextId, r)
           == UpsertCheckInSpec(guides.rows, old(checkIns.rows), old(checkIns.nextId), guideId, userId, day, progress, note, now)
    {
      var found := GetByIdWithAuthor(guides.rows, guideId);
      if found.Err? {
        return Err(found.error);
      }
      if !SupportsCheckIn(found.value) {
        return Err(ApiException(BadRequest, CheckInUnsupportedMessage));
      }
      var existing := FindByUserIdAndGuideIdAndDay(checkIns.rows, userId, guideId, day);
      if existing.Some? {
        StoredIdIssued(checkIns.rows, CheckInIdOf, checkIns.nextId, existing.value);
      }
      var ci := BuildCheckIn(existing, now, userId, guideId, day, progress, note);
      r := checkIns.Save(ci);
    }
  }
}
