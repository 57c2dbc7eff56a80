/** The `guide_likes` and `guide_favorites` tables (GuideLikeRepository and
    GuideFavoriteRepository): one row per user who marked a guide.

    Both tables hold the same columns and answer the same queries, so they
    share one row type and one repository class. They differ in one respect:
    the like table carries the unique key `uk_like_user_guide` on
    (user_id, guide_id); the favorite entity, GuideFavorite.java, is not part
    of this model, so its table is given no unique key and one row per pair
    is kept by GuideService's check before the insert instead. */
module MarkTable {
  import opened Outcomes
  import opened SeqUtil
  import opened Tables

  /** A row: `userId` liked (or favorited) `guideId`. */
  datatype MarkRecord = MarkRecord(id: int, userId: int, guideId: int, createdAt: Instant)

  function MarkIdOf(m: MarkRecord): int { m.id }
  function WithMarkId(m: MarkRecord, id: int): MarkRecord { m.(id := id) }
  function MarkCreatedAt(m: MarkRecord): int { m.createdAt }
  function MarkUserOf(m: MarkRecord): int { m.userId }
  /** The columns of the (user, guide) pair. */
  function PairOf(m: MarkRecord): (int, int) { (m.userId, m.guideId) }

  function IsPair(u: int, g: int): MarkRecord -> bool
  {
    (m: MarkRecord) => m.userId == u && m.guideId == g
  }

  function OnGuide(g: int): MarkRecord -> bool
  {
    (m: MarkRecord) => m.guideId == g
  }

  function ByMarker(u: int): MarkRecord -> bool
  {
    (m: MarkRecord) => m.userId == u
  }

  /** The table invariant: valid ids, and one row per pair where the table has
      the unique key. */
  predicate MarksValid(rows: seq<MarkRecord>, nextId: int, uniquePair: bool)
  {
    IdsValid(rows, MarkIdOf, nextId) && (uniquePair ==> KeysUnique(rows, PairOf))
  }

  /** `countByGuideId(g)`: the number of rows for `g`. */
  function CountByGuideId(rows: seq<MarkRecord>, g: int): (c: nat)
    ensures c <= |rows|
    ensures c == 0 <==> forall m :: m in rows ==> m.guideId != g
  {
    CountPositive(rows, OnGuide(g));
    Count(rows, OnGuide(g))
  }

  /** `existsByUserIdAndGuideId(u, g)` */
  function ExistsPair(rows: seq<MarkRecord>, u: int, g: int): (b: bool)
    ensures b <==> exists m :: m in rows && m.userId == u && m.guideId == g
  {
    CountPositive(rows, IsPair(u, g));
    Count(rows, IsPair(u, g)) > 0
  }

  /** With one row per pair, the (u, g) row is single when it exists. */
  lemma AtMostOnePair(rows: seq<MarkRecord>, u: int, g: int)
    requires KeysUnique(rows, PairOf)
    ensures Count(rows, IsPair(u, g)) <= 1
    ensures ExistsPair(rows, u, g) <==> Count(rows, IsPair(u, g)) == 1
  {
    AtMostOneWithKey(rows, PairOf, (u, g), IsPair(u, g));
  }

  /** With one row per pair, a guide's count is the number of different users
      who marked it. */
  lemma CountIsDistinctUsers(rows: seq<MarkRecord>, g: int)
    requires KeysUnique(rows, PairOf)
    ensures CountByGuideId(rows, g) == DistinctCount(Filter(rows, OnGuide(g)), MarkUserOf)
  {
    var f := Filter(rows, OnGuide(g));
    KeysUniqueFilter(rows, PairOf, OnGuide(g));
    forall i, j | 0 <= i < j < |f| ensures MarkUserOf(f[i]) != MarkUserOf(f[j]) {
      assert f[i] in f && f[j] in f;
      assert PairOf(f[i]) != PairOf(f[j]);
    }
    DistinctCountOfUnique(f, MarkUserOf);
  }

  /** `findByUserIdOrderByCreatedAtDesc(u)` (favorites): exactly u's rows,
      newest first. */
  function FindByUserIdOrderByCreatedAtDesc(rows: seq<MarkRecord>, u: int): (r: seq<MarkRecord>)
    ensures forall m :: m in r <==> m in rows && m.userId == u
    ensures multiset(r) == multiset(Filter(rows, ByMarker(u)))
    ensures SortedDescBy(r, MarkCreatedAt)
  {
    SortDescBy(Filter(rows, ByMarker(u)), MarkCreatedAt)
  }

  /** `save`: where the pair is a unique key, a second row for a pair is a
      data-integrity violation and changes nothing. */
  function SaveMark(rows: seq<MarkRecord>, nextId: int, uniquePair: bool, e: MarkRecord): (s: Saved<MarkRecord>)
    requires MarksValid(rows, nextId, uniquePair) && e.id >= 0
    ensures MarksValid(s.rows, s.nextId, uniquePair)
    ensures s.result.Err? ==> s.rows == rows && s.nextId == nextId
    ensures uniquePair && (exists m :: m in rows && m.id != e.id && PairOf(m) == PairOf(e)) ==>
      s.result == Err(DataIntegrityViolation)
    ensures e.id == 0 && !ExistsPair(rows, e.userId, e.guideId) ==>
      s == Saved(rows + [e.(id := nextId)], nextId + 1, Ok(e.(id := nextId)))
  {
    if uniquePair && exists m :: m in rows && m.id != e.id && PairOf(m) == PairOf(e) then
      Saved(rows, nextId, Err(DataIntegrityViolation))
    else
      UpsertKeepsIds(rows, nextId, e, MarkIdOf, WithMarkId);
      if uniquePair then
        UpsertKeepsKeys(rows, nextId, e, MarkIdOf, WithMarkId, PairOf);
        Upsert(rows, nextId, e, MarkIdOf, WithMarkId)
      else
        Upsert(rows, nextId, e, MarkIdOf, WithMarkId)
  }

  /** Deleting the (u, g) row when there is none changes nothing. */
  lemma DeleteAbsentPair(rows: seq<MarkRecord>, u: int, g: int)
    requires !ExistsPair(rows, u, g)
    ensures Filter(rows, Not(IsPair(u, g))) == rows
  {
    FilterAll(rows, Not(IsPair(u, g)));
  }

  /** Deleting rows keeps the table invariant. */
  lemma FilterKeepsMarks(rows: seq<MarkRecord>, nextId: int, uniquePair: bool, p: MarkRecord -> bool)
    requires MarksValid(rows, nextId, uniquePair)
    ensures MarksValid(Filter(rows, p), nextId, uniquePair)
  {
    FilterKeepsKeys(rows, nextId, MarkIdOf, MarkIdOf, p);
    if uniquePair {
      KeysUniqueFilter(rows, PairOf, p);
    }
  }

  class MarkRepository {
    /** Whether the table has the (user_id, guide_id) unique key. */
    const uniquePair: bool
    var rows: seq<MarkRecord>
    var nextId: int

    ghost predicate Valid()
      reads this
    {
      MarksValid(rows, nextId, uniquePair)
    }

    constructor (uniquePair: bool)
      ensures Valid() && this.uniquePair == uniquePair && rows == [] && nextId == 1
    {
      this.uniquePair := uniquePair;
      rows := [];
      nextId := 1;
    }

    method Save(e: MarkRecord) returns (r: Result<MarkRecord>)
      requires Valid() && e.id >= 0
      modifies this
      ensures Valid()
      ensures Saved(rows, nextId, r) == SaveMark(old(rows), old(nextId), uniquePair, e)
    {
      var s := SaveMark(rows, nextId, uniquePair, e);
      rows, nextId, r := s.rows, s.nextId, s.result;
    }

    /** `deleteByUserIdAndGuideId(u, g)`: removes the (u, g) row and nothing else. */
    method DeleteByUserIdAndGuideId(u: int, g: int)
      requires Valid()
      modifies this`rows
      ensures Valid()
      ensures rows == Filter(old(rows), Not(IsPair(u, g)))
      ensures forall m :: m in rows <==> m in old(rows) && PairOf(m) != (u, g)
    {
      FilterKeepsMarks(rows, nextId, uniquePair, Not(IsPair(u, g)));
      rows := Filter(rows, Not(IsPair(u, g)));
    }

    /** `deleteByGuideId(g)`: removes every row for guide `g`. */
    method DeleteByGuideId(g: int)
      requires Valid()
      modifies this`rows
      ensures Valid()
      ensures rows == Filter(old(rows), Not(OnGuide(g)))
      ensures forall m :: m in rows <==> m in old(rows) && m.guideId != g
    {
      FilterKeepsMarks(rows, nextId, uniquePair, Not(OnGuide(g)));
      rows := Filter(rows, Not(OnGuide(g)));
    }

    /** `deleteByUserId(u)`: removes every row of user `u`. */
    method DeleteByUserId(u: int)
      requires Valid()
      modifies this`rows
      ensures Valid()
      ensures rows == Filter(old(rows), Not(ByMarker(u)))
      ensures forall m :: m in rows <==> m in old(rows) && m.userId != u
    {
      FilterKeepsMarks(rows, nextId, uniquePair, Not(ByMarker(u)));
      rows := Filter(rows, Not(ByMarker(u)));
    }
  }
}
