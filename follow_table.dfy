/** The `follows` table (Follow.java) and FollowRepository: existence of an
    edge, the derived and query deletes, and the two ordered finders. */
module FollowTable {
  import opened Outcomes
  import opened SeqUtil
  import opened Tables

  /** A row of `follows`: `userId` follows `followUserId`. */
  datatype FollowRecord = FollowRecord(id: int, userId: int, followUserId: int, createdAt: Instant)

  function FollowIdOf(f: FollowRecord): int { f.id }
  function WithFollowId(f: FollowRecord, id: int): FollowRecord { f.(id := id) }
  function FollowCreatedAt(f: FollowRecord): int { f.createdAt }
  /** The columns of the unique key `uk_follow_user_followed`. */
  function EdgeOf(f: FollowRecord): (int, int) { (f.userId, f.followUserId) }

  /** The table invariant: valid ids and at most one row per (follower, followee). */
  predicate FollowsValid(rows: seq<FollowRecord>, nextId: int)
  {
    IdsValid(rows, FollowIdOf, nextId) && KeysUnique(rows, EdgeOf)
  }

  function IsEdge(u: int, v: int): FollowRecord -> bool
  {
    (f: FollowRecord) => f.userId == u && f.followUserId == v
  }

  function ByFollower(u: int): FollowRecord -> bool
  {
    (f: FollowRecord) => f.userId == u
  }

  function ByFollowee(v: int): FollowRecord -> bool
  {
    (f: FollowRecord) => f.followUserId == v
  }

  /** `existsByUserIdAndFollowUserId` */
  function ExistsEdge(rows: seq<FollowRecord>, u: int, v: int): (b: bool)
    ensures b <==> exists f :: f in rows && f.userId == u && f.followUserId == v
  {
    CountPositive(rows, IsEdge(u, v));
    Count(rows, IsEdge(u, v)) > 0
  }

  /** The unique key makes the (u, v) edge a single row when it exists. */
  lemma AtMostOneEdge(rows: seq<FollowRecord>, nextId: int, u: int, v: int)
    requires FollowsValid(rows, nextId)
    ensures Count(rows, IsEdge(u, v)) <= 1
    ensures ExistsEdge(rows, u, v) <==> Count(rows, IsEdge(u, v)) == 1
  {
    AtMostOneWithKey(rows, EdgeOf, (u, v), IsEdge(u, v));
  }

  /** `findByUserIdOrderByCreatedAtDesc`: exactly u's outgoing edges, newest first. */
  function FindByUserIdOrderByCreatedAtDesc(rows: seq<FollowRecord>, u: int): (r: seq<FollowRecord>)
    ensures forall f :: f in r <==> f in rows && f.userId == u
    ensures multiset(r) == multiset(Filter(rows, ByFollower(u)))
    ensures SortedDescBy(r, FollowCreatedAt)
  {
    SortDescBy(Filter(rows, ByFollower(u)), FollowCreatedAt)
  }

  /** `findByFollowUserIdOrderByCreatedAtDesc`: exactly v's incoming edges, newest first. */
  function FindByFollowUserIdOrderByCreatedAtDesc(rows: seq<FollowRecord>, v: int): (r: seq<FollowRecord>)
    ensures forall f :: f in r <==> f in rows && f.followUserId == v
    ensures multiset(r) == multiset(Filter(rows, ByFollowee(v)))
    ensures SortedDescBy(r, FollowCreatedAt)
  {
    SortDescBy(Filter(rows, ByFollowee(v)), FollowCreatedAt)
  }

  /** `save`: a second row for the same edge violates the unique key. */
  function SaveFollow(rows: seq<FollowRecord>, nextId: int, e: FollowRecord): (s: Saved<FollowRecord>)
    requires FollowsValid(rows, nextId) && e.id >= 0
    ensures FollowsValid(s.rows, s.nextId)
    ensures s.result.Err? ==> s.rows == rows && s.nextId == nextId
    ensures (exists f :: f in rows && f.id != e.id && EdgeOf(f) == EdgeOf(e)) ==> s.result == Err(DataIntegrityViolation)
    ensures e.id == 0 && !ExistsEdge(rows, e.userId, e.followUserId) ==>
      s == Saved(rows + [e.(id := nextId)], nextId + 1, Ok(e.(id := nextId)))
  {
    if exists f :: f in rows && f.id != e.id && EdgeOf(f) == EdgeOf(e) then
      Saved(rows, nextId, Err(DataIntegrityViolation))
    else
      UpsertKeepsKeys(rows, nextId, e, FollowIdOf, WithFollowId, EdgeOf);
      Upsert(rows, nextId, e, FollowIdOf, WithFollowId)
  }

  /** Deleting the (u, v) edge when there is none changes nothing. */
  lemma DeleteAbsentEdge(rows: seq<FollowRecord>, u: int, v: int)
    requires !ExistsEdge(rows, u, v)
    ensures Filter(rows, Not(IsEdge(u, v))) == rows
  {
    FilterAll(rows, Not(IsEdge(u, v)));
  }

  class FollowRepository {
    var rows: seq<FollowRecord>
    var nextId: int

    ghost predicate Valid()
      reads this
    {
      FollowsValid(rows, nextId)
    }

    constructor ()
      ensures Valid() && rows == [] && nextId == 1
    {
      rows := [];
      nextId := 1;
    }

    method Save(e: FollowRecord) returns (r: Result<FollowRecord>)
      requires Valid() && e.id >= 0
      modifies this
      ensures Valid()
      ensures Saved(rows, nextId, r) == SaveFollow(old(rows), old(nextId), e)
    {
      var s := SaveFollow(rows, nextId, e);
      rows, nextId, r := s.rows, s.nextId, s.result;
    }

    /** `deleteByUserIdAndFollowUserId(u, v)`: removes the (u, v) edge and nothing else. */
    method DeleteByUserIdAndFollowUserId(u: int, v: int)
      requires Valid()
      modifies this`rows
      ensures Valid()
      ensures rows == Filter(old(rows), Not(IsEdge(u, v)))
      ensures forall f :: f in rows <==> f in old(rows) && EdgeOf(f) != (u, v)
    {
      FilterKeepsKeys(rows, nextId, FollowIdOf, EdgeOf, Not(IsEdge(u, v)));
      rows := Filter(rows, Not(IsEdge(u, v)));
    }

    /** `deleteByUserId(u)`: removes every edge whose follower is `u`. */
    method DeleteByUserId(u: int)
      requires Valid()
      modifies this`rows
      ensures Valid()
      ensures rows == Filter(old(rows), Not(ByFollower(u)))
      ensures forall f :: f in rows <==> f in old(rows) && f.userId != u
    {
      FilterKeepsKeys(rows, nextId, FollowIdOf, EdgeOf, Not(ByFollower(u)));
      rows := Filter(rows, Not(ByFollower(u)));
    }

    /** `deleteByFollowUserId(v)`: removes every edge whose followee is `v`. */
    method DeleteByFollowUserId(v: int)
      requires Valid()
      modifies this`rows
      ensures Valid()
      ensures rows == Filter(old(rows), Not(ByFollowee(v)))
      ensures forall f :: f in rows <==> f in old(rows) && f.followUserId != v
    {
      FilterKeepsKeys(rows, nextId, FollowIdOf, EdgeOf, Not(ByFollowee(v)));
      rows := Filter(rows, Not(ByFollowee(v)));
    }
  }
}
