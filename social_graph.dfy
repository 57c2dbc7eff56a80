/** FollowService: following and unfollowing users.

    Each operation is specified by a function from the old follow table (and the
    users table it only reads) to the new one and the outcome; the lemmas below
    state what the service promises about those functions, and the methods of
    `FollowService` are proved to compute them. */
module SocialGraph {
  import opened Outcomes
  import opened SeqUtil
  import opened Tables
  import opened FollowTable
  import opened UserEntity
  import opened UserTable

  const SelfFollowMessage: string := "不能关注自己"
  const UserMissingMessage: string := "用户不存在"

  /** `follow(current, target)` at time `now`: reject following oneself, then a
      target that does not exist; return quietly when the edge is already there;
      otherwise insert it. */
  function FollowSpec(rows: seq<FollowRecord>, nextId: int, users: seq<UserRecord>,
                      current: int, target: int, now: Instant): (s: Step<FollowRecord>)
    requires FollowsValid(rows, nextId)
    ensures FollowsValid(s.rows, s.nextId)
    ensures s.outcome.Fail? ==> s.rows == rows && s.nextId == nextId
  {
    if target == current then Step(rows, nextId, Throw(BadRequest, SelfFollowMessage))
    else if !ExistsUserById(users, target) then Step(rows, nextId, Throw(NotFound, UserMissingMessage))
    else if ExistsEdge(rows, current, target) then Step(rows, nextId, Pass)
    else
      var saved := SaveFollow(rows, nextId, FollowRecord(0, current, target, now));
      Step(saved.rows, saved.nextId, Discard(saved.result))
  }

  /** `unfollow(current, target)`: delete the edge if it is there. */
  function UnfollowSpec(rows: seq<FollowRecord>, current: int, target: int): seq<FollowRecord>
  {
    Filter(rows, Not(IsEdge(current, target)))
  }

  /** Following oneself is a 400, whatever the users table holds: the check
      comes before any lookup. */
  lemma FollowSelfRejected(rows: seq<FollowRecord>, nextId: int, users: seq<UserRecord>, a: int, now: Instant)
    requires FollowsValid(rows, nextId)
    ensures FollowSpec(rows, nextId, users, a, a, now) == Step(rows, nextId, Throw(BadRequest, SelfFollowMessage))
  {
  }

  /** Following a user id with no row is a 404 and adds no edge. */
  lemma FollowMissingTargetRejected(rows: seq<FollowRecord>, nextId: int, users: seq<UserRecord>, a: int, b: int, now: Instant)
    requires FollowsValid(rows, nextId)
    requires a != b && !ExistsUserById(users, b)
    ensures FollowSpec(rows, nextId, users, a, b, now) == Step(rows, nextId, Throw(NotFound, UserMissingMessage))
  {
  }

  /** Following an existing other user always succeeds, and afterwards the edge
      exists as exactly one row. */
  lemma FollowEstablishesEdge(rows: seq<FollowRecord>, nextId: int, users: seq<UserRecord>, a: int, b: int, now: Instant)
    requires FollowsValid(rows, nextId)
    requires a != b && ExistsUserById(users, b)
    ensures var s := FollowSpec(rows, nextId, users, a, b, now);
      s.outcome == Pass && ExistsEdge(s.rows, a, b) && Count(s.rows, IsEdge(a, b)) == 1
  {
    var s := FollowSpec(rows, nextId, users, a, b, now);
    if !ExistsEdge(rows, a, b) {
      var x := FollowRecord(nextId, a, b, now);
      assert s.rows == rows + [x];
      assert x in s.rows;
    }
    AtMostOneEdge(s.rows, s.nextId, a, b);
  }

  /** A second identical `follow` returns silently and changes nothing. */
  lemma FollowTwice(rows: seq<FollowRecord>, nextId: int, users: seq<UserRecord>, a: int, b: int, now: Instant, later: Instant)
    requires FollowsValid(rows, nextId)
    requires a != b && ExistsUserById(users, b)
    ensures var s := FollowSpec(rows, nextId, users, a, b, now);
      FollowSpec(s.rows, s.nextId, users, a, b, later) == Step(s.rows, s.nextId, Pass)
  {
    FollowEstablishesEdge(rows, nextId, users, a, b, now);
  }

  /** `follow(a, b)` adds no edge other than (a, b) and removes none. */
  lemma FollowFrame(rows: seq<FollowRecord>, nextId: int, users: seq<UserRecord>, a: int, b: int, now: Instant)
    requires FollowsValid(rows, nextId)
    ensures var s := FollowSpec(rows, nextId, users, a, b, now);
      forall f :: EdgeOf(f) != (a, b) ==> (f in s.rows <==> f in rows)
    ensures var s := FollowSpec(rows, nextId, users, a, b, now);
      forall f :: f in rows ==> f in s.rows
  {
    var s := FollowSpec(rows, nextId, users, a, b, now);
    if a != b && ExistsUserById(users, b) && !ExistsEdge(rows, a, b) {
      assert s.rows == rows + [FollowRecord(nextId, a, b, now)];
    }
  }

  /** `unfollow(a, b)` leaves no (a, b) edge and keeps every other row. */
  lemma UnfollowRemovesOnlyEdge(rows: seq<FollowRecord>, a: int, b: int)
    ensures !ExistsEdge(UnfollowSpec(rows, a, b), a, b)
    ensures forall f :: EdgeOf(f) != (a, b) ==> (f in UnfollowSpec(rows, a, b) <==> f in rows)
  {
  }

  /** `unfollow(a, b)` without an (a, b) edge succeeds and changes nothing. */
  lemma UnfollowAbsentIsNoOp(rows: seq<FollowRecord>, a: int, b: int)
    requires !ExistsEdge(rows, a, b)
    ensures UnfollowSpec(rows, a, b) == rows
  {
    DeleteAbsentEdge(rows, a, b);
  }

  /** Unfollowing undoes a follow that inserted the edge: the table is back to
      what it was, row for row and in order. */
  lemma UnfollowUndoesFollow(rows: seq<FollowRecord>, nextId: int, users: seq<UserRecord>, a: int, b: int, now: Instant)
    requires FollowsValid(rows, nextId)
    requires !ExistsEdge(rows, a, b)
    ensures UnfollowSpec(FollowSpec(rows, nextId, users, a, b, now).rows, a, b) == rows
  {
    var s := FollowSpec(rows, nextId, users, a, b, now);
    var p := Not(IsEdge(a, b));
    DeleteAbsentEdge(rows, a, b);
    if a != b && ExistsUserById(users, b) {
      var x := FollowRecord(nextId, a, b, now);
      assert s.rows == rows + [x];
      FilterConcat(rows, [x], p);
      assert Filter([x], p) == [];
    }
  }

  class FollowService {
    const follows: FollowRepository
    const users: UserRepository

    ghost predicate Valid()
      reads this, follows, users
    {
      follows.Valid() && users.Valid()
    }

    constructor (follows: FollowRepository, users: UserRepository)
      ensures this.follows == follows && this.users == users
    {
      this.follows := follows;
      this.users := users;
    }

    /** `follow(currentUserId, targetUserId)` */
    method Follow(current: int, target: int, now: Instant) returns (o: Outcome)
      requires Valid()
      modifies follows
      ensures Valid()
      ensures Step(follows.rows, follows.nextId, o)
           == FollowSpec(old(follows.rows), old(follows.nextId), users.rows, current, target, now)
    {
      if target == current {
        return Throw(BadRequest, SelfFollowMessage);
      }
      if !ExistsUserById(users.rows, target) {
        return Throw(NotFound, UserMissingMessage);
      }
      if ExistsEdge(follows.rows, current, target) {
        return Pass;
      }
      var r := follows.Save(FollowRecord(0, current, target, now));
      o := Discard(r);
    }

    /** `unfollow(currentUserId, targetUserId)` */
    method Unfollow(current: int, target: int)
      requires Valid()
      modifies follows
      ensures Valid()
      ensures follows.rows == UnfollowSpec(old(follows.rows), current, target)
      ensures follows.nextId == old(follows.nextId)
    {
      follows.DeleteByUserIdAndFollowUserId(current, target);
    }

    /** `existsByUserIdAndFollowUserId(userId, followUserId)` */
    method ExistsByUserIdAndFollowUserId(u: int, v: int) returns (b: bool)
      ensures b <==> exists f :: f in follows.rows && f.userId == u && f.followUserId == v
    {
      b := ExistsEdge(follows.rows, u, v);
    }
  }
}
