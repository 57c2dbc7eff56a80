/** The `users` table behind `UserRepository` (`existsById`, `findById`,
    `findByUsername`, `existsByUsername`, `findAll`, `save`).
    UserRepository.java is not part of this model: its finders are read off the
    calls that UserService, FollowService and GuideService make. */
module UserTable {
  import opened Outcomes
  import opened SeqUtil
  import opened Tables
  import opened UserEntity

  function UserIdOf(u: UserRecord): int { u.id }
  function WithUserId(u: UserRecord, id: int): UserRecord { u.(id := id) }
  /** The unique column `username`. */
  function UsernameOf(u: UserRecord): string { u.username }

  /** A row the column constraints accept: the hash is not null and the names
      fit their columns. */
  predicate UserStorable(u: UserRecord)
  {
    u.passwordHash.Some? && |u.username| <= UsernameLength && |u.displayName| <= DisplayNameLength
  }

  /** The table invariant: valid ids, unique usernames, storable rows. */
  predicate UsersValid(rows: seq<UserRecord>, nextId: int)
  {
    && IdsValid(rows, UserIdOf, nextId)
    && KeysUnique(rows, UsernameOf)
    && forall i :: 0 <= i < |rows| ==> UserStorable(rows[i])
  }

  function UserHasId(id: int): UserRecord -> bool { (u: UserRecord) => u.id == id }
  function HasUsername(name: string): UserRecord -> bool { (u: UserRecord) => u.username == name }

  /** `existsById` */
  predicate ExistsUserById(rows: seq<UserRecord>, id: int)
  {
    HasRow(rows, UserIdOf, id)
  }

  /** `findById` */
  function FindUserById(rows: seq<UserRecord>, id: int): (r: Option<UserRecord>)
    ensures r.Some? ==> r.value in rows && r.value.id == id
    ensures r.Some? <==> ExistsUserById(rows, id)
  {
    First(rows, UserHasId(id))
  }

  /** `existsByUsername`: an exact, case-sensitive match. */
  predicate ExistsByUsername(rows: seq<UserRecord>, name: string)
  {
    exists i :: 0 <= i < |rows| && rows[i].username == name
  }

  /** `findByUsername` */
  function FindByUsername(rows: seq<UserRecord>, name: string): (r: Option<UserRecord>)
    ensures r.Some? ==> r.value in rows && r.value.username == name
    ensures r.Some? <==> ExistsByUsername(rows, name)
  {
    First(rows, HasUsername(name))
  }

  /** Usernames are unique, so the user found by name is the only one with it. */
  lemma FindByUsernameUnique(rows: seq<UserRecord>, nextId: int, u: UserRecord)
    requires UsersValid(rows, nextId) && u in rows
    ensures FindByUsername(rows, u.username) == Some(u)
  {
    FirstUnique(rows, UsernameOf, u.username, HasUsername(u.username), u);
  }

  /** Ids are unique, so the user found by id is the only one with it. */
  lemma FindUserByIdUnique(rows: seq<UserRecord>, nextId: int, u: UserRecord)
    requires UsersValid(rows, nextId) && u in rows
    ensures FindUserById(rows, u.id) == Some(u)
  {
    FirstUnique(rows, UserIdOf, u.id, UserHasId(u.id), u);
  }

  /** Another row already holds `e`'s username. */
  predicate UsernameTaken(rows: seq<UserRecord>, e: UserRecord)
  {
    exists u :: u in rows && u.id != e.id && u.username == e.username
  }

  /** `save`: the database rejects a null hash, an over-long name and a
      duplicate username with a data-integrity violation and leaves the table as
      it was; otherwise the row is inserted or overwritten. */
  function SaveUser(rows: seq<UserRecord>, nextId: int, e: UserRecord): (s: Saved<UserRecord>)
    requires UsersValid(rows, nextId) && e.id >= 0
    ensures UsersValid(s.rows, s.nextId)
    ensures s.result.Err? ==> s.rows == rows && s.nextId == nextId
    ensures (!UserStorable(e) || UsernameTaken(rows, e)) ==> s.result == Err(DataIntegrityViolation)
    ensures UserStorable(e) && !UsernameTaken(rows, e) ==> s == Upsert(rows, nextId, e, UserIdOf, WithUserId)
  {
    if !UserStorable(e) || UsernameTaken(rows, e) then Saved(rows, nextId, Err(DataIntegrityViolation))
    else
      UpsertRows(rows, nextId, e, UserIdOf, WithUserId);
      UpsertKeepsKeys(rows, nextId, e, UserIdOf, WithUserId, UsernameOf);
      Upsert(rows, nextId, e, UserIdOf, WithUserId)
  }

  class UserRepository {
    var rows: seq<UserRecord>
    var nextId: int

    ghost predicate Valid()
      reads this
    {
      UsersValid(rows, nextId)
    }

    constructor ()
      ensures Valid() && rows == [] && nextId == 1
    {
      rows := [];
      nextId := 1;
    }

    /** `save(u)`: returns the row as stored. */
    method Save(u: User) returns (r: Result<UserRecord>)
      requires Valid() && u.id >= 0
      modifies this
      ensures Valid()
      ensures Saved(rows, nextId, r) == SaveUser(old(rows), old(nextId), u.Record())
    {
      var s := SaveUser(rows, nextId, u.Record());
      rows, nextId, r := s.rows, s.nextId, s.result;
    }
  }
}
