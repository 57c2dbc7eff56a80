/** The `users` entity: a row value, the derived getters, and the mutable JPA
    entity object that services load, change through setters and save. */
module UserEntity {
  import opened Outcomes

  datatype UserRole = USER | ADMIN

  /** The values of the `status` column: normal, banned, deactivated. */
  const StatusNormal: int := 0
  const StatusBanned: int := 1
  const StatusDeactivated: int := 2

  /** What the public display name of a deactivated account reads as. */
  const DeactivatedDisplayName: string := "已注销用户"

  /** Column lengths of `username` and `display_name`. */
  const UsernameLength: nat := 32
  const DisplayNameLength: nat := 32

  /** A row of `users`. `role`, `enabled` and `passwordChangedAt` are nullable
      columns; `passwordHash` is null only on an entity that was never given one. */
  datatype UserRecord = UserRecord(
    id: int,
    username: string,
    passwordHash: Option<string>,
    displayName: string,
    role: Option<UserRole>,
    enabled: Option<bool>,
    status: int,
    createdAt: Instant,
    passwordChangedAt: Option<Instant>)

  /** `getRole()`: a null role reads as USER. */
  function RoleOf(u: UserRecord): (r: UserRole)
    ensures r == ADMIN <==> u.role == Some(ADMIN)
  {
    match u.role
    case None => USER
    case Some(role) => role
  }

  /** `isEnabled()`: a null flag reads as enabled; only an explicit false disables. */
  function IsEnabled(u: UserRecord): (b: bool)
    ensures b <==> u.enabled != Some(false)
  {
    u.enabled.None? || u.enabled.value
  }

  /** `isDeactivated()` */
  predicate IsDeactivated(u: UserRecord)
  {
    u.status == StatusDeactivated
  }

  /** `getDisplayNamePublic()`: a deactivated account shows the placeholder
      instead of its own display name. */
  function DisplayNamePublic(u: UserRecord): (s: string)
    ensures IsDeactivated(u) ==> s == DeactivatedDisplayName
    ensures !IsDeactivated(u) ==> s == u.displayName
  {
    if u.status == StatusDeactivated then DeactivatedDisplayName else u.displayName
  }

  /** The JPA entity object. It is detached: services build it from a row (or
      from nothing, for a new account), call setters, and hand it to `save`. */
  class User {
    var id: int
    var username: string
    var passwordHash: Option<string>
    var displayName: string
    var role: Option<UserRole>
    var enabled: Option<bool>
    var status: int
    /** Set once, when the object is created; there is no setter. */
    const createdAt: Instant
    var passwordChangedAt: Option<Instant>

    /** The row this object would be saved as. */
    function Record(): UserRecord
      reads this
    {
      UserRecord(id, username, passwordHash, displayName, role, enabled, status, createdAt, passwordChangedAt)
    }

    /** `new User()` at time `now`: no id yet, status 0, every nullable column
        null. The non-null string columns start empty; every caller sets them. */
    constructor (now: Instant)
      ensures Record() == UserRecord(0, "", None, "", None, None, StatusNormal, now, None)
    {
      id := 0;
      username := "";
      passwordHash := None;
      displayName := "";
      role := None;
      enabled := None;
      status := StatusNormal;
      createdAt := now;
      passwordChangedAt := None;
    }

    /** The entity as loaded from its row. */
    constructor Load(r: UserRecord)
      ensures Record() == r
    {
      id := r.id;
      username := r.username;
      passwordHash := r.passwordHash;
      displayName := r.displayName;
      role := r.role;
      enabled := r.enabled;
      status := r.status;
      createdAt := r.createdAt;
      passwordChangedAt := r.passwordChangedAt;
    }

    method SetUsername(v: string)
      modifies this`username
      ensures Record() == old(Record()).(username := v)
    {
      username := v;
    }

    method SetPasswordHash(v: string)
      modifies this`passwordHash
      ensures Record() == old(Record()).(passwordHash := Some(v))
    {
      passwordHash := Some(v);
    }

    method SetDisplayName(v: string)
      modifies this`displayName
      ensures Record() == old(Record()).(displayName := v)
    {
      displayName := v;
    }

    /** `setRole` accepts null, which stores a null role. */
    method SetRole(v: Option<UserRole>)
      modifies this`role
      ensures Record() == old(Record()).(role := v)
    {
      role := v;
    }

    /** `setEnabled(boolean)`: a primitive, so the stored flag is never null afterwards. */
    method SetEnabled(v: bool)
      modifies this`enabled
      ensures Record() == old(Record()).(enabled := Some(v))
    {
      enabled := Some(v);
    }

    method SetStatus(v: int)
      modifies this`status
      ensures Record() == old(Record()).(status := v)
    {
      status := v;
    }

    method SetPasswordChangedAt(v: Instant)
      modifies this`passwordChangedAt
      ensures Record() == old(Record()).(passwordChangedAt := Some(v))
    {
      passwordChangedAt := Some(v);
    }
  }
}
