/** UserService: registration, login, the administrator's account edits and
    the user's own username and password changes.

    The password encoder is a pair of functions supplied from outside: BCrypt
    salts every hash, so only `matches(raw, encode(raw))` can be relied on, and
    the lemmas that need it ask for it. The clock is the `now` parameter. */
module Accounts {
  import opened Outcomes
  import opened SeqUtil
  import opened Tables
  import opened JavaText
  import opened UserEntity
  import opened UserTable

  const UsernameExistsMessage: string := "用户名已存在"
  const BadCredentialsMessage: string := "用户名或密码错误"
  const AccountBlockedMessage: string := "账号已封禁或已注销"
  const UserMissingMessage: string := "用户不存在"
  const AccountAbnormalMessage: string := "账号异常"
  const UsernameTakenMessage: string := "用户名已被占用"
  const WrongOldPasswordMessage: string := "原密码错误"

  /** `app.passwordChangeCooldownDays` when the property is not set. */
  const DefaultCooldownDays: int := 7
  const SecondsPerDay: int := 86400

  /** The message of a password change refused by the cooldown. */
  function CooldownMessage(days: int): string
  {
    "修改密码过于频繁，请 " + LongToString(days) + " 天后再试"
  }

  /** The configured cooldown, in days. */
  function CooldownDays(setting: Option<int>): (d: int)
    ensures setting.None? ==> d == DefaultCooldownDays
    ensures setting.Some? ==> d == setting.value
  {
    if setting.None? then DefaultCooldownDays else setting.value
  }

  /** The `PasswordEncoder` bean. */
  datatype PasswordEncoder = PasswordEncoder(encode: string -> string, matches: (string, string) -> bool)

  /** `matches(raw, hash)`; a null hash never matches. */
  predicate HashMatches(enc: PasswordEncoder, raw: string, hash: Option<string>)
  {
    hash.Some? && enc.matches(raw, hash.value)
  }

  // ---------------------------------------------------------------------------
  // lookups and login
  // ---------------------------------------------------------------------------

  /** `findById(id)`: the user, or 404. */
  function FindUser(rows: seq<UserRecord>, id: int): (r: Result<UserRecord>)
    ensures r.Ok? <==> ExistsUserById(rows, id)
    ensures r.Ok? ==> r.value in rows && r.value.id == id
    ensures r.Err? ==> r.error == ApiException(NotFound, UserMissingMessage)
  {
    match FindUserById(rows, id)
    case Some(u) => Ok(u)
    case None => Err(ApiException(NotFound, UserMissingMessage))
  }

  /** `findByIdOrUnauthorized(id, message)`: the user, or 401 with `message`. */
  function FindUserOrUnauthorized(rows: seq<UserRecord>, id: int, message: string): (r: Result<UserRecord>)
    ensures r.Ok? <==> ExistsUserById(rows, id)
    ensures r.Ok? ==> r.value in rows && r.value.id == id
    ensures r.Err? ==> r.error == ApiException(Unauthorized, message)
  {
    match FindUserById(rows, id)
    case Some(u) => Ok(u)
    case None => Err(ApiException(Unauthorized, message))
  }

  /** `validateLogin(username, password)`: an unknown name, a disabled account
      and a wrong password all give the same 401; a banned or deactivated
      account with the right password gives 403. */
  function ValidateLogin(rows: seq<UserRecord>, enc: PasswordEncoder, username: string, password: string): (r: Result<UserRecord>)
    ensures r.Ok? ==> && r.value in rows && r.value.username == username && IsEnabled(r.value)
                      && r.value.status == StatusNormal && HashMatches(enc, password, r.value.passwordHash)
    ensures r.Err? ==>
      r.error == ApiException(Unauthorized, BadCredentialsMessage) || r.error == ApiException(Forbidden, AccountBlockedMessage)
  {
    match FindByUsername(rows, username)
    case None => Err(ApiException(Unauthorized, BadCredentialsMessage))
    case Some(u) =>
      if !IsEnabled(u) || !HashMatches(enc, password, u.passwordHash) then Err(ApiException(Unauthorized, BadCredentialsMessage))
      else if u.status != StatusNormal then Err(ApiException(Forbidden, AccountBlockedMessage))
      else Ok(u)
  }

  /** How login decides, account by account. In particular an unknown name and
      a wrong password are indistinguishable, and the account state is only
      revealed to whoever knows the password. */
  lemma LoginOutcomes(rows: seq<UserRecord>, nextId: int, enc: PasswordEncoder, u: UserRecord, password: string)
    requires UsersValid(rows, nextId) && u in rows
    ensures !IsEnabled(u) || !HashMatches(enc, password, u.passwordHash) ==>
      ValidateLogin(rows, enc, u.username, password) == Err(ApiException(Unauthorized, BadCredentialsMessage))
    ensures IsEnabled(u) && HashMatches(enc, password, u.passwordHash) && u.status != StatusNormal ==>
      ValidateLogin(rows, enc, u.username, password) == Err(ApiException(Forbidden, AccountBlockedMessage))
    ensures IsEnabled(u) && HashMatches(enc, password, u.passwordHash) && u.status == StatusNormal ==>
      ValidateLogin(rows, enc, u.username, password) == Ok(u)
  {
    FindByUsernameUnique(rows, nextId, u);
  }

  lemma LoginUnknownName(rows: seq<UserRecord>, enc: PasswordEncoder, username: string, password: string)
    requires !ExistsByUsername(rows, username)
    ensures ValidateLogin(rows, enc, username, password) == Err(ApiException(Unauthorized, BadCredentialsMessage))
  {
  }

  // ---------------------------------------------------------------------------
  // register
  // ---------------------------------------------------------------------------

  /** The row `register` builds: `new User()` at `now` with name, display name,
      the encoded password and the USER role. */
  function NewAccount(enc: PasswordEncoder, username: string, password: string, displayName: string, now: Instant): UserRecord
  {
    UserRecord(0, username, Some(enc.encode(password)), displayName, Some(USER), None, StatusNormal, now, None)
  }

  /** `register(username, password, displayName)` at `now`. */
  function RegisterSpec(rows: seq<UserRecord>, nextId: int, enc: PasswordEncoder, username: string, password: string,
                        displayName: string, now: Instant): (s: Saved<UserRecord>)
    requires UsersValid(rows, nextId)
    ensures UsersValid(s.rows, s.nextId)
    ensures s.result.Err? ==> s.rows == rows && s.nextId == nextId
  {
    if ExistsByUsername(rows, username) then Saved(rows, nextId, Err(ApiException(Conflict, UsernameExistsMessage)))
    else SaveUser(rows, nextId, NewAccount(enc, username, password, displayName, now))
  }

  /** A taken name is a 409; a free name that fits its column appends an
      enabled, normal USER account under a fresh id. */
  lemma RegisterOutcomes(rows: seq<UserRecord>, nextId: int, enc: PasswordEncoder, username: string, password: string,
                         displayName: string, now: Instant)
    requires UsersValid(rows, nextId)
    ensures var s := RegisterSpec(rows, nextId, enc, username, password, displayName, now);
      var u := NewAccount(enc, username, password, displayName, now).(id := nextId);
      && (ExistsByUsername(rows, username) ==> s == Saved(rows, nextId, Err(ApiException(Conflict, UsernameExistsMessage))))
      && (!ExistsByUsername(rows, username) && |username| <= UsernameLength && |displayName| <= DisplayNameLength ==>
            s == Saved(rows + [u], nextId + 1, Ok(u)) && RoleOf(u) == USER && IsEnabled(u))
  {
  }

  /** Logging in with the password just registered returns the new account. */
  lemma RegisterThenLogin(rows: seq<UserRecord>, nextId: int, enc: PasswordEncoder, username: string, password: string,
                          displayName: string, now: Instant)
    requires UsersValid(rows, nextId)
    requires enc.matches(password, enc.encode(password))
    ensures var s := RegisterSpec(rows, nextId, enc, username, password, displayName, now);
      s.result.Ok? ==> ValidateLogin(s.rows, enc, username, password) == s.result
  {
    var s := RegisterSpec(rows, nextId, enc, username, password, displayName, now);
    if s.result.Ok? {
      var u := s.result.value;
      assert u == NewAccount(enc, username, password, displayName, now).(id := nextId);
      LoginOutcomes(s.rows, s.nextId, enc, u, password);
    }
  }

  // ---------------------------------------------------------------------------
  // editing a stored account
  // ---------------------------------------------------------------------------

  /** Saving a loaded account with its name kept (or moved to a free name that
      fits) overwrites its row in place. */
  lemma SaveStoredUser(rows: seq<UserRecord>, nextId: int, u: UserRecord, e: UserRecord)
    requires UsersValid(rows, nextId) && u in rows
    requires e.id == u.id && e.passwordHash.Some? && e.displayName == u.displayName
    requires e.username == u.username || (!ExistsByUsername(rows, e.username) && |e.username| <= UsernameLength)
    ensures SaveUser(rows, nextId, e) == Saved(ReplaceRow(rows, UserIdOf, e), nextId, Ok(e))
    ensures e in ReplaceRow(rows, UserIdOf, e)
  {
    var k :| 0 <= k < |rows| && rows[k] == u;
    assert UserStorable(rows[k]);
    forall v | v in rows && v.id != e.id ensures v.username != e.username {
      var j :| 0 <= j < |rows| && rows[j] == v;
      assert j != k;
    }
    StoredIdIssued(rows, UserIdOf, nextId, u);
    assert ReplaceRow(rows, UserIdOf, e)[k] == e;
  }

  /** `updateUser(id, enabled, role)`: 404, then a null flag fails on unboxing;
      a null role is stored as null. */
  function UpdateUserSpec(rows: seq<UserRecord>, nextId: int, id: int, enabled: Option<bool>, role: Option<UserRole>): (s: Step<UserRecord>)
    requires UsersValid(rows, nextId)
    ensures UsersValid(s.rows, s.nextId)
    ensures s.outcome.Fail? ==> s.rows == rows && s.nextId == nextId
  {
    match FindUser(rows, id)
    case Err(e) => Step(rows, nextId, Fail(e))
    case Ok(u) =>
      if enabled.None? then Step(rows, nextId, Fail(UncheckedException))
      else
        var s := SaveUser(rows, nextId, u.(enabled := Some(enabled.value), role := role));
        Step(s.rows, s.nextId, Discard(s.result))
  }

  /** The administrator's edit overwrites the flag and the role of that one
      account; a disabled account can no longer log in, whatever the password. */
  lemma UpdateUserReplacesRow(rows: seq<UserRecord>, nextId: int, enc: PasswordEncoder, u: UserRecord, enabled: bool,
                              role: Option<UserRole>, password: string)
    requires UsersValid(rows, nextId) && u in rows
    ensures var s := UpdateUserSpec(rows, nextId, u.id, Some(enabled), role);
      var e := u.(enabled := Some(enabled), role := role);
      && s == Step(ReplaceRow(rows, UserIdOf, e), nextId, Pass)
      && (!enabled ==> ValidateLogin(s.rows, enc, u.username, password) == Err(ApiException(Unauthorized, BadCredentialsMessage)))
  {
    var e := u.(enabled := Some(enabled), role := role);
    SaveStoredUser(rows, nextId, u, e);
    LoginOutcomes(ReplaceRow(rows, UserIdOf, e), nextId, enc, e, password);
  }

  /** `setStatus(id, status)`: any value is stored. */
  function SetStatusSpec(rows: seq<UserRecord>, nextId: int, id: int, status: int): (s: Step<UserRecord>)
    requires UsersValid(rows, nextId)
    ensures UsersValid(s.rows, s.nextId)
    ensures s.outcome.Fail? ==> s.rows == rows && s.nextId == nextId
  {
    match FindUser(rows, id)
    case Err(e) => Step(rows, nextId, Fail(e))
    case Ok(u) =>
      var s := SaveUser(rows, nextId, u.(status := status));
      Step(s.rows, s.nextId, Discard(s.result))
  }

  /** `deactivateUser(id)`: logical deletion, the row stays. */
  function DeactivateUserSpec(rows: seq<UserRecord>, nextId: int, id: int): (s: Step<UserRecord>)
    requires UsersValid(rows, nextId)
    ensures UsersValid(s.rows, s.nextId)
    ensures s.outcome.Fail? ==> s.rows == rows && s.nextId == nextId
  {
    match FindUser(rows, id)
    case Err(e) => Step(rows, nextId, Fail(e))
    case Ok(u) =>
      var s := SaveUser(rows, nextId, u.(status := StatusDeactivated));
      Step(s.rows, s.nextId, Discard(s.result))
  }

  /** Setting a status
      overwrites that one row; with any status but normal, the right password
      now gets 403 instead of a token. */
  lemma SetStatusReplacesRow(rows: seq<UserRecord>, nextId: int, enc: PasswordEncoder, u: UserRecord, status: int, password: string)
    requires UsersValid(rows, nextId) && u in rows
    ensures var s := SetStatusSpec(rows, nextId, u.id, status);
      && s == Step(ReplaceRow(rows, UserIdOf, u.(status := status)), nextId, Pass)
      && (status != StatusNormal && IsEnabled(u) && HashMatches(enc, password, u.passwordHash) ==>
            ValidateLogin(s.rows, enc, u.username, password) == Err(ApiException(Forbidden, AccountBlockedMessage)))
  {
    var e := u.(status := status);
    SaveStoredUser(rows, nextId, u, e);
    LoginOutcomes(ReplaceRow(rows, UserIdOf, e), nextId, enc, e, password);
  }

  /** Deactivation is setting status 2: the account keeps its row, shows the
      placeholder name, and can no longer get a token. */
  lemma DeactivateIsStatusTwo(rows: seq<UserRecord>, nextId: int, id: int)
    requires UsersValid(rows, nextId)
    ensures DeactivateUserSpec(rows, nextId, id) == SetStatusSpec(rows, nextId, id, StatusDeactivated)
    ensures var s := DeactivateUserSpec(rows, nextId, id);
      && |s.rows| == |rows|
      && forall v :: v in s.rows && v.id == id ==> IsDeactivated(v) && DisplayNamePublic(v) == DeactivatedDisplayName
  {
    var s := DeactivateUserSpec(rows, nextId, id);
    match FindUser(rows, id)
    case Err(_) =>
    case Ok(u) =>
      var e := u.(status := StatusDeactivated);
      SaveStoredUser(rows, nextId, u, e);
      forall v | v in s.rows && v.id == id ensures v == e {
        var k :| 0 <= k < |s.rows| && s.rows[k] == v;
      }
  }

  /** `resetPassword(id, newPassword)`: 404, then a null password fails in the
      encoder. */
  function ResetPasswordSpec(rows: seq<UserRecord>, nextId: int, enc: PasswordEncoder, id: int, newPassword: Option<string>): (s: Step<UserRecord>)
    requires UsersValid(rows, nextId)
    ensures UsersValid(s.rows, s.nextId)
    ensures s.outcome.Fail? ==> s.rows == rows && s.nextId == nextId
  {
    match FindUser(rows, id)
    case Err(e) => Step(rows, nextId, Fail(e))
    case Ok(u) =>
      if newPassword.None? then Step(rows, nextId, Fail(UncheckedException))
      else
        var s := SaveUser(rows, nextId, u.(passwordHash := Some(enc.encode(newPassword.value))));
        Step(s.rows, s.nextId, Discard(s.result))
  }

  /** A reset replaces only the hash: the time of the last own change, and so
      the cooldown, is untouched, and the new password logs in. */
  lemma ResetThenLogin(rows: seq<UserRecord>, nextId: int, enc: PasswordEncoder, u: UserRecord, password: string)
    requires UsersValid(rows, nextId) && u in rows
    requires enc.matches(password, enc.encode(password))
    ensures var s := ResetPasswordSpec(rows, nextId, enc, u.id, Some(password));
      var e := u.(passwordHash := Some(enc.encode(password)));
      && s == Step(ReplaceRow(rows, UserIdOf, e), nextId, Pass)
      && e.passwordChangedAt == u.passwordChangedAt
      && (IsEnabled(u) && u.status == StatusNormal ==> ValidateLogin(s.rows, enc, u.username, password) == Ok(e))
  {
    var e := u.(passwordHash := Some(enc.encode(password)));
    SaveStoredUser(rows, nextId, u, e);
    LoginOutcomes(ReplaceRow(rows, UserIdOf, e), nextId, enc, e, password);
  }

  // ---------------------------------------------------------------------------
  // the user's own changes
  // ---------------------------------------------------------------------------

  /** `updateUsername(userId, newUsername)`: 404; 403 unless the account is
      normal; the name is trimmed; 409 when someone has exactly that name,
      unless the own name equals it ignoring case. */
  function UpdateUsernameSpec(rows: seq<UserRecord>, nextId: int, userId: int, newUsername: string): (s: Step<UserRecord>)
    requires UsersValid(rows, nextId)
    ensures UsersValid(s.rows, s.nextId)
    ensures s.outcome.Fail? ==> s.rows == rows && s.nextId == nextId
  {
    match FindUser(rows, userId)
    case Err(e) => Step(rows, nextId, Fail(e))
    case Ok(u) =>
      if u.status != StatusNormal then Step(rows, nextId, Throw(Forbidden, AccountAbnormalMessage))
      else
        var t := Trim(newUsername);
        if ExistsByUsername(rows, t) && !EqualsIgnoreCase(u.username, t) then
          Step(rows, nextId, Throw(Conflict, UsernameTakenMessage))
        else
          var s := SaveUser(rows, nextId, u.(username := t));
          Step(s.rows, s.nextId, Discard(s.result))
  }

  lemma UpdateUsernameRejects(rows: seq<UserRecord>, nextId: int, u: UserRecord, newUsername: string)
    requires UsersValid(rows, nextId) && u in rows
    ensures u.status != StatusNormal ==>
      UpdateUsernameSpec(rows, nextId, u.id, newUsername) == Step(rows, nextId, Throw(Forbidden, AccountAbnormalMessage))
    ensures u.status == StatusNormal && ExistsByUsername(rows, Trim(newUsername)) && !EqualsIgnoreCase(u.username, Trim(newUsername)) ==>
      UpdateUsernameSpec(rows, nextId, u.id, newUsername) == Step(rows, nextId, Throw(Conflict, UsernameTakenMessage))
  {
    FirstUnique(rows, UserIdOf, u.id, UserHasId(u.id), u);
  }

  /** A free name that fits is taken over, trimmed, and found by name
      afterwards; the id and everything else about the account stay. */
  lemma UpdateUsernameRenames(rows: seq<UserRecord>, nextId: int, u: UserRecord, newUsername: string)
    requires UsersValid(rows, nextId) && u in rows && u.status == StatusNormal
    requires !ExistsByUsername(rows, Trim(newUsername)) && |Trim(newUsername)| <= UsernameLength
    ensures var s := UpdateUsernameSpec(rows, nextId, u.id, newUsername);
      var e := u.(username := Trim(newUsername));
      && s == Step(ReplaceRow(rows, UserIdOf, e), nextId, Pass)
      && FindByUsername(s.rows, Trim(newUsername)) == Some(e)
  {
    var e := u.(username := Trim(newUsername));
    FirstUnique(rows, UserIdOf, u.id, UserHasId(u.id), u);
    SaveStoredUser(rows, nextId, u, e);
    FindByUsernameUnique(ReplaceRow(rows, UserIdOf, e), nextId, e);
  }

  /** Asking for the own name (after trimming) succeeds and changes nothing,
      so repeating a rename is harmless. */
  lemma UpdateUsernameToOwnName(rows: seq<UserRecord>, nextId: int, u: UserRecord, newUsername: string)
    requires UsersValid(rows, nextId) && u in rows && u.status == StatusNormal
    requires Trim(newUsername) == u.username
    ensures UpdateUsernameSpec(rows, nextId, u.id, newUsername) == Step(rows, nextId, Pass)
  {
    FirstUnique(rows, UserIdOf, u.id, UserHasId(u.id), u);
    SaveStoredUser(rows, nextId, u, u);
    ReplaceSameRow(rows, UserIdOf, nextId, u);
    EqualsIgnoreCaseProperties(u.username, u.username, u.username);
  }

  lemma UpdateUsernameTwice(rows: seq<UserRecord>, nextId: int, userId: int, newUsername: string)
    requires UsersValid(rows, nextId)
    ensures var s := UpdateUsernameSpec(rows, nextId, userId, newUsername);
      s.outcome.Pass? ==> UpdateUsernameSpec(s.rows, s.nextId, userId, newUsername) == Step(s.rows, s.nextId, Pass)
  {
    var s := UpdateUsernameSpec(rows, nextId, userId, newUsername);
    if s.outcome.Pass? {
      var u := FindUser(rows, userId).value;
      var e := u.(username := Trim(newUsername));
      assert s.rows == ReplaceRow(rows, UserIdOf, e);
      assert e in s.rows;
      TrimIdempotent(newUsername);
      UpdateUsernameToOwnName(s.rows, s.nextId, e, newUsername);
    }
  }

  /** The case-insensitive exemption lets a rename through when another
      account holds exactly the new name and the own name differs from it only
      in case; the unique key then refuses the save, as a generic 409. */
  lemma UpdateUsernameCaseCollision(rows: seq<UserRecord>, nextId: int, u: UserRecord, v: UserRecord, newUsername: string)
    requires UsersValid(rows, nextId) && u in rows && v in rows && u.status == StatusNormal
    requires v.id != u.id && v.username == Trim(newUsername) && EqualsIgnoreCase(u.username, Trim(newUsername))
    ensures UpdateUsernameSpec(rows, nextId, u.id, newUsername) == Step(rows, nextId, Fail(DataIntegrityViolation))
  {
    FirstUnique(rows, UserIdOf, u.id, UserHasId(u.id), u);
    assert UsernameTaken(rows, u.(username := Trim(newUsername)));
  }

  /** The moment from which an account that changed its password at `changedAt`
      may change it again. */
  function AllowedAfter(changedAt: Instant, days: int): Instant
  {
    changedAt + days * SecondsPerDay
  }

  /** `updatePassword(userId, oldPassword, newPassword)` at `now`: 404; 403
      unless the account is normal; 400 within the cooldown after the last own
      change; 400 for a wrong old password; else store the new hash and the
      time. */
  function UpdatePasswordSpec(rows: seq<UserRecord>, nextId: int, enc: PasswordEncoder, days: int, userId: int,
                              oldPassword: string, newPassword: string, now: Instant): (s: Step<UserRecord>)
    requires UsersValid(rows, nextId)
    ensures UsersValid(s.rows, s.nextId)
    ensures s.outcome.Fail? ==> s.rows == rows && s.nextId == nextId
  {
    match FindUser(rows, userId)
    case Err(e) => Step(rows, nextId, Fail(e))
    case Ok(u) =>
      if u.status != StatusNormal then Step(rows, nextId, Throw(Forbidden, AccountAbnormalMessage))
      else if u.passwordChangedAt.Some? && now < AllowedAfter(u.passwordChangedAt.value, days) then
        Step(rows, nextId, Throw(BadRequest, CooldownMessage(days)))
      else if !HashMatches(enc, oldPassword, u.passwordHash) then
        Step(rows, nextId, Throw(BadRequest, WrongOldPasswordMessage))
      else
        var s := SaveUser(rows, nextId, u.(passwordHash := Some(enc.encode(newPassword)), passwordChangedAt := Some(now)));
        Step(s.rows, s.nextId, Discard(s.result))
  }

  /** The checks in order: a blocked account, then the cooldown, then the old
      password; a change that passes them all stores the new hash and `now`,
      and the new password logs in. */
  lemma UpdatePasswordOutcomes(rows: seq<UserRecord>, nextId: int, enc: PasswordEncoder, days: int, u: UserRecord,
                               oldPassword: string, newPassword: string, now: Instant)
    requires UsersValid(rows, nextId) && u in rows
    ensures var s := UpdatePasswordSpec(rows, nextId, enc, days, u.id, oldPassword, newPassword, now);
      var cooling := u.passwordChangedAt.Some? && now < AllowedAfter(u.passwordChangedAt.value, days);
      var e := u.(passwordHash := Some(enc.encode(newPassword)), passwordChangedAt := Some(now));
      && (u.status != StatusNormal ==> s == Step(rows, nextId, Throw(Forbidden, AccountAbnormalMessage)))
      && (u.status == StatusNormal && cooling ==> s == Step(rows, nextId, Throw(BadRequest, CooldownMessage(days))))
      && (u.status == StatusNormal && !cooling && !HashMatches(enc, oldPassword, u.passwordHash) ==>
            s == Step(rows, nextId, Throw(BadRequest, WrongOldPasswordMessage)))
      && (u.status == StatusNormal && !cooling && HashMatches(enc, oldPassword, u.passwordHash) ==>
            && s == Step(ReplaceRow(rows, UserIdOf, e), nextId, Pass)
            && (IsEnabled(u) && enc.matches(newPassword, enc.encode(newPassword)) ==>
                  ValidateLogin(s.rows, enc, u.username, newPassword) == Ok(e)))
  {
    FirstUnique(rows, UserIdOf, u.id, UserHasId(u.id), u);
    var e := u.(passwordHash := Some(enc.encode(newPassword)), passwordChangedAt := Some(now));
    SaveStoredUser(rows, nextId, u, e);
    LoginOutcomes(ReplaceRow(rows, UserIdOf, e), nextId, enc, e, newPassword);
  }

  /** After a successful change at `now`, every further change before
      `now + days` days is refused by the cooldown, whatever passwords it
      gives. */
  lemma CooldownAfterChange(rows: seq<UserRecord>, nextId: int, enc: PasswordEncoder, days: int, userId: int,
                            oldPassword: string, newPassword: string, now: Instant,
                            old2: string, new2: string, later: Instant)
    requires UsersValid(rows, nextId)
    requires later < AllowedAfter(now, days)
    ensures var s := UpdatePasswordSpec(rows, nextId, enc, days, userId, oldPassword, newPassword, now);
      s.outcome.Pass? ==>
        UpdatePasswordSpec(s.rows, s.nextId, enc, days, userId, old2, new2, later)
          == Step(s.rows, s.nextId, Throw(BadRequest, CooldownMessage(days)))
  {
    var s := UpdatePasswordSpec(rows, nextId, enc, days, userId, oldPassword, newPassword, now);
    if s.outcome.Pass? {
      var u := FindUser(rows, userId).value;
      var e := u.(passwordHash := Some(enc.encode(newPassword)), passwordChangedAt := Some(now));
      UpdatePasswordOutcomes(rows, nextId, enc, days, u, oldPassword, newPassword, now);
      assert s.rows == ReplaceRow(rows, UserIdOf, e);
      SaveStoredUser(rows, nextId, u, e);
      UpdatePasswordOutcomes(s.rows, s.nextId, enc, days, e, old2, new2, later);
    }
  }

  // ---------------------------------------------------------------------------
  // the service
  // ---------------------------------------------------------------------------

  class UserService {
    const users: UserRepository
    const enc: PasswordEncoder
    const cooldownDays: int

    ghost predicate Valid()
      reads this, users
    {
      users.Valid()
    }

    /** The bean, with `app.passwordChangeCooldownDays` as `setting`. */
    constructor (users: UserRepository, enc: PasswordEncoder, setting: Option<int>)
      ensures this.users == users && this.enc == enc && cooldownDays == CooldownDays(setting)
    {
      this.users := users;
      this.enc := enc;
      cooldownDays := CooldownDays(setting);
    }

    /** `register(username, password, displayName)` */
    method Register(username: string, password: string, displayName: string, now: Instant) returns (r: Result<UserRecord>)
      requires Valid()
      modifies users
      ensures Valid()
      ensures Saved(users.rows, users.nextId, r) == RegisterSpec(old(users.rows), old(users.nextId), enc, username, password, displayName, now)
    {
      if ExistsByUsername(users.rows, username) {
        return Err(ApiException(Conflict, UsernameExistsMessage));
      }
      var u := new User(now);
      u.SetUsername(username);
      u.SetDisplayName(displayName);
      u.SetPasswordHash(enc.encode(password));
      u.SetRole(Some(USER));
      r := users.Save(u);
    }

    /** `findAll()` */
    method FindAll() returns (r: seq<UserRecord>)
      ensures forall u :: u in r <==> u in users.rows
      ensures |r| == |users.rows|
    {
      r := users.rows;
    }

    /** `updateUser(id, enabled, role)` */
    method UpdateUser(id: int, enabled: Option<bool>, role: Option<UserRole>) returns (o: Outcome)
      requires Valid()
      modifies users
      ensures Valid()
      ensures Step(users.rows, users.nextId, o) == UpdateUserSpec(old(users.rows), old(users.nextId), id, enabled, role)
    {
      var found := FindUser(users.rows, id);
      if found.Err? {
        return Fail(found.error);
      }
      StoredIdIssued(users.rows, UserIdOf, users.nextId, found.value);
      var u := new User.Load(found.value);
      if enabled.None? {
        return Fail(UncheckedException);
      }
      u.SetEnabled(enabled.value);
      u.SetRole(role);
      var r := users.Save(u);
      o := Discard(r);
    }

    /** `setStatus(id, status)` */
    method SetStatus(id: int, status: int) returns (o: Outcome)
      requires Valid()
      modifies users
      ensures Valid()
      ensures Step(users.rows, users.nextId, o) == SetStatusSpec(old(users.rows), old(users.nextId), id, status)
    {
      var found := FindUser(users.rows, id);
      if found.Err? {
        return Fail(found.error);
      }
      StoredIdIssued(users.rows, UserIdOf, users.nextId, found.value);
      var u := new User.Load(found.value);
      u.SetStatus(status);
      var r := users.Save(u);
      o := Discard(r);
    }

    /** `resetPassword(id, newPassword)` */
    method ResetPassword(id: int, newPassword: Option<string>) returns (o: Outcome)
      requires Valid()
      modifies users
      ensures Valid()
      ensures Step(users.rows, users.nextId, o) == ResetPasswordSpec(old(users.rows), old(users.nextId), enc, id, newPassword)
    {
      var found := FindUser(users.rows, id);
      if found.Err? {
        return Fail(found.error);
      }
      StoredIdIssued(users.rows, UserIdOf, users.nextId, found.value);
      var u := new User.Load(found.value);
      if newPassword.None? {
        return Fail(UncheckedException);
      }
      u.SetPasswordHash(enc.encode(newPassword.value));
      var r := users.Save(u);
      o := Discard(r);
    }

    /** `deactivateUser(id)` */
    method DeactivateUser(id: int) returns (o: Outcome)
      requires Valid()
      modifies users
      ensures Valid()
      ensures Step(users.rows, users.nextId, o) == DeactivateUserSpec(old(users.rows), old(users.nextId), id)
    {
      var found := FindUser(users.rows, id);
      if found.Err? {
        return Fail(found.error);
      }
      StoredIdIssued(users.rows, UserIdOf, users.nextId, found.value);
      var u := new User.Load(found.value);
      u.SetStatus(StatusDeactivated);
      var r := users.Save(u);
      o := Discard(r);
    }

    /** `updateUsername(userId, newUsername)` */
    method UpdateUsername(userId: int, newUsername: string) returns (o: Outcome)
      requires Valid()
      modifies users
      ensures Valid()
      ensures Step(users.rows, users.nextId, o) == UpdateUsernameSpec(old(users.rows), old(users.nextId), userId, newUsername)
    {
      var found := FindUser(users.rows, userId);
      if found.Err? {
        return Fail(found.error);
      }
      StoredIdIssued(users.rows, UserIdOf, users.nextId, found.value);
      var u := new User.Load(found.value);
      if u.status != StatusNormal {
        return Throw(Forbidden, AccountAbnormalMessage);
      }
      var trimmed := Trim(newUsername);
      if ExistsByUsername(users.rows, trimmed) && !EqualsIgnoreCase(u.username, trimmed) {
        return Throw(Conflict, UsernameTakenMessage);
      }
      u.SetUsername(trimmed);
      var r := users.Save(u);
      o := Discard(r);
    }

    /** `updatePassword(userId, oldPassword, newPassword)` */
    method UpdatePassword(userId: int, oldPassword: string, newPassword: string, now: Instant) returns (o: Outcome)
      requires Valid()
      modifies users
      ensures Valid()
      ensures Step(users.rows, users.nextId, o)
           == UpdatePasswordSpec(old(users.rows), old(users.nextId), enc, cooldownDays, userId, oldPassword, newPassword, now)
    {
      var found := FindUser(users.rows, userId);
      if found.Err? {
        return Fail(found.error);
      }
      StoredIdIssued(users.rows, UserIdOf, users.nextId, found.value);
      var u := new User.Load(found.value);
      if u.status != StatusNormal {
        return Throw(Forbidden, AccountAbnormalMessage);
      }
      if u.passwordChangedAt.Some? {
        var allowedAfter := AllowedAfter(u.passwordChangedAt.value, cooldownDays);
        if now < allowedAfter {
          return Throw(BadRequest, CooldownMessage(cooldownDays));
        }
      }
      if !HashMatches(enc, oldPassword, u.passwordHash) {
        return Throw(BadRequest, WrongOldPasswordMessage);
      }
      u.SetPasswordHash(enc.encode(newPassword));
      u.SetPasswordChangedAt(now);
      var r := users.Save(u);
      o := Discard(r);
    }
  }
}
