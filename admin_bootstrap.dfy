/** AdminInitializer: at start-up, make sure the configured administrator
    account exists, has the role ADMIN, is enabled and accepts the configured
    password, saving it only when one of these had to be repaired. */
module AdminBootstrap {
  import opened Outcomes
  import opened SeqUtil
  import opened Tables
  import opened UserEntity
  import opened UserTable
  import opened Accounts

  /** The display name of an administrator account created at start-up. */
  const AdminDisplayName: string := "管理员"

  /** The account `run` starts from: the user with the configured name, or a
      fresh `new User()` with that name and the administrator display name. */
  function Candidate(rows: seq<UserRecord>, username: string, now: Instant): (u: UserRecord)
    ensures u.username == username
    ensures ExistsByUsername(rows, username) ==> u in rows
    ensures !ExistsByUsername(rows, username) ==>
      u == UserRecord(0, username, None, AdminDisplayName, None, None, StatusNormal, now, None)
  {
    match FindByUsername(rows, username)
    case Some(u) => u
    case None => UserRecord(0, username, None, AdminDisplayName, None, None, StatusNormal, now, None)
  }

  /** Whether any of the three repairs applies to `u`. */
  predicate NeedsRepair(enc: PasswordEncoder, password: string, u: UserRecord)
  {
    RoleOf(u) != ADMIN || !IsEnabled(u) || !HashMatches(enc, password, u.passwordHash)
  }

  /** `u` with the repairs applied: role ADMIN if it was not, enabled if it was
      not, and a fresh hash of `password` if the stored one does not match. */
  function Repaired(enc: PasswordEncoder, password: string, u: UserRecord): (e: UserRecord)
    ensures RoleOf(e) == ADMIN && IsEnabled(e)
    ensures enc.matches(password, enc.encode(password)) ==> HashMatches(enc, password, e.passwordHash)
    ensures e.id == u.id && e.username == u.username && e.displayName == u.displayName
    ensures e.status == u.status && e.createdAt == u.createdAt && e.passwordChangedAt == u.passwordChangedAt
    ensures !NeedsRepair(enc, password, u) ==> e == u
  {
    u.(role := if RoleOf(u) != ADMIN then Some(ADMIN) else u.role,
       enabled := if !IsEnabled(u) then Some(true) else u.enabled,
       passwordHash := if !HashMatches(enc, password, u.passwordHash) then Some(enc.encode(password)) else u.passwordHash)
  }

  /** `run()` at time `now`: the repaired candidate is saved iff a repair applied. */
  function RunSpec(rows: seq<UserRecord>, nextId: int, enc: PasswordEncoder, username: string, password: string,
                   now: Instant): (s: Step<UserRecord>)
    requires UsersValid(rows, nextId)
    ensures UsersValid(s.rows, s.nextId)
    ensures s.outcome.Fail? ==> s.rows == rows && s.nextId == nextId
  {
    var u := Candidate(rows, username, now);
    if !NeedsRepair(enc, password, u) then Step(rows, nextId, Pass)
    else
      assert u in rows ==> u.id >= 1;
      var saved := SaveUser(rows, nextId, Repaired(enc, password, u));
      Step(saved.rows, saved.nextId, Discard(saved.result))
  }

  /** Nothing is written when the account needs no repair; when it does and
      the encoder accepts its own hashes, a successful run changes the table. */
  lemma RunSavesOnlyRepairs(rows: seq<UserRecord>, nextId: int, enc: PasswordEncoder, username: string, password: string,
                            now: Instant)
    requires UsersValid(rows, nextId)
    ensures var s := RunSpec(rows, nextId, enc, username, password, now);
      var u := Candidate(rows, username, now);
      && (!NeedsRepair(enc, password, u) ==> s == Step(rows, nextId, Pass))
      && (enc.matches(password, enc.encode(password)) && NeedsRepair(enc, password, u) && s.outcome.Pass? ==> s.rows != rows)
  {
    var u := Candidate(rows, username, now);
    var s := RunSpec(rows, nextId, enc, username, password, now);
    if enc.matches(password, enc.encode(password)) && NeedsRepair(enc, password, u) && s.outcome.Pass? {
      var e := Repaired(enc, password, u);
      assert e != u;
      if u in rows {
        SaveStoredUser(rows, nextId, u, e);
        var k :| 0 <= k < |rows| && rows[k] == u;
        assert s.rows[k] == e;
      } else {
        assert |s.rows| == |rows| + 1;
      }
    }
  }

  /** With no account of that name, the administrator is created under the
      next id: role ADMIN, the administrator display name, status normal, a
      hash of the configured password, and a null `enabled`, which reads as
      enabled and so is left alone. */
  lemma RunCreatesAdmin(rows: seq<UserRecord>, nextId: int, enc: PasswordEncoder, username: string, password: string,
                        now: Instant)
    requires UsersValid(rows, nextId) && !ExistsByUsername(rows, username) && |username| <= UsernameLength
    ensures var e := UserRecord(nextId, username, Some(enc.encode(password)), AdminDisplayName, Some(ADMIN), None,
                                StatusNormal, now, None);
      RunSpec(rows, nextId, enc, username, password, now) == Step(rows + [e], nextId + 1, Pass)
  {
    var u := Candidate(rows, username, now);
    assert !HashMatches(enc, password, u.passwordHash);
    var e := Repaired(enc, password, u);
    assert UserStorable(e);
    assert !UsernameTaken(rows, e);
  }

  /** After a successful run, the account of that name is an enabled
      administrator that accepts the configured password, and its status and
      display name are those it had before: a banned administrator stays banned. */
  lemma RunRepairsAdmin(rows: seq<UserRecord>, nextId: int, enc: PasswordEncoder, username: string, password: string,
                        now: Instant)
    requires UsersValid(rows, nextId)
    requires enc.matches(password, enc.encode(password))
    ensures var s := RunSpec(rows, nextId, enc, username, password, now);
      var before := Candidate(rows, username, now);
      s.outcome.Pass? ==>
        && ExistsByUsername(s.rows, username)
        && var a := FindByUsername(s.rows, username).value;
        && RoleOf(a) == ADMIN && IsEnabled(a) && HashMatches(enc, password, a.passwordHash)
        && a.status == before.status && a.displayName == before.displayName
  {
    var u := Candidate(rows, username, now);
    var s := RunSpec(rows, nextId, enc, username, password, now);
    var e := Repaired(enc, password, u);
    if s.outcome.Pass? {
      if !NeedsRepair(enc, password, u) {
        assert u in rows || !HashMatches(enc, password, u.passwordHash);
        FindByUsernameUnique(rows, nextId, u);
      } else if u in rows {
        SaveStoredUser(rows, nextId, u, e);
        FindByUsernameUnique(s.rows, s.nextId, e);
      } else {
        assert s.rows == rows + [e.(id := nextId)];
        assert s.rows[|rows|] in s.rows;
        FindByUsernameUnique(s.rows, s.nextId, e.(id := nextId));
      }
    }
  }

  /** A second run straight after a successful first one saves nothing. */
  lemma RunIdempotent(rows: seq<UserRecord>, nextId: int, enc: PasswordEncoder, username: string, password: string,
                      now: Instant, later: Instant)
    requires UsersValid(rows, nextId)
    requires enc.matches(password, enc.encode(password))
    ensures var s := RunSpec(rows, nextId, enc, username, password, now);
      s.outcome.Pass? ==> RunSpec(s.rows, s.nextId, enc, username, password, later) == Step(s.rows, s.nextId, Pass)
  {
    var s := RunSpec(rows, nextId, enc, username, password, now);
    if s.outcome.Pass? {
      RunRepairsAdmin(rows, nextId, enc, username, password, now);
      assert !NeedsRepair(enc, password, Candidate(s.rows, username, later));
    }
  }

  class AdminInitializer {
    const users: UserRepository
    const enc: PasswordEncoder
    /** `app.bootstrap.admin.username` and `app.bootstrap.admin.password`. */
    const adminUsername: string
    const adminPassword: string

    constructor (users: UserRepository, enc: PasswordEncoder, adminUsername: string, adminPassword: string)
      ensures this.users == users && this.enc == enc
      ensures this.adminUsername == adminUsername && this.adminPassword == adminPassword
    {
      this.users := users;
      this.enc := enc;
      this.adminUsername := adminUsername;
      this.adminPassword := adminPassword;
    }

    /** `run(args)` at time `now`. */
    method Run(now: Instant) returns (o: Outcome)
      requires users.Valid()
      modifies users
      ensures users.Valid()
      ensures Step(users.rows, users.nextId, o) == RunSpec(old(users.rows), old(users.nextId), enc, adminUsername, adminPassword, now)
    {
      var found := FindByUsername(users.rows, adminUsername);
      var admin: User;
      if found.Some? {
        StoredIdIssued(users.rows, UserIdOf, users.nextId, found.value);
        admin := new User.Load(found.value);
      } else {
        admin := new User(now);
        admin.SetUsername(adminUsername);
        admin.SetDisplayName(AdminDisplayName);
      }
      ghost var start := admin.Record();
      assert start == Candidate(users.rows, adminUsername, now);

      var changed := false;
      if RoleOf(admin.Record()) != ADMIN {
        admin.SetRole(Some(ADMIN));
        changed := true;
      }
      if !IsEnabled(admin.Record()) {
        admin.SetEnabled(true);
        changed := true;
      }
      if !HashMatches(enc, adminPassword, admin.passwordHash) {
        admin.SetPasswordHash(enc.encode(adminPassword));
        changed := true;
      }
      assert admin.Record() == Repaired(enc, adminPassword, start);
      assert changed <==> NeedsRepair(enc, adminPassword, start);

      if changed {
        var r := users.Save(admin);
        o := Discard(r);
      } else {
        o := Pass;
      }
    }
  }
}
