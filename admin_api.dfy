/** AdminUserController: the administrator's view of all accounts and the
    endpoints that edit, ban, reset and logically delete them. The route
    rules already demand the authority `ROLE_ADMIN` for these paths;
    deletion also checks the caller's role as stored. */
module AdminApi {
  import opened Outcomes
  import opened SeqUtil
  import opened Tables
  import opened UserEntity
  import opened UserTable
  import opened Accounts
  import opened AuthFilter
  import opened WebApi

  const AdminOnlyDeleteMessage: string := "仅管理员可删除用户"

  /** `UserAdminResp`: the account as stored, with its role and enabled flag
      as read through the entity's getters, and its password hash. */
  datatype UserAdminView = UserAdminView(
    id: int,
    username: string,
    displayName: string,
    role: UserRole,
    enabled: bool,
    status: int,
    createdAt: Instant,
    passwordHash: Option<string>)

  function AdminViewOf(u: UserRecord): (v: UserAdminView)
    ensures v.id == u.id && v.username == u.username && v.displayName == u.displayName
    ensures v.status == u.status && v.createdAt == u.createdAt && v.passwordHash == u.passwordHash
    ensures u.role.None? ==> v.role == USER
    ensures u.role.Some? ==> v.role == u.role.value
    ensures v.enabled <==> u.enabled != Some(false)
  {
    UserAdminView(u.id, u.username, u.displayName, RoleOf(u), IsEnabled(u), u.status, u.createdAt, u.passwordHash)
  }

  /** The guard of `deleteUser`: 401 for an anonymous caller and for a caller
      whose account has no row, 403 unless the stored role is ADMIN. */
  function DeleteUserCheck(users: seq<UserRecord>, auth: Option<Authentication>): (o: Outcome)
    ensures auth.None? ==> o == Throw(Unauthorized, LoginRequiredMessage)
    ensures auth.Some? && !ExistsUserById(users, auth.value.principal.id) ==> o == Throw(Unauthorized, UserMissingMessage)
    ensures auth.Some? && ExistsUserById(users, auth.value.principal.id) ==>
      && (o.Pass? <==> RoleOf(FindUserById(users, auth.value.principal.id).value) == ADMIN)
      && (o.Fail? ==> o == Throw(Forbidden, AdminOnlyDeleteMessage))
  {
    match MustAuth(auth)
    case Err(e) => Fail(e)
    case Ok(p) =>
      match FindUserOrUnauthorized(users, p.id, UserMissingMessage)
      case Err(e) => Fail(e)
      case Ok(current) =>
        if RoleOf(current) != ADMIN then Throw(Forbidden, AdminOnlyDeleteMessage) else Pass
  }

  /** What decides is the role stored now, not the one in the token: a caller
      whose account is on file may delete exactly when that account is an
      administrator, whatever authorities the token carries. */
  lemma DeleteNeedsStoredAdmin(users: seq<UserRecord>, nextId: int, auth: Option<Authentication>, me: UserRecord)
    requires UsersValid(users, nextId) && auth.Some?
    requires me in users && me.id == auth.value.principal.id
    ensures DeleteUserCheck(users, auth).Pass? <==> RoleOf(me) == ADMIN
    ensures forall a :: DeleteUserCheck(users, auth) == DeleteUserCheck(users, Some(Authentication(auth.value.principal, a)))
  {
    FindUserByIdUnique(users, nextId, me);
  }

  /** An administrator demoted to USER after the token was issued is refused. */
  lemma DemotedAdminRefused(users: seq<UserRecord>, nextId: int, auth: Option<Authentication>, me: UserRecord)
    requires UsersValid(users, nextId) && auth.Some? && "ROLE_ADMIN" in auth.value.authorities
    requires me in users && me.id == auth.value.principal.id && me.role == Some(USER)
    ensures DeleteUserCheck(users, auth) == Throw(Forbidden, AdminOnlyDeleteMessage)
  {
    DeleteNeedsStoredAdmin(users, nextId, auth, me);
  }

  class AdminUserController {
    const userService: UserService

    constructor (userService: UserService)
      ensures this.userService == userService
    {
      this.userService := userService;
    }

    /** `list()`: every account, each once. */
    method List() returns (r: seq<UserAdminView>)
      ensures |r| == |userService.users.rows|
      ensures forall u :: u in userService.users.rows ==> AdminViewOf(u) in r
      ensures forall v :: v in r ==> exists u :: u in userService.users.rows && v == AdminViewOf(u)
    {
      var all := userService.FindAll();
      r := Map(all, AdminViewOf);
      forall u | u in userService.users.rows ensures AdminViewOf(u) in r {
        var i :| 0 <= i < |all| && all[i] == u;
        assert r[i] == AdminViewOf(u);
      }
      forall v | v in r ensures exists u :: u in userService.users.rows && v == AdminViewOf(u) {
        var i :| 0 <= i < |r| && r[i] == v;
        assert all[i] in all;
      }
    }

    /** `update(id, req)`: no validation, both values go to the service. */
    method Update(id: int, enabled: Option<bool>, role: Option<UserRole>) returns (o: Outcome)
      requires userService.Valid()
      modifies userService.users
      ensures userService.Valid()
      ensures Step(userService.users.rows, userService.users.nextId, o)
           == UpdateUserSpec(old(userService.users.rows), old(userService.users.nextId), id, enabled, role)
    {
      o := userService.UpdateUser(id, enabled, role);
    }

    /** `setStatus(id, req)`: no validation; a null status fails on unboxing
        before the service is reached. */
    method SetStatus(id: int, status: Option<int>) returns (o: Outcome)
      requires userService.Valid()
      modifies userService.users
      ensures userService.Valid()
      ensures status.None? ==> o == Fail(UncheckedException)
      ensures status.None? ==>
        userService.users.rows == old(userService.users.rows) && userService.users.nextId == old(userService.users.nextId)
      ensures status.Some? ==>
        Step(userService.users.rows, userService.users.nextId, o)
        == SetStatusSpec(old(userService.users.rows), old(userService.users.nextId), id, status.value)
    {
      if status.None? {
        return Fail(UncheckedException);
      }
      o := userService.SetStatus(id, status.value);
    }

    /** `resetPassword(id, req)`: no validation, the password goes to the service. */
    method ResetPassword(id: int, newPassword: Option<string>) returns (o: Outcome)
      requires userService.Valid()
      modifies userService.users
      ensures userService.Valid()
      ensures Step(userService.users.rows, userService.users.nextId, o)
           == ResetPasswordSpec(old(userService.users.rows), old(userService.users.nextId), userService.enc, id, newPassword)
    {
      o := userService.ResetPassword(id, newPassword);
    }

    /** `deleteUser(id, auth)`: the guard, then logical deletion. */
    method DeleteUser(id: int, auth: Option<Authentication>) returns (o: Outcome)
      requires userService.Valid()
      modifies userService.users
      ensures userService.Valid()
      ensures DeleteUserCheck(old(userService.users.rows), auth).Fail? ==>
        && o == DeleteUserCheck(old(userService.users.rows), auth)
        && userService.users.rows == old(userService.users.rows) && userService.users.nextId == old(userService.users.nextId)
      ensures DeleteUserCheck(old(userService.users.rows), auth).Pass? ==>
        Step(userService.users.rows, userService.users.nextId, o)
        == DeactivateUserSpec(old(userService.users.rows), old(userService.users.nextId), id)
    {
      var check := DeleteUserCheck(userService.users.rows, auth);
      if check.Fail? {
        return check;
      }
      o := userService.DeactivateUser(id);
    }
  }
}
