/** What the REST controllers share: the `mustAuth` guard that turns the
    request's authentication into its principal or a 401, and the author
    lookup behind every guide they render. */
module WebApi {
  import opened Outcomes
  import opened JavaText
  import opened UserEntity
  import opened UserTable
  import opened GuideEntity
  import opened AuthFilter

  const LoginRequiredMessage: string := "请先登录"

  /** `mustAuth(auth)`: the principal of an authenticated request; an
      anonymous request is refused with 401 before the handler does anything. */
  function MustAuth(auth: Option<Authentication>): (r: Result<AuthUser>)
    ensures r.Ok? <==> auth.Some?
    ensures r.Ok? ==> r.value == auth.value.principal
    ensures r.Err? ==> r.error == ApiException(Unauthorized, LoginRequiredMessage) && StatusOf(r.error) == Unauthorized
  {
    match auth
    case None => Err(ApiException(Unauthorized, LoginRequiredMessage))
    case Some(a) => Ok(a.principal)
  }

  /** `@NotBlank` on a request field: present, and not empty once trimmed. */
  predicate NotBlank(s: Option<string>)
  {
    s.Some? && Trim(s.value) != []
  }

  /** The foreign key `guides.author_id -> users.id`: every guide's author is a
      row of `users`. Accounts are never removed, only deactivated. */
  predicate AuthorsExist(guides: seq<GuideRecord>, users: seq<UserRecord>)
  {
    forall g :: g in guides ==> ExistsUserById(users, g.authorId)
  }

  /** `g.getAuthor()` */
  function AuthorOf(users: seq<UserRecord>, g: GuideRecord): (u: UserRecord)
    requires ExistsUserById(users, g.authorId)
    ensures u in users && u.id == g.authorId
  {
    FindUserById(users, g.authorId).value
  }

  /** Ids are unique, so the author found is the one user with that id. */
  lemma AuthorIsTheUserWithThatId(users: seq<UserRecord>, nextId: int, g: GuideRecord, u: UserRecord)
    requires UsersValid(users, nextId) && u in users && u.id == g.authorId
    ensures ExistsUserById(users, g.authorId) && AuthorOf(users, g) == u
  {
    var j :| 0 <= j < |users| && users[j] == u;
    assert UserIdOf(users[j]) == g.authorId;
    var a := AuthorOf(users, g);
    var i :| 0 <= i < |users| && users[i] == a;
    assert UserIdOf(users[i]) == UserIdOf(users[j]);
  }
}
