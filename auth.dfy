/**
 * Account rules: registration with a unique email and a hashed password,
 * login that does not reveal which half of the credentials was wrong, and
 * reading a user by id. Password hashing and comparison are the bcrypt
 * library's; they are parameters here.
 */
module Auth {
  import opened Wrappers
  import opened Errors
  import opened Database

  datatype RegisterRequest = RegisterRequest(email: string, name: string, password: string)

  datatype LoginRequest = LoginRequest(email: string, password: string)

  /** The columns `register` and `getUserById` select: everything but the password. */
  datatype PublicUser = PublicUser(id: string, email: string, name: string, role: UserRole, createdAt: int)

  /** The object `login` returns. */
  datatype LoginUser = LoginUser(id: string, email: string, name: string, role: UserRole)

  function Public(u: User): (p: PublicUser)
    ensures p.id == u.id && p.email == u.email && p.name == u.name && p.role == u.role && p.createdAt == u.createdAt
  {
    PublicUser(u.id, u.email, u.name, u.role, u.createdAt)
  }

  /** The row `register` inserts: role MEMBER, and the hash of the password in place of the password. */
  function NewUser(id: string, data: RegisterRequest, hash: string -> string, now: int): (u: User)
    ensures u.id == id && u.email == data.email && u.name == data.name && u.createdAt == now
    ensures u.role == UserMember
    ensures u.password == hash(data.password)
  {
    User(id, data.email, data.name, hash(data.password), UserMember, now)
  }

  /**
   * `register(data)`: EMAIL_EXISTS when the email is taken, with nothing
   * written; otherwise one user row with role MEMBER and the hashed password.
   * The id is the one the database generates; a colliding id fails as an
   * unexpected error.
   */
  method Register(db: Database, data: RegisterRequest, hash: string -> string, userId: string, now: int)
    returns (r: Result<PublicUser>)
    requires db.Valid()
    modifies db
    ensures db.Valid()
    ensures (exists u :: u in old(db.users) && u.email == data.email) <==> r == Err(Api(EmailExists))
    ensures r.Err? ==> unchanged(db)
    ensures (forall u :: u in old(db.users) ==> u.email != data.email) && userId in UserIds(old(db.users)) ==>
              r.Err? && r.failure.Unexpected?
    ensures (forall u :: u in old(db.users) ==> u.email != data.email) && userId !in UserIds(old(db.users)) <==> r.Ok?
    ensures r.Ok? ==>
              && db.users == old(db.users) + [NewUser(userId, data, hash, now)]
              && r.value == Public(NewUser(userId, data, hash, now))
              && db.teams == old(db.teams) && db.members == old(db.members)
              && db.tasks == old(db.tasks) && db.activities == old(db.activities)
  {
    if FindUserByEmail(db.users, data.email).Some? {
      return Err(Api(EmailExists));
    }
    if FindUser(db.users, userId).Some? {
      return Err(Unexpected("unique constraint violated on user id"));
    }
    var user := NewUser(userId, data, hash, now);
    DistinctAppend(db.users, user, (u: User) => u.id);
    DistinctAppend(db.users, user, (u: User) => u.email);
    db.users := db.users + [user];
    assert UserIds(db.users) == UserIds(old(db.users)) + {userId};
    r := Ok(Public(user));
  }

  /**
   * `login(data)`: INVALID_CREDENTIALS both for an unknown email and for a
   * password that does not match the stored hash; otherwise id, email, name
   * and role.
   */
  function Login(users: seq<User>, data: LoginRequest, compare: (string, string) -> bool): (r: Result<LoginUser>)
    ensures FindUserByEmail(users, data.email).None? ==> r == Err(Api(InvalidCredentials))
    ensures var u := FindUserByEmail(users, data.email);
      u.Some? && !compare(data.password, u.value.password) ==> r == Err(Api(InvalidCredentials))
    ensures r.Err? ==> r == Err(Api(InvalidCredentials))
    ensures var u := FindUserByEmail(users, data.email);
      r.Ok? <==> u.Some? && compare(data.password, u.value.password)
    ensures r.Ok? ==> exists u :: u in users && u.email == data.email && compare(data.password, u.password)
                               && r.value == LoginUser(u.id, u.email, u.name, u.role)
  {
    match FindUserByEmail(users, data.email)
    case None => Err(Api(InvalidCredentials))
    case Some(u) =>
      if !compare(data.password, u.password) then Err(Api(InvalidCredentials))
      else Ok(LoginUser(u.id, u.email, u.name, u.role))
  }

  /**
   * Whatever went wrong, a failed login gets the same reply, so the reply does
   * not tell whether the email is registered.
   */
  lemma LoginFailuresLookAlike(users1: seq<User>, d1: LoginRequest, users2: seq<User>, d2: LoginRequest,
                               compare: (string, string) -> bool)
    requires Login(users1, d1, compare).Err? && Login(users2, d2, compare).Err?
    ensures HandleError(Login(users1, d1, compare).failure) == HandleError(Login(users2, d2, compare).failure)
    ensures HandleError(Login(users1, d1, compare).failure).statusCode == 401
  {
  }

  /**
   * Registering and then logging in with the same password succeeds, provided
   * the comparison accepts a password against its own hash.
   */
  lemma LoginAfterRegister(users: seq<User>, id: string, data: RegisterRequest, hash: string -> string, now: int,
                           compare: (string, string) -> bool)
    requires forall u :: u in users ==> u.email != data.email
    requires compare(data.password, hash(data.password))
    ensures Login(users + [NewUser(id, data, hash, now)], LoginRequest(data.email, data.password), compare)
            == Ok(LoginUser(id, data.email, data.name, UserMember))
  {
    var u := NewUser(id, data, hash, now);
    var found := FindUserByEmail(users + [u], data.email);
    assert u in users + [u];
    assert found == Some(u);
  }

  /** `getUserById(userId)`: USER_NOT_FOUND for an absent id; otherwise the user without the password. */
  function UserById(users: seq<User>, userId: string): (r: Result<PublicUser>)
    ensures userId !in UserIds(users) <==> r == Err(Api(UserNotFound))
    ensures r.Ok? <==> userId in UserIds(users)
    ensures r.Ok? ==> r.value.id == userId && exists u :: u in users && r.value == Public(u)
  {
    match FindUser(users, userId)
    case None => Err(Api(UserNotFound))
    case Some(u) => Ok(Public(u))
  }

  /** The user `register` returns is the user `getUserById` then finds. */
  lemma ReadAfterRegister(users: seq<User>, id: string, data: RegisterRequest, hash: string -> string, now: int)
    requires id !in UserIds(users)
    ensures UserById(users + [NewUser(id, data, hash, now)], id) == Ok(Public(NewUser(id, data, hash, now)))
  {
    var u := NewUser(id, data, hash, now);
    var found := FindUser(users + [u], id);
    assert u in users + [u];
    assert found == Some(u);
  }
}
