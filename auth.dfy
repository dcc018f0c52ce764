/** The credential service of `server/src/controllers/authController.js`:
    registration, login, token issue and the caller lookup behind `getMe`.
    JWT signing is foreign: a token is modelled by the claims it carries
    (the account id and the issue and expiry times), its signature left out. */
module Auth {
  import opened Common
  import opened Identity
  import opened Store

  /** `expiresIn: '30d'`, in seconds. */
  const TokenLifetime: int := 30 * 24 * 60 * 60

  datatype Token = Token(subject: Id, issuedAt: Time, expiresAt: Time)

  /** What verifying a token at time `at` yields: the bound account id while
      the token has not expired (a JWT is refused at or after its `exp`,
      section 4.1.4 of RFC 7519). */
  function TokenSubject(t: Token, at: Time): Option<Id>
  {
    if at < t.expiresAt then Some(t.subject) else None
  }

  /** `generateToken(id)` called at time `now`. */
  function GenerateToken(id: Id, now: Time): (t: Token)
    ensures t.subject == id
    ensures forall at :: TokenSubject(t, at) == Some(id) <==> at < now + TokenLifetime
    ensures forall at :: TokenSubject(t, at).None? <==> now + TokenLifetime <= at
  {
    Token(id, now, now + TokenLifetime)
  }

  datatype AuthError = MissingFields | UserExists | InvalidCredentials
  {
    function Message(): string
    {
      match this
      case MissingFields => "Please add all fields"
      case UserExists => "User already exists"
      case InvalidCredentials => "Invalid credentials"
    }
  }

  /** The body of `POST /api/auth/register`. */
  datatype RegisterRequest = RegisterRequest(
    username: Option<string>,
    fullName: Option<string>,
    email: Option<string>,
    password: Option<string>,
    role: Option<Role>)

  predicate AllFieldsGiven(req: RegisterRequest)
  {
    Truthy(req.username) && Truthy(req.email) && Truthy(req.password) && Truthy(req.fullName)
  }

  /** The reply of a successful registration. */
  datatype RegisterReply = RegisterReply(id: Id, username: string, email: string, role: Role, token: Token)

  /** The user store and identifier counter after a registration, with its reply. */
  datatype Registration = Registration(users: seq<User>, nextId: nat, reply: Result<RegisterReply, AuthError>)

  /** `registerUser` against the user store `users`, at time `now`. */
  function Register(users: seq<User>, nextId: nat, req: RegisterRequest, now: Time): (r: Registration)
    ensures r.reply.Ok? <==>
      AllFieldsGiven(req) && forall j :: 0 <= j < |users| ==> users[j].email != req.email.value
    ensures r.reply.Err? ==> r.users == users && r.nextId == nextId
    ensures r.reply.Err? && !AllFieldsGiven(req) ==> r.reply.error.Message() == "Please add all fields"
    ensures r.reply.Err? && AllFieldsGiven(req) ==> r.reply.error.Message() == "User already exists"
    ensures r.reply.Ok? ==>
      && |r.users| == |users| + 1 && r.users[..|users|] == users && r.nextId == nextId + 1
      && var u := r.users[|users|];
         && u.id == nextId && u.username == req.username.value && u.fullName == req.fullName.value
         && u.email == req.email.value && u.password == Hash(req.password.value)
         && u.role == (if req.role.Some? then req.role.value else Citizen)
         && r.reply.value == RegisterReply(u.id, u.username, u.email, u.role, GenerateToken(u.id, now))
  {
    if !AllFieldsGiven(req) then Registration(users, nextId, Err(MissingFields))
    else if FindByEmail(users, req.email.value).Some? then Registration(users, nextId, Err(UserExists))
    else
      var role := if req.role.Some? then req.role.value else Citizen;
      var u := User(nextId, req.username.value, req.fullName.value, req.email.value, Hash(req.password.value), role);
      assert (users + [u])[..|users|] == users;
      Registration(users + [u], nextId + 1,
        Ok(RegisterReply(u.id, u.username, u.email, u.role, GenerateToken(u.id, now))))
  }

  /** Registration keeps identifiers unique and e-mails unique. */
  lemma RegisterKeepsInvariant(users: seq<User>, vs: seq<ViolationSchema.Violation>, nextId: nat,
                               req: RegisterRequest, now: Time)
    requires StoreInvariant(users, vs, nextId)
    ensures var r := Register(users, nextId, req, now); StoreInvariant(r.users, vs, r.nextId)
  {
    var r := Register(users, nextId, req, now);
    if r.reply.Ok? {
      assert r.users == users + [r.users[|users|]];
    }
  }

  /** `registerUser` on the database: the user store changes as `Register`
      says and nothing else does. */
  method RegisterUser(db: Db, req: RegisterRequest, now: Time) returns (reply: Result<RegisterReply, AuthError>)
    requires db.Valid()
    modifies db
    ensures db.Valid()
    ensures var r := Register(old(db.users), old(db.nextId), req, now);
      db.users == r.users && db.nextId == r.nextId && reply == r.reply
    ensures db.violations == old(db.violations)
    ensures db.types == old(db.types) && db.areas == old(db.areas)
  {
    RegisterKeepsInvariant(db.users, db.violations, db.nextId, req, now);
    if !Truthy(req.username) || !Truthy(req.email) || !Truthy(req.password) || !Truthy(req.fullName) {
      return Err(MissingFields);
    }
    var existing := FindByEmail(db.users, req.email.value);
    if existing.Some? {
      return Err(UserExists);
    }
    var role := if req.role.Some? then req.role.value else Citizen;
    var user := User(db.nextId, req.username.value, req.fullName.value, req.email.value,
                     Hash(req.password.value), role);
    db.users := db.users + [user];
    db.nextId := db.nextId + 1;
    reply := Ok(RegisterReply(user.id, user.username, user.email, user.role, GenerateToken(user.id, now)));
  }

  /** The reply of a successful login. */
  datatype Session = Session(id: Id, username: string, fullName: string, email: string, role: Role, token: Token)

  /** `loginUser`: the first account with that exact e-mail, if the password
      matches its digest; one failure for every other case. */
  function Login(users: seq<User>, email: string, password: string, now: Time): (r: Result<Session, AuthError>)
    ensures r.Err? ==> r.error == InvalidCredentials && r.error.Message() == "Invalid credentials"
    ensures r.Ok? ==>
      exists i :: (0 <= i < |users| && users[i].email == email && Matches(password, users[i].password)
                   && r.value == Session(users[i].id, users[i].username, users[i].fullName, email,
                                         users[i].role, GenerateToken(users[i].id, now)))
  {
    match FindByEmail(users, email)
    case Some(i) =>
      if Matches(password, users[i].password) then
        var u := users[i];
        Ok(Session(u.id, u.username, u.fullName, u.email, u.role, GenerateToken(u.id, now)))
      else Err(InvalidCredentials)
    case None => Err(InvalidCredentials)
  }

  /** With unique e-mails, login succeeds exactly when some account has that
      e-mail and the password matches it, and then it is that account's session. */
  lemma LoginSucceedsIff(users: seq<User>, email: string, password: string, now: Time, i: nat)
    requires UniqueEmails(users) && i < |users| && users[i].email == email
    ensures Login(users, email, password, now).Ok? <==> Matches(password, users[i].password)
    ensures Login(users, email, password, now).Ok? ==> Login(users, email, password, now).value.id == users[i].id
  {
  }

  /** An unknown e-mail and a wrong password give the same reply. */
  lemma LoginFailureIsUniform(users: seq<User>, unknown: string, known: string, p1: string, p2: string, now: Time, i: nat)
    requires UniqueEmails(users)
    requires forall j :: 0 <= j < |users| ==> users[j].email != unknown
    requires i < |users| && users[i].email == known && !Matches(p2, users[i].password)
    ensures Login(users, unknown, p1, now) == Login(users, known, p2, now) == Err(InvalidCredentials)
  {
    LoginSucceedsIff(users, known, p2, now, i);
  }

  /** A freshly registered account can log in with the password it gave, and
      the session is that account's. */
  lemma {:induction false} RegisterThenLogin(users: seq<User>, nextId: nat, req: RegisterRequest, now: Time, later: Time)
    requires Register(users, nextId, req, now).reply.Ok?
    ensures var r := Register(users, nextId, req, now);
      var s := Login(r.users, req.email.value, req.password.value, later);
      s.Ok? && s.value.id == r.reply.value.id && s.value.role == r.reply.value.role
  {
    var r := Register(users, nextId, req, now);
    var u := r.users[|users|];
    assert r.users == users + [u];
    FindByEmailAppend(users, u, req.email.value);
  }

  /** The caller the authentication middleware attaches for a bearer token:
      the account bound by an unexpired token. The middleware itself is not
      part of this model; this is the reading it is given here. */
  function Authenticate(users: seq<User>, token: Option<Token>, now: Time): (r: Option<User>)
    ensures r.Some? ==> (token.Some? && now < token.value.expiresAt
      && r.value.id == token.value.subject && r.value in users)
  {
    if token.None? then None
    else match TokenSubject(token.value, now)
      case None => None
      case Some(id) =>
        match FindById(users, id)
        case None => None
        case Some(i) => Some(users[i])
  }

  /** `getMe`: the account attached to the request. */
  function GetMe(users: seq<User>, token: Option<Token>, now: Time): Option<User>
  {
    Authenticate(users, token, now)
  }

  /** The token a login returns identifies the same account to `getMe` for
      thirty days, and to nobody after that. */
  lemma LoginThenGetMe(users: seq<User>, bound: nat, email: string, password: string, now: Time, later: Time)
    requires IdsBelow(users, bound)
    requires Login(users, email, password, now).Ok?
    ensures var s := Login(users, email, password, now).value;
      var me := GetMe(users, Some(s.token), later);
      (later < now + TokenLifetime ==> me.Some? && me.value.email == email && me.value.id == s.id)
      && (now + TokenLifetime <= later ==> me.None?)
  {
    var s := Login(users, email, password, now).value;
    var i :| 0 <= i < |users| && users[i].email == email && s.id == users[i].id;
    FindByIdUnique(users, bound, i);
  }
}
