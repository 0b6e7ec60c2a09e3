/**
 * controllers/authController.js: registration and login. Password hashing,
 * hash comparison and token signing are the parameters `hash`, `compare`
 * and `sign`; the clock is the parameter `now`, in milliseconds.
 */
module AuthController {
  import opened Outcomes
  import opened Text
  import opened UserModel
  import opened Store

  /** The body of POST /register; an absent (null or undefined) field is None. */
  datatype Registration = Registration(
    name: Option<string>,
    email: Option<string>,
    password: Option<string>,
    gamertag: Option<string>,
    description: Option<string>,
    avatar: Option<string>,
    favoriteGames: Option<seq<string>>,
    platforms: Option<seq<string>>)

  /** The claims a token carries. */
  datatype Claims = Claims(userId: UserId, email: string, role: string)

  /** What `jwt.sign` signs: the claims plus the issue time and the expiry, in seconds. */
  datatype TokenPayload = TokenPayload(claims: Claims, issuedAt: int, expiresAt: int)

  /** `expiresIn: '7d'`, in seconds. */
  const TokenLifetime := 604800

  /** The payload signed at `now` milliseconds: `iat` is the current second. */
  function PayloadAt(c: Claims, now: int): (p: TokenPayload)
    ensures p.claims == c
    ensures p.issuedAt * 1000 <= now < p.issuedAt * 1000 + 1000
    ensures p.expiresAt - p.issuedAt == 7 * 24 * 60 * 60
  {
    TokenPayload(c, now / 1000, now / 1000 + TokenLifetime)
  }

  /** The user object of both replies: every profile field but the password. */
  datatype Summary = Summary(
    id: UserId,
    name: string,
    email: string,
    role: string,
    gamertag: string,
    description: string,
    avatar: string,
    favoriteGames: seq<string>,
    platforms: seq<string>,
    isActive: bool)

  /** A successful reply: its HTTP status, message, token and user summary. */
  datatype AuthReply = AuthReply(status: int, message: string, token: string, user: Summary)

  const FieldsRequired := "Name, email, and password are required."
  const EmailRegistered := "Email already registered"
  const RegistrationFailed := "Registration failed"
  const RegisteredMessage := "User registered successfully"
  const CredentialsRequired := "Email and password are required."
  const InvalidCredentials := "Invalid credentials"
  const LoginMessage := "Login successful"

  /** A string field is truthy: given and not empty. */
  predicate Present(x: Option<string>)
  {
    x.Some? && x.value != ""
  }

  /** `x || ''` on a string field. */
  function OrEmpty(x: Option<string>): (r: string)
    ensures Present(x) ==> r == x.value
    ensures !Present(x) ==> r == ""
  {
    if x.Some? then x.value else ""
  }

  /** `x || []` on a list field: a given list, even an empty one, is truthy. */
  function OrNone(x: Option<seq<string>>): seq<string>
  {
    if x.Some? then x.value else []
  }

  function SummaryOf(id: UserId, u: User): Summary
  {
    Summary(id, u.name, u.email, u.role, u.gamertag, u.description, u.avatar,
            u.favoriteGames, u.platforms, u.isActive)
  }

  function ClaimsOf(id: UserId, u: User): Claims
  {
    Claims(id, u.email, u.role)
  }

  /** `findOne({ email: e })` finds something. */
  predicate EmailTaken(users: map<UserId, User>, e: string)
  {
    exists id | id in users :: users[id].email == e
  }

  /**
   * The record `new User({...})` builds from a registration whose required
   * fields are present: the setters trim the name and store the email
   * lower-cased and trimmed; the password is the hash; the role and the
   * presence fields take their defaults.
   */
  function Candidate(input: Registration, hash: string -> string, now: int): (u: User)
    requires Present(input.name) && Present(input.email) && Present(input.password)
    ensures u.name == Trim(input.name.value) && u.email == StoredEmail(input.email.value)
    ensures u.password == hash(input.password.value)
    ensures u.role == DefaultRole && !u.isActive && u.activeGame == "" && u.activeGames == []
    ensures u.createdAt == now
  {
    StoredEmailOfLower(input.email.value);
    NewUser(input.name.value, ToLower(input.email.value), hash(input.password.value),
            OrEmpty(input.avatar), OrEmpty(input.gamertag), OrEmpty(input.description),
            OrNone(input.favoriteGames), OrNone(input.platforms), now)
  }

  /**
   * POST /register on the users collection: the reply and the new
   * collection. The duplicate query runs the email setters on its value,
   * so it looks for the lower-cased, trimmed email, exactly the email the
   * record would store; the save then fails, and the catch block answers
   * 500, only when the schema rejects the record.
   */
  function RegisterSpec(users: map<UserId, User>, freshId: UserId, input: Registration,
                        hash: string -> string, sign: TokenPayload -> string, now: int)
    : (r: (Result<AuthReply>, map<UserId, User>))
    ensures r.0.Err? ==> r.1 == users
    ensures r.0.Ok? ==> freshId in r.1 && r.0.value.status == 201
  {
    if !Present(input.name) || !Present(input.email) || !Present(input.password) then
      (Err(BadRequest(FieldsRequired)), users)
    else if EmailTaken(users, StoredEmail(ToLower(input.email.value))) then
      (Err(BadRequest(EmailRegistered)), users)
    else
      var u := Candidate(input, hash, now);
      if !SchemaValid(u) then
        (Err(ServerError(RegistrationFailed)), users)
      else
        (Ok(AuthReply(201, RegisteredMessage, sign(PayloadAt(ClaimsOf(freshId, u), now)), SummaryOf(freshId, u))),
         users[freshId := u])
  }

  /** `findOne({ email: e })`; with the unique index there is at most one match. */
  ghost function FindByEmail(users: map<UserId, User>, e: string): (r: Option<UserId>)
    ensures r.Some? ==> r.value in users && users[r.value].email == e
    ensures r.None? <==> !EmailTaken(users, e)
  {
    if EmailTaken(users, e) then
      var id :| id in users && users[id].email == e;
      Some(id)
    else
      None
  }

  /** POST /login on the users collection at `now`; the query runs the email setters too. */
  ghost function LoginSpec(users: map<UserId, User>, email: Option<string>, password: Option<string>,
                           compare: (string, string) -> bool, sign: TokenPayload -> string, now: int)
    : (r: Result<AuthReply>)
    ensures r == Err(BadRequest(CredentialsRequired)) <==> !Present(email) || !Present(password)
    ensures r.Ok? ==> r.value.status == 200 && r.value.message == LoginMessage
  {
    if !Present(email) || !Present(password) then
      Err(BadRequest(CredentialsRequired))
    else
      match FindByEmail(users, StoredEmail(ToLower(email.value)))
      case None => Err(BadRequest(InvalidCredentials))
      case Some(id) =>
        if !compare(password.value, users[id].password) then Err(BadRequest(InvalidCredentials))
        else Ok(AuthReply(200, LoginMessage, sign(PayloadAt(ClaimsOf(id, users[id]), now)), SummaryOf(id, users[id])))
  }

  /** With unique emails the user found is the one holding the email. */
  lemma FindByEmailUnique(users: map<UserId, User>, e: string, id: UserId)
    requires EmailsUnique(users) && id in users && users[id].email == e
    ensures FindByEmail(users, e) == Some(id)
  {
  }

  /** POST /register. */
  method Register(db: Db, input: Registration, hash: string -> string, sign: TokenPayload -> string, now: int)
    returns (r: Result<AuthReply>)
    requires db.Valid()
    modifies db
    ensures db.Valid() && db.chats == old(db.chats)
    ensures (r, db.users) == RegisterSpec(old(db.users), old(db.nextId), input, hash, sign, now)
    ensures db.nextId == if r.Ok? then old(db.nextId) + 1 else old(db.nextId)
  {
    ghost var spec := RegisterSpec(db.users, db.nextId, input, hash, sign, now);
    RegisterKeepsCoherent(db.users, db.nextId, input, hash, sign, now);
    if !Present(input.name) || !Present(input.email) || !Present(input.password) {
      return Err(BadRequest(FieldsRequired));
    }
    var emailLower := ToLower(input.email.value);
    var query := StoredEmail(emailLower);
    if exists id | id in db.users :: db.users[id].email == query {
      return Err(BadRequest(EmailRegistered));
    }
    var user := Candidate(input, hash, now);
    if !SchemaValid(user) {
      assert spec.0.Err?;
      return Err(ServerError(RegistrationFailed));
    }
    var id := db.nextId;
    assert spec == (Ok(AuthReply(201, RegisteredMessage, sign(PayloadAt(ClaimsOf(id, user), now)), SummaryOf(id, user))),
                    db.users[id := user]);
    db.users := db.users[id := user];
    db.nextId := db.nextId + 1;
    var token := sign(PayloadAt(Claims(id, user.email, user.role), now));
    r := Ok(AuthReply(201, RegisteredMessage, token, SummaryOf(id, user)));
  }

  /** POST /login; it changes nothing. */
  method Login(db: Db, email: Option<string>, password: Option<string>,
               compare: (string, string) -> bool, sign: TokenPayload -> string, now: int)
    returns (r: Result<AuthReply>)
    requires db.Valid()
    ensures r == LoginSpec(db.users, email, password, compare, sign, now)
  {
    if !Present(email) || !Present(password) {
      return Err(BadRequest(CredentialsRequired));
    }
    var e := StoredEmail(ToLower(email.value));
    if !exists id | id in db.users :: db.users[id].email == e {
      return Err(BadRequest(InvalidCredentials));
    }
    var id :| id in db.users && db.users[id].email == e;
    FindByEmailUnique(db.users, e, id);
    var user := db.users[id];
    if !compare(password.value, user.password) {
      return Err(BadRequest(InvalidCredentials));
    }
    var token := sign(PayloadAt(Claims(id, user.email, user.role), now));
    r := Ok(AuthReply(200, LoginMessage, token, SummaryOf(id, user)));
  }

  // ----------------------------------------------------------------- lemmas

  /** A registration keeps the users coherent, with the fresh id now taken. */
  lemma RegisterKeepsCoherent(users: map<UserId, User>, nextId: nat, input: Registration,
                              hash: string -> string, sign: TokenPayload -> string, now: int)
    requires UsersCoherent(users, nextId)
    ensures var (r, users') := RegisterSpec(users, nextId, input, hash, sign, now);
            UsersCoherent(users', if r.Ok? then nextId + 1 else nextId)
  {
    var (r, users') := RegisterSpec(users, nextId, input, hash, sign, now);
    if r.Ok? {
      var u := Candidate(input, hash, now);
      assert users' == users[nextId := u];
      assert Stored(u);
      forall a, b | a in users' && b in users' && users'[a].email == users'[b].email
        ensures a == b
      {
        if a != nextId && b != nextId {
          assert users'[a] == users[a] && users'[b] == users[b];
        }
      }
      forall x | x in users' ensures x < nextId + 1 && Stored(users'[x]) {
        if x != nextId { assert users'[x] == users[x] && Stored(users[x]); }
      }
    }
  }

  /**
   * Which reply a registration gets: 400 exactly when a required field is
   * missing or empty, 400 again exactly when the email's stored form is
   * already taken, 500 exactly when otherwise the schema rejects the new
   * record, and on success a new inactive 'user' whose password is the
   * hash, whose email is stored lower-cased and trimmed, and whose token
   * and summary describe it.
   */
  lemma RegisterOutcomes(users: map<UserId, User>, freshId: UserId, input: Registration,
                         hash: string -> string, sign: TokenPayload -> string, now: int)
    requires freshId !in users
    ensures var (r, users') := RegisterSpec(users, freshId, input, hash, sign, now);
            && (r == Err(BadRequest(FieldsRequired)) <==>
                  !Present(input.name) || !Present(input.email) || !Present(input.password))
            && (r == Err(BadRequest(EmailRegistered)) <==>
                  && Present(input.name) && Present(input.email) && Present(input.password)
                  && EmailTaken(users, StoredEmail(input.email.value)))
            && (r == Err(ServerError(RegistrationFailed)) <==>
                  && Present(input.name) && Present(input.email) && Present(input.password)
                  && !EmailTaken(users, StoredEmail(input.email.value))
                  && !SchemaValid(Candidate(input, hash, now)))
            && (r.Ok? <==>
                  && Present(input.name) && Present(input.email) && Present(input.password)
                  && !EmailTaken(users, StoredEmail(input.email.value))
                  && SchemaValid(Candidate(input, hash, now)))
            && (r.Ok? ==>
                  && Present(input.name) && Present(input.email) && Present(input.password)
                  && freshId in users' && |users'| == |users| + 1
                  && (forall id | id in users && id != freshId :: id in users' && users'[id] == users[id])
                  && (forall id | id in users' :: id == freshId || id in users)
                  && var u := users'[freshId];
                  && u.name == Trim(input.name.value)
                  && u.email == StoredEmail(input.email.value)
                  && u.password == hash(input.password.value)
                  && !u.isActive && u.activeGames == [] && u.role == DefaultRole && u.createdAt == now
                  && Stored(u)
                  && r.value.token == sign(PayloadAt(Claims(freshId, u.email, DefaultRole), now))
                  && r.value.user == SummaryOf(freshId, u))
  {
    if Present(input.name) && Present(input.email) && Present(input.password) {
      StoredEmailOfLower(input.email.value);
    }
  }

  /**
   * The optional fields of a new user: a truthy value is kept, anything
   * else becomes '' for the strings and [] for the lists; the presence
   * fields take their schema defaults.
   */
  lemma RegisterDefaults(users: map<UserId, User>, freshId: UserId, input: Registration,
                         hash: string -> string, sign: TokenPayload -> string, now: int)
    requires RegisterSpec(users, freshId, input, hash, sign, now).0.Ok?
    ensures var u := RegisterSpec(users, freshId, input, hash, sign, now).1[freshId];
            && (Present(input.gamertag) ==> u.gamertag == input.gamertag.value)
            && (!Present(input.gamertag) ==> u.gamertag == "")
            && (Present(input.description) ==> u.description == input.description.value)
            && (!Present(input.description) ==> u.description == "")
            && (Present(input.avatar) ==> u.avatar == input.avatar.value)
            && (!Present(input.avatar) ==> u.avatar == "")
            && (input.favoriteGames.Some? ==> u.favoriteGames == input.favoriteGames.value)
            && (input.favoriteGames.None? ==> u.favoriteGames == [])
            && (input.platforms.Some? ==> u.platforms == input.platforms.value)
            && (input.platforms.None? ==> u.platforms == [])
            && !u.isActive && u.activeGame == "" && u.activeGames == []
  {
  }

  /**
   * The duplicate check ignores case: once an email is stored, registering
   * any spelling that lower-cases to it is refused with 400.
   */
  lemma RegisterRefusesCaseVariant(users: map<UserId, User>, nextId: nat, input: Registration,
                                   hash: string -> string, sign: TokenPayload -> string, now: int, id: UserId)
    requires UsersCoherent(users, nextId) && id in users
    requires Present(input.name) && Present(input.email) && Present(input.password)
    requires ToLower(input.email.value) == users[id].email
    ensures RegisterSpec(users, nextId, input, hash, sign, now).0 == Err(BadRequest(EmailRegistered))
  {
    var e := users[id].email;
    assert Stored(users[id]);
    ToLowerOfLower(e);
    TrimOfTrimmed(e);
  }

  /**
   * The duplicate check ignores surrounding whitespace too: a stored email
   * with a leading space added is refused with 400.
   */
  lemma RegisterRefusesPaddedVariant(users: map<UserId, User>, nextId: nat, input: Registration,
                                     hash: string -> string, sign: TokenPayload -> string, now: int, id: UserId)
    requires UsersCoherent(users, nextId) && id in users
    requires Present(input.name) && Present(input.password)
    requires input.email == Some(" " + users[id].email)
    ensures RegisterSpec(users, nextId, input, hash, sign, now).0 == Err(BadRequest(EmailRegistered))
  {
    var e := users[id].email;
    assert Stored(users[id]);
    var padded := " " + e;
    assert IsLower(padded) by {
      forall i | 0 < i < |padded| ensures !('A' <= padded[i] <= 'Z') {
        assert padded[i] == e[i - 1];
      }
    }
    ToLowerOfLower(padded);
    ToLowerOfLower(ToLower(padded));
    PaddedTrim(e);
    assert StoredEmail(ToLower(padded)) == e;
  }

  /**
   * Login fails with "Invalid credentials" exactly when no stored user has
   * the email's stored form with a password the hash accepts.
   */
  lemma InvalidCredentialsExactly(users: map<UserId, User>, email: string, password: string,
                                  compare: (string, string) -> bool, sign: TokenPayload -> string, now: int)
    requires EmailsUnique(users) && email != "" && password != ""
    ensures LoginSpec(users, Some(email), Some(password), compare, sign, now) == Err(BadRequest(InvalidCredentials))
        <==> !exists id | id in users :: users[id].email == StoredEmail(email) && compare(password, users[id].password)
  {
    StoredEmailOfLower(email);
    var e := StoredEmail(email);
    if EmailTaken(users, e) {
      var id :| id in users && users[id].email == e;
      FindByEmailUnique(users, e, id);
    }
  }

  /**
   * Login ignores case and surrounding whitespace: any spelling whose
   * stored form is a stored email, with a password the hash accepts, logs
   * that user in, with a token issued at the login time.
   */
  lemma LoginFindsAnySpelling(users: map<UserId, User>, id: UserId, email: string, password: string,
                              compare: (string, string) -> bool, sign: TokenPayload -> string, now: int)
    requires EmailsUnique(users) && id in users && email != "" && password != ""
    requires StoredEmail(email) == users[id].email && compare(password, users[id].password)
    ensures LoginSpec(users, Some(email), Some(password), compare, sign, now)
         == Ok(AuthReply(200, LoginMessage, sign(PayloadAt(ClaimsOf(id, users[id]), now)), SummaryOf(id, users[id])))
  {
    StoredEmailOfLower(email);
    FindByEmailUnique(users, StoredEmail(email), id);
  }

  /**
   * Registering at `now` and then logging in at `later` with the same
   * email and password succeeds when the hash check accepts the password
   * against its own hash. Both replies carry the same user summary, and
   * their tokens sign the same claims; the tokens themselves agree when
   * both are issued within the same second.
   */
  lemma RegisterThenLogin(users: map<UserId, User>, nextId: nat, input: Registration,
                          hash: string -> string, compare: (string, string) -> bool,
                          sign: TokenPayload -> string, now: int, later: int)
    requires UsersCoherent(users, nextId)
    requires RegisterSpec(users, nextId, input, hash, sign, now).0.Ok?
    requires compare(input.password.value, hash(input.password.value))
    ensures var (r, users') := RegisterSpec(users, nextId, input, hash, sign, now);
            var l := LoginSpec(users', input.email, input.password, compare, sign, later);
            var c := ClaimsOf(nextId, users'[nextId]);
            && l.Ok? && l.value.user == r.value.user
            && r.value.token == sign(PayloadAt(c, now))
            && l.value.token == sign(PayloadAt(c, later))
            && (now / 1000 == later / 1000 ==> l.value.token == r.value.token)
  {
    var (r, users') := RegisterSpec(users, nextId, input, hash, sign, now);
    RegisterKeepsCoherent(users, nextId, input, hash, sign, now);
    assert users'[nextId] == Candidate(input, hash, now);
    LoginFindsAnySpelling(users', nextId, input.email.value, input.password.value, compare, sign, later);
  }

  /** Two records that differ only in the password hash give the same summary. */
  lemma SummaryHidesPassword(id: UserId, u: User, hash: string)
    ensures SummaryOf(id, u.(password := hash)) == SummaryOf(id, u)
  {
  }
}
