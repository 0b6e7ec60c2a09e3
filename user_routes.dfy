/**
 * The handlers of routes/userRoutes.js for the authenticated user `me`:
 * profile update, presence (active / inactive), member lookup, and the
 * chat list, find-or-create, send and delete routes. Each handler is a
 * method on the store; the pure functions beside them say what the
 * handler does to one user record or to the chats.
 */
module UserRoutes {
  import opened Outcomes
  import opened Text
  import opened UserModel
  import opened Chats
  import opened Store

  // ---------------------------------------------------------------- profile

  /** The body of PUT /me; an absent (null or undefined) field is None. */
  datatype ProfilePatch = ProfilePatch(
    name: Option<string>,
    gamertag: Option<string>,
    description: Option<string>,
    favoriteGames: Option<seq<string>>,
    platforms: Option<seq<string>>,
    avatar: Option<string>)

  /** JavaScript's `x ?? fallback`. */
  function Coalesce<T>(x: Option<T>, fallback: T): T
  {
    if x.Some? then x.value else fallback
  }

  /** The two records agree on everything PUT /me may not change. */
  predicate SameAccount(a: User, b: User)
  {
    && a.email == b.email && a.password == b.password && a.role == b.role
    && a.createdAt == b.createdAt
    && a.isActive == b.isActive && a.activeGame == b.activeGame && a.activeGames == b.activeGames
  }

  /** The six `??` assignments of PUT /me; assigning the name runs the trim setter. */
  function Merge(u: User, p: ProfilePatch): (r: User)
    ensures SameAccount(r, u)
  {
    u.(name := Trim(Coalesce(p.name, u.name)),
       gamertag := Coalesce(p.gamertag, u.gamertag),
       description := Coalesce(p.description, u.description),
       favoriteGames := Coalesce(p.favoriteGames, u.favoriteGames),
       platforms := Coalesce(p.platforms, u.platforms),
       avatar := Coalesce(p.avatar, u.avatar))
  }

  /** The message of the schema's ValidationError. */
  const ValidationFailed := "User validation failed"

  /** PUT /me on one record: the merged record if `save` validates it, else 400. */
  function UpdateProfileOutcome(u: User, p: ProfilePatch): (r: Result<User>)
    ensures r.Ok? ==> SchemaValid(r.value) && SameAccount(r.value, u)
    ensures r.Err? ==> r.failure == BadRequest(ValidationFailed)
    ensures r.Ok? <==> SchemaValid(Merge(u, p))
    ensures r.Ok? ==> r.value == Merge(u, p)
  {
    var m := Merge(u, p);
    if SchemaValid(m) then Ok(m) else Err(BadRequest(ValidationFailed))
  }

  /**
   * Each field is replaced exactly when the caller supplies it (an empty
   * string counts as supplied); the name is stored trimmed.
   */
  lemma MergeFields(u: User, p: ProfilePatch)
    requires Normalized(u)
    ensures var r := Merge(u, p);
            && (p.name.None? ==> r.name == u.name) && (p.name.Some? ==> r.name == Trim(p.name.value))
            && (p.gamertag.None? ==> r.gamertag == u.gamertag) && (p.gamertag.Some? ==> r.gamertag == p.gamertag.value)
            && (p.description.None? ==> r.description == u.description)
            && (p.description.Some? ==> r.description == p.description.value)
            && (p.favoriteGames.None? ==> r.favoriteGames == u.favoriteGames)
            && (p.favoriteGames.Some? ==> r.favoriteGames == p.favoriteGames.value)
            && (p.platforms.None? ==> r.platforms == u.platforms) && (p.platforms.Some? ==> r.platforms == p.platforms.value)
            && (p.avatar.None? ==> r.avatar == u.avatar) && (p.avatar.Some? ==> r.avatar == p.avatar.value)
  {
    TrimOfTrimmed(u.name);
  }

  /** Sending the same update twice stores the same record as sending it once. */
  lemma MergeIdempotent(u: User, p: ProfilePatch)
    ensures Merge(Merge(u, p), p) == Merge(u, p)
  {
    TrimIdempotent(Coalesce(p.name, u.name));
  }

  /**
   * For a stored user the only way PUT /me can fail is a name that is not
   * 2 to 40 characters once trimmed (so an empty name is rejected); when it
   * succeeds the record is still fit to store.
   */
  lemma UpdateProfileFailsOnlyOnName(u: User, p: ProfilePatch)
    requires Stored(u)
    ensures UpdateProfileOutcome(u, p).Err? <==> !NameOk(Trim(Coalesce(p.name, u.name)))
    ensures UpdateProfileOutcome(u, p).Ok? ==> Stored(UpdateProfileOutcome(u, p).value)
  {
    TrimIdempotent(Coalesce(p.name, u.name));
  }

  lemma UpdateKeepsCoherent(users: map<UserId, User>, nextId: nat, me: UserId, p: ProfilePatch)
    requires UsersCoherent(users, nextId) && me in users
    ensures UpdateProfileOutcome(users[me], p).Ok? ==>
              UsersCoherent(users[me := UpdateProfileOutcome(users[me], p).value], nextId)
  {
    if UpdateProfileOutcome(users[me], p).Ok? {
      UpdateProfileFailsOnlyOnName(users[me], p);
      ReplaceKeepsCoherent(users, nextId, me, UpdateProfileOutcome(users[me], p).value);
    }
  }

  // --------------------------------------------------------------- presence

  /** The `game` field of POST /me/active: absent, one value, or a list. */
  datatype GameInput = Missing | Single(game: string) | Many(games: seq<string>)

  /** `!game || (Array.isArray(game) && game.length === 0)`. */
  predicate Rejected(g: GameInput)
    ensures Rejected(g) <==> GameList(g) == [] || g == Single("")
  {
    g == Missing || g == Single("") || g == Many([])
  }

  /** The games a request names, a single value as a one-element list. */
  function GameList(g: GameInput): seq<string>
  {
    match g
    case Missing => []
    case Single(x) => [x]
    case Many(xs) => xs
  }

  /** The two records agree on everything but the three presence fields. */
  predicate SameProfile(a: User, b: User)
  {
    a.(isActive := b.isActive, activeGame := b.activeGame, activeGames := b.activeGames) == b
  }

  const GameRequired := "Game is required to set active."

  /** POST /me/active on one record. */
  function Activate(u: User, game: GameInput): (r: Result<User>)
    ensures r.Err? <==> Rejected(game)
    ensures r.Err? ==> r.failure == BadRequest(GameRequired)
    ensures r.Ok? ==> && r.value.isActive && r.value.activeGames == GameList(game)
                      && PresenceConsistent(r.value) && SameProfile(r.value, u)
  {
    if Rejected(game) then Err(BadRequest(GameRequired))
    else match game
      case Many(gs) => Ok(u.(isActive := true, activeGames := gs, activeGame := gs[0]))
      case Single(g) => Ok(u.(isActive := true, activeGames := [g], activeGame := g))
  }

  /** POST /me/inactive on one record: the list of active games is kept. */
  function Deactivate(u: User): (r: User)
    ensures !r.isActive && PresenceConsistent(r)
    ensures r.activeGames == u.activeGames && SameProfile(r, u)
  {
    u.(isActive := false, activeGame := "")
  }

  /**
   * A single non-empty value behaves as the one-element list holding it; the
   * empty string alone is refused, but a list holding only it is accepted.
   */
  lemma SingleIsOneElementList(u: User, g: string)
    ensures g != "" ==> Activate(u, Single(g)) == Activate(u, Many([g]))
    ensures Activate(u, Single("")).Err? && Activate(u, Many([""])).Ok?
  {
  }

  /**
   * After a successful POST /me/active a user is a member for the first game
   * it named and for no other: active for ["A", "B"], it is found for "A"
   * and not for "B".
   */
  lemma MembershipAfterActivate(u: User, game: GameInput, g: string)
    requires Activate(u, game).Ok?
    ensures IsMember(Activate(u, game).value, g) <==> g == GameList(game)[0]
  {
  }

  /** After POST /me/inactive a user is a member for no game. */
  lemma NoMembershipAfterDeactivate(u: User, g: string)
    ensures !IsMember(Deactivate(u), g)
  {
  }

  /** Presence transitions keep a stored user fit to store. */
  lemma PresenceKeepsStored(u: User, game: GameInput)
    requires Stored(u)
    ensures Activate(u, game).Ok? ==> Stored(Activate(u, game).value)
    ensures Stored(Deactivate(u))
  {
  }

  // ------------------------------------------------------------------- chats

  const TextRequired := "Message text required."
  const ChatDeleted := "Chat deleted."

  // ---------------------------------------------------------------- handlers

  /** PUT /me. */
  method UpdateProfile(db: Db, me: UserId, patch: ProfilePatch) returns (r: Result<User>)
    requires db.Valid() && me in db.users
    modifies db
    ensures db.Valid() && db.chats == old(db.chats) && db.nextId == old(db.nextId)
    ensures r == UpdateProfileOutcome(old(db.users[me]), patch)
    ensures db.users == if r.Ok? then old(db.users)[me := r.value] else old(db.users)
  {
    ghost var outcome := UpdateProfileOutcome(db.users[me], patch);
    UpdateKeepsCoherent(db.users, db.nextId, me, patch);
    var user := Merge(db.users[me], patch);
    if !SchemaValid(user) {
      assert outcome.Err?;
      return Err(BadRequest(ValidationFailed));
    }
    assert outcome == Ok(user);
    db.users := db.users[me := user];
    r := Ok(user);
  }

  /** POST /me/active; answers with the new list of active games. */
  method SetActive(db: Db, me: UserId, game: GameInput) returns (r: Result<seq<string>>)
    requires db.Valid() && me in db.users
    modifies db
    ensures db.Valid() && db.chats == old(db.chats) && db.nextId == old(db.nextId)
    ensures match Activate(old(db.users[me]), game)
            case Ok(u) => r == Ok(u.activeGames) && db.users == old(db.users)[me := u]
            case Err(f) => r == Err(f) && db.users == old(db.users)
  {
    var outcome := Activate(db.users[me], game);
    if outcome.Err? {
      return Err(outcome.failure);
    }
    var user := outcome.value;
    PresenceKeepsStored(db.users[me], game);
    ReplaceKeepsCoherent(db.users, db.nextId, me, user);
    db.users := db.users[me := user];
    r := Ok(user.activeGames);
  }

  /** POST /me/inactive. */
  method SetInactive(db: Db, me: UserId)
    requires db.Valid() && me in db.users
    modifies db
    ensures db.Valid() && db.chats == old(db.chats) && db.nextId == old(db.nextId)
    ensures db.users == old(db.users)[me := Deactivate(old(db.users[me]))]
  {
    var user := Deactivate(db.users[me]);
    PresenceKeepsStored(db.users[me], Missing);
    ReplaceKeepsCoherent(db.users, db.nextId, me, user);
    db.users := db.users[me := user];
  }

  /** GET /members?game=: the users active with that legacy game. */
  method Members(db: Db, game: string) returns (ids: set<UserId>)
    ensures forall id :: id in ids <==> id in db.users && db.users[id].isActive && db.users[id].activeGame == game
  {
    ids := set id | id in db.users && IsMember(db.users[id], game);
  }

  /** GET /me/chats. */
  method ListChats(db: Db, me: UserId) returns (r: seq<Chat>)
    ensures NewestFirstOrder(r)
    ensures forall c :: c in r <==> c in db.chats && me in c.participants
    ensures r == MyChats(db.chats, me)
  {
    r := MyChats(db.chats, me);
  }

  /** GET /me/chats/:userId: find the pair's chat, or create and save an empty one. */
  method GetChat(db: Db, me: UserId, other: UserId, now: int) returns (chat: Chat)
    requires db.Valid() && me in db.users
    modifies db
    ensures db.Valid() && db.users == old(db.users)
    ensures (chat, db.chats) == OpenChat(old(db.chats), me, other, old(db.nextId), now)
    ensures db.nextId == if db.chats == old(db.chats) then old(db.nextId) else old(db.nextId) + 1
  {
    OpenChatKeepsCoherent(db.chats, db.nextId, me, other, now);
    var found := FindPair(db.chats, me, other);
    if found.Some? {
      chat := db.chats[found.value];
    } else {
      chat := NewChat(db.nextId, me, other, now);
      db.chats := db.chats + [chat];
      db.nextId := db.nextId + 1;
    }
  }

  /** POST /me/chats/:userId: append `{ sender: me, text }` to the pair's chat, creating it if needed. */
  method SendMessage(db: Db, me: UserId, other: UserId, text: Option<string>, now: int) returns (r: Result<Chat>)
    requires db.Valid() && me in db.users
    modifies db
    ensures db.Valid() && db.users == old(db.users)
    ensures (text.None? || text.value == "") ==>
              r == Err(BadRequest(TextRequired)) && db.chats == old(db.chats) && db.nextId == old(db.nextId)
    ensures (text.Some? && text.value != "") ==>
              && r.Ok? && (r.value, db.chats) == Post(old(db.chats), me, other, text.value, old(db.nextId), now)
              && db.nextId == if |db.chats| == |old(db.chats)| then old(db.nextId) else old(db.nextId) + 1
  {
    if text.None? || text.value == "" {
      return Err(BadRequest(TextRequired));
    }
    PostKeepsCoherent(db.chats, db.nextId, me, other, text.value, now);
    var found := FindPair(db.chats, me, other);
    var chat := if found.Some? then db.chats[found.value] else NewChat(db.nextId, me, other, now);
    chat := Append(chat, me, text.value, now);
    if found.Some? {
      db.chats := db.chats[found.value := chat];
    } else {
      db.chats := db.chats + [chat];
      db.nextId := db.nextId + 1;
    }
    r := Ok(chat);
  }

  /** DELETE /me/chats/:chatId. */
  method DeleteChat(db: Db, me: UserId, chatId: ChatId) returns (r: Result<string>)
    requires db.Valid() && me in db.users
    modifies db
    ensures db.Valid() && db.users == old(db.users) && db.nextId == old(db.nextId)
    ensures match DeleteOutcome(old(db.chats), me, chatId)
            case Ok(s) => r == Ok(ChatDeleted) && db.chats == s
            case Err(f) => r == Err(f) && db.chats == old(db.chats)
  {
    DeleteKeepsCoherent(db.chats, db.nextId, me, chatId);
    var found := FindById(db.chats, chatId);
    if found.None? {
      return Err(NotFound(ChatNotFound));
    }
    var i := found.value;
    if me !in db.chats[i].participants {
      return Err(Forbidden(NotAuthorizedToDelete));
    }
    db.chats := db.chats[..i] + db.chats[i + 1..];
    r := Ok(ChatDeleted);
  }
}
