/**
 * The user record of models/User.js: its fields, the defaults the schema
 * fills in, the setters it applies (trim, lowercase) and the validators
 * a save runs.
 */
module UserModel {
  import opened Text

  /** A MongoDB ObjectId; the store hands out fresh ones. */
  type UserId = nat

  datatype User = User(
    name: string,
    email: string,
    password: string,      // the stored bcrypt hash, never the raw password
    avatar: string,
    gamertag: string,
    description: string,
    favoriteGames: seq<string>,
    platforms: seq<string>,
    isActive: bool,
    activeGame: string,    // legacy single-game presence field
    activeGames: seq<string>,
    createdAt: int,
    role: string)

  const NameMinLength := 2
  const NameMaxLength := 40
  const PasswordMinLength := 6
  const DefaultRole := "user"

  /** The role enum: 'user' or 'admin'. */
  predicate ValidRole(role: string)
  {
    role == "user" || role == "admin"
  }

  /** Characters that the regular-expression wildcard `.` does not match. */
  predicate IsLineTerminator(c: char)
  {
    c == '\n' || c == '\r' || c == '\U{2028}' || c == '\U{2029}'
  }

  /**
   * The unanchored pattern /.+@.+\..+/: some '@' with a wildcard character
   * before it, then at least one wildcard character, then a '.', then a
   * wildcard character.
   */
  predicate EmailShape(s: string)
    ensures EmailShape(s) ==> |s| >= 5
  {
    exists i, k | 0 < i < |s| && 0 < k < |s| :: EmailSplit(s, i, k)
  }

  /** The pattern matches with its '@' at index i and its '.' at index k. */
  predicate EmailSplit(s: string, i: nat, k: nat)
  {
    && 0 < i && i + 2 <= k && k + 2 <= |s|
    && s[i] == '@' && s[k] == '.'
    && !IsLineTerminator(s[i - 1]) && !IsLineTerminator(s[k + 1])
    && WildcardRun(s, i + 1, k)
  }

  /** Every character of s[from..to] is matched by the wildcard `.`. */
  predicate WildcardRun(s: string, from: nat, to: nat)
    requires from <= to <= |s|
  {
    forall j | from <= j < to :: !IsLineTerminator(s[j])
  }

  /** minlength and maxlength count UTF-16 code units, as JavaScript's `length` does. */
  predicate NameOk(name: string)
  {
    NameMinLength <= Utf16Length(name) <= NameMaxLength
  }

  /** What the schema's validators accept (name, email and password are required). */
  predicate SchemaValid(u: User)
    ensures SchemaValid(u) ==> |u.name| >= 1 && |u.email| >= 5 && |u.password| >= 3 && u.role != ""
  {
    && NameOk(u.name)
    && EmailShape(u.email)
    && Utf16Length(u.password) >= PasswordMinLength
    && ValidRole(u.role)
  }

  /** The setters have run: the name is trimmed, the email lower-cased and trimmed. */
  predicate Normalized(u: User)
  {
    IsTrimmed(u.name) && IsTrimmed(u.email) && IsLower(u.email)
  }

  /** The legacy field names the first active game while active, and is empty while inactive. */
  predicate PresenceConsistent(u: User)
  {
    if u.isActive then u.activeGames != [] && u.activeGame == u.activeGames[0]
    else u.activeGame == ""
  }

  /** A user as the store holds it. */
  predicate Stored(u: User)
  {
    SchemaValid(u) && Normalized(u) && PresenceConsistent(u)
  }

  /** Member lookup filter: active, with the legacy field naming the game. */
  predicate IsMember(u: User, game: string)
  {
    u.isActive && u.activeGame == game
  }

  /** The email as the schema stores it: lowercase setter, then trim setter. */
  function StoredEmail(email: string): (r: string)
    ensures IsLower(r) && IsTrimmed(r)
  {
    TrimKeepsLower(ToLower(email));
    Trim(ToLower(email))
  }

  /**
   * `new User({...})`: the given fields pass through the setters and every
   * field not given takes its schema default (inactive, no active game,
   * role 'user', created now).
   */
  function NewUser(name: string, email: string, passwordHash: string, avatar: string,
                   gamertag: string, description: string, favoriteGames: seq<string>,
                   platforms: seq<string>, now: int): (u: User)
    ensures Normalized(u) && PresenceConsistent(u) && ValidRole(u.role)
    ensures !u.isActive && u.activeGames == [] && u.role == DefaultRole
  {
    User(Trim(name), StoredEmail(email), passwordHash, avatar, gamertag, description,
         favoriteGames, platforms, false, "", [], now, DefaultRole)
  }

  /** A new user passes validation exactly when its trimmed name, stored email and hash do. */
  lemma NewUserValid(name: string, email: string, passwordHash: string, avatar: string,
                     gamertag: string, description: string, favoriteGames: seq<string>,
                     platforms: seq<string>, now: int)
    ensures Stored(NewUser(name, email, passwordHash, avatar, gamertag, description,
                           favoriteGames, platforms, now))
        <==> NameOk(Trim(name)) && EmailShape(StoredEmail(email)) && Utf16Length(passwordHash) >= PasswordMinLength
  {
  }

  /** The wildcard parts need not be letters: "a@b.c" is the shortest accepted shape. */
  lemma EmailShapeAccepts()
    ensures EmailShape("a@b.c")
  {
    var s := "a@b.c";
    assert s[1] == '@' && s[3] == '.' && !IsLineTerminator(s[0]) && !IsLineTerminator(s[4]);
    assert WildcardRun(s, 2, 3);
    assert EmailSplit(s, 1, 3);
  }

  /** Any string the pattern accepts holds an '@' and a later '.', and is at least five characters long. */
  lemma EmailShapeBounds(s: string)
    requires EmailShape(s)
    ensures |s| >= 5
    ensures exists i, k | 0 <= i < k < |s| :: s[i] == '@' && s[k] == '.'
  {
  }

  /**
   * The name bounds count code units: a name made only of characters
   * outside the Basic Multilingual Plane (emoji, say) is accepted exactly
   * when it has 1 to 20 of them.
   */
  lemma NameOfAstralCharacters(name: string)
    requires forall i | 0 <= i < |name| :: name[i] >= '\U{10000}'
    ensures NameOk(name) <==> 1 <= |name| <= 20
  {
  }

  /** Lower-casing before the setters run changes nothing: the stored form is the same. */
  lemma StoredEmailOfLower(email: string)
    ensures StoredEmail(ToLower(email)) == StoredEmail(email)
  {
    ToLowerOfLower(ToLower(email));
  }
}
