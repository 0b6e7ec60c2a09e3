# gaming-app-back: users, presence, chats and authentication

A Dafny model of the request handlers of the gaming-app backend. It covers:

- the user record and its schema (`models/User.js`);
- registration and login (`controllers/authController.js`);
- the handlers for the authenticated user (`routes/userRoutes.js`): profile update, going active or inactive for games, member lookup by game, and the two-party chats (list, find-or-create, send, delete).

The document store is the class `Store.Db`. It holds three fields:

- the users collection, `users: map<UserId, User>`;
- the chats collection, `chats: seq<Chat>`, in store order;
- the source of fresh ids, `nextId`.

Its invariant `Valid()` holds that:

- every stored user passed the schema and has been through its setters (name trimmed, email lower-cased and trimmed);
- the presence fields are consistent;
- emails are unique;
- chat ids are unique and below the next id;
- each pair of users has at most one chat.

Each handler is a module-level method that takes the store object `db` and may modify it. Its postcondition ties the new store and the reply to a pure function of the old store, and lemmas state what those functions promise.

Modules:

- `Outcomes`: `Option`, `Result` and the failure kinds with their HTTP status (400, 403, 404, 500).
- `Text`: JavaScript's `trim`, `toLowerCase` and string `length` (in UTF-16 code units), as the schema setters, the validators and the controllers apply them.
- `UserModel`: the user record, its defaults (`NewUser`), the validators (`SchemaValid`), the email setters (`StoredEmail`) and the predicate `Normalized` that holds once the setters have run.
- `Chats`: chat records and the pure chat operations, including find-pair, open, append, post, delete and newest-first listing.
- `Store`: the store class and its invariant.
- `UserRoutes`: profile merge, presence transitions and the handler methods of `routes/userRoutes.js`.
- `AuthController`: `RegisterSpec`, `LoginSpec` and the `Register` and `Login` handlers.

The clock (`now`) and the fresh ids are inputs. bcrypt hashing, bcrypt comparison and JWT signing are the function parameters `hash`, `compare` and `sign`.

## Model

| member | source | states |
|---|---|---|
| Text.TrimStartDrops | models/User.js:7 | the trim setter's first half drops only leading whitespace and keeps the rest as a suffix |
| Text.TrimEndDrops | models/User.js:7 | the second half drops only trailing whitespace and keeps the rest as a prefix |
| Text.Trim | models/User.js:7 | a trimmed value starts and ends with non-whitespace and is no longer than the input |
| Text.TrimOfTrimmed | models/User.js:7 | trimming a value without whitespace at its ends leaves it unchanged |
| Text.TrimIdempotent | models/User.js:7 | applying the trim setter twice is the same as applying it once |
| Text.ToLower | controllers/authController.js:27 | lower-casing keeps the length and leaves no upper-case letter |
| Text.ToLowerOfLower | models/User.js:15 | lower-casing an already lower-case email changes nothing |
| Text.TrimKeepsLower | models/User.js:15-16 | trimming a lower-case value keeps it lower-case |
| Text.TrimStartOfLower | models/User.js:15-16 | dropping leading whitespace commutes with lower-casing |
| Text.TrimEndOfLower | models/User.js:15-16 | dropping trailing whitespace commutes with lower-casing |
| Text.TrimOfLower | models/User.js:15-16 | the lowercase and trim setters give the same email in either order |
| Text.PaddedTrim | models/User.js:16 | the trim setter strips one added leading space from a trimmed value |
| Text.ToLowerKeepsTrimmed | models/User.js:15-16 | lower-casing keeps a value free of whitespace at its ends |
| Text.Utf16Length | models/User.js:8-9 | the length the validators count lies between the number of characters and twice it; it equals the number of characters when all are in the Basic Multilingual Plane and twice it when none are |
| UserModel.EmailShape | models/User.js:17 | the pattern `.+@.+\..+` (a split into non-empty parts around an '@' and a later '.', with no line terminator) accepts only strings of at least 5 characters |
| UserModel.SchemaValid | models/User.js:4-65 | the validators: name 2 to 40 code units, email matching the pattern, password at least 6 code units, role 'user' or 'admin'; an accepted record has a non-empty name and role, an email of at least 5 characters and a password of at least 3 characters |
| UserModel.NameOfAstralCharacters | models/User.js:8-9 | a name made only of characters outside the Basic Multilingual Plane (emoji) is accepted exactly when it has 1 to 20 of them |
| UserModel.StoredEmailOfLower | controllers/authController.js:27-30 | lower-casing an email before the setters run gives the same stored form |
| UserModel.StoredEmail | models/User.js:11-18 | the email as stored is lower-case and has no whitespace at its ends |
| UserModel.NewUser | models/User.js:25-65 | a new record is normalised, inactive, with activeGame '' and activeGames [], and has role 'user' |
| UserModel.NewUserValid | models/User.js:3-24 | a new record passes the schema exactly when its trimmed name is 2 to 40 UTF-16 code units, its stored email matches `.+@.+\..+` and its hash is at least 6 code units |
| UserModel.EmailShapeAccepts | models/User.js:17 | "a@b.c" matches the email pattern |
| UserModel.EmailShapeBounds | models/User.js:17 | every email the pattern accepts has at least 5 characters and an '@' before a '.' |
| Store.EmailsUnique | models/User.js:14 | the unique index: no two stored users share an email |
| Store.Db.Valid | models/User.js:3-65 | the store invariant: every user passed the schema and its setters, emails are unique, ids are below the next id, and the chats are coherent in the sense of `Chats.Coherent` |
| Chats.Coherent | routes/userRoutes.js:98-105 | the chat half of the store invariant, kept by find-or-create, send and delete: chat ids are distinct and below the next id, and each pair of users has at most one chat |
| Store.ReplaceKeepsCoherent | routes/userRoutes.js:34 | saving a changed user that still passes the schema and keeps its email keeps the users collection valid |
| Store.ReplaceKeepsEmailsUnique | models/User.js:14 | such a save keeps emails unique |
| UserRoutes.Merge | routes/userRoutes.js:27-33 | the merged record keeps email, password, role, creation time and presence fields |
| UserRoutes.UpdateProfileOutcome | routes/userRoutes.js:25-39 | succeeds exactly when the merged record passes the schema, and then saves that merged record, which keeps the account fields; otherwise the reply is 400 with the validation message |
| UserRoutes.MergeFields | routes/userRoutes.js:27-33 | each of the six fields is replaced exactly when supplied (an empty string counts as supplied), and the name is stored trimmed |
| UserRoutes.MergeIdempotent | routes/userRoutes.js:27-33 | sending the same update twice stores the same record as sending it once |
| UserRoutes.UpdateProfileFailsOnlyOnName | routes/userRoutes.js:34-37 | for a stored user, the update fails if and only if the trimmed name is not 2 to 40 UTF-16 code units; a success stays storable |
| UserRoutes.UpdateKeepsCoherent | routes/userRoutes.js:34 | a successful profile save keeps the users collection valid |
| UserRoutes.Rejected | routes/userRoutes.js:44 | a game is refused exactly when it names no game (absent or an empty list) or is the empty string |
| UserRoutes.Activate | routes/userRoutes.js:42-55 | it fails with 400 "Game is required to set active." iff the game is missing, '' or []; otherwise the user is active, activeGames is the list, activeGame is its first element, and no other field changes |
| UserRoutes.Deactivate | routes/userRoutes.js:61-63 | the user is inactive with activeGame '', keeps activeGames, and no other field changes |
| UserRoutes.SingleIsOneElementList | routes/userRoutes.js:44-55 | a non-empty single game acts as the one-element list holding it; '' alone is refused, [''] is accepted |
| UserRoutes.MembershipAfterActivate | routes/userRoutes.js:47-50 | after going active the user is a member for the first listed game and for no other |
| UserRoutes.NoMembershipAfterDeactivate | routes/userRoutes.js:61-63 | after going inactive the user is a member for no game |
| UserRoutes.PresenceKeepsStored | routes/userRoutes.js:56 | both presence transitions keep a stored user storable |
| UserRoutes.UpdateProfile | routes/userRoutes.js:25-39 | the reply is `UpdateProfileOutcome` of the old record; only that user changes, and only on success; the store stays valid |
| UserRoutes.SetActive | routes/userRoutes.js:42-58 | on a rejected game the reply is 400 and nothing changes; otherwise the user becomes `Activate` of the old record and the reply lists its active games |
| UserRoutes.SetInactive | routes/userRoutes.js:61-66 | the user becomes `Deactivate` of the old record; nothing else changes and the store stays valid |
| UserRoutes.Members | routes/userRoutes.js:69-80 | returns exactly the users that are active with the given legacy activeGame |
| UserRoutes.ListChats | routes/userRoutes.js:83-92 | returns exactly the chats I take part in, ordered newest first by updatedAt |
| UserRoutes.GetChat | routes/userRoutes.js:95-110 | the reply and new chats are `OpenChat` of the old ones; a fresh id is used only when a chat is created |
| UserRoutes.SendMessage | routes/userRoutes.js:113-132 | missing or empty text gives 400 and changes nothing; otherwise the reply and new chats are `Post` of the old ones |
| UserRoutes.DeleteChat | routes/userRoutes.js:135-151 | the reply and new chats follow `DeleteOutcome`: 404, 403, or removal with "Chat deleted." |
| Chats.FindPair | routes/userRoutes.js:98-100 | finds the first chat holding both users, or none exactly when no chat holds both |
| Chats.FindPairSymmetric | routes/userRoutes.js:98-100 | the lookup does not depend on the order of the two users |
| Chats.FindById | routes/userRoutes.js:138 | finds a chat with the given id, or none exactly when no chat has it |
| Chats.OpenChat | routes/userRoutes.js:98-105 | returns a stored chat holding both users; an existing chat leaves the store unchanged, otherwise one empty chat [me, other] is appended |
| Chats.FindPairAfterAppend | routes/userRoutes.js:101-104 | after a chat for a new pair is created, the lookup finds that chat |
| Chats.OpenChatIdempotent | routes/userRoutes.js:98-105 | a second call, by either user, returns the same chat and leaves the chats unchanged |
| Chats.NewPairIsNew | routes/userRoutes.js:101-104 | a pair with no chat shares no participant set with any stored chat |
| Chats.AddKeepsCoherent | routes/userRoutes.js:103-104 | creating a chat for a new pair under the fresh id keeps ids unique and one chat per pair |
| Chats.OpenChatKeepsCoherent | routes/userRoutes.js:98-105 | find-or-create keeps the chats coherent and consumes a fresh id only when it creates |
| Chats.Append | routes/userRoutes.js:124-125 | the message count grows by one, earlier messages are unchanged, the last message is {sender, text}, and updatedAt is now |
| Chats.Post | routes/userRoutes.js:118-126 | the posted chat holds both users, is in the new chats, ends with my message and has updatedAt now |
| Chats.PostIsOpenThenAppend | routes/userRoutes.js:118-125 | sending is find-or-create followed by an append; every other chat is unchanged |
| Chats.PostKeepsCoherent | routes/userRoutes.js:118-126 | sending keeps the chats coherent and consumes a fresh id only when it creates |
| Chats.DeleteOutcome | routes/userRoutes.js:138-146 | a successful delete removes exactly one chat |
| Chats.DeleteRemovesExactly | routes/userRoutes.js:138-146 | an unknown id gives 404 and a non-participant 403; otherwise exactly the chat with that id is removed |
| Chats.DeleteKeepsCoherent | routes/userRoutes.js:146 | deleting keeps the chats coherent |
| Chats.Involving | routes/userRoutes.js:85 | keeps exactly the chats I take part in, each as many times as the store holds it |
| Chats.Insert | routes/userRoutes.js:87 | inserting into a newest-first list keeps it newest first and adds exactly that chat |
| Chats.NewestFirst | routes/userRoutes.js:87 | the sort gives a newest-first permutation of its input |
| Chats.MyChats | routes/userRoutes.js:85-87 | a newest-first list of exactly the chats I take part in, each as many times as the store holds it |
| Chats.PostedChatListedFirst | routes/userRoutes.js:124-125 | after I send a message, the chat I wrote to heads my chat list |
| AuthController.OrEmpty | controllers/authController.js:45-47 | `x \|\| ''` keeps a truthy value and gives '' otherwise |
| AuthController.PayloadAt | controllers/authController.js:56-60 | the signed payload carries the claims, an issue time that is the current second, and an expiry 7 days later |
| AuthController.Candidate | controllers/authController.js:41-50 | the new record has the trimmed name, the lower-cased and trimmed email, the hash as password, role 'user', no presence, and the creation time |
| AuthController.RegisterSpec | controllers/authController.js:21-84 | a failure leaves the users unchanged; a success adds the fresh id and answers 201 |
| AuthController.FindByEmail | controllers/authController.js:97 | finds a user holding the email, or none exactly when no user has it |
| AuthController.FindByEmailUnique | controllers/authController.js:97 | with unique emails, the user found is the one holding the email |
| AuthController.LoginSpec | controllers/authController.js:90-133 | 400 "Email and password are required." exactly when the email or the password is missing or ''; a successful login answers 200 with "Login successful" |
| AuthController.Register | controllers/authController.js:6-84 | the reply and new users are `RegisterSpec` of the old users with the next id; that id is consumed only on success; the store stays valid |
| AuthController.Login | controllers/authController.js:88-137 | the reply is `LoginSpec` of the users at the given time, and nothing changes |
| AuthController.RegisterKeepsCoherent | controllers/authController.js:41-52 | registration keeps the users valid, with unique emails, and takes the fresh id only on success |
| AuthController.RegisterOutcomes | controllers/authController.js:21-77 | 400 "required" iff name, email or password is missing or ''; 400 "Email already registered" iff the email's stored form (lower-cased, trimmed) is stored; 500 iff otherwise the schema rejects the record; success iff none of these holds, so the four outcomes split every input. On success, with a fresh id, exactly one user is added (the collection grows by one), with the trimmed name, stored email, hash, defaults and a token signed at the registration time for (id, email, 'user'), and the reply summarises that user |
| AuthController.RegisterDefaults | controllers/authController.js:41-50 | optional string fields default to '', list fields to [], and presence to inactive with no games |
| AuthController.RegisterRefusesCaseVariant | controllers/authController.js:27-34 | any spelling of a stored email that lower-cases to it is refused with 400 "Email already registered" |
| AuthController.RegisterRefusesPaddedVariant | controllers/authController.js:27-34 | a stored email with a leading space added is refused with 400 "Email already registered", since the query runs the trim setter |
| AuthController.InvalidCredentialsExactly | controllers/authController.js:97-106 | login gives the single "Invalid credentials" 400 iff no user holds the email's stored form (lower-cased, trimmed) with a password the comparison accepts |
| AuthController.LoginFindsAnySpelling | controllers/authController.js:94-113 | any spelling whose stored form is a stored email (other case, surrounding whitespace), with an accepted password, logs that user in with a token signed at the login time for its id, email and role |
| AuthController.RegisterThenLogin | controllers/authController.js:6-133 | after a successful registration, logging in later with the same email and password succeeds with the same user summary and a token over the same claims; the two tokens are equal when issued within the same second |
| AuthController.SummaryHidesPassword | controllers/authController.js:118-133 | the user summary in both replies does not depend on the stored password |

## Left out

- Store and driver errors are left out in every handler, whatever its catch block answers: 500 in most handlers, 400 in PUT /me (routes/userRoutes.js:36-37), and no catch at all in the presence handlers. The one error path kept is a save the schema rejects: 500 during registration and 400 in PUT /me. The unique index can reject a registration's save only when another registration of the same email races it, which is not modelled. Connection failures, casts of malformed ObjectIds and similar errors are not modelled.
- Concurrency: each handler runs alone against the store. Two concurrent find-or-create calls (routes/userRoutes.js:98-105, 118-123) can race and create two chats for one pair; that race is not modelled.
- `GET /`, `GET /me` and `GET /:id` (routes/userRoutes.js:10-22, 153-167) are left out. They only read and project records.
- The `populate` and `select` projections, including the password's `select: false`, are left out. The handlers' replies are modelled as the records or summaries they are built from, except the member lookup, whose reply is the set of matching ids.
- Console logging (controllers/authController.js:8, 22, 32, 53, 79) is left out; it is output only and changes no reply or stored state.
- The Socket.IO broadcast, server start-up and configuration (server.js) are left out; they are I/O.
- controllers/gamesController.js, routes/gamesRoutes.js and models/Game.js are left out. They only wire routes and pass data through.
- The chat schema file (models/Chat.js) is not part of this model. A chat is modelled as its id, participants, messages and updatedAt; creating a chat stamps updatedAt with the current time.
- bcrypt and JWT are the parameters `hash`, `compare` and `sign`. `sign` receives the payload `jwt.sign` builds: the claims, `iat` and `exp`. The random salt, the secret and the signature algorithm are not modelled.
- The `now` parameter stands in for the wall clock (`Date.now`, `new Date()`).
- Text.ToLower: lower-cases only the ASCII letters A-Z. JavaScript's toLowerCase also maps other Unicode letters.
- Queries run the schema setters on their values, as the store does for a query on a field with setters, so the duplicate check and login look up the email lower-cased and trimmed.
- Each request field takes only its own type: strings for the text fields, lists of strings for `favoriteGames` and `platforms`. Other JSON types (numbers, objects) are not modelled, nor is the store's cast of a single string sent for `favoriteGames` or `platforms` into a one-element list (controllers/authController.js:48-49, routes/userRoutes.js:31-32).
- UpdateProfileOutcome: the failure message is the fixed text "User validation failed". The library appends details for each path.
- Members: the game query parameter is a string. A missing parameter is not modelled. The reply is the set of matching ids; the user records and their order are not modelled.
- ListChats: the newest-first order is fixed by a stable insertion sort. The store leaves the order of chats with equal updatedAt unspecified, and the model states only the order by updatedAt and the multiset of chats.
- Admin-only access and the authentication middleware are not modelled. Every handler acts for an already authenticated user `me` that exists in the store.
