/**
 * The document store the handlers read and write: the users collection
 * keyed by id, the chats collection in store order, and the source of
 * fresh ObjectIds.
 */
module Store {
  import opened UserModel
  import opened Chats

  /** The schema's `unique: true` index on email. */
  predicate EmailsUnique(users: map<UserId, User>)
  {
    forall a, b | a in users && b in users && users[a].email == users[b].email :: a == b
  }

  /**
   * Every stored user passed the schema, and ids stay below the next fresh
   * id. The facts about one record are only drawn out where a proof names
   * `Stored(users[id])`, which keeps the store invariant cheap to carry.
   */
  predicate UsersCoherent(users: map<UserId, User>, nextId: nat)
  {
    && (forall id | id in users :: id < nextId)
    && (forall id {:trigger Stored(users[id])} | id in users :: Stored(users[id]))
    && EmailsUnique(users)
  }

  /** Saving a changed user that still passes the schema and keeps its email keeps the users coherent. */
  lemma ReplaceKeepsCoherent(users: map<UserId, User>, nextId: nat, id: UserId, u: User)
    requires UsersCoherent(users, nextId) && id in users
    requires Stored(u) && u.email == users[id].email
    ensures UsersCoherent(users[id := u], nextId)
  {
    var users' := users[id := u];
    forall x | x in users' ensures x < nextId && Stored(users'[x]) {
      if x != id { assert users'[x] == users[x] && Stored(users[x]); }
    }
    ReplaceKeepsEmailsUnique(users, id, u);
  }

  lemma ReplaceKeepsEmailsUnique(users: map<UserId, User>, id: UserId, u: User)
    requires EmailsUnique(users) && id in users && u.email == users[id].email
    ensures EmailsUnique(users[id := u])
  {
    var users' := users[id := u];
    forall a, b | a in users' && b in users' && users'[a].email == users'[b].email ensures a == b {
      assert users'[a].email == users[a].email && users'[b].email == users[b].email;
    }
  }

  class Db {
    var users: map<UserId, User>
    var chats: seq<Chat>
    var nextId: nat

    ghost predicate Valid()
      reads this
    {
      UsersCoherent(users, nextId) && Coherent(chats, nextId)
    }

    constructor ()
      ensures Valid() && users == map[] && chats == [] && nextId == 0
    {
      users := map[];
      chats := [];
      nextId := 0;
    }
  }
}
