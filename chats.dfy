/**
 * Two-party chats and the store operations the chat handlers of
 * routes/userRoutes.js perform on them: find a chat by its pair of
 * users or by its id, create one, append a message, delete one, and
 * list a user's chats newest first.
 */
module Chats {
  import opened Outcomes
  import opened UserModel

  /** A MongoDB ObjectId of a chat document. */
  type ChatId = nat

  datatype Message = Message(sender: UserId, text: string)

  datatype Chat = Chat(id: ChatId, participants: seq<UserId>, messages: seq<Message>, updatedAt: int)

  /** The query { participants: { $all: [a, b] } }: the chat lists both users. */
  predicate Joins(c: Chat, a: UserId, b: UserId)
  {
    a in c.participants && b in c.participants
  }

  /** The unordered pair of users a chat is between. */
  function PairOf(c: Chat): set<UserId>
  {
    set p | p in c.participants
  }

  predicate IdsUnique(chats: seq<Chat>)
  {
    forall i, j | 0 <= i < j < |chats| :: chats[i].id != chats[j].id
  }

  predicate IdsBelow(chats: seq<Chat>, bound: nat)
  {
    forall i | 0 <= i < |chats| :: chats[i].id < bound
  }

  /** At most one chat for each unordered pair of users. */
  predicate OnePerPair(chats: seq<Chat>)
  {
    forall i, j | 0 <= i < j < |chats| :: PairOf(chats[i]) != PairOf(chats[j])
  }

  /** The chats the store holds: distinct ids below the next fresh id, one chat per pair. */
  predicate Coherent(chats: seq<Chat>, nextId: nat)
  {
    IdsUnique(chats) && IdsBelow(chats, nextId) && OnePerPair(chats)
  }

  /** `Chat.findOne({ participants: { $all: [a, b] } })`: the first chat, in store order, that lists both users. */
  function FindPair(chats: seq<Chat>, a: UserId, b: UserId): (r: Option<nat>)
    ensures r.Some? ==> r.value < |chats| && Joins(chats[r.value], a, b)
    ensures r.Some? ==> forall j | 0 <= j < r.value :: !Joins(chats[j], a, b)
    ensures r.None? <==> forall j | 0 <= j < |chats| :: !Joins(chats[j], a, b)
  {
    if chats == [] then None
    else if Joins(chats[0], a, b) then Some(0)
    else match FindPair(chats[1..], a, b)
      case None => None
      case Some(i) => Some(i + 1)
  }

  /** The order in which the two users are named does not matter. */
  lemma {:induction false} FindPairSymmetric(chats: seq<Chat>, a: UserId, b: UserId)
    ensures FindPair(chats, a, b) == FindPair(chats, b, a)
  {
    if chats != [] {
      FindPairSymmetric(chats[1..], a, b);
    }
  }

  /** `Chat.findById(id)`. */
  function FindById(chats: seq<Chat>, id: ChatId): (r: Option<nat>)
    ensures r.Some? ==> r.value < |chats| && chats[r.value].id == id
    ensures r.None? <==> forall j | 0 <= j < |chats| :: chats[j].id != id
  {
    if chats == [] then None
    else if chats[0].id == id then Some(0)
    else match FindById(chats[1..], id)
      case None => None
      case Some(i) => Some(i + 1)
  }

  /** `new Chat({ participants: [me, other], messages: [] })`, stamped with the current time. */
  function NewChat(id: ChatId, me: UserId, other: UserId, now: int): Chat
  {
    Chat(id, [me, other], [], now)
  }

  /**
   * GET /me/chats/:userId: the existing chat of the pair, or a new empty
   * one that is saved. Returns the chat and the new store contents.
   */
  function OpenChat(chats: seq<Chat>, me: UserId, other: UserId, freshId: ChatId, now: int): (r: (Chat, seq<Chat>))
    ensures Joins(r.0, me, other) && r.0 in r.1
    ensures FindPair(chats, me, other).Some? ==> r.1 == chats
    ensures FindPair(chats, me, other).None? ==>
              r.1 == chats + [r.0] && r.0.participants == [me, other] && r.0.messages == []
  {
    match FindPair(chats, me, other)
    case Some(i) => (chats[i], chats)
    case None =>
      var c := NewChat(freshId, me, other, now);
      (c, chats + [c])
  }

  /** A chat appended at the end is found when no earlier chat joins the pair. */
  lemma FindPairAfterAppend(chats: seq<Chat>, c: Chat, a: UserId, b: UserId)
    requires FindPair(chats, a, b).None? && Joins(c, a, b)
    ensures FindPair(chats + [c], a, b) == Some(|chats|)
  {
    var s := chats + [c];
    assert s[|chats|] == c;
    assert forall j | 0 <= j < |chats| :: s[j] == chats[j];
  }

  /**
   * Sequential find-or-create is idempotent: opening the same pair again,
   * in either order, returns the chat the first call returned and stores
   * nothing new.
   */
  lemma OpenChatIdempotent(chats: seq<Chat>, me: UserId, other: UserId,
                           id1: ChatId, t1: int, id2: ChatId, t2: int)
    ensures var (c1, s1) := OpenChat(chats, me, other, id1, t1);
            OpenChat(s1, me, other, id2, t2) == (c1, s1) &&
            OpenChat(s1, other, me, id2, t2) == (c1, s1)
  {
    var (c1, s1) := OpenChat(chats, me, other, id1, t1);
    if FindPair(chats, me, other).None? {
      FindPairAfterAppend(chats, c1, me, other);
    }
    FindPairSymmetric(s1, me, other);
  }

  /** A new chat is created only for a pair that has none. */
  lemma NewPairIsNew(chats: seq<Chat>, me: UserId, other: UserId, c: Chat)
    requires FindPair(chats, me, other).None?
    requires c.participants == [me, other]
    ensures forall j | 0 <= j < |chats| :: PairOf(chats[j]) != PairOf(c)
  {
    forall j | 0 <= j < |chats|
      ensures PairOf(chats[j]) != PairOf(c)
    {
      assert me in PairOf(c) && other in PairOf(c);
      assert !Joins(chats[j], me, other);
    }
  }

  /** Adding a chat with a fresh id for a pair that has none keeps the store coherent. */
  lemma AddKeepsCoherent(chats: seq<Chat>, nextId: nat, me: UserId, other: UserId, c: Chat)
    requires Coherent(chats, nextId)
    requires FindPair(chats, me, other).None? && c.participants == [me, other] && c.id == nextId
    ensures Coherent(chats + [c], nextId + 1)
  {
    NewPairIsNew(chats, me, other, c);
    var s := chats + [c];
    forall i, j | 0 <= i < j < |s|
      ensures s[i].id != s[j].id && PairOf(s[i]) != PairOf(s[j])
    {
      if j == |chats| {
        assert s[i] == chats[i] && s[j] == c;
      }
    }
  }

  /** Opening a chat keeps the store coherent, with at most one chat per pair. */
  lemma OpenChatKeepsCoherent(chats: seq<Chat>, nextId: nat, me: UserId, other: UserId, now: int)
    requires Coherent(chats, nextId)
    ensures var (c, s) := OpenChat(chats, me, other, nextId, now);
            Coherent(s, if s == chats then nextId else nextId + 1)
  {
    if FindPair(chats, me, other).None? {
      AddKeepsCoherent(chats, nextId, me, other, NewChat(nextId, me, other, now));
    }
  }

  /** `chat.messages.push({ sender, text }); chat.updatedAt = now`. */
  function Append(c: Chat, sender: UserId, text: string, now: int): (r: Chat)
    ensures r.id == c.id && r.participants == c.participants && r.updatedAt == now
    ensures |r.messages| == |c.messages| + 1
    ensures r.messages[..|c.messages|] == c.messages
    ensures r.messages[|c.messages|] == Message(sender, text)
  {
    c.(messages := c.messages + [Message(sender, text)], updatedAt := now)
  }

  /**
   * POST /me/chats/:userId with non-empty text: append to the pair's chat,
   * or to a new chat that is saved with the message. Returns the chat and
   * the new store contents.
   */
  function Post(chats: seq<Chat>, me: UserId, other: UserId, text: string, freshId: ChatId, now: int): (r: (Chat, seq<Chat>))
    ensures Joins(r.0, me, other) && r.0 in r.1 && r.0.updatedAt == now
    ensures r.0.messages != [] && r.0.messages[|r.0.messages| - 1] == Message(me, text)
  {
    match FindPair(chats, me, other)
    case Some(i) =>
      var c := Append(chats[i], me, text, now);
      assert chats[i := c][i] == c;
      (c, chats[i := c])
    case None =>
      var c := Append(NewChat(freshId, me, other, now), me, text, now);
      (c, chats + [c])
  }

  /**
   * Posting is opening the pair's chat and appending one message to it:
   * the chat gains exactly that message, and every other stored chat is
   * left as it was.
   */
  lemma PostIsOpenThenAppend(chats: seq<Chat>, me: UserId, other: UserId, text: string, freshId: ChatId, now: int)
    requires IdsUnique(chats) && IdsBelow(chats, freshId)
    ensures var (c, s) := OpenChat(chats, me, other, freshId, now);
            var (c', s') := Post(chats, me, other, text, freshId, now);
            && c' == Append(c, me, text, now)
            && |s'| == |s|
            && forall j | 0 <= j < |s| :: s'[j] == if s[j].id == c.id then c' else s[j]
  {
    var (c, s) := OpenChat(chats, me, other, freshId, now);
    var (c', s') := Post(chats, me, other, text, freshId, now);
    match FindPair(chats, me, other)
    case Some(i) =>
      forall j | 0 <= j < |s|
        ensures s'[j] == if s[j].id == c.id then c' else s[j]
      {
        if j != i {
          assert s[j].id != c.id by { if j < i { assert chats[j].id != chats[i].id; } else { assert chats[i].id != chats[j].id; } }
        }
      }
    case None =>
      forall j | 0 <= j < |s|
        ensures s'[j] == if s[j].id == c.id then c' else s[j]
      {
        if j < |chats| {
          assert s[j] == chats[j] && c.id == freshId;
        }
      }
  }

  /** Posting keeps the store coherent, with at most one chat per pair. */
  lemma PostKeepsCoherent(chats: seq<Chat>, nextId: nat, me: UserId, other: UserId, text: string, now: int)
    requires Coherent(chats, nextId)
    ensures var (c, s) := Post(chats, me, other, text, nextId, now);
            Coherent(s, if |s| == |chats| then nextId else nextId + 1)
  {
    var (c, s) := Post(chats, me, other, text, nextId, now);
    match FindPair(chats, me, other)
    case Some(i) =>
      forall j | 0 <= j < |s|
        ensures s[j].id == chats[j].id && PairOf(s[j]) == PairOf(chats[j])
      {
      }
    case None =>
      AddKeepsCoherent(chats, nextId, me, other, c);
  }

  function Remove(chats: seq<Chat>, i: nat): seq<Chat>
    requires i < |chats|
  {
    chats[..i] + chats[i + 1..]
  }

  const ChatNotFound := "Chat not found."
  const NotAuthorizedToDelete := "Not authorized to delete this chat."

  /** DELETE /me/chats/:chatId: the new store contents, or the failure. */
  function DeleteOutcome(chats: seq<Chat>, me: UserId, chatId: ChatId): (r: Result<seq<Chat>>)
    ensures r.Ok? ==> |r.value| == |chats| - 1
  {
    match FindById(chats, chatId)
    case None => Err(NotFound(ChatNotFound))
    case Some(i) =>
      if me !in chats[i].participants then Err(Forbidden(NotAuthorizedToDelete))
      else Ok(Remove(chats, i))
  }

  /**
   * An unknown id is 404 and a non-participant 403, both leaving the chat
   * in place; a participant removes exactly the chat with that id.
   */
  lemma DeleteRemovesExactly(chats: seq<Chat>, me: UserId, chatId: ChatId)
    requires IdsUnique(chats)
    ensures var r := DeleteOutcome(chats, me, chatId);
            && (r == Err(NotFound(ChatNotFound)) <==> forall c | c in chats :: c.id != chatId)
            && (r == Err(Forbidden(NotAuthorizedToDelete)) <==>
                  exists c | c in chats :: c.id == chatId && me !in c.participants)
            && (r.Ok? <==> exists c | c in chats :: c.id == chatId && me in c.participants)
            && (r.Ok? ==> forall c :: c in r.value <==> c in chats && c.id != chatId)
  {
    match FindById(chats, chatId)
    case None =>
    case Some(i) =>
      forall c | c in chats && c.id == chatId
        ensures c == chats[i]
      {
        var k :| 0 <= k < |chats| && chats[k] == c;
        assert !(k < i) && !(i < k);
      }
      var s := Remove(chats, i);
      forall c
        ensures c in s <==> c in chats && c.id != chatId
      {
        if c in s {
          var k :| 0 <= k < |s| && s[k] == c;
          var k' := if k < i then k else k + 1;
          assert chats[k'] == c && k' != i;
          assert c.id != chatId by { if k' < i { assert chats[k'].id != chats[i].id; } else { assert chats[i].id != chats[k'].id; } }
        }
        if c in chats && c.id != chatId {
          var k :| 0 <= k < |chats| && chats[k] == c;
          assert k != i;
          if k < i { assert s[k] == c; } else { assert s[k - 1] == c; }
        }
      }
  }

  /** Deleting keeps the store coherent. */
  lemma DeleteKeepsCoherent(chats: seq<Chat>, nextId: nat, me: UserId, chatId: ChatId)
    requires Coherent(chats, nextId)
    ensures DeleteOutcome(chats, me, chatId).Ok? ==> Coherent(DeleteOutcome(chats, me, chatId).value, nextId)
  {
    if DeleteOutcome(chats, me, chatId).Ok? {
      var i := FindById(chats, chatId).value;
      var s := Remove(chats, i);
      forall a, b | 0 <= a < b < |s|
        ensures s[a].id != s[b].id && PairOf(s[a]) != PairOf(s[b]) && s[a].id < nextId
      {
        var a' := if a < i then a else a + 1;
        var b' := if b < i then b else b + 1;
        assert s[a] == chats[a'] && s[b] == chats[b'] && a' < b';
      }
      forall a | 0 <= a < |s| ensures s[a].id < nextId {
        var a' := if a < i then a else a + 1;
        assert s[a] == chats[a'];
      }
    }
  }

  /** `Chat.find({ participants: me })`, in store order. */
  function Involving(chats: seq<Chat>, me: UserId): (r: seq<Chat>)
    ensures forall c :: c in r <==> c in chats && me in c.participants
    ensures forall c :: multiset(r)[c] == if me in c.participants then multiset(chats)[c] else 0
    ensures |r| <= |chats|
  {
    if chats == [] then []
    else
      assert chats == [chats[0]] + chats[1..];
      if me in chats[0].participants then [chats[0]] + Involving(chats[1..], me)
      else Involving(chats[1..], me)
  }

  predicate NewestFirstOrder(s: seq<Chat>)
  {
    forall i, j | 0 <= i < j < |s| :: s[i].updatedAt >= s[j].updatedAt
  }

  /** The head of a newest-first list is at least as new as every chat in it. */
  lemma HeadIsNewest(s: seq<Chat>)
    requires s != [] && NewestFirstOrder(s)
    ensures forall x | x in s :: x.updatedAt <= s[0].updatedAt
  {
    forall x | x in s ensures x.updatedAt <= s[0].updatedAt {
      var k :| 0 <= k < |s| && s[k] == x;
      if k > 0 { assert s[0].updatedAt >= s[k].updatedAt; }
    }
  }

  lemma ConsNewestFirst(h: Chat, t: seq<Chat>)
    requires NewestFirstOrder(t)
    requires forall x | x in t :: x.updatedAt <= h.updatedAt
    ensures NewestFirstOrder([h] + t)
  {
    var s := [h] + t;
    forall i, j | 0 <= i < j < |s| ensures s[i].updatedAt >= s[j].updatedAt {
      if i == 0 {
        assert s[j] == t[j - 1] && t[j - 1] in t;
      } else {
        assert s[i] == t[i - 1] && s[j] == t[j - 1];
      }
    }
  }

  /** Inserts `c` into a newest-first list, ahead of the chats no newer than it. */
  function Insert(c: Chat, s: seq<Chat>): (r: seq<Chat>)
    requires NewestFirstOrder(s)
    ensures NewestFirstOrder(r)
    ensures multiset(r) == multiset(s) + multiset{c}
    ensures forall x | x in r :: x == c || x in s
  {
    if s == [] || s[0].updatedAt <= c.updatedAt then
      HeadIsNewestOrEmpty(c, s);
      [c] + s
    else
      assert NewestFirstOrder(s[1..]) by {
        forall i, j | 0 <= i < j < |s| - 1 ensures s[1..][i].updatedAt >= s[1..][j].updatedAt {
          assert s[1..][i] == s[i + 1] && s[1..][j] == s[j + 1];
        }
      }
      var t := Insert(c, s[1..]);
      HeadIsNewest(s);
      assert s == [s[0]] + s[1..];
      assert forall x | x in t :: x.updatedAt <= s[0].updatedAt;
      ConsNewestFirst(s[0], t);
      [s[0]] + t
  }

  lemma HeadIsNewestOrEmpty(c: Chat, s: seq<Chat>)
    requires NewestFirstOrder(s)
    requires s == [] || s[0].updatedAt <= c.updatedAt
    ensures NewestFirstOrder([c] + s)
  {
    if s != [] { HeadIsNewest(s); }
    ConsNewestFirst(c, s);
  }

  /** `.sort({ updatedAt: -1 })`: the same chats, newest first. */
  function NewestFirst(s: seq<Chat>): (r: seq<Chat>)
    ensures NewestFirstOrder(r)
    ensures multiset(r) == multiset(s)
  {
    if s == [] then []
    else
      assert s == [s[0]] + s[1..];
      Insert(s[0], NewestFirst(s[1..]))
  }

  /** GET /me/chats: exactly the chats `me` takes part in, newest first. */
  function MyChats(chats: seq<Chat>, me: UserId): (r: seq<Chat>)
    ensures NewestFirstOrder(r)
    ensures forall c :: c in r <==> c in chats && me in c.participants
    ensures forall c :: multiset(r)[c] == if me in c.participants then multiset(chats)[c] else 0
  {
    var r := NewestFirst(Involving(chats, me));
    assert forall c :: c in r <==> c in multiset(r);
    r
  }

  /**
   * With a clock that has moved past every stored chat, the chat a message
   * was just posted to heads the sender's list.
   */
  lemma PostedChatListedFirst(chats: seq<Chat>, me: UserId, other: UserId, text: string, freshId: ChatId, now: int)
    requires forall c | c in chats :: c.updatedAt < now
    ensures var (c, s) := Post(chats, me, other, text, freshId, now);
            var l := MyChats(s, me);
            l != [] && l[0] == c
  {
    var (c, s) := Post(chats, me, other, text, freshId, now);
    PostOnlyAddsChat(chats, me, other, text, freshId, now);
    var l := MyChats(s, me);
    assert c in l;
    var k :| 0 <= k < |l| && l[k] == c;
    assert l[0].updatedAt >= l[k].updatedAt;
  }

  /** After a post the store holds the posted chat and otherwise chats it held before. */
  lemma PostOnlyAddsChat(chats: seq<Chat>, me: UserId, other: UserId, text: string, freshId: ChatId, now: int)
    ensures var (c, s) := Post(chats, me, other, text, freshId, now);
            c in s && forall x | x in s :: x == c || x in chats
  {
    var (c, s) := Post(chats, me, other, text, freshId, now);
    forall x | x in s ensures x == c || x in chats {
      var k :| 0 <= k < |s| && s[k] == x;
      if FindPair(chats, me, other).Some? {
        var i := FindPair(chats, me, other).value;
        if k != i { assert s[k] == chats[k]; }
      } else if k < |chats| {
        assert s[k] == chats[k];
      }
    }
  }
}
