/**
 * The relational store behind the server actions: users, the PhotoLike and Bookmark edge
 * tables, chats with their participants and `updatedAt`, per-participant `lastReadAt`
 * watermarks and the message table. `Database` holds the tables; its methods are the single
 * row writes the actions issue (`create`, `delete`, `update`), each keeping `Valid()`.
 */
module Store {
  import opened Wrappers
  import opened Dates

  type UserId = string
  type ChatId = string
  type MessageId = string

  /** A row of the User table (only the columns the core reads or writes). */
  datatype User = User(
    id: UserId,
    name: Option<string>,
    image: Option<string>,
    birthDate: Option<Date>,
    gender: Option<string>,
    city: Option<string>,
    aboutMe: Option<string>)

  /** A directed row of the PhotoLike or Bookmark table: `from` likes (bookmarks) `to`. */
  datatype Edge = Edge(from: UserId, to: UserId)

  /** The (userId, chatId) key of a ChatParticipant row. */
  datatype Participation = Participation(user: UserId, chat: ChatId)

  /** A row of the Message table; `createdAt` is in milliseconds since the epoch. */
  datatype Message = Message(
    id: MessageId,
    chat: ChatId,
    author: Option<UserId>,
    content: string,
    isSystem: bool,
    createdAt: int)

  /**
   * The session check every action starts with, `!session?.user?.id`: a missing session and an
   * empty id (falsy in JavaScript) are both signed out.
   */
  predicate SignedIn(session: Option<UserId>) {
    session.Some? && session.value != ""
  }

  /**
   * The chat lookup both find-or-create paths use: some participant is `a`, some
   * participant is `b`, and every participant is `a` or `b`.
   */
  predicate IsPairChat(members: set<UserId>, a: UserId, b: UserId) {
    a in members && b in members && members <= {a, b}
  }

  /** Some chat of `participants` passes the pair lookup for `a` and `b`. */
  ghost predicate HasPairChat(participants: map<ChatId, set<UserId>>, a: UserId, b: UserId) {
    exists c :: c in participants && IsPairChat(participants[c], a, b)
  }

  /** The edge set after toggling `e`: removed when present, inserted when absent. */
  function ToggleEdge(edges: set<Edge>, e: Edge): (r: set<Edge>)
    ensures e in r <==> e !in edges
    ensures forall x :: x != e ==> (x in r <==> x in edges)
  {
    if e in edges then edges - {e} else edges + {e}
  }

  /** Toggling the same edge twice gives back the original edge set. */
  lemma ToggleEdgeTwice(edges: set<Edge>, e: Edge)
    ensures ToggleEdge(ToggleEdge(edges, e), e) == edges
  {
  }

  function MessageIds(msgs: seq<Message>): set<MessageId> {
    set m | m in msgs :: m.id
  }

  ghost predicate EdgesValid(edges: set<Edge>, users: map<UserId, User>) {
    forall e :: e in edges ==> e.from in users && e.to in users && e.from != e.to
  }

  /** Every chat has exactly two participants, all of them users, and no two chats share a pair. */
  ghost predicate ChatsValid(participants: map<ChatId, set<UserId>>, updatedAt: map<ChatId, int>, users: map<UserId, User>) {
    && participants.Keys == updatedAt.Keys
    && (forall c :: c in participants ==> |participants[c]| == 2 && participants[c] <= users.Keys)
    && (forall c1, c2 :: c1 in participants && c2 in participants && participants[c1] == participants[c2] ==> c1 == c2)
  }

  /** There is a ChatParticipant row exactly for each member of each chat. */
  ghost predicate ParticipationsValid(lastReadAt: map<Participation, Option<int>>, participants: map<ChatId, set<UserId>>) {
    && (forall p :: p in lastReadAt ==> p.chat in participants && p.user in participants[p.chat])
    && (forall c, u :: c in participants && u in participants[c] ==> Participation(u, c) in lastReadAt)
  }

  /** A message belongs to a chat, has an author exactly when it is not a system message, and is written by a participant. */
  predicate WellFormedMessage(m: Message, participants: map<ChatId, set<UserId>>) {
    && m.chat in participants
    && (m.isSystem <==> m.author.None?)
    && (m.author.Some? ==> m.author.value in participants[m.chat])
  }

  ghost predicate MessagesValid(msgs: seq<Message>, participants: map<ChatId, set<UserId>>) {
    && (forall i :: 0 <= i < |msgs| ==> WellFormedMessage(msgs[i], participants))
    && (forall i, j :: 0 <= i < j < |msgs| ==> msgs[i].id != msgs[j].id)
  }

  /** The chat-related tables of the store, as one value. */
  datatype ChatTables = ChatTables(
    participants: map<ChatId, set<UserId>>,
    updatedAt: map<ChatId, int>,
    lastReadAt: map<Participation, Option<int>>,
    messages: seq<Message>)

  class Database {
    var users: map<UserId, User>
    var likes: set<Edge>
    var bookmarks: set<Edge>
    var participants: map<ChatId, set<UserId>>
    var updatedAt: map<ChatId, int>
    var lastReadAt: map<Participation, Option<int>>
    var messages: seq<Message>

    ghost predicate Valid()
      reads this
    {
      && (forall k :: k in users ==> users[k].id == k)
      && EdgesValid(likes, users)
      && EdgesValid(bookmarks, users)
      && ChatsValid(participants, updatedAt, users)
      && ParticipationsValid(lastReadAt, participants)
      && MessagesValid(messages, participants)
    }

    function Chats(): ChatTables
      reads this
    {
      ChatTables(participants, updatedAt, lastReadAt, messages)
    }

    /** A store holding the given users and nothing else. */
    constructor (initialUsers: map<UserId, User>)
      requires forall k :: k in initialUsers ==> initialUsers[k].id == k
      ensures Valid()
      ensures users == initialUsers
      ensures likes == {} && bookmarks == {} && participants == map[] && updatedAt == map[]
      ensures lastReadAt == map[] && messages == []
    {
      users := initialUsers;
      likes, bookmarks := {}, {};
      participants, updatedAt, lastReadAt := map[], map[], map[];
      messages := [];
    }

    /** `photoLike.create`: only between two distinct existing users. */
    method InsertLike(e: Edge)
      requires Valid()
      requires e.from in users && e.to in users && e.from != e.to
      modifies this`likes
      ensures Valid()
      ensures likes == old(likes) + {e}
    {
      likes := likes + {e};
    }

    /** `photoLike.delete`. */
    method DeleteLike(e: Edge)
      requires Valid()
      modifies this`likes
      ensures Valid()
      ensures likes == old(likes) - {e}
    {
      likes := likes - {e};
    }

    /** `bookmark.create`: only between two distinct existing users. */
    method InsertBookmark(e: Edge)
      requires Valid()
      requires e.from in users && e.to in users && e.from != e.to
      modifies this`bookmarks
      ensures Valid()
      ensures bookmarks == old(bookmarks) + {e}
    {
      bookmarks := bookmarks + {e};
    }

    /** `bookmark.delete`. */
    method DeleteBookmark(e: Edge)
      requires Valid()
      modifies this`bookmarks
      ensures Valid()
      ensures bookmarks == old(bookmarks) - {e}
    {
      bookmarks := bookmarks - {e};
    }

    /**
     * `chat.findFirst` with the pair condition. The database returns some matching row;
     * the store keeps at most one chat per pair, so the answer is the pair's chat if any.
     */
    method FindPairChat(a: UserId, b: UserId) returns (found: Option<ChatId>)
      requires Valid()
      ensures found.Some? ==> found.value in participants && participants[found.value] == {a, b}
      ensures found.None? ==> forall c :: c in participants ==> !IsPairChat(participants[c], a, b)
      ensures found.Some? ==> forall c :: c in participants && IsPairChat(participants[c], a, b) ==> c == found.value
    {
      if c :| c in participants && IsPairChat(participants[c], a, b) {
        PairChatHasTwoMembers(participants[c], a, b);
        found := Some(c);
        forall c' | c' in participants && IsPairChat(participants[c'], a, b)
          ensures c' == c
        {
          PairChatHasTwoMembers(participants[c'], a, b);
        }
      } else {
        found := None;
      }
    }

    /**
     * `chat.create` with nested ChatParticipant rows for `a` and `b` (`lastReadAt` null);
     * `updatedAt` starts at `now`.
     */
    method CreatePairChat(id: ChatId, a: UserId, b: UserId, now: int)
      requires Valid()
      requires id !in participants
      requires a != b && a in users && b in users
      requires forall c :: c in participants ==> !IsPairChat(participants[c], a, b)
      modifies this`participants, this`updatedAt, this`lastReadAt
      ensures Valid()
      ensures participants == old(participants)[id := {a, b}]
      ensures updatedAt == old(updatedAt)[id := now]
      ensures lastReadAt == old(lastReadAt)[Participation(a, id) := None][Participation(b, id) := None]
    {
      var participants' := participants[id := {a, b}];
      var updatedAt' := updatedAt[id := now];
      var lastReadAt' := lastReadAt[Participation(a, id) := None][Participation(b, id) := None];
      ChatsValidAddPair(participants, updatedAt, users, id, a, b, now);
      ParticipationsValidAddPair(lastReadAt, participants, id, a, b);
      MessagesValidNewChat(messages, participants, id, {a, b});
      participants, updatedAt, lastReadAt := participants', updatedAt', lastReadAt';
    }

    /** `message.create`. */
    method AppendMessage(m: Message)
      requires Valid()
      requires m.id !in MessageIds(messages)
      requires WellFormedMessage(m, participants)
      modifies this`messages
      ensures Valid()
      ensures messages == old(messages) + [m]
    {
      MessagesValidAppend(messages, participants, m);
      messages := messages + [m];
    }

    /** `chat.update` of `updatedAt`. */
    method Touch(c: ChatId, now: int)
      requires Valid()
      requires c in participants
      modifies this`updatedAt
      ensures Valid()
      ensures updatedAt == old(updatedAt)[c := now]
    {
      updatedAt := updatedAt[c := now];
    }

    /** `chatParticipant.update` of `lastReadAt`. */
    method SetLastRead(p: Participation, t: int)
      requires Valid()
      requires p in lastReadAt
      modifies this`lastReadAt
      ensures Valid()
      ensures lastReadAt == old(lastReadAt)[p := Some(t)]
    {
      lastReadAt := lastReadAt[p := Some(t)];
    }

    /** `user.update` of an existing row. */
    method UpdateUser(u: User)
      requires Valid()
      requires u.id in users
      modifies this`users
      ensures Valid()
      ensures users == old(users)[u.id := u]
    {
      users := users[u.id := u];
    }
  }

  /** A pair chat of a two-member chat is exactly the set {a, b}, and a and b differ. */
  lemma PairChatHasTwoMembers(members: set<UserId>, a: UserId, b: UserId)
    requires IsPairChat(members, a, b) && |members| == 2
    ensures members == {a, b} && a != b
  {
  }

  lemma ChatsValidAddPair(participants: map<ChatId, set<UserId>>, updatedAt: map<ChatId, int>,
                          users: map<UserId, User>, id: ChatId, a: UserId, b: UserId, now: int)
    requires ChatsValid(participants, updatedAt, users)
    requires id !in participants && a != b && a in users && b in users
    requires forall c :: c in participants ==> !IsPairChat(participants[c], a, b)
    ensures ChatsValid(participants[id := {a, b}], updatedAt[id := now], users)
  {
    var p' := participants[id := {a, b}];
    assert |{a, b}| == 2;
    forall c | c in participants
      ensures participants[c] != {a, b}
    {
      assert !IsPairChat(participants[c], a, b);
    }
    forall c1, c2 | c1 in p' && c2 in p' && p'[c1] == p'[c2]
      ensures c1 == c2
    {
      if c1 != id && c2 != id {
        assert participants[c1] == participants[c2];
      }
    }
  }

  lemma ParticipationsValidAddPair(lastReadAt: map<Participation, Option<int>>,
                                   participants: map<ChatId, set<UserId>>, id: ChatId, a: UserId, b: UserId)
    requires ParticipationsValid(lastReadAt, participants)
    requires id !in participants
    ensures ParticipationsValid(lastReadAt[Participation(a, id) := None][Participation(b, id) := None],
                                participants[id := {a, b}])
  {
    var l' := lastReadAt[Participation(a, id) := None][Participation(b, id) := None];
    var p' := participants[id := {a, b}];
    forall p | p in l'
      ensures p.chat in p' && p.user in p'[p.chat]
    {
      if p != Participation(a, id) && p != Participation(b, id) {
        assert p in lastReadAt;
      }
    }
    forall c, u | c in p' && u in p'[c]
      ensures Participation(u, c) in l'
    {
      if c != id {
        assert Participation(u, c) in lastReadAt;
      }
    }
  }

  lemma MessagesValidNewChat(msgs: seq<Message>, participants: map<ChatId, set<UserId>>, id: ChatId, members: set<UserId>)
    requires MessagesValid(msgs, participants)
    requires id !in participants
    ensures MessagesValid(msgs, participants[id := members])
  {
    forall i | 0 <= i < |msgs|
      ensures WellFormedMessage(msgs[i], participants[id := members])
    {
      assert WellFormedMessage(msgs[i], participants);
    }
  }

  lemma MessagesValidAppend(msgs: seq<Message>, participants: map<ChatId, set<UserId>>, m: Message)
    requires MessagesValid(msgs, participants)
    requires m.id !in MessageIds(msgs)
    requires WellFormedMessage(m, participants)
    ensures MessagesValid(msgs + [m], participants)
  {
    var all := msgs + [m];
    forall i | 0 <= i < |all|
      ensures WellFormedMessage(all[i], participants)
    {
      if i < |msgs| {
        assert all[i] == msgs[i];
      }
    }
    forall i, j | 0 <= i < j < |all|
      ensures all[i].id != all[j].id
    {
      assert all[i] == msgs[i];
      if j < |msgs| {
        assert all[j] == msgs[j];
      } else {
        assert msgs[i] in msgs;
      }
    }
  }
}
