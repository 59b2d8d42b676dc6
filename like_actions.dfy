/**
 * The like action: toggling the directed PhotoLike edge from the session user to another
 * user and, when the insert makes the like mutual, finding or creating the pair's chat and
 * announcing the match there with a system message, all in one transaction.
 */
module LikeActions {
  import opened Wrappers
  import opened Store
  import Strings

  datatype LikeError = Unauthorized | SelfLike | StoreError

  /** What `togglePhotoLike` returns; absent fields are `None`. */
  datatype ToggleLikeResponse = ToggleLikeResponse(
    success: bool,
    isLiked: Option<bool>,
    isMatch: Option<bool>,
    chatId: Option<ChatId>,
    error: Option<LikeError>)

  function Rejected(e: LikeError): ToggleLikeResponse {
    ToggleLikeResponse(false, None, None, None, Some(e))
  }

  /** The liker's name as the announcement shows it: the stored name, or 'jemand' when it is null or empty. */
  function DisplayName(name: Option<string>): (r: string)
    ensures r == "jemand" <==> name.None? || name.value == "" || name.value == "jemand"
    ensures name.Some? && name.value != "" ==> r == name.value
  {
    if name.Some? && name.value != "" then name.value else "jemand"
  }

  /** The system message text posted into the chat when a like becomes mutual. */
  function MatchAnnouncement(name: string): (text: string)
    ensures Strings.Contains(text, name)
  {
    Strings.ContainsInfix("\U{1F389} Sie und ", name, " haben sich gegenseitig geliked! Starten Sie ein Gespr\U{E4}ch.");
    "\U{1F389} Sie und " + name + " haben sich gegenseitig geliked! Starten Sie ein Gespr\U{E4}ch."
  }

  /**
   * `togglePhotoLike`. `now` is the transaction's clock, `newChatId` and `newMessageId` the ids
   * the database would assign, and `storeFails` a failure of any statement of the transaction.
   */
  method TogglePhotoLike(db: Database, session: Option<UserId>, likedUserId: UserId, now: int,
                         newChatId: ChatId, newMessageId: MessageId, storeFails: bool)
    returns (r: ToggleLikeResponse)
    requires db.Valid()
    requires newChatId !in db.participants
    requires newMessageId !in MessageIds(db.messages)
    modifies db`likes, db`participants, db`updatedAt, db`lastReadAt, db`messages
    ensures db.Valid()
    // rejected before any store access, and a failing transaction leaves no trace
    ensures !SignedIn(session) ==> r == Rejected(Unauthorized)
    ensures SignedIn(session) && session.value == likedUserId ==> r == Rejected(SelfLike)
    ensures SignedIn(session) && session.value != likedUserId && storeFails ==> r == Rejected(StoreError)
    ensures !r.success ==> unchanged(db) && r.isLiked.None? && r.isMatch.None? && r.chatId.None?
    // the edge is toggled; an insert may still fail on the foreign key to a missing user
    ensures r.success <==>
      && SignedIn(session) && session.value != likedUserId && !storeFails
      && (Edge(session.value, likedUserId) in old(db.likes)
          || (session.value in old(db.users) && likedUserId in old(db.users)))
    ensures r.success ==> db.likes == ToggleEdge(old(db.likes), Edge(session.value, likedUserId))
    ensures r.success ==> r.isLiked == Some(Edge(session.value, likedUserId) in db.likes)
    // a match is exactly an insert that finds the reverse edge
    ensures r.success ==> r.isMatch == Some(
      Edge(session.value, likedUserId) !in old(db.likes) && Edge(likedUserId, session.value) in old(db.likes))
    ensures r.isMatch != Some(true) ==> r.chatId.None? && db.Chats() == old(db.Chats())
    // on a match: the pair's one chat (reused, or created with exactly the two), one system message, updatedAt bumped
    ensures r.isMatch == Some(true) ==>
      && SignedIn(session) && r.chatId.Some?
      && MatchRecorded(old(db.Chats()), db.Chats(), session.value, likedUserId, old(db.users)[session.value].name,
                       r.chatId.value, now, newChatId, newMessageId)
  {
    if !SignedIn(session) {
      return Rejected(Unauthorized);
    }
    var likerId := session.value;
    if likerId == likedUserId {
      return Rejected(SelfLike);
    }
    if storeFails {
      // the transaction rolls back every statement it ran
      return Rejected(StoreError);
    }

    ghost var before := db.Chats();
    var isCurrentlyLiked := false;
    var matchOccurred := false;
    var newChatIdForMatch: Option<ChatId> := None;

    var like := Edge(likerId, likedUserId);
    if like in db.likes {
      db.DeleteLike(like);
      isCurrentlyLiked := false;
    } else {
      if likerId !in db.users || likedUserId !in db.users {
        // the foreign key rejects the insert and the transaction rolls back
        return Rejected(StoreError);
      }
      db.InsertLike(like);
      isCurrentlyLiked := true;

      if Edge(likedUserId, likerId) in db.likes {
        matchOccurred := true;
        assert db.Chats() == before;
        var chat := AnnounceMatch(db, likerId, likedUserId, now, newChatId, newMessageId);
        newChatIdForMatch := Some(chat);
      }
    }

    r := ToggleLikeResponse(true, Some(isCurrentlyLiked), Some(matchOccurred), newChatIdForMatch, None);
  }

  /**
   * What the match branch of the transaction leaves behind, `before` to `after`: the pair's
   * one chat (the existing one, or `newChatId` created with exactly the two participants and
   * null `lastReadAt`), one authorless system message naming the liker, and the chat's
   * `updatedAt` at `now`.
   */
  ghost predicate MatchRecorded(before: ChatTables, after: ChatTables, likerId: UserId, likedUserId: UserId,
                                likerName: Option<string>, chat: ChatId, now: int, newChatId: ChatId,
                                newMessageId: MessageId)
  {
    && chat in after.participants && after.participants[chat] == {likerId, likedUserId}
    && (if HasPairChat(before.participants, likerId, likedUserId)
        then chat in before.participants
             && after.participants == before.participants && after.lastReadAt == before.lastReadAt
        else chat == newChatId
             && after.participants == before.participants[newChatId := {likerId, likedUserId}]
             && after.lastReadAt == before.lastReadAt[Participation(likerId, newChatId) := None]
                                                     [Participation(likedUserId, newChatId) := None])
    && after.messages == before.messages + [Message(newMessageId, chat, None,
         MatchAnnouncement(DisplayName(likerName)), true, now)]
    && after.updatedAt == before.updatedAt[chat := now]
  }

  /** The match branch of the transaction: find or create the pair's chat, then announce the match in it. */
  method AnnounceMatch(db: Database, likerId: UserId, likedUserId: UserId, now: int,
                       newChatId: ChatId, newMessageId: MessageId)
    returns (chat: ChatId)
    requires db.Valid()
    requires likerId != likedUserId && likerId in db.users && likedUserId in db.users
    requires newChatId !in db.participants
    requires newMessageId !in MessageIds(db.messages)
    modifies db`participants, db`updatedAt, db`lastReadAt, db`messages
    ensures db.Valid()
    ensures MatchRecorded(old(db.Chats()), db.Chats(), likerId, likedUserId, db.users[likerId].name,
                          chat, now, newChatId, newMessageId)
  {
    ghost var before := db.Chats();
    chat := MatchChat(db, likerId, likedUserId, now, newChatId);
    ghost var ready := db.Chats();
    PostMatchMessage(db, likerId, likedUserId, chat, now, newMessageId);
    MatchRecordedAfterReady(before, ready, db.Chats(), likerId, likedUserId, db.users[likerId].name,
                            chat, now, newChatId, newMessageId);
  }

  /**
   * The announcement in the pair's chat: the authorless system message naming the liker,
   * created at `now`, and the chat's `updatedAt` bumped to `now`.
   */
  method PostMatchMessage(db: Database, likerId: UserId, likedUserId: UserId, chat: ChatId, now: int,
                          newMessageId: MessageId)
    requires db.Valid()
    requires likerId in db.users
    requires chat in db.participants && db.participants[chat] == {likerId, likedUserId}
    requires newMessageId !in MessageIds(db.messages)
    modifies db`updatedAt, db`messages
    ensures db.Valid()
    ensures db.Chats() == old(db.Chats()).(
      messages := old(db.messages) + [Message(newMessageId, chat, None,
                    MatchAnnouncement(DisplayName(db.users[likerId].name)), true, now)],
      updatedAt := old(db.updatedAt)[chat := now])
  {
    var content := MatchAnnouncement(DisplayName(db.users[likerId].name));
    db.AppendMessage(Message(newMessageId, chat, None, content, true, now));
    db.Touch(chat, now);
  }

  /**
   * The chat tables once the pair's chat is ready: the existing chat with nothing changed, or
   * `newChatId` created with exactly the two participants, null `lastReadAt` and `updatedAt`
   * at `now`.
   */
  ghost predicate PairChatReady(before: ChatTables, after: ChatTables, likerId: UserId, likedUserId: UserId,
                                chat: ChatId, now: int, newChatId: ChatId)
  {
    && chat in after.participants && after.participants[chat] == {likerId, likedUserId}
    && (if HasPairChat(before.participants, likerId, likedUserId)
        then chat in before.participants && after == before
        else chat == newChatId
             && after == before.(participants := before.participants[newChatId := {likerId, likedUserId}],
                                 updatedAt := before.updatedAt[newChatId := now],
                                 lastReadAt := before.lastReadAt[Participation(likerId, newChatId) := None]
                                                                [Participation(likedUserId, newChatId) := None]))
  }

  /** Posting the announcement into a ready pair chat completes what a match records. */
  lemma MatchRecordedAfterReady(before: ChatTables, ready: ChatTables, after: ChatTables,
                                likerId: UserId, likedUserId: UserId, likerName: Option<string>,
                                chat: ChatId, now: int, newChatId: ChatId, newMessageId: MessageId)
    requires PairChatReady(before, ready, likerId, likedUserId, chat, now, newChatId)
    requires after == ready.(messages := ready.messages + [Message(newMessageId, chat, None,
                                          MatchAnnouncement(DisplayName(likerName)), true, now)],
                             updatedAt := ready.updatedAt[chat := now])
    ensures MatchRecorded(before, after, likerId, likedUserId, likerName, chat, now, newChatId, newMessageId)
  {
  }

  /**
   * The chat the match is announced in: the pair's existing chat, or a new one created with
   * exactly the two participants (both `lastReadAt` null) and `updatedAt` at `now`.
   */
  method MatchChat(db: Database, likerId: UserId, likedUserId: UserId, now: int, newChatId: ChatId)
    returns (chat: ChatId)
    requires db.Valid()
    requires likerId != likedUserId && likerId in db.users && likedUserId in db.users
    requires newChatId !in db.participants
    modifies db`participants, db`updatedAt, db`lastReadAt
    ensures db.Valid()
    ensures PairChatReady(old(db.Chats()), db.Chats(), likerId, likedUserId, chat, now, newChatId)
  {
    var found := db.FindPairChat(likerId, likedUserId);
    if found.Some? {
      chat := found.value;
      assert IsPairChat(db.participants[chat], likerId, likedUserId);
    } else {
      db.CreatePairChat(newChatId, likerId, likedUserId, now);
      chat := newChatId;
    }
  }

  /** `hasUserLiked`: whether the session user has liked `likedUserId`; false on every failure path. */
  function HasUserLiked(db: Database, session: Option<UserId>, likedUserId: UserId, storeFails: bool): (r: bool)
    reads db
    ensures !SignedIn(session) || session.value == likedUserId || storeFails ==> !r
    ensures SignedIn(session) && session.value != likedUserId && !storeFails ==>
      (r <==> Edge(session.value, likedUserId) in db.likes)
  {
    if !SignedIn(session) then false
    else if session.value == likedUserId then false
    else if storeFails then false
    else Edge(session.value, likedUserId) in db.likes
  }
}
