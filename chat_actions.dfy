/**
 * The chat server actions: finding or creating the pair chat, sending a message, the unread
 * counter over the caller's read watermarks, marking a chat as read, and the cursor-paged
 * "older messages" query.
 */
module ChatActions {
  import opened Wrappers
  import opened Store
  import Seqs

  /* ---------- finding or creating the pair chat ---------- */

  /**
   * `createOrFindChatAndRedirect`. The result is the chat the caller is redirected to, or
   * `None` when the action only logs an error. `newChatId` is the id the database would assign
   * and `storeFails` a failure of the lookup or of the insert.
   */
  method CreateOrFindChatAndRedirect(db: Database, session: Option<UserId>, receiverId: UserId,
                                     now: int, newChatId: ChatId, storeFails: bool)
    returns (redirect: Option<ChatId>)
    requires db.Valid()
    requires newChatId !in db.participants
    modifies db`participants, db`updatedAt, db`lastReadAt
    ensures db.Valid()
    ensures !SignedIn(session) || session.value == receiverId || storeFails ==> redirect.None?
    ensures redirect.None? ==> unchanged(db)
    // an existing pair chat is reused and nothing is written
    ensures (SignedIn(session) && session.value != receiverId && !storeFails
             && HasPairChat(old(db.participants), session.value, receiverId)) ==>
      && redirect.Some? && redirect.value in old(db.participants) && unchanged(db)
    // otherwise a chat with exactly the two is created, unless a foreign key is missing
    ensures (SignedIn(session) && session.value != receiverId && !storeFails
             && !HasPairChat(old(db.participants), session.value, receiverId)) ==>
      if session.value in old(db.users) && receiverId in old(db.users) then
        && redirect == Some(newChatId)
        && db.participants == old(db.participants)[newChatId := {session.value, receiverId}]
        && db.updatedAt == old(db.updatedAt)[newChatId := now]
        && db.lastReadAt == old(db.lastReadAt)[Participation(session.value, newChatId) := None]
                                              [Participation(receiverId, newChatId) := None]
      else redirect.None?
    ensures redirect.Some? ==>
      && SignedIn(session)
      && redirect.value in db.participants
      && db.participants[redirect.value] == {session.value, receiverId}
  {
    if !SignedIn(session) {
      return None;
    }
    var currentUserId := session.value;
    if currentUserId == receiverId {
      return None;
    }
    if storeFails {
      return None;
    }
    var existing := db.FindPairChat(currentUserId, receiverId);
    if existing.Some? {
      redirect := existing;
    } else {
      if currentUserId !in db.users || receiverId !in db.users {
        // the nested participant rows violate their foreign key; the error is caught
        return None;
      }
      db.CreatePairChat(newChatId, currentUserId, receiverId, now);
      redirect := Some(newChatId);
    }
  }

  /* ---------- sending a message ---------- */

  const MaxMessageLength := 1000

  /** The outcome of `messageSchema.safeParse` on the form's `content` entry. */
  datatype ContentCheck = ContentOk(content: string) | ContentRejected(errors: seq<string>)

  /**
   * `messageSchema`: the content must be a string of 1 to 1000 characters. A missing form
   * entry (`null`) is not a string.
   */
  function MessageSchema(content: Option<string>): (r: ContentCheck)
    ensures r.ContentOk? <==> content.Some? && 1 <= |content.value| <= MaxMessageLength
    ensures r.ContentOk? ==> r.content == content.value
    ensures r.ContentRejected? ==> |r.errors| == 1
  {
    if content.None? then ContentRejected(["Expected string, received null"])
    else if |content.value| < 1 then ContentRejected(["Nachricht darf nicht leer sein."])
    else if |content.value| > MaxMessageLength then ContentRejected(["Nachricht zu lang."])
    else ContentOk(content.value)
  }

  /** The author fields a message is returned with. */
  datatype MessageAuthor = MessageAuthor(id: UserId, name: Option<string>, image: Option<string>)

  /** A message as the actions return it to the client; `createdAt` stays in milliseconds. */
  datatype ReturnedMessage = ReturnedMessage(
    id: MessageId,
    content: string,
    createdAt: int,
    authorId: Option<UserId>,
    chatId: ChatId,
    author: Option<MessageAuthor>,
    isSystemMessage: bool)

  /** A message row with its author joined in, as both `sendMessage` and `getOlderMessages` format it. */
  function Returned(users: map<UserId, User>, m: Message): (r: ReturnedMessage)
    ensures r.id == m.id && r.content == m.content && r.createdAt == m.createdAt
    ensures r.authorId == m.author && r.chatId == m.chat && r.isSystemMessage == m.isSystem
    ensures r.author.Some? <==> m.author.Some? && m.author.value in users
    ensures r.author.Some? ==> r.author.value.id == m.author.value
  {
    var author :=
      if m.author.Some? && m.author.value in users
      then Some(MessageAuthor(m.author.value, users[m.author.value].name, users[m.author.value].image))
      else None;
    ReturnedMessage(m.id, m.content, m.createdAt, m.author, m.chat, author, m.isSystem)
  }

  datatype SendError = Unauthorized | ValidationFailed(fieldErrors: seq<string>) | NotParticipant | StoreError

  /** What `sendMessage` answers the form with. */
  datatype SendMessageState = Sent(newMessage: ReturnedMessage) | SendFailed(error: SendError)

  /**
   * `sendMessage`. `now` is the database clock for both writes, `newMessageId` the id the
   * database would assign, and `storeFails` a failure of the participant lookup or of the
   * transaction.
   */
  method SendMessage(db: Database, session: Option<UserId>, chat: ChatId, content: Option<string>,
                     now: int, newMessageId: MessageId, storeFails: bool)
    returns (r: SendMessageState)
    requires db.Valid()
    requires newMessageId !in MessageIds(db.messages)
    modifies db`messages, db`updatedAt
    ensures db.Valid()
    ensures !SignedIn(session) ==> r == SendFailed(Unauthorized)
    ensures SignedIn(session) && MessageSchema(content).ContentRejected? ==>
      r == SendFailed(ValidationFailed(MessageSchema(content).errors))
    ensures SignedIn(session) && MessageSchema(content).ContentOk? && storeFails ==> r == SendFailed(StoreError)
    ensures (SignedIn(session) && MessageSchema(content).ContentOk? && !storeFails
             && Participation(session.value, chat) !in old(db.lastReadAt)) ==> r == SendFailed(NotParticipant)
    ensures r.Sent? <==>
      SignedIn(session) && MessageSchema(content).ContentOk? && !storeFails
      && Participation(session.value, chat) in old(db.lastReadAt)
    ensures !r.Sent? ==> unchanged(db)
    // one authored message is appended, the chat is bumped, and the payload mirrors the row
    ensures r.Sent? ==>
      var m := Message(newMessageId, chat, session, content.value, false, now);
      && db.messages == old(db.messages) + [m]
      && db.updatedAt == old(db.updatedAt)[chat := now]
      && r.newMessage == Returned(db.users, m)
      && r.newMessage.authorId == session && !r.newMessage.isSystemMessage
      && r.newMessage.author.Some?
  {
    if !SignedIn(session) {
      return SendFailed(Unauthorized);
    }
    var currentUserId := session.value;
    var validated := MessageSchema(content);
    if validated.ContentRejected? {
      return SendFailed(ValidationFailed(validated.errors));
    }
    if storeFails {
      return SendFailed(StoreError);
    }
    if Participation(currentUserId, chat) !in db.lastReadAt {
      return SendFailed(NotParticipant);
    }
    // a participation row names an existing chat whose members are users
    assert chat in db.participants && currentUserId in db.participants[chat];
    assert currentUserId in db.users;
    var m := Message(newMessageId, chat, Some(currentUserId), validated.content, false, now);
    db.AppendMessage(m);
    db.Touch(chat, now);
    r := Sent(Returned(db.users, m));
  }

  /* ---------- unread messages ---------- */

  /**
   * The SQL condition `authorId <> currentUserId`: a null author (a system message) makes the
   * comparison unknown, so it is not counted.
   */
  predicate AuthoredByOther(m: Message, user: UserId) {
    m.author.Some? && m.author.value != user
  }

  /** A null `lastReadAt` compares as the epoch. */
  function Watermark(lastRead: Option<int>): int {
    if lastRead.Some? then lastRead.value else 0
  }

  /** The `message.count` query for one participation: messages of `chat` by someone else after `since`. */
  function UnreadInChat(msgs: seq<Message>, user: UserId, chat: ChatId, since: int): nat {
    if msgs == [] then 0
    else
      (if msgs[0].chat == chat && AuthoredByOther(msgs[0], user) && msgs[0].createdAt > since then 1 else 0)
      + UnreadInChat(msgs[1..], user, chat, since)
  }

  /** A message is unread for `user` when the user takes part in its chat and it is by someone else after the watermark. */
  predicate IsUnread(m: Message, user: UserId, lastReadAt: map<Participation, Option<int>>) {
    && Participation(user, m.chat) in lastReadAt
    && AuthoredByOther(m, user)
    && m.createdAt > Watermark(lastReadAt[Participation(user, m.chat)])
  }

  /** The number of messages unread for `user`, counted message by message. */
  function UnreadTotal(msgs: seq<Message>, user: UserId, lastReadAt: map<Participation, Option<int>>): nat {
    if msgs == [] then 0
    else (if IsUnread(msgs[0], user, lastReadAt) then 1 else 0) + UnreadTotal(msgs[1..], user, lastReadAt)
  }

  /** The unread messages that lie in the chats `chats`. */
  function UnreadAmong(msgs: seq<Message>, user: UserId, lastReadAt: map<Participation, Option<int>>,
                       chats: set<ChatId>): nat {
    if msgs == [] then 0
    else
      (if IsUnread(msgs[0], user, lastReadAt) && msgs[0].chat in chats then 1 else 0)
      + UnreadAmong(msgs[1..], user, lastReadAt, chats)
  }

  lemma {:induction false} UnreadAmongNone(msgs: seq<Message>, user: UserId, lastReadAt: map<Participation, Option<int>>)
    ensures UnreadAmong(msgs, user, lastReadAt, {}) == 0
  {
    if msgs != [] {
      UnreadAmongNone(msgs[1..], user, lastReadAt);
    }
  }

  /** Adding one of the user's chats adds exactly that chat's `message.count`. */
  lemma {:induction false} UnreadAmongAdd(msgs: seq<Message>, user: UserId, lastReadAt: map<Participation, Option<int>>,
                                          chats: set<ChatId>, c: ChatId)
    requires c !in chats
    requires Participation(user, c) in lastReadAt
    ensures UnreadAmong(msgs, user, lastReadAt, chats + {c})
         == UnreadAmong(msgs, user, lastReadAt, chats) + UnreadInChat(msgs, user, c, Watermark(lastReadAt[Participation(user, c)]))
  {
    if msgs != [] {
      UnreadAmongAdd(msgs[1..], user, lastReadAt, chats, c);
    }
  }

  /** Counting over a superset of the user's chats counts every unread message. */
  lemma {:induction false} UnreadAmongAll(msgs: seq<Message>, user: UserId, lastReadAt: map<Participation, Option<int>>,
                                          chats: set<ChatId>)
    requires forall p :: p in lastReadAt && p.user == user ==> p.chat in chats
    ensures UnreadAmong(msgs, user, lastReadAt, chats) == UnreadTotal(msgs, user, lastReadAt)
  {
    if msgs != [] {
      UnreadAmongAll(msgs[1..], user, lastReadAt, chats);
      if IsUnread(msgs[0], user, lastReadAt) {
        assert Participation(user, msgs[0].chat).chat in chats;
      }
    }
  }

  /** Once the watermark is at or after every message's time, the chat has nothing unread. */
  lemma {:induction false} NothingUnreadAfter(msgs: seq<Message>, user: UserId, chat: ChatId, since: int)
    requires forall i :: 0 <= i < |msgs| ==> msgs[i].createdAt <= since
    ensures UnreadInChat(msgs, user, chat, since) == 0
  {
    if msgs != [] {
      assert msgs[0].createdAt <= since;
      NothingUnreadAfter(msgs[1..], user, chat, since);
    }
  }

  /** The chats `user` takes part in: the `chatParticipant` rows selected by user id. */
  function ChatsOf(lastReadAt: map<Participation, Option<int>>, user: UserId): (chats: set<ChatId>)
    ensures forall c :: c in chats <==> Participation(user, c) in lastReadAt
  {
    set p | p in lastReadAt && p.user == user :: p.chat
  }

  /**
   * `getUnreadMessageCount`: sums the per-participation counts. The participations are visited
   * by chat; a user has at most one participation per chat.
   */
  method GetUnreadMessageCount(db: Database, session: Option<UserId>, storeFails: bool) returns (total: nat)
    ensures !SignedIn(session) || storeFails ==> total == 0
    ensures SignedIn(session) && !storeFails ==> total == UnreadTotal(db.messages, session.value, db.lastReadAt)
  {
    if !SignedIn(session) {
      return 0;
    }
    var currentUserId := session.value;
    if storeFails {
      return 0;
    }
    var msgs, lastReadAt := db.messages, db.lastReadAt;
    var participations := ChatsOf(lastReadAt, currentUserId);
    if participations == {} {
      UnreadAmongNone(msgs, currentUserId, lastReadAt);
      UnreadAmongAll(msgs, currentUserId, lastReadAt, {});
      return 0;
    }
    total := 0;
    var pending := participations;
    ghost var counted: set<ChatId> := {};
    UnreadAmongNone(msgs, currentUserId, lastReadAt);
    while pending != {}
      invariant counted !! pending && counted + pending == participations
      invariant total == UnreadAmong(msgs, currentUserId, lastReadAt, counted)
      decreases |pending|
    {
      var c :| c in pending;
      var unreadMessagesInChat :=
        UnreadInChat(msgs, currentUserId, c, Watermark(lastReadAt[Participation(currentUserId, c)]));
      UnreadAmongAdd(msgs, currentUserId, lastReadAt, counted, c);
      total := total + unreadMessagesInChat;
      counted := counted + {c};
      pending := pending - {c};
    }
    UnreadAmongAll(msgs, currentUserId, lastReadAt, counted);
  }

  /* ---------- marking a chat as read ---------- */

  datatype MarkReadResult = MarkReadResult(success: bool, error: Option<string>)

  /** `markChatAsRead`: moves the caller's watermark for `chat` to `now`; a missing row fails the update. */
  method MarkChatAsRead(db: Database, session: Option<UserId>, chat: ChatId, now: int, storeFails: bool)
    returns (r: MarkReadResult)
    requires db.Valid()
    modifies db`lastReadAt
    ensures db.Valid()
    ensures !SignedIn(session) ==> r == MarkReadResult(false, Some("Nicht autorisiert."))
    ensures r.success <==> SignedIn(session) && !storeFails && Participation(session.value, chat) in old(db.lastReadAt)
    ensures r.success ==> r.error.None? && db.lastReadAt == old(db.lastReadAt)[Participation(session.value, chat) := Some(now)]
    ensures !r.success ==> r.error.Some? && unchanged(db)
  {
    if !SignedIn(session) {
      return MarkReadResult(false, Some("Nicht autorisiert."));
    }
    var currentUserId := session.value;
    if storeFails || Participation(currentUserId, chat) !in db.lastReadAt {
      return MarkReadResult(false, Some("Fehler beim Aktualisieren des Lesestatus."));
    }
    db.SetLastRead(Participation(currentUserId, chat), now);
    r := MarkReadResult(true, None);
  }

  /** After marking a chat as read at `now`, none of its messages written up to `now` counts as unread. */
  lemma MarkReadClearsChat(msgs: seq<Message>, lastReadAt: map<Participation, Option<int>>,
                           user: UserId, chat: ChatId, now: int)
    requires forall i :: 0 <= i < |msgs| ==> msgs[i].createdAt <= now
    ensures var marked := lastReadAt[Participation(user, chat) := Some(now)];
      UnreadInChat(msgs, user, chat, Watermark(marked[Participation(user, chat)])) == 0
  {
    NothingUnreadAfter(msgs, user, chat, now);
  }

  /* ---------- older messages ---------- */

  const MessagesPerPage := 20

  /** What `getOlderMessages` returns; a missing `nextCursor` and a null one are both `None`. */
  datatype OlderMessagesPage = OlderMessagesPage(messages: seq<ReturnedMessage>, nextCursor: Option<MessageId>, hasMore: bool)

  /** The page's rows in the order the query returns them (newest first), before formatting. */
  datatype PageRows = PageRows(rows: seq<Message>, nextCursor: Option<MessageId>, hasMore: bool)

  predicate DistinctIds(s: seq<Message>) {
    forall i, j :: 0 <= i < j < |s| ==> s[i].id != s[j].id
  }

  /** The messages of `chat` in the order they were written, which is ascending `createdAt`. */
  function ChatMessages(msgs: seq<Message>, chat: ChatId): (r: seq<Message>)
    ensures forall m :: m in r ==> m in msgs && m.chat == chat
  {
    Seqs.Filter(msgs, InChat(chat))
  }

  function InChat(chat: ChatId): Message -> bool {
    (m: Message) => m.chat == chat
  }

  /** The first index of a message with id `id`. */
  function IndexOfId(s: seq<Message>, id: MessageId): (r: Option<nat>)
    ensures r.Some? ==> r.value < |s| && s[r.value].id == id
    ensures r.None? ==> forall k :: 0 <= k < |s| ==> s[k].id != id
  {
    if s == [] then None
    else if s[0].id == id then Some(0)
    else match IndexOfId(s[1..], id)
      case None => None
      case Some(k) => Some(k + 1)
  }

  /** A cursor is present when it is a non-empty id (the empty string is falsy). */
  predicate HasCursor(cursor: Option<MessageId>) {
    cursor.Some? && cursor.value != ""
  }

  /**
   * The rows `findMany` fetches from the newest-first list `desc`: at most 21, starting after the
   * cursor row when there is a cursor; a cursor naming no row of the chat fetches nothing.
   */
  function FetchOlder(desc: seq<Message>, cursor: Option<MessageId>): (rows: seq<Message>)
    ensures |rows| <= MessagesPerPage + 1
  {
    if !HasCursor(cursor) then Seqs.Take(desc, MessagesPerPage + 1)
    else match IndexOfId(desc, cursor.value)
      case None => []
      case Some(j) => Seqs.Take(desc[j + 1..], MessagesPerPage + 1)
  }

  /** `hasMore`, the slice to 20 and `nextCursor`, on the fetched newest-first rows. */
  function PageRowsOf(desc: seq<Message>, cursor: Option<MessageId>): PageRows {
    PageOfFetched(FetchOlder(desc, cursor))
  }

  function PageOfFetched(fetched: seq<Message>): PageRows {
    var hasMore := |fetched| > MessagesPerPage;
    var result := if hasMore then fetched[..MessagesPerPage] else fetched;
    var nextCursor := if |result| > 0 then Some(result[|result| - 1].id) else None;
    PageRows(result, nextCursor, hasMore)
  }

  function FormatAll(users: map<UserId, User>, s: seq<Message>): (r: seq<ReturnedMessage>)
    ensures |r| == |s|
    ensures forall i :: 0 <= i < |s| ==> r[i] == Returned(users, s[i])
  {
    seq(|s|, i requires 0 <= i < |s| => Returned(users, s[i]))
  }

  /**
   * `getOlderMessages`. No session, a caller without a participation row, or a failing query
   * give an empty page.
   */
  function GetOlderMessages(db: Database, session: Option<UserId>, chat: ChatId, cursor: Option<MessageId>,
                            storeFails: bool): (page: OlderMessagesPage)
    reads db
    ensures !SignedIn(session) || Participation(session.value, chat) !in db.lastReadAt || storeFails ==>
      page == OlderMessagesPage([], None, false)
    ensures |page.messages| <= MessagesPerPage
  {
    if !SignedIn(session) then OlderMessagesPage([], None, false)
    else if Participation(session.value, chat) !in db.lastReadAt then OlderMessagesPage([], None, false)
    else if storeFails then OlderMessagesPage([], None, false)
    else OlderPage(db.users, db.messages, chat, cursor)
  }

  /** The page `getOlderMessages` builds for a participant from the message table. */
  function OlderPage(users: map<UserId, User>, msgs: seq<Message>, chat: ChatId, cursor: Option<MessageId>): (page: OlderMessagesPage)
    ensures |page.messages| <= MessagesPerPage
  {
    var p := PageRowsOf(Seqs.Reverse(ChatMessages(msgs, chat)), cursor);
    OlderMessagesPage(Seqs.Reverse(FormatAll(users, p.rows)), p.nextCursor, p.hasMore)
  }

  /** Where the page ends in the chat's oldest-first list: the cursor's index, the list's end without a cursor, `None` for an unknown cursor. */
  function CursorEnd(chron: seq<Message>, cursor: Option<MessageId>): (e: Option<nat>)
    ensures e.Some? ==> e.value <= |chron|
    ensures !HasCursor(cursor) ==> e == Some(|chron|)
    ensures HasCursor(cursor) && e.Some? ==> e.value < |chron| && chron[e.value].id == cursor.value
    ensures HasCursor(cursor) && e.None? ==> forall k :: 0 <= k < |chron| ==> chron[k].id != cursor.value
  {
    if !HasCursor(cursor) then Some(|chron|) else IndexOfId(chron, cursor.value)
  }

  function PageStart(e: nat): nat {
    if e <= MessagesPerPage then 0 else e - MessagesPerPage
  }

  lemma ReverseDistinct(s: seq<Message>)
    requires DistinctIds(s)
    ensures DistinctIds(Seqs.Reverse(s))
  {
    var r := Seqs.Reverse(s);
    forall i, j | 0 <= i < j < |r|
      ensures r[i].id != r[j].id
    {
    }
  }

  /** With a known cursor at `e`, the rows fetched start at position |chron| - e of the newest-first list. */
  lemma FetchOlderStart(chron: seq<Message>, cursor: Option<MessageId>, e: nat)
    requires DistinctIds(chron)
    requires CursorEnd(chron, cursor) == Some(e)
    ensures FetchOlder(Seqs.Reverse(chron), cursor) == Seqs.Take(Seqs.Reverse(chron)[|chron| - e..], MessagesPerPage + 1)
  {
    var desc := Seqs.Reverse(chron);
    var n := |chron|;
    if !HasCursor(cursor) {
      assert desc[n - e..] == desc;
    } else {
      ReverseDistinct(chron);
      assert chron[e].id == cursor.value;
      assert desc[n - 1 - e].id == cursor.value;
      var j := IndexOfId(desc, cursor.value);
      assert j.Some?;
      assert j.value == n - 1 - e;
      assert FetchOlder(desc, cursor) == Seqs.Take(desc[j.value + 1..], MessagesPerPage + 1);
    }
  }

  /**
   * The rows of a page, put back into oldest-first order, are the (up to) 20 messages just
   * before the cursor (or the newest 20 without one); `hasMore` says whether anything older
   * exists, and `nextCursor` names the oldest row returned.
   */
  lemma PageRowsWindow(chron: seq<Message>, cursor: Option<MessageId>, e: nat)
    requires DistinctIds(chron)
    requires CursorEnd(chron, cursor) == Some(e)
    ensures var p := PageRowsOf(Seqs.Reverse(chron), cursor);
      && Seqs.Reverse(p.rows) == chron[PageStart(e)..e]
      && (p.hasMore <==> e > MessagesPerPage)
      && p.nextCursor == (if e == 0 then None else Some(chron[PageStart(e)].id))
  {
    FetchOlderStart(chron, cursor, e);
    FetchedWindow(chron, e);
  }

  /** The slicing of `getOlderMessages` applied to the rows just before position `e`, newest first. */
  lemma FetchedWindow(chron: seq<Message>, e: nat)
    requires e <= |chron|
    ensures var p := PageOfFetched(Seqs.Take(Seqs.Reverse(chron)[|chron| - e..], MessagesPerPage + 1));
      && Seqs.Reverse(p.rows) == chron[PageStart(e)..e]
      && (p.hasMore <==> e > MessagesPerPage)
      && p.nextCursor == (if e == 0 then None else Some(chron[PageStart(e)].id))
  {
    var desc := Seqs.Reverse(chron);
    var p := PageOfFetched(Seqs.Take(desc[|chron| - e..], MessagesPerPage + 1));
    assert p.rows == desc[|chron| - e..|chron| - PageStart(e)];
    Seqs.ReverseSlice(chron, PageStart(e), e);
    if e > 0 {
    }
  }

  lemma FormatReverse(users: map<UserId, User>, s: seq<Message>)
    ensures Seqs.Reverse(FormatAll(users, s)) == FormatAll(users, Seqs.Reverse(s))
  {
    var a := Seqs.Reverse(FormatAll(users, s));
    var b := FormatAll(users, Seqs.Reverse(s));
    forall k | 0 <= k < |s|
      ensures a[k] == b[k]
    {
    }
  }

  /** A cursor that names no message of the chat selects nothing. */
  lemma UnknownCursorFetchesNothing(chron: seq<Message>, cursor: Option<MessageId>)
    requires DistinctIds(chron)
    requires CursorEnd(chron, cursor) == None
    ensures FetchOlder(Seqs.Reverse(chron), cursor) == []
  {
    ReverseDistinct(chron);
    var j := IndexOfId(Seqs.Reverse(chron), cursor.value);
    if j.Some? {
    }
  }

  /** The messages before the cursor's position never include the cursor message. */
  lemma WindowExcludesCursor(users: map<UserId, User>, chron: seq<Message>, cursor: Option<MessageId>, e: nat)
    requires DistinctIds(chron)
    requires HasCursor(cursor) && CursorEnd(chron, cursor) == Some(e)
    ensures forall m :: m in FormatAll(users, chron[PageStart(e)..e]) ==> m.id != cursor.value
  {
    var shown := FormatAll(users, chron[PageStart(e)..e]);
    forall m | m in shown
      ensures m.id != cursor.value
    {
      var k :| 0 <= k < |shown| && shown[k] == m;
      assert m.id == chron[PageStart(e) + k].id;
    }
  }

  /** `OlderPage` over a message table with distinct ids: the window before the cursor. */
  lemma OlderPageWindow(users: map<UserId, User>, msgs: seq<Message>, chat: ChatId, cursor: Option<MessageId>)
    requires DistinctIds(msgs)
    ensures var chron := ChatMessages(msgs, chat);
      var page := OlderPage(users, msgs, chat, cursor);
      match CursorEnd(chron, cursor)
      case None => page == OlderMessagesPage([], None, false)
      case Some(e) =>
        && page.messages == FormatAll(users, chron[PageStart(e)..e])
        && (page.hasMore <==> e > MessagesPerPage)
        && page.nextCursor == (if e == 0 then None else Some(chron[PageStart(e)].id))
        && (HasCursor(cursor) ==> forall m :: m in page.messages ==> m.id != cursor.value)
  {
    var chron := ChatMessages(msgs, chat);
    Seqs.FilterDistinctBy(msgs, InChat(chat), (m: Message) => m.id);
    var p := PageRowsOf(Seqs.Reverse(chron), cursor);
    match CursorEnd(chron, cursor)
    case None =>
      UnknownCursorFetchesNothing(chron, cursor);
    case Some(e) =>
      PageRowsWindow(chron, cursor, e);
      FormatReverse(users, p.rows);
      if HasCursor(cursor) {
        WindowExcludesCursor(users, chron, cursor, e);
      }
  }

  /**
   * The page a participant gets: the messages just older than the cursor in ascending time
   * order, at most 20, never the cursor message itself; `hasMore` exactly when older ones
   * remain; `nextCursor` the oldest returned id. An unknown cursor gives an empty page.
   */
  lemma OlderMessagesWindow(db: Database, session: Option<UserId>, chat: ChatId, cursor: Option<MessageId>)
    requires db.Valid()
    requires SignedIn(session) && Participation(session.value, chat) in db.lastReadAt
    ensures var chron := ChatMessages(db.messages, chat);
      var page := GetOlderMessages(db, session, chat, cursor, false);
      match CursorEnd(chron, cursor)
      case None => page == OlderMessagesPage([], None, false)
      case Some(e) =>
        && page.messages == FormatAll(db.users, chron[PageStart(e)..e])
        && (page.hasMore <==> e > MessagesPerPage)
        && page.nextCursor == (if e == 0 then None else Some(chron[PageStart(e)].id))
        && (HasCursor(cursor) ==> forall m :: m in page.messages ==> m.id != cursor.value)
  {
    assert DistinctIds(db.messages);
    OlderPageWindow(db.users, db.messages, chat, cursor);
  }
}
