/** The bookmark action: the same directed-edge toggle as liking, on the Bookmark table, without a transaction. */
module BookmarkActions {
  import opened Wrappers
  import opened Store

  datatype BookmarkError = Unauthorized | SelfBookmark | StoreError

  /** What `toggleBookmark` returns; absent fields are `None`. */
  datatype ToggleBookmarkResponse = ToggleBookmarkResponse(
    success: bool,
    isBookmarked: Option<bool>,
    error: Option<BookmarkError>)

  function Rejected(e: BookmarkError): ToggleBookmarkResponse {
    ToggleBookmarkResponse(false, None, Some(e))
  }

  /** `toggleBookmark`; `storeFails` is a failure of the lookup or of the write. */
  method ToggleBookmark(db: Database, session: Option<UserId>, bookmarkedUserId: UserId, storeFails: bool)
    returns (r: ToggleBookmarkResponse)
    requires db.Valid()
    modifies db`bookmarks
    ensures db.Valid()
    ensures !SignedIn(session) ==> r == Rejected(Unauthorized)
    ensures SignedIn(session) && session.value == bookmarkedUserId ==> r == Rejected(SelfBookmark)
    ensures SignedIn(session) && session.value != bookmarkedUserId && storeFails ==> r == Rejected(StoreError)
    ensures !r.success ==> db.bookmarks == old(db.bookmarks) && r.isBookmarked.None?
    ensures r.success <==>
      && SignedIn(session) && session.value != bookmarkedUserId && !storeFails
      && (Edge(session.value, bookmarkedUserId) in old(db.bookmarks)
          || (session.value in db.users && bookmarkedUserId in db.users))
    ensures r.success ==> db.bookmarks == ToggleEdge(old(db.bookmarks), Edge(session.value, bookmarkedUserId))
    ensures r.success ==> r.isBookmarked == Some(Edge(session.value, bookmarkedUserId) !in old(db.bookmarks))
  {
    if !SignedIn(session) {
      return Rejected(Unauthorized);
    }
    var bookmarkerId := session.value;
    if bookmarkerId == bookmarkedUserId {
      return Rejected(SelfBookmark);
    }
    if storeFails {
      return Rejected(StoreError);
    }
    var bookmark := Edge(bookmarkerId, bookmarkedUserId);
    if bookmark in db.bookmarks {
      db.DeleteBookmark(bookmark);
      r := ToggleBookmarkResponse(true, Some(false), None);
    } else {
      if bookmarkerId !in db.users || bookmarkedUserId !in db.users {
        // the foreign key rejects the insert
        return Rejected(StoreError);
      }
      db.InsertBookmark(bookmark);
      r := ToggleBookmarkResponse(true, Some(true), None);
    }
  }

  /** `isBookmarked`: whether the session user has bookmarked `bookmarkedUserId`; false on every failure path. */
  function IsBookmarked(db: Database, session: Option<UserId>, bookmarkedUserId: UserId, storeFails: bool): (r: bool)
    reads db
    ensures !SignedIn(session) || session.value == bookmarkedUserId || storeFails ==> !r
    ensures SignedIn(session) && session.value != bookmarkedUserId && !storeFails ==>
      (r <==> Edge(session.value, bookmarkedUserId) in db.bookmarks)
  {
    if !SignedIn(session) then false
    else if session.value == bookmarkedUserId then false
    else if storeFails then false
    else Edge(session.value, bookmarkedUserId) in db.bookmarks
  }
}
