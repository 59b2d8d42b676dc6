/**
 * The bookmark button: an optimistic toggle of the local `isBookmarked` flag, restored to the
 * value captured before the click when the bookmark action fails and replaced by the server's
 * answer when it succeeds.
 */
module BookmarkButtonView {
  import opened Wrappers
  import opened Store
  import BookmarkActions

  datatype Icon = Spinner | FilledStar | EmptyStar

  /**
   * The flag after a completed click, given the value captured before it: restored on failure,
   * the server's `isBookmarked` on success with one, the optimistic flip otherwise.
   */
  function Settled(captured: bool, response: BookmarkActions.ToggleBookmarkResponse): (after: bool)
    ensures !response.success ==> after == captured
    ensures response.success && response.isBookmarked.Some? ==> after == response.isBookmarked.value
    ensures response.success && response.isBookmarked.None? ==> after == !captured
  {
    if !response.success then captured
    else if response.isBookmarked.Some? then response.isBookmarked.value
    else !captured
  }

  class BookmarkButton {
    const bookmarkedUserId: UserId
    const currentUserId: Option<UserId>
    var isBookmarked: bool
    var isPending: bool

    constructor (bookmarkedUserId: UserId, initialIsBookmarked: bool, currentUserId: Option<UserId>)
      ensures this.bookmarkedUserId == bookmarkedUserId && this.currentUserId == currentUserId
      ensures isBookmarked == initialIsBookmarked && !isPending
    {
      this.bookmarkedUserId := bookmarkedUserId;
      this.currentUserId := currentUserId;
      isBookmarked := initialIsBookmarked;
      isPending := false;
    }

    /** The button is rendered only for a signed-in user looking at someone else. */
    predicate Renders() {
      SignedIn(currentUserId) && currentUserId.value != bookmarkedUserId
    }

    /** The `aria-label` and `title`, which say what a click would do. */
    function Label(): (text: string)
      reads this
      ensures isBookmarked ==> text == "Aus Lesezeichen entfernen"
      ensures !isBookmarked ==> text == "Zu Lesezeichen hinzuf\U{FC}gen"
    {
      if isBookmarked then "Aus Lesezeichen entfernen" else "Zu Lesezeichen hinzuf\U{FC}gen"
    }

    function ShownIcon(): (icon: Icon)
      reads this
      ensures isPending <==> icon == Spinner
      ensures !isPending ==> (icon == FilledStar <==> isBookmarked)
    {
      if isPending then Spinner else if isBookmarked then FilledStar else EmptyStar
    }

    /** A click on the enabled button: the flag flips at once; the handler keeps the value it saw. */
    method Click() returns (captured: bool)
      requires Renders() && !isPending
      modifies this`isBookmarked, this`isPending
      ensures captured == old(isBookmarked) && isBookmarked == !captured
      ensures isPending
    {
      captured := isBookmarked;
      isBookmarked := !captured;
      isPending := true;
    }

    /** The action's answer arrives and the transition ends. */
    method Complete(captured: bool, response: BookmarkActions.ToggleBookmarkResponse)
      requires isPending && isBookmarked == !captured
      modifies this`isBookmarked, this`isPending
      ensures isBookmarked == Settled(captured, response)
      ensures !isPending
    {
      if !response.success {
        isBookmarked := captured;
      } else if response.isBookmarked.Some? {
        isBookmarked := response.isBookmarked.value;
      }
      isPending := false;
    }

    /**
     * `handleToggleBookmark` end to end: after a failed action the button shows what it showed
     * before the click; after a successful one it shows whether the bookmark edge now exists.
     */
    method HandleToggleBookmark(db: Database, storeFails: bool)
      returns (response: BookmarkActions.ToggleBookmarkResponse)
      requires Renders() && !isPending
      requires db.Valid()
      modifies this`isBookmarked, this`isPending, db`bookmarks
      ensures db.Valid() && !isPending
      ensures !response.success ==> isBookmarked == old(isBookmarked) && db.bookmarks == old(db.bookmarks)
      ensures response.success ==> isBookmarked == (Edge(currentUserId.value, bookmarkedUserId) in db.bookmarks)
    {
      var captured := Click();
      response := BookmarkActions.ToggleBookmark(db, currentUserId, bookmarkedUserId, storeFails);
      Complete(captured, response);
    }
  }
}
