/**
 * The like button: an optimistic toggle of the local `isLiked` flag that is reverted when the
 * like action fails and replaced by the server's answer when it succeeds.
 */
module LikeButtonView {
  import opened Wrappers
  import opened Store
  import LikeActions

  /** What the button shows inside itself. */
  datatype Icon = Spinner | FilledHeart | EmptyHeart

  /**
   * The flag after a completed click: the value before the click when the action failed, the
   * server's `isLiked` when it succeeded with one, and the optimistic flip otherwise.
   */
  function Settled(before: bool, response: LikeActions.ToggleLikeResponse): (after: bool)
    ensures !response.success ==> after == before
    ensures response.success && response.isLiked.Some? ==> after == response.isLiked.value
    ensures response.success && response.isLiked.None? ==> after == !before
  {
    var newIsLikedState := !before;
    if !response.success then !newIsLikedState
    else if response.isLiked.Some? then response.isLiked.value
    else newIsLikedState
  }

  class LikeButton {
    const likedUserId: UserId
    const currentUserId: Option<UserId>
    var isLiked: bool
    var isPending: bool

    constructor (likedUserId: UserId, initialIsLiked: bool, currentUserId: Option<UserId>)
      ensures this.likedUserId == likedUserId && this.currentUserId == currentUserId
      ensures isLiked == initialIsLiked && !isPending
    {
      this.likedUserId := likedUserId;
      this.currentUserId := currentUserId;
      isLiked := initialIsLiked;
      isPending := false;
    }

    /** The button is rendered only for a signed-in user looking at someone else. */
    predicate Renders() {
      SignedIn(currentUserId) && currentUserId.value != likedUserId
    }

    /** The `aria-label` and `title`, which say what a click would do. */
    function Label(): (text: string)
      reads this
      ensures isLiked ==> text == "Like entfernen"
      ensures !isLiked ==> text == "Like hinzuf\U{FC}gen"
    {
      if isLiked then "Like entfernen" else "Like hinzuf\U{FC}gen"
    }

    function ShownIcon(): (icon: Icon)
      reads this
      ensures isPending <==> icon == Spinner
      ensures !isPending ==> (icon == FilledHeart <==> isLiked)
    {
      if isPending then Spinner else if isLiked then FilledHeart else EmptyHeart
    }

    /** A click on the enabled button: the flag flips at once and the transition is pending. */
    method Click() returns (newIsLikedState: bool)
      requires Renders() && !isPending
      modifies this`isLiked, this`isPending
      ensures isLiked == !old(isLiked) && newIsLikedState == isLiked
      ensures isPending
    {
      newIsLikedState := !isLiked;
      isLiked := newIsLikedState;
      isPending := true;
    }

    /** The action's answer arrives and the transition ends. */
    method Complete(newIsLikedState: bool, response: LikeActions.ToggleLikeResponse)
      requires isPending && isLiked == newIsLikedState
      modifies this`isLiked, this`isPending
      ensures isLiked == Settled(!newIsLikedState, response)
      ensures !isPending
    {
      if !response.success {
        isLiked := !newIsLikedState;
      } else if response.isLiked.Some? {
        isLiked := response.isLiked.value;
      }
      isPending := false;
    }

    /**
     * `handleToggleLike` end to end: after a failed action the button shows what it showed
     * before the click; after a successful one it shows whether the like edge now exists.
     */
    method HandleToggleLike(db: Database, now: int, newChatId: ChatId, newMessageId: MessageId, storeFails: bool)
      returns (response: LikeActions.ToggleLikeResponse)
      requires Renders() && !isPending
      requires db.Valid()
      requires newChatId !in db.participants
      requires newMessageId !in MessageIds(db.messages)
      modifies this`isLiked, this`isPending
      modifies db`likes, db`participants, db`updatedAt, db`lastReadAt, db`messages
      ensures db.Valid() && !isPending
      ensures !response.success ==> isLiked == old(isLiked) && unchanged(db)
      ensures response.success ==> isLiked == (Edge(currentUserId.value, likedUserId) in db.likes)
    {
      var predicted := Click();
      response := LikeActions.TogglePhotoLike(db, currentUserId, likedUserId, now, newChatId, newMessageId, storeFails);
      Complete(predicted, response);
    }
  }
}
