/**
 * The "Meine Lesezeichen" page: the Bookmark rows made by the signed-in user, newest first,
 * mapped to the bookmarked users; a visitor without a session is sent to sign in.
 */
module BookmarksPage {
  import opened Wrappers
  import opened Store
  import Seqs

  const SignInRedirect := "/api/auth/signin?callbackUrl=/bookmarks"

  datatype View = RedirectTo(url: string) | Bookmarked(users: seq<User>)

  /** `where: { bookmarkerId: currentUserId }`. */
  function MadeBy(me: UserId): Edge -> bool {
    (e: Edge) => e.from == me
  }

  /** `include: { bookmarkedUser }`: the user row of the edge's target, when there is one. */
  function BookmarkedUserOf(users: map<UserId, User>, e: Edge): (bookmarked: Option<User>)
    ensures bookmarked.Some? <==> e.to in users
    ensures bookmarked.Some? ==> bookmarked.value == users[e.to]
  {
    if e.to in users then Some(users[e.to]) else None
  }

  function BookmarkedUserOfIn(users: map<UserId, User>): Edge -> Option<User> {
    (e: Edge) => BookmarkedUserOf(users, e)
  }

  /** `bookmarks.map((bookmark) => bookmark.bookmarkedUser)`. */
  function BookmarkedUsersOf(users: map<UserId, User>, bookmarks: seq<Edge>): (bookmarked: seq<Option<User>>)
    ensures |bookmarked| == |bookmarks|
    ensures forall i :: 0 <= i < |bookmarks| ==> bookmarked[i] == BookmarkedUserOf(users, bookmarks[i])
  {
    Seqs.Map(bookmarks, BookmarkedUserOfIn(users))
  }

  /**
   * The page for `session`, given the Bookmark table `bookmarksNewestFirst` in descending
   * `createdAt` order and the user table. Rows whose bookmarked user is missing are skipped.
   */
  function BookmarksView(session: Option<UserId>, bookmarksNewestFirst: seq<Edge>, users: map<UserId, User>): (view: View)
    requires forall id :: id in users ==> users[id].id == id
    ensures view.RedirectTo? <==> !SignedIn(session)
    ensures view.RedirectTo? ==> view.url == SignInRedirect
    ensures view.Bookmarked? ==> forall u :: u in view.users ==>
      Edge(session.value, u.id) in bookmarksNewestFirst && u.id in users && users[u.id] == u
  {
    if !SignedIn(session) then RedirectTo(SignInRedirect)
    else
      var made := Seqs.Filter(bookmarksNewestFirst, MadeBy(session.value));
      BookmarkedWereBookmarked(users, made, session.value, bookmarksNewestFirst);
      Bookmarked(Seqs.Present(BookmarkedUsersOf(users, made)))
  }

  lemma BookmarkedWereBookmarked(users: map<UserId, User>, made: seq<Edge>, me: UserId, table: seq<Edge>)
    requires forall id :: id in users ==> users[id].id == id
    requires forall e :: e in made ==> e in table && e.from == me
    ensures forall u :: u in Seqs.Present(BookmarkedUsersOf(users, made)) ==>
      Edge(me, u.id) in table && u.id in users && users[u.id] == u
  {
    var bookmarked := BookmarkedUsersOf(users, made);
    Seqs.PresentMembership(bookmarked);
    forall u: User | u in Seqs.Present(bookmarked)
      ensures Edge(me, u.id) in table && u.id in users && users[u.id] == u
    {
      var i :| 0 <= i < |bookmarked| && bookmarked[i] == Some(u);
      assert made[i] in made;
    }
  }

  /** Every bookmarked user that still has a user row is on the page. */
  lemma BookmarksViewComplete(me: UserId, bookmarksNewestFirst: seq<Edge>, users: map<UserId, User>, target: UserId)
    requires forall id :: id in users ==> users[id].id == id
    requires me != ""
    requires Edge(me, target) in bookmarksNewestFirst && target in users
    ensures users[target] in BookmarksView(Some(me), bookmarksNewestFirst, users).users
  {
    var made := Seqs.Filter(bookmarksNewestFirst, MadeBy(me));
    Seqs.FilterMembership(bookmarksNewestFirst, MadeBy(me), Edge(me, target));
    var i :| 0 <= i < |made| && made[i] == Edge(me, target);
    assert BookmarkedUsersOf(users, made)[i] == Some(users[target]);
    Seqs.PresentMembership(BookmarkedUsersOf(users, made));
  }

  /** Newest first is kept: bookmarks of an earlier part of the table come before those of a later part. */
  lemma BookmarksViewKeepsOrder(me: UserId, newer: seq<Edge>, older: seq<Edge>, users: map<UserId, User>)
    requires forall id :: id in users ==> users[id].id == id
    requires me != ""
    ensures BookmarksView(Some(me), newer + older, users).users
         == BookmarksView(Some(me), newer, users).users + BookmarksView(Some(me), older, users).users
  {
    Seqs.FilterConcat(newer, older, MadeBy(me));
    var a := Seqs.Filter(newer, MadeBy(me));
    var b := Seqs.Filter(older, MadeBy(me));
    Seqs.MapConcat(a, b, BookmarkedUserOfIn(users));
    Seqs.PresentConcat(BookmarkedUsersOf(users, a), BookmarkedUsersOf(users, b));
  }
}
