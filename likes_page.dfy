/**
 * The "Wem du gefällst" page: the PhotoLike rows whose target is the signed-in user, newest
 * first, mapped to the users who liked them; a visitor without a session is sent to sign in.
 */
module LikesPage {
  import opened Wrappers
  import opened Store
  import Seqs

  const SignInRedirect := "/api/auth/signin?callbackUrl=/likes"

  datatype View = RedirectTo(url: string) | Likers(users: seq<User>)

  /** `where: { likedUserId: currentUserId }`. */
  function ReceivedBy(me: UserId): Edge -> bool {
    (e: Edge) => e.to == me
  }

  /** `include: { liker }`: the user row of the edge's source, when there is one. */
  function LikerOf(users: map<UserId, User>, e: Edge): (liker: Option<User>)
    ensures liker.Some? <==> e.from in users
    ensures liker.Some? ==> liker.value == users[e.from]
  {
    if e.from in users then Some(users[e.from]) else None
  }

  function LikerOfIn(users: map<UserId, User>): Edge -> Option<User> {
    (e: Edge) => LikerOf(users, e)
  }

  /** `likesReceived.map((like) => like.liker)`. */
  function LikersOf(users: map<UserId, User>, likes: seq<Edge>): (likers: seq<Option<User>>)
    ensures |likers| == |likes|
    ensures forall i :: 0 <= i < |likes| ==> likers[i] == LikerOf(users, likes[i])
  {
    Seqs.Map(likes, LikerOfIn(users))
  }

  /**
   * The page for `session`, given the PhotoLike table `likesNewestFirst` in descending
   * `createdAt` order and the user table. Rows whose liker is missing are skipped.
   */
  function LikesView(session: Option<UserId>, likesNewestFirst: seq<Edge>, users: map<UserId, User>): (view: View)
    requires forall id :: id in users ==> users[id].id == id
    ensures view.RedirectTo? <==> !SignedIn(session)
    ensures view.RedirectTo? ==> view.url == SignInRedirect
    ensures view.Likers? ==> forall u :: u in view.users ==>
      Edge(u.id, session.value) in likesNewestFirst && u.id in users && users[u.id] == u
  {
    if !SignedIn(session) then RedirectTo(SignInRedirect)
    else
      var received := Seqs.Filter(likesNewestFirst, ReceivedBy(session.value));
      var shown := Seqs.Present(LikersOf(users, received));
      LikersHaveLiked(users, received, session.value, likesNewestFirst);
      Likers(shown)
  }

  lemma LikersHaveLiked(users: map<UserId, User>, received: seq<Edge>, me: UserId, table: seq<Edge>)
    requires forall id :: id in users ==> users[id].id == id
    requires forall e :: e in received ==> e in table && e.to == me
    ensures forall u :: u in Seqs.Present(LikersOf(users, received)) ==>
      Edge(u.id, me) in table && u.id in users && users[u.id] == u
  {
    var likers := LikersOf(users, received);
    Seqs.PresentMembership(likers);
    forall u: User | u in Seqs.Present(likers)
      ensures Edge(u.id, me) in table && u.id in users && users[u.id] == u
    {
      var i :| 0 <= i < |likers| && likers[i] == Some(u);
      assert received[i] in received;
    }
  }

  /** Everyone who liked the signed-in user and still has a user row is on the page. */
  lemma LikesViewComplete(me: UserId, likesNewestFirst: seq<Edge>, users: map<UserId, User>, liker: UserId)
    requires forall id :: id in users ==> users[id].id == id
    requires me != ""
    requires Edge(liker, me) in likesNewestFirst && liker in users
    ensures users[liker] in LikesView(Some(me), likesNewestFirst, users).users
  {
    var received := Seqs.Filter(likesNewestFirst, ReceivedBy(me));
    Seqs.FilterMembership(likesNewestFirst, ReceivedBy(me), Edge(liker, me));
    var i :| 0 <= i < |received| && received[i] == Edge(liker, me);
    assert LikersOf(users, received)[i] == Some(users[liker]);
    Seqs.PresentMembership(LikersOf(users, received));
  }

  /** Newest first is kept: the likes of an earlier part of the table come before those of a later part. */
  lemma LikesViewKeepsOrder(me: UserId, newer: seq<Edge>, older: seq<Edge>, users: map<UserId, User>)
    requires forall id :: id in users ==> users[id].id == id
    requires me != ""
    ensures LikesView(Some(me), newer + older, users).users
         == LikesView(Some(me), newer, users).users + LikesView(Some(me), older, users).users
  {
    Seqs.FilterConcat(newer, older, ReceivedBy(me));
    var a := Seqs.Filter(newer, ReceivedBy(me));
    var b := Seqs.Filter(older, ReceivedBy(me));
    Seqs.MapConcat(a, b, LikerOfIn(users));
    Seqs.PresentConcat(LikersOf(users, a), LikersOf(users, b));
  }
}
