/**
 * The main navigation menu: the link targets visible to the visitor, in their declared order,
 * each rendered as a link marked current when it points at the current pathname (or as a
 * button when it carries an action), followed by the sign-out entry for a signed-in visitor.
 */
module MainNavigation {
  import opened Wrappers
  import Seqs

  /** An entry of `linkTargets`; the `action` callback is represented by a name. */
  datatype LinkTarget = LinkTarget(
    text: string,
    url: string,
    isPrivate: bool,
    isPublicOnly: bool,
    action: Option<string>,
    isButton: bool)

  /** What a click on a rendered entry does, in order. */
  datatype Effect = RunAction(name: string) | Navigate(url: string) | SignOut(callbackUrl: string) | CloseMenu

  datatype MenuItem =
    | ButtonItem(key: string, text: string, action: string)
    | LinkItem(key: string, text: string, href: string, current: bool)
    | SignOutItem

  function Link(text: string, url: string, isPrivate: bool): LinkTarget {
    LinkTarget(text, url, isPrivate, false, None, false)
  }

  /** The menu's link targets, in display order. */
  const LinkTargets: seq<LinkTarget> := [
    Link("Startseite", "/", false),
    Link("Benutzer entdecken", "/users", false),
    Link("Profil bearbeiten", "/profile/edit", true),
    Link("Chat", "/chat", true),
    Link("Lesezeichen", "/bookmarks", true),
    Link("Likes", "/likes", true)
  ]

  /** The filter of `getMenuItems`: a private target needs a session, a public-only one its absence. */
  predicate Visible(t: LinkTarget, isLoggedIn: bool) {
    if t.isPrivate then isLoggedIn
    else if t.isPublicOnly then !isLoggedIn
    else true
  }

  function VisibleTo(isLoggedIn: bool): LinkTarget -> bool {
    (t: LinkTarget) => Visible(t, isLoggedIn)
  }

  /** The map step of `getMenuItems`. */
  function ItemFor(pathname: string, t: LinkTarget): (item: MenuItem)
    ensures item.ButtonItem? <==> t.isButton && t.action.Some?
    ensures item.ButtonItem? ==> item.key == t.text && item.text == t.text && item.action == t.action.value
    ensures item.LinkItem? ==> item.key == t.url && item.text == t.text && item.href == t.url
    ensures item.LinkItem? ==> (item.current <==> t.url == pathname)
  {
    if t.isButton && t.action.Some? then ButtonItem(t.text, t.text, t.action.value)
    else LinkItem(t.url, t.text, t.url, t.url == pathname)
  }

  function ItemAt(pathname: string): LinkTarget -> MenuItem {
    (t: LinkTarget) => ItemFor(pathname, t)
  }

  /** `getMenuItems`: the visible targets, in order, rendered for `pathname`. */
  function GetMenuItems(linkTargets: seq<LinkTarget>, pathname: string, isLoggedIn: bool): (items: seq<MenuItem>)
    ensures |items| <= |linkTargets|
    ensures forall item :: item in items ==>
      exists t :: t in linkTargets && Visible(t, isLoggedIn) && item == ItemFor(pathname, t)
  {
    var visible := Seqs.Filter(linkTargets, VisibleTo(isLoggedIn));
    var items := Seqs.Map(visible, ItemAt(pathname));
    assert forall i :: 0 <= i < |items| ==> visible[i] in visible;
    items
  }

  /** Every visible target has its entry. */
  lemma GetMenuItemsComplete(linkTargets: seq<LinkTarget>, pathname: string, isLoggedIn: bool, t: LinkTarget)
    requires t in linkTargets && Visible(t, isLoggedIn)
    ensures ItemFor(pathname, t) in GetMenuItems(linkTargets, pathname, isLoggedIn)
  {
    var visible := Seqs.Filter(linkTargets, VisibleTo(isLoggedIn));
    Seqs.FilterMembership(linkTargets, VisibleTo(isLoggedIn), t);
    var i :| 0 <= i < |visible| && visible[i] == t;
    assert Seqs.Map(visible, ItemAt(pathname))[i] == ItemFor(pathname, t);
  }

  /** The filter keeps the declared order: the entries of a prefix come before the rest. */
  lemma GetMenuItemsKeepsOrder(front: seq<LinkTarget>, back: seq<LinkTarget>, pathname: string, isLoggedIn: bool)
    ensures GetMenuItems(front + back, pathname, isLoggedIn)
         == GetMenuItems(front, pathname, isLoggedIn) + GetMenuItems(back, pathname, isLoggedIn)
  {
    Seqs.FilterConcat(front, back, VisibleTo(isLoggedIn));
    var a := Seqs.Filter(front, VisibleTo(isLoggedIn));
    var b := Seqs.Filter(back, VisibleTo(isLoggedIn));
    Seqs.MapConcat(a, b, ItemAt(pathname));
  }

  /** Private targets are shown exactly when signed in, public-only ones exactly when signed out. */
  lemma VisibilityByFlags(t: LinkTarget, isLoggedIn: bool)
    ensures t.isPrivate ==> (Visible(t, isLoggedIn) <==> isLoggedIn)
    ensures !t.isPrivate && t.isPublicOnly ==> (Visible(t, isLoggedIn) <==> !isLoggedIn)
    ensures !t.isPrivate && !t.isPublicOnly ==> Visible(t, isLoggedIn)
  {
  }

  /**
   * What clicking an entry does: a button runs its action and then closes the menu, sign-out
   * signs out and then closes it, and a link closes it in its `onClick` before `Link` navigates.
   */
  function ClickEffects(item: MenuItem): (effects: seq<Effect>)
    ensures |effects| == 2 && CloseMenu in effects
    ensures item.ButtonItem? ==> effects == [RunAction(item.action), CloseMenu]
    ensures item.LinkItem? ==> effects == [CloseMenu, Navigate(item.href)]
    ensures item.SignOutItem? ==> effects == [SignOut("/"), CloseMenu]
  {
    match item
    case ButtonItem(_, _, action) => [RunAction(action), CloseMenu]
    case LinkItem(_, _, href, _) => [CloseMenu, Navigate(href)]
    case SignOutItem => [SignOut("/"), CloseMenu]
  }

  /** The sign-out entry is never one of the mapped targets. */
  lemma NoSignOutAmongItems(linkTargets: seq<LinkTarget>, pathname: string, isLoggedIn: bool)
    ensures SignOutItem !in GetMenuItems(linkTargets, pathname, isLoggedIn)
  {
  }

  /** The open dropdown: the menu items, then the sign-out entry for a signed-in visitor; nothing while closed. */
  function DropdownEntries(isOpen: bool, pathname: string, isLoggedIn: bool): (entries: seq<MenuItem>)
    ensures !isOpen ==> entries == []
    ensures isOpen ==> (SignOutItem in entries <==> isLoggedIn)
    ensures isOpen && isLoggedIn ==> entries[|entries| - 1] == SignOutItem
  {
    if !isOpen then []
    else
      var items := GetMenuItems(LinkTargets, pathname, isLoggedIn);
      NoSignOutAmongItems(LinkTargets, pathname, isLoggedIn);
      items + (if isLoggedIn then [SignOutItem] else [])
  }

  /** Ordinary public targets followed by private ones: a signed-out visitor sees the public ones. */
  lemma PublicBeforePrivate(front: seq<LinkTarget>, back: seq<LinkTarget>)
    requires forall i :: 0 <= i < |front| ==> !front[i].isPrivate && !front[i].isPublicOnly
    requires forall i :: 0 <= i < |back| ==> back[i].isPrivate
    ensures Seqs.Filter(front + back, VisibleTo(false)) == front
  {
    Seqs.FilterConcat(front, back, VisibleTo(false));
    Seqs.FilterKeepsAll(front, VisibleTo(false));
    Seqs.FilterDropsAll(back, VisibleTo(false));
  }

  /** A signed-out visitor is offered the two public targets, in order. */
  lemma MenuTargetsSignedOut()
    ensures Seqs.Filter(LinkTargets, VisibleTo(false)) == LinkTargets[..2]
  {
    assert LinkTargets == LinkTargets[..2] + LinkTargets[2..];
    PublicBeforePrivate(LinkTargets[..2], LinkTargets[2..]);
  }

  /** A signed-in visitor is offered all six targets, in order. */
  lemma MenuTargetsSignedIn()
    ensures Seqs.Filter(LinkTargets, VisibleTo(true)) == LinkTargets
  {
    Seqs.FilterKeepsAll(LinkTargets, VisibleTo(true));
  }

  predicate DistinctUrls(s: seq<LinkTarget>) {
    forall a, b :: 0 <= a < b < |s| ==> s[a].url != s[b].url
  }

  /** Among targets with distinct urls, at most one entry is marked as the current page. */
  lemma AtMostOneCurrent(linkTargets: seq<LinkTarget>, pathname: string, isLoggedIn: bool, i: nat, j: nat)
    requires DistinctUrls(linkTargets)
    requires forall a :: 0 <= a < |linkTargets| ==> !linkTargets[a].isButton
    requires var items := GetMenuItems(linkTargets, pathname, isLoggedIn);
      i < |items| && j < |items| && items[i].LinkItem? && items[j].LinkItem? && items[i].current && items[j].current
    ensures i == j
  {
    var visible := Seqs.Filter(linkTargets, VisibleTo(isLoggedIn));
    var items := Seqs.Map(visible, ItemAt(pathname));
    assert items[i] == ItemFor(pathname, visible[i]) && items[j] == ItemFor(pathname, visible[j]);
    assert visible[i].url == pathname == visible[j].url;
    Seqs.FilterDistinctBy(linkTargets, VisibleTo(isLoggedIn), (t: LinkTarget) => t.url);
  }
}
