# A dating app's domain core, in Dafny

This project models the domain logic beneath a Next.js dating app. It also proves what that logic promises.

The server actions work on one relational store (`Store.Database`). The store holds:
- users;
- the directed PhotoLike and Bookmark edge tables;
- chats, with their participant sets and `updatedAt`;
- per-participant `lastReadAt` watermarks;
- the message table.

The operations modelled:
- **Likes.** `togglePhotoLike` toggles a like edge. When the like becomes mutual, the same transaction finds or creates the pair's two-person chat, posts an authorless system message naming the liker, and bumps the chat's `updatedAt`.
- **Chat actions.** Finding or creating a pair chat; `sendMessage`, with its 1..1000-character rule and participant check; the unread counter summed over the caller's chats; `markChatAsRead`; the cursor-paged "older messages" query of 20.
- **Bookmarks.** The same edge toggle on the Bookmark table, without a transaction.
- **Profile actions.** The profile field rules and the `'' → null` mapping. The photo upload's file checks, object path, old-photo deletion rule and clean-up after a failure.

On the client side:
- the chat view's deduplicating message list and one step of its long-polling loop;
- the optimistic like and bookmark buttons;
- the navigation menu's visibility filter;
- the filter menu's query building;
- the profile form's date text and photo preview.

On the pages: the home page's `andConditions` (image, city, gender, age range as birth-date bounds, viewer excluded, at most 50) and its like states; the directory's visibility rule and `calculateAge`; the likes and bookmarks pages.

Conventions:
- **Inputs.** Clocks, fresh database ids and store failures are parameters: `now`, `newChatId`, `newMessageId`, `storeFails`.
- **Time.** Timestamps are integers (milliseconds). Calendar dates are (year, month, day) triples.
- **Sessions.** A session is an `Option<UserId>`. `Store.SignedIn` is the actions' `!session?.user?.id` test: a missing session and an empty id are both signed out.
- **Database order.** Query results are given as sequences already in the order the database sorts them.

## Model

| member | source | states |
|---|---|---|
| Store.ToggleEdge | actions/likeActions.ts:52-66 | the toggled edge is present exactly when it was absent; every other edge keeps its membership |
| Store.ToggleEdgeTwice | actions/likeActions.ts:52-66 | toggling the same edge twice restores the original edge set |
| Store.Database.InsertLike | actions/likeActions.ts:59-66 | `photoLike.create` adds exactly the one edge and keeps the store valid |
| Store.Database.DeleteLike | actions/likeActions.ts:52-58 | `photoLike.delete` removes exactly the one edge |
| Store.Database.InsertBookmark | actions/bookmarkActions.ts:64-80 | `bookmark.create` adds exactly the one edge and keeps the store valid |
| Store.Database.DeleteBookmark | actions/bookmarkActions.ts:49-63 | `bookmark.delete` removes exactly the one edge |
| Store.Database.FindPairChat | actions/chatActions.ts:48-61 | the lookup (has a, has b, every participant in {a, b}) returns the pair's chat, whose members are exactly {a, b}, and it is the only one; `None` means no chat passes the lookup |
| Store.Database.CreatePairChat | actions/chatActions.ts:63-75 | creates the chat with exactly the two participant rows (`lastReadAt` null) and `updatedAt`; keeps "one chat per pair" and the other store invariants |
| Store.Database.AppendMessage | actions/chatActions.ts:167-187 | `message.create` appends exactly the one row and keeps message ids distinct |
| Store.Database.Touch | actions/likeActions.ts:125-128 | `chat.update` sets only that chat's `updatedAt` |
| Store.Database.SetLastRead | actions/chatActions.ts:300-313 | `chatParticipant.update` sets only that participation's `lastReadAt` |
| Store.Database.UpdateUser | actions/profileActions.ts:72-82 | `user.update` replaces only that user's row |
| LikeActions.DisplayName | actions/likeActions.ts:108-115 | a non-null, non-empty stored name is shown as it is; 'jemand' is shown exactly when the name is null or empty (or is itself 'jemand') |
| LikeActions.MatchAnnouncement | actions/likeActions.ts:113-115 | the system message text contains the displayed name |
| LikeActions.TogglePhotoLike | actions/likeActions.ts:22-158 | no session, self-like and store failure are rejected with no change; success exactly when the edge existed or both users exist; the like set is the toggled set; `isLiked` is the new membership; `isMatch` holds exactly when an insert finds the reverse edge; no match means no chat id and no chat-table change; a match records the pair's one chat, one system message and the `updatedAt` bump (`MatchRecorded`) |
| LikeActions.AnnounceMatch | actions/likeActions.ts:81-129 | the match branch leaves exactly what `MatchRecorded` describes: an existing pair chat is reused, or `newChatId` is created with exactly the two participants; one authorless system message naming the liker is added; the chat's `updatedAt` is `now` |
| LikeActions.MatchChat | actions/likeActions.ts:81-106 | the pair's existing chat is returned with nothing changed, or a new chat with exactly the two members is created |
| LikeActions.PostMatchMessage | actions/likeActions.ts:108-129 | appends the one system message (no author, `isSystemMessage`) and sets the chat's `updatedAt`; nothing else changes |
| LikeActions.MatchRecordedAfterReady | actions/likeActions.ts:81-129 | a ready pair chat plus the announcement is what a match records |
| LikeActions.HasUserLiked | actions/likeActions.ts:165-190 | false without a session, for oneself or on failure; otherwise true exactly when the like edge exists |
| BookmarkActions.ToggleBookmark | actions/bookmarkActions.ts:19-87 | no session, self-bookmark and store failure are rejected with no change; success exactly when the edge existed or both users exist; the bookmark set is the toggled set; `isBookmarked` says whether the edge was inserted |
| BookmarkActions.IsBookmarked | actions/bookmarkActions.ts:94-121 | false without a session, for oneself or on failure; otherwise true exactly when the bookmark edge exists |
| ChatActions.CreateOrFindChatAndRedirect | actions/chatActions.ts:30-86 | no session, self, store failure or a missing user: no redirect and no change; an existing pair chat is reused with nothing written; otherwise a chat with exactly the two is created and redirected to |
| ChatActions.MessageSchema | actions/chatActions.ts:88-93 | content is accepted exactly when it is a string of 1 to 1000 characters; a rejection carries one error |
| ChatActions.Returned | actions/chatActions.ts:15-23 | the returned message mirrors the row's id, content, time, author id, chat and system flag; the author object is present exactly for an existing author |
| ChatActions.SendMessage | actions/chatActions.ts:125-231 | no session, a failed validation (with its errors), store failure and a non-participant are rejected with no change; success exactly when none applies; success appends one message by the caller, not a system message, sets the chat's `updatedAt`, and returns that row |
| ChatActions.UnreadAmongNone | actions/chatActions.ts:245-258 | a user in no chat has nothing unread |
| ChatActions.UnreadAmongAdd | actions/chatActions.ts:259-272 | each visited participation adds exactly its chat's `message.count` |
| ChatActions.UnreadAmongAll | actions/chatActions.ts:259-272 | summing over all of a user's chats counts every unread message |
| ChatActions.ChatsOf | actions/chatActions.ts:245-255 | a chat is selected exactly when the user has a participation row for it |
| ChatActions.GetUnreadMessageCount | actions/chatActions.ts:237-282 | 0 without a session or on failure; otherwise the number of messages in the caller's chats, by someone else (not system messages), strictly after the caller's watermark (null = epoch) |
| ChatActions.NothingUnreadAfter | actions/chatActions.ts:259-272 | a chat whose watermark is at or after every message has nothing unread |
| ChatActions.MarkChatAsRead | actions/chatActions.ts:289-324 | succeeds exactly when signed in, without failure, and with a participation row; success sets only that `lastReadAt` to `now`; failure changes nothing and carries an error |
| ChatActions.MarkReadClearsChat | actions/chatActions.ts:300-313 | after marking a chat read at `now`, none of its messages up to `now` is unread |
| ChatActions.ChatMessages | actions/chatActions.ts:359-372 | the chat's messages are rows of the table in that chat |
| ChatActions.IndexOfId | actions/chatActions.ts:364-369 | returns a position holding the id, or `None` when no row has it |
| ChatActions.FetchOlder | actions/chatActions.ts:359-378 | at most 21 rows are fetched |
| ChatActions.FormatAll | actions/chatActions.ts:389-404 | each row is formatted in place, the length kept |
| ChatActions.GetOlderMessages | actions/chatActions.ts:340-412 | no session, a non-participant or a failure get the empty page; never more than 20 messages |
| ChatActions.OlderPage | actions/chatActions.ts:359-405 | never more than 20 messages |
| ChatActions.CursorEnd | actions/chatActions.ts:364-369 | without a cursor (null or empty) the page ends at the end of the chat; with one, it ends at a position holding the cursor's id, or there is no end exactly when no message has that id |
| ChatActions.ReverseDistinct | actions/chatActions.ts:405 | reversing keeps ids distinct |
| ChatActions.FetchOlderStart | actions/chatActions.ts:359-372 | with a known cursor, fetching starts just past it in the newest-first order |
| ChatActions.PageRowsWindow | actions/chatActions.ts:380-387 | the page's rows are the up to 20 messages just before the cursor; `hasMore` exactly when older ones exist; `nextCursor` is the oldest row's id |
| ChatActions.FetchedWindow | actions/chatActions.ts:380-387 | the `hasMore`/slice/`nextCursor` step on the rows just before a position |
| ChatActions.FormatReverse | actions/chatActions.ts:389-405 | formatting and then reversing is reversing and then formatting |
| ChatActions.UnknownCursorFetchesNothing | actions/chatActions.ts:364-369 | a cursor naming no message of the chat fetches nothing |
| ChatActions.WindowExcludesCursor | actions/chatActions.ts:364-369 | the page never contains the cursor message |
| ChatActions.OlderPageWindow | actions/chatActions.ts:359-405 | the page is the up to 20 messages before the cursor (or the newest 20), in ascending time order, without the cursor message; `hasMore` exactly when older ones remain; `nextCursor` is the oldest returned id or null; an unknown cursor gives the empty page |
| ChatActions.OlderMessagesWindow | actions/chatActions.ts:340-412 | what a participant gets from `getOlderMessages`, as in `OlderPageWindow`, over the store's messages |
| ChatClient.AppendIfAbsent | components/chat/ChatInterface.tsx:57-64 | a sent message is appended exactly when its id is not listed; otherwise the list is unchanged |
| ChatClient.MergePolled | components/chat/ChatInterface.tsx:93-106 | the old list is an unchanged prefix; what is appended is exactly the received messages whose ids are not in the old list, in the order received |
| ChatClient.MergeTakesEveryNew | components/chat/ChatInterface.tsx:95-102 | every received message with an unseen id is appended |
| ChatClient.MergeKeepsIdsDistinct | components/chat/ChatInterface.tsx:95-102 | distinct ids in the list and in the response give distinct ids after the merge |
| ChatClient.MergeKeepsDuplicatesWithinResponse | components/chat/ChatInterface.tsx:95-102 | a new message received twice in one response is appended twice |
| ChatClient.MergeIdempotent | components/chat/ChatInterface.tsx:93-106 | merging the same response again changes nothing |
| ChatClient.AppendIsMergeOfOne | components/chat/ChatInterface.tsx:57-64 | the send path equals the poll merge of a one-message response |
| ChatClient.PollCursor | components/chat/ChatInterface.tsx:73-76 | the last message's `createdAt`, or the epoch ISO string for an empty list |
| ChatClient.CursorAdvancesWithMerge | components/chat/ChatInterface.tsx:73-106 | after a merge the cursor is the newest appended message's time, or unchanged when nothing was new |
| ChatClient.ChatInterface.constructor | components/chat/ChatInterface.tsx:39-40 | the initial messages, not loading, active |
| ChatClient.ChatInterface.AddSentMessage | components/chat/ChatInterface.tsx:57-64 | the list becomes the deduplicating append |
| ChatClient.ChatInterface.Teardown | components/chat/ChatInterface.tsx:124-126 | the effect becomes inactive |
| ChatClient.ChatInterface.PollStep | components/chat/ChatInterface.tsx:69-118 | inactive or loading: nothing happens; otherwise it polls from `PollCursor`; torn down meanwhile: the list is untouched and nothing is scheduled; else the response is merged, a failure waits 5000 ms, loading is cleared and exactly one follow-up is scheduled after 1000 ms |
| LikeButtonView.Settled | components/likes/LikeButton.tsx:38-51 | failure restores the pre-click value; success adopts the server's boolean, or keeps the flip without one |
| LikeButtonView.LikeButton.constructor | components/likes/LikeButton.tsx:22-23 | the initial like state, not pending |
| LikeButtonView.LikeButton.Renders | components/likes/LikeButton.tsx:25-27 | the button renders exactly for a signed-in viewer (non-empty id) other than the liked user |
| LikeButtonView.LikeButton.Label | components/likes/LikeButton.tsx:89-90 | the label says what a click would do |
| LikeButtonView.LikeButton.ShownIcon | components/likes/LikeButton.tsx:92-98 | a spinner exactly while pending; otherwise the filled heart exactly when liked |
| LikeButtonView.LikeButton.Click | components/likes/LikeButton.tsx:30-34 | only a rendered, enabled button takes a click; the flag flips at once and the button is pending |
| LikeButtonView.LikeButton.Complete | components/likes/LikeButton.tsx:38-51 | the flag becomes `Settled` and pending ends |
| LikeButtonView.LikeButton.HandleToggleLike | components/likes/LikeButton.tsx:30-81 | after a failure the button shows the pre-click state and the store is unchanged; after a success it shows whether the like edge exists |
| BookmarkButtonView.Settled | components/bookmarks/BookmarkButton.tsx:40-52 | failure restores the captured value; success adopts the server's boolean, or keeps the flip without one |
| BookmarkButtonView.BookmarkButton.constructor | components/bookmarks/BookmarkButton.tsx:29-30 | the initial bookmark state, not pending |
| BookmarkButtonView.BookmarkButton.Renders | components/bookmarks/BookmarkButton.tsx:32-34 | the button renders exactly for a signed-in viewer (non-empty id) other than the bookmarked user |
| BookmarkButtonView.BookmarkButton.Label | components/bookmarks/BookmarkButton.tsx:62-67 | the label says what a click would do |
| BookmarkButtonView.BookmarkButton.ShownIcon | components/bookmarks/BookmarkButton.tsx:69-75 | a spinner exactly while pending; otherwise the filled star exactly when bookmarked |
| BookmarkButtonView.BookmarkButton.Click | components/bookmarks/BookmarkButton.tsx:36-38 | only a rendered, enabled button takes a click; the flag flips at once |
| BookmarkButtonView.BookmarkButton.Complete | components/bookmarks/BookmarkButton.tsx:39-53 | the flag becomes `Settled` and pending ends |
| BookmarkButtonView.BookmarkButton.HandleToggleBookmark | components/bookmarks/BookmarkButton.tsx:36-55 | after a failure the button shows the pre-click state and the edges are unchanged; after a success it shows whether the bookmark edge exists |
| ProfileActions.InvalidFields | actions/profileActions.ts:27-45 | a field is reported exactly when it breaks its rule: name over 100, gender over 50, city over 100, about-me over 1000, an unparsable birth date |
| ProfileActions.StoredText | actions/profileActions.ts:72-82 | an absent or empty text is stored as null, anything else unchanged |
| ProfileActions.StoredBirthDate | actions/profileActions.ts:72-82 | the sent date is stored, or null when none was sent |
| ProfileActions.UpdatedUser | actions/profileActions.ts:72-82 | every form column is replaced by its stored value; id and image are kept |
| ProfileActions.UpdateIdempotent | actions/profileActions.ts:72-82 | re-submitting the stored profile writes the same row |
| ProfileActions.UpdateProfile | actions/profileActions.ts:48-95 | no session or failed validation: error with its message and no update; success exactly when valid, signed in, without failure and with a user row; success replaces only the caller's row by `UpdatedUser` |
| ProfileActions.CheckFile | actions/profileActions.ts:115-129 | the checks in order: missing or empty file, a type not starting with "image/", over 4718592 bytes; accepted exactly when none applies |
| ProfileActions.FileCheckMessage | actions/profileActions.ts:115-128 | a rejected file always gets a non-empty message; only an accepted file has none |
| ProfileActions.ShouldDeleteOld | actions/profileActions.ts:149-153 | the old photo is deleted exactly when there is a non-empty one, it is not the new URL, and it contains `blob.vercel-storage.com` |
| ProfileActions.PhotoPath | actions/profileActions.ts:133 | the path is `user-photos/<userId>/`, then the timestamp's decimal numeral (which reads back as the timestamp), then `-` and the file name |
| ProfileActions.PhotoPathInjective | actions/profileActions.ts:133 | the same user and file name at different timestamps give different paths |
| ProfileActions.UploadProfilePhoto | actions/profileActions.ts:103-183 | rejections come before any storage call; an accepted file is first put at `PhotoPath`; success exactly when signed in, accepted, no failure and a user row exists; success stores the new URL and deletes the old photo exactly when the rule allows, never the new one; a failure after the put deletes the new blob and leaves the row alone |
| UsersPage.CalculateAge | app/users/page.tsx:12-25 | null exactly for a null birth date; otherwise the age whose anniversary is at or before today while the next one is after; the likes page (app/likes/page.tsx:13-26) and the bookmarks page (app/bookmarks/page.tsx:17-30) carry identical copies |
| UsersPage.AgeIsYearDifference | app/users/page.tsx:16-24 | the age is the year difference, less one exactly when today's (month, day) comes before the birthday's |
| UsersPage.AgeOnBirthday | app/users/page.tsx:19-21 | on the birthday the full year difference counts |
| UsersPage.AgeIsUnique | app/users/page.tsx:12-25 | the bracketing number of years is the only one the function can return |
| UsersPage.AtLeastAge | app/users/page.tsx:12-25 | being at least n is being born on or before today's date n years ago |
| UsersPage.Listed | app/users/page.tsx:35-55 | the directory's row filter: not the viewer (an empty or missing session excludes no one), and a non-empty name or a non-empty image |
| UsersPage.ListUsers | app/users/page.tsx:33-75 | at most 50; every shown user is in the table, is not the viewer, and has a non-empty name or image |
| UsersPage.ListUsersComplete | app/users/page.tsx:33-75 | a directory shorter than 50 shows every listed user |
| UsersPage.ListUsersKeepsOrder | app/users/page.tsx:68-74 | the name order is kept and the first listed rows win: the directory of a table is those of its two parts, concatenated and cut to 50 |
| UsersPage.AgeSuffix | app/users/page.tsx:122-123 | the ", age" suffix appears exactly for a known non-zero age and reads back as that age |
| UsersPage.CardTitle | app/users/page.tsx:121-124 | the card heading: the name, or 'Unbekannter Benutzer' for a missing or empty one, followed by `AgeSuffix` |
| HomePage.TrimStart | app/page.tsx:68-73 | strips exactly the leading white space |
| HomePage.LeadingDigits | app/page.tsx:68-73 | the length of the leading run of digits |
| HomePage.ParseIntPrefix | app/page.tsx:68-73 | `parseInt` yields a number exactly when a digit follows the white space and the optional sign |
| HomePage.ParseIntPrefixReadsNumeral | app/page.tsx:68-73 | `parseInt` reads back any integer's numeral, whatever non-digit text follows |
| HomePage.AgeFilter | app/page.tsx:68-94 | an age bound applies exactly when the parameter is non-empty and parses to a number other than 0 (NaN and 0 mean no bound) |
| HomePage.GetDateFromAge | app/page.tsx:29-33 | as written, the cutoff the page uses: the year moves back by `years`, the time of day is kept, and for a real today the date is day `d` counted from the first of today's month in the target year (`Dates.AddDays`), which is always a real date; 29 February thus rolls over to 1 March in a common year |
| HomePage.GetDateFromAgeVersusCutoff | app/page.tsx:29-33 | the as-written cutoff equals the corrected one, except on the 29 February roll, where it is the next day |
| HomePage.GetDateFromAgeOrdersLikeTriple | app/page.tsx:29-33 | for every real birth date and today, the as-written cutoff orders the birth date as today's (month, day) `years` back would, except that a birth on the rolled-to 1 March lies on the cutoff, not after it |
| Dates.NextDay | app/page.tsx:31 | the day after a real date is a real date and comes after it (the step `setFullYear` takes past a month's end) |
| Dates.AddDays | app/page.tsx:31 | counting days forward from a real date gives a real date, strictly later when at least one day is added |
| Dates.AddDaysWithinMonth | app/page.tsx:31 | within a month, day `k + 1` is `k` days after the first, so a day that exists is kept unchanged |
| HomePage.AgeCutoff | app/page.tsx:29-33 | corrected variant: the year moves back by `years`, the time is kept, and the date is always real (29 February becomes 28 February) |
| HomePage.CutoffOrdersLikeTriple | app/page.tsx:29-33 | for a real birth date the corrected cutoff orders it exactly as the unclamped (year, month, day) would |
| HomePage.MidnightOrder | app/page.tsx:75-94 | a stored birth date (midnight) compares with a later instant by its date |
| HomePage.SatisfiesAllPush | app/page.tsx:50-94 | a pushed condition is conjoined with the ones before it |
| HomePage.ProfileConditions | app/page.tsx:50-66 | the two image conditions come first; a row passes exactly when it has an image and matches the city (substring) and gender (exact) when given |
| HomePage.BuildAndConditions | app/page.tsx:50-94 | the two image conditions come first; a row passes every condition exactly when it matches the filters (`MatchesFilters`): image, city, gender, and the age bounds built from the as-written `getDateFromAge` (both when min ≤ max, otherwise the min alone, or the max alone) |
| HomePage.MatchesFilters | app/page.tsx:50-94 | the where clause's `AND` part: an image, the city and gender when given, and `AgeBoundsHold` with the as-written cutoffs |
| HomePage.AgeBoundsAgreeOffLeapDay | app/page.tsx:29-33 | whenever neither bound's cutoff rolls over, the page's age bounds and the corrected ones pass exactly the same rows |
| HomePage.AgeConditionBetween | app/page.tsx:75-81 | a row born between `getDateFromAge(maxAge + 1)` and `getDateFromAge(minAge)` passes the both-bounds condition |
| HomePage.AgeConditionAtMost | app/page.tsx:82-87 | a row born on or before `getDateFromAge(minAge)` passes the min-only condition, also used when max < min |
| HomePage.AgeConditionAtLeast | app/page.tsx:88-93 | a row born on or after `getDateFromAge(maxAge + 1)` passes the max-only condition |
| HomePage.Push | app/page.tsx:50-94 | a push conjoins the condition for every row |
| HomePage.AgeBoundsMeanAge | app/page.tsx:75-94 | corrected variant: with `AgeCutoff`, a row passes the age bounds exactly when its `calculateAge` lies within the bounds that apply |
| HomePage.PageAgeBoundsMeanAge | app/page.tsx:75-94 | the page's own bounds select exactly by `calculateAge` whenever neither cutoff rolls over |
| HomePage.LeapDayCutoffAdmitsTooYoung | app/page.tsx:29-33 | on 29 February 2024 the as-written cutoff admits a 17-year-old born 2006-03-01 to a minimum age of 18; the corrected one does not |
| HomePage.LeapDayCutoffDropsMaxAge | app/page.tsx:29-33 | on 29 February 2024 the as-written cutoff drops a 30-year-old born 1993-03-01 from a maximum age of 30; the corrected one keeps them |
| HomePage.NotViewer | app/page.tsx:96-99 | the `NOT` clause on the id: a missing or empty session excludes no one, otherwise only the viewer's row is excluded |
| HomePage.HomeUsers | app/page.tsx:96-116 | at most 50; every shown user is in the table, is not the viewer, has a non-empty image, and matches the filters |
| HomePage.HomeUsersComplete | app/page.tsx:96-116 | a page of fewer than 50 shows every row that is not the viewer and matches the filters |
| HomePage.HomeUsersKeepsOrder | app/page.tsx:112-115 | the rows keep the table's descending id order and the first matching rows win: the page for a table is the pages of its two parts, concatenated and cut to 50 |
| HomePage.ShowLikeButton | app/page.tsx:176-178 | a card carries the like button exactly for a signed-in viewer looking at someone else |
| HomePage.InitialIsLiked | app/page.tsx:183 | true exactly when the like state is recorded and true |
| HomePage.LikedStates | app/page.tsx:118-123 | no lookups without a session (missing or empty id); otherwise one entry per shown user, true exactly when the user is not the viewer, that user's own lookup did not fail, and the viewer's like edge exists |
| LikesPage.LikerOf | app/likes/page.tsx:43-55 | the liker is the user row of the like's source, when there is one |
| LikesPage.LikersOf | app/likes/page.tsx:61 | one entry per like, in order, each the liker of that like |
| LikesPage.LikesView | app/likes/page.tsx:28-76 | redirect to sign-in exactly without a session; every shown user has liked the viewer and is that user's row |
| LikesPage.LikersHaveLiked | app/likes/page.tsx:39-61 | every mapped liker has a like edge to the viewer |
| LikesPage.LikesViewComplete | app/likes/page.tsx:39-76 | everyone who liked the viewer and still has a row is shown |
| LikesPage.LikesViewKeepsOrder | app/likes/page.tsx:56-61 | the order of the like table, newest first, is kept |
| BookmarksPage.BookmarkedUserOf | app/bookmarks/page.tsx:51-60 | the bookmarked user is the row of the edge's target, when there is one |
| BookmarksPage.BookmarkedUsersOf | app/bookmarks/page.tsx:67 | one entry per bookmark, in order, each the bookmarked user of that edge |
| BookmarksPage.BookmarksView | app/bookmarks/page.tsx:38-81 | redirect to sign-in exactly without a session; every shown user is bookmarked by the viewer and is that user's row |
| BookmarksPage.BookmarkedWereBookmarked | app/bookmarks/page.tsx:47-67 | every mapped user has a bookmark edge from the viewer |
| BookmarksPage.BookmarksViewComplete | app/bookmarks/page.tsx:47-81 | every bookmarked user that still has a row is shown |
| BookmarksPage.BookmarksViewKeepsOrder | app/bookmarks/page.tsx:62-67 | the order of the bookmark table, newest first, is kept |
| MainNavigation.ItemFor | components/MainNavigation.tsx:149-188 | a button exactly for `isButton` with an action; a link otherwise, marked current exactly when its url is the pathname |
| MainNavigation.Visible | components/MainNavigation.tsx:144-148 | a private target is visible exactly when signed in, a public-only one exactly when signed out, any other always |
| MainNavigation.GetMenuItems | components/MainNavigation.tsx:143-189 | every entry comes from a visible target |
| MainNavigation.GetMenuItemsComplete | components/MainNavigation.tsx:143-189 | every visible target has its entry |
| MainNavigation.GetMenuItemsKeepsOrder | components/MainNavigation.tsx:143-148 | the filter keeps the declared order |
| MainNavigation.VisibilityByFlags | components/MainNavigation.tsx:144-148 | private targets exactly when signed in, public-only exactly when signed out, the rest always |
| MainNavigation.ClickEffects | components/MainNavigation.tsx:117-182 | in order: a button runs its action and then closes the menu; sign-out signs out to '/' and then closes it; a link closes the menu in its `onClick` and then navigates |
| MainNavigation.DropdownEntries | components/MainNavigation.tsx:112-131 | nothing while closed; the sign-out entry exactly when signed in, and last |
| MainNavigation.MenuTargetsSignedOut | components/MainNavigation.tsx:37-68 | a signed-out visitor gets the two public targets, in order |
| MainNavigation.MenuTargetsSignedIn | components/MainNavigation.tsx:37-68 | a signed-in visitor gets all six targets, in order |
| MainNavigation.AtMostOneCurrent | components/MainNavigation.tsx:166-169 | with distinct urls, at most one entry is marked current |
| UserFiltersView.Get | components/filters/UserFilters.tsx:21-24 | a parameter is found exactly when one has the key, and the value is that of the first pair with the key |
| UserFiltersView.Query | components/filters/UserFilters.tsx:36-41 | at most four parameters, none with an empty value |
| UserFiltersView.Serialize | components/filters/UserFilters.tsx:43 | the query text is empty exactly when there are no parameters |
| UserFiltersView.ParseSerialize | components/filters/UserFilters.tsx:36-43 | reading a serialized query gives back its parameters when the text is plain |
| UserFiltersView.QueryCarriesFields | components/filters/UserFilters.tsx:38-41 | each key is set exactly when its field is non-empty, with the field's text |
| UserFiltersView.ApplyReachesHomePage | components/filters/UserFilters.tsx:34-45 | the home page reads a non-empty field back as a truthy parameter with that text, and an empty field as absent |
| UserFiltersView.UserFilters.constructor | components/filters/UserFilters.tsx:21-26 | each field starts as its search parameter or ''; the menu starts closed |
| UserFiltersView.UserFilters.Edit | components/filters/UserFilters.tsx:86-139 | typing changes only the edited field |
| UserFiltersView.UserFilters.ToggleMenu | components/filters/UserFilters.tsx:64 | the menu flips |
| UserFiltersView.UserFilters.ApplyFilters | components/filters/UserFilters.tsx:34-45 | navigates to "/?" plus the non-empty fields' query, then closes the menu |
| UserFiltersView.UserFilters.ResetFilters | components/filters/UserFilters.tsx:51-58 | all four fields become '', navigates to '/', closes the menu |
| UserFiltersView.EmptyApplyUrl | components/filters/UserFilters.tsx:38-43 | with every field empty, apply goes to "/?" |
| ProfileFormView.TwoDigitsRoundTrip | components/profile/ProfileForm.tsx:91-92 | a month or day is exactly two characters and reads back as itself |
| ProfileFormView.FormatDateForInput | components/profile/ProfileForm.tsx:88-94 | '' exactly for a missing date |
| ProfileFormView.FormatDateForInputRoundTrip | components/profile/ProfileForm.tsx:88-94 | the text of a real date reads back as that date |
| ProfileFormView.PreviewFor | components/profile/ProfileForm.tsx:116-129 | a photo is shown exactly when the stored image or the uploaded URL is non-empty; its source is the uploaded URL when there is one, else the stored image |
| ProfileFormView.PreviewShowsUpload | components/profile/ProfileForm.tsx:116-124 | after a successful upload the preview is the new blob |
| ProfileFormView.PhotoPicker.constructor | components/profile/ProfileForm.tsx:78-79 | no file name, empty input |
| ProfileFormView.PhotoPicker.HandleFileChange | components/profile/ProfileForm.tsx:82-85 | the name of the first chosen file, or null |
| ProfileFormView.PhotoPicker.AfterUpload | components/profile/ProfileForm.tsx:97-102 | after a successful upload with a pending name, the name is null and the input empty; otherwise nothing changes |
| Strings.PadStart | components/profile/ProfileForm.tsx:91-92 | `padStart`: the text is left-padded with the fill to the target length, and the original text is its suffix |

## Left out

- Store: transaction isolation and concurrent actions (the mutual-like race) are not modelled. Each action runs alone. A failure anywhere in a transaction is one `storeFails` flag, which rolls everything back.
- Store: database-generated ids and clocks are parameters. The model requires that fresh ids are unused.
- Store: `orderBy` is not computed. Query inputs are sequences already in the database's order. The message table's order stands for ascending `createdAt`.
- HomePage.ProfileConditions: the city match is case-sensitive. The database's `mode: 'insensitive'` case folding is not modelled.
- HomePage.NotViewer: an empty session id excludes no one, as `NOT: { id: undefined }` does.
- HomePage.IsSpace: `parseInt` skips only the listed white-space characters, not every Unicode space separator.
- HomePage.AgeBoundsMeanAge: it is stated for a clock past midnight. At exactly midnight the cutoff instant equals a birth date's midnight, and the date-only reading no longer holds.
- HomePage.PageAgeBoundsMeanAge: it is stated for a clock past midnight, as above, and only where neither cutoff rolls over; on the 29 February roll the page's bounds are wrong (see Findings).
- HomePage.GetDateFromAge: years are unbounded integers. In JavaScript an age so large that the year leaves the `Date` range gives an Invalid Date, on which the Prisma query throws; the model has no such case.
- HomePage.AgeFilter: `parseInt` is read as an exact integer. Numerals beyond 2^53, which JavaScript rounds to a float, are not modelled.
- HomePage.HomeUsers: the name column selected only for signed-in viewers is rendering, and is not modelled.
- Dates: time zones are not modelled. Dates are calendar triples in one zone, and `new Date()` is the `now`/`today` parameter.
- ChatActions.GetOlderMessages: the participant check's own database failure is folded into `storeFails`.
- ChatActions.GetOlderMessages: a cursor that names a message of another chat behaves as an unknown cursor and gives an empty page.
- ChatActions.Returned: `createdAt` stays in milliseconds. The ISO string `toISOString` makes of it is not modelled.
- ChatActions.MessageSchema: lengths are counted in characters of the model's strings, not JavaScript UTF-16 code units.
- ProfileActions.InvalidFields: the 100/50/100/1000 length limits are counted in characters of the model's strings, not the UTF-16 code units Zod's `max` counts.
- ChatActions.SendMessage: the human-readable `message` texts of the responses are not modelled. Errors are enumerated codes, and validation errors carry their list.
- LikeActions.TogglePhotoLike: the `message` texts (for example 'Geliked!') are not modelled. The `error` field is an enumerated code.
- ChatClient.ChatInterface: React effect re-execution, overlapping effects and real timers are not modelled. One poll step is an atomic transition that returns the delays it would wait.
- ChatClient.ChatInterface: the long-poll server route is not part of this model. Its answer is the `PollOutcome` parameter.
- UserFiltersView.Serialize: `URLSearchParams` percent-encoding is left out. The round trip is proved for text without '&' or '='.
- ProfileFormView.FormatDateForInput: it is defined for real dates only. The date comes from the user row's birth-date column, which holds only real dates.
- ProfileFormView.PhotoPicker: the file input ref is taken as mounted.
- ProfileActions.UploadProfilePhoto: the blob bytes and the Vercel Blob service are outside the model. `put` and `del` are recorded as a trace of calls. The URL `put` answers with is a parameter.
- ProfileActions.UploadProfilePhoto: which step throws is a parameter. A failed deletion of the old photo is only logged, and so changes nothing.
- ProfileActions.InvalidFields: Zod's `z.preprocess` date construction is not modelled. The form's birth date arrives already classified as absent, a date, or unparsable.
- MainNavigation: the `useToggle` hook, closing the menu on a pathname change, and the user name and avatar rendering are not modelled.
- Pages: the `revalidatePath`, `redirect`, `console.*` and `alert` side effects are not modelled, beyond the redirect target of the likes and bookmarks pages.
- Pages: markup and images are not modelled.

## Findings

| source | as written | input that shows it | evidently intended | confidence | as-written member | corrected member |
|---|---|---|---|---|---|---|
| app/page.tsx:29-33 | `getDateFromAge` moves today back with `setFullYear`. On 29 February, a target year that is not a leap year rolls the date over to 1 March. The page's age bounds are built from that cutoff. | today 2024-02-29 at noon: with minAge 18, someone born 2006-03-01 is 17 yet is admitted; with maxAge 30, someone born 1993-03-01 is 30 yet is dropped | the cutoff is the last day someone of that age could be born, so 28 February in a common year | not executed | HomePage.GetDateFromAge, HomePage.LeapDayCutoffAdmitsTooYoung, HomePage.LeapDayCutoffDropsMaxAge | HomePage.AgeCutoff, HomePage.AgeBoundsMeanAge |

The home page model (`HomePage.MatchesFilters`, `HomePage.HomeUsers`) follows `getDateFromAge` as written, so it keeps the discrepancy. The corrected cutoff and its age reading are proved beside it. `HomePage.AgeBoundsAgreeOffLeapDay` shows the two agree everywhere except on the roll.
