# Social feed: a verified model

This project models the domain that sits under the React views of a small
Arabic-language social app. The app has users, posts with likes and comments,
notifications about likes and comments, and a video feed. It is written in
Dafny and proves properties of that model.

The model has three parts:

- **The application state** (`App.tsx`, module `App`). The class
  `AppState` holds `users`, `posts`, `currentUser` and `notifications`. It
  has one method per handler: create a post, toggle a like, add a comment,
  mark notifications read, and update a profile. Each method's new state is
  given by a pure transform (`LikedPosts`, `LikeNotice`, `CommentedPosts`,
  `CommentNotice`, `MarkAllRead`, `UpdatedUsers`, `RefreshedCurrent`). The
  lemmas state what those transforms promise.
  - The class invariant `Valid` has two parts. The current user is the
    first user with its id. No notification tells a user about their own
    action.
  - The like and comment handlers run their map as a loop. The loop
    assigns `targetPost` at every post with the id, so it ends on the last
    one. `MapLikes` and `MapComments` hold these loops.
- **Read-side projections.**
  - The newest-first feed, sorted in place on an array (`Feed`).
  - The video feed, sorted on a copy (`VideosFeed`).
  - A user's own posts (`Profile`).
  - The header's unread count, badge and notification lines (`Header`).

  The newest-first order is one stable insertion sort (`Ordering`). It is
  proved to be non-increasing in the timestamp, a permutation of its input,
  and stable.
- **Form state machines with their input guards.** The new-post form
  (`CreatePost.Form`), the post card (`PostCard.Card`), the video card
  (`VideoCard.Card`), the profile editor (`Profile.Editor`) and the
  notification panel (`Header.Panel`).
  - The App handlers validate nothing themselves. `AppState.SubmitPostForm`
    and `AppState.SubmitCommentForm` therefore compose a form's guard with
    its handler. They prove that a blank post or a blank comment changes
    nothing.
  - `AppState.ClickBell` proves the same for the bell: opening the panel
    marks everything read, and closing it changes nothing.

Supporting modules:

- `Domain` holds the records of `types.ts`. Ids and timestamps are
  integers; a timestamp is the millisecond value the comparators compute
  from the ISO string. `FindUser` is `Array.prototype.find` by id.
- `Js` holds JavaScript behaviour the components rely on:
  - `trim` over ECMAScript's whitespace and line-terminator set;
  - `substring` and `slice` index clamping;
  - decimal rendering of a whole number.
- `Seqs` holds `filter` and `map` on sequences and their lemmas.

Ids and timestamps that the source takes from `Date.now()` and `new Date()`
are parameters of the methods (`id`, `commentId`, `noticeId`, `now`). The
result of a file read (`FileReader`) is a parameter of `ImageLoaded` and
`AvatarLoaded`.

The displayed like and comment counts of a post card are `PostCard.LikeCount`
and `PostCard.CommentCount`, that is, the lengths of `likes` and `comments`.
`App.ToggleLikeCount` and `App.CommentedPostsShape` state how the handlers
change them.

## Model

| member | source | states |
|---|---|---|
| `Domain.FindUser` | components/Feed.tsx:18 | finds a user exactly when some user has the id, and then the first such user |
| `Ordering.NewestFirstSorts` | components/Feed.tsx:25 | the newest-first order never increases in timestamp and is a permutation of the input |
| `Ordering.NewestFirstStable` | components/Feed.tsx:25 | items with equal timestamps keep their input order (stable sort) |
| `Feed.Cards` | components/Feed.tsx:26-28 | every card pairs its post with the first user whose id is the post's author id |
| `Feed.CardsAreKnownAuthors` | components/Feed.tsx:24-40 | the cards show, in order, exactly the posts whose author is found; the others are omitted |
| `Feed.ShiftIn` | components/Feed.tsx:25 | one insertion step on the array: the element moves left past smaller timestamps, which shift right by one |
| `Feed.SortNewestFirst` | components/Feed.tsx:24-25 | the received array is reordered in place into the newest-first order of its old contents |
| `Feed.Render` | components/Feed.tsx:24-40 | the array is sorted in place and the cards are computed from the sorted order |
| `VideosFeed.SortedVideosOrder` | components/VideosFeed.tsx:23 | the sorted copy never increases in timestamp, is a permutation of the videos and is stable; the input is a value and stays unchanged |
| `VideosFeed.Cards` | components/VideosFeed.tsx:27-38 | each card carries the first user with the creator id, and `isFollowing` holds exactly when that id is followed |
| `VideosFeed.CardsAreKnownCreators` | components/VideosFeed.tsx:27-29 | exactly the videos whose creator is found are shown, in sorted order |
| `Header.UnreadCountCounts` | components/Header.tsx:15 | the unread count is the number of notifications whose `read` flag is false |
| `Header.BadgeShownIff` | components/Header.tsx:63-67 | the badge is shown exactly when some notification is unread |
| `Header.MessageFor` | components/Header.tsx:79-81 | the like text exactly for `like`, the comment text otherwise |
| `Header.Lines` | components/Header.tsx:76-81 | each panel line shows the first user with the actor id and the message for the notification's type |
| `Header.LinesAreKnownActors` | components/Header.tsx:76-78 | a notification whose actor is unknown renders nothing; all others are listed in order |
| `Header.Panel.constructor` | components/Header.tsx:14 | the panel starts closed |
| `Header.Panel.TogglePanel` | components/Header.tsx:18-23 | the panel flips; mark-as-read is requested exactly when it goes from closed to open |
| `Js.HasTextIff` | components/CreatePost.tsx:28 | a trimmed string is truthy exactly when the string holds a non-whitespace character |
| `CreatePost.SubmitDisabled` | components/CreatePost.tsx:82 | the submit button is disabled exactly when the submit guard rejects |
| `CreatePost.Forwarded` | components/CreatePost.tsx:29 | the content is forwarded untrimmed; an empty or missing image is forwarded as undefined |
| `CreatePost.ForwardedHasSomething` | components/CreatePost.tsx:28-29 | an accepted request carries a non-whitespace character or a non-empty image |
| `CreatePost.Form.constructor` | components/CreatePost.tsx:12-13 | the form starts with empty content and no image |
| `CreatePost.Form.SetContent` | components/CreatePost.tsx:46 | typing replaces the content and keeps the image |
| `CreatePost.Form.ImageLoaded` | components/CreatePost.tsx:19-21 | a loaded file becomes the preview image; the content stays |
| `CreatePost.Form.RemovePreview` | components/CreatePost.tsx:58 | removing the preview clears the image and keeps the content |
| `CreatePost.Form.Submit` | components/CreatePost.tsx:26-36 | forwards exactly when the trimmed content or the image is non-empty, then clears both; a rejected submit changes nothing |
| `PostCard.IsLiked` | components/PostCard.tsx:19 | liked exactly when the viewer's id is among the likes |
| `PostCard.CommentListShown` | components/PostCard.tsx:72 | the comment list is rendered exactly when it is open and has at least one comment |
| `PostCard.Card.constructor` | components/PostCard.tsx:17-18 | the card starts with empty text and the comments hidden |
| `PostCard.Card.SetCommentText` | components/PostCard.tsx:98 | typing replaces the comment text and nothing else |
| `PostCard.Card.ToggleComments` | components/PostCard.tsx:62 | the comment button flips the list's visibility |
| `PostCard.Card.FocusInput` | components/PostCard.tsx:99 | focusing the input opens the list, whatever its state |
| `PostCard.Card.SubmitComment` | components/PostCard.tsx:21-27 | forwards the post id and the untrimmed text exactly when the trimmed text is non-empty, then clears it; otherwise nothing changes |
| `VideoCard.FormatTime` | components/VideoCard.tsx:25-29 | a minutes part of digits with no leading zero, a colon, then two digits of seconds |
| `VideoCard.FormatTimeRoundTrip` | components/VideoCard.tsx:25-29 | reading the label back as minutes times 60 plus seconds gives the time: seconds below 10 get their leading zero |
| `VideoCard.FormatTimeInjective` | components/VideoCard.tsx:25-29 | different whole-second times get different labels |
| `VideoCard.IsLiked` | components/VideoCard.tsx:37 | liked exactly when the viewer's id is among the video's likes |
| `VideoCard.Preview` | components/VideoCard.tsx:328-329 | all comments when showing all, else the first min(3, n) |
| `VideoCard.MoreButton` | components/VideoCard.tsx:342-347 | the more button appears exactly when there are over 3 comments and not all are shown, reporting n - 3 |
| `VideoCard.CommentSection` | components/VideoCard.tsx:324-351 | hidden when closed; the invitation when open with no comment; otherwise the preview and the more button |
| `VideoCard.PreviewCoversAll` | components/VideoCard.tsx:328-347 | the preview is a prefix, and together with the more button's count it accounts for every comment |
| `VideoCard.DeleteOrFollow` | components/VideoCard.tsx:210-278 | the creator sees the delete control, everyone else the follow control, never both |
| `VideoCard.FollowText` | components/VideoCard.tsx:292 | unfollow when following and hovering, following when following and not hovering, follow otherwise |
| `VideoCard.Card.constructor` | components/VideoCard.tsx:33-36 | the card starts with empty text, comments hidden, the preview folded and no hover |
| `VideoCard.Card.SetCommentText` | components/VideoCard.tsx:358 | typing replaces the comment text and nothing else |
| `VideoCard.Card.ToggleComments` | components/VideoCard.tsx:78-82 | the comment button flips visibility; hiding the comments forces the show-all flag back to false |
| `VideoCard.Card.ShowMore` | components/VideoCard.tsx:344 | the more button shows every comment |
| `VideoCard.Card.SetHovering` | components/VideoCard.tsx:282-283 | entering and leaving the follow button sets the hover flag |
| `VideoCard.Card.SubmitComment` | components/VideoCard.tsx:84-90 | forwards the video id and the text exactly when the trimmed text is non-empty, then clears the field |
| `Profile.UserPostsExactly` | components/Profile.tsx:24-26 | every listed post is the user's and comes from `posts`, every post of the user is listed, and the list is newest first |
| `Profile.PostCountCounts` | components/Profile.tsx:100 | the post count is the number of posts whose author is the profile's user |
| `Profile.ShownAvatar` | components/Profile.tsx:64 | the chosen avatar when non-empty, otherwise the user's own |
| `Profile.EditButtonShown` | components/Profile.tsx:53 | the edit control is offered exactly to the owner while not editing |
| `Profile.Editor.constructor` | components/Profile.tsx:19-21 | editing starts off, with the user's bio and no chosen avatar |
| `Profile.Editor.StartEditing` | components/Profile.tsx:55 | the pencil enters edit mode, which hides it |
| `Profile.Editor.EditBio` | components/Profile.tsx:89 | typing replaces the edited bio |
| `Profile.Editor.AvatarLoaded` | components/Profile.tsx:31-33 | a loaded file becomes the chosen avatar |
| `Profile.Editor.Save` | components/Profile.tsx:38-42 | sends the user id, the edited bio and the chosen or existing avatar; leaves edit mode with the chosen avatar cleared |
| `Profile.Editor.Cancel` | components/Profile.tsx:44-48 | leaves edit mode, restores the bio, clears the chosen avatar, and sends nothing |
| `App.FindPost` | App.tsx:101 | finds a post exactly when one has the id, and then the first such post |
| `App.LastTarget` | App.tsx:103-113 | `targetPost` after the map: found exactly when one post has the id, and then the last such post |
| `App.UniqueTarget` | App.tsx:101-105 | with distinct ids, the post used for `isAlreadyLiked` and `targetPost` are the same |
| `App.FindPostMap` | App.tsx:101-113 | a transform that keeps ids maps the first match to the first match |
| `App.WithoutRemovesViewer` | App.tsx:107 | unliking removes every occurrence of the viewer and keeps every other id as often as before |
| `App.LikedPostsShape` | App.tsx:103-113 | order and length kept; other posts untouched; a post with the id changes only in `likes`, gaining the viewer at the end, or, when already liked, becoming the old likes without the viewer |
| `App.ToggleLikeCount` | App.tsx:106-110 | the like count rises by one after a like and falls by the viewer's occurrences after an unlike |
| `App.FirstToggleFlips` | App.tsx:101-110 | after one toggle, the post is liked exactly when it was not |
| `App.LikeTwiceFromUnliked` | App.tsx:106-110 | like then unlike leaves the likes without the viewer, and restores `posts` if and only if no post with the id held the viewer |
| `App.LikeTwiceFromLiked` | App.tsx:106-110 | unlike then like leaves the old likes without the viewer, followed by the viewer once |
| `App.RelikedSameSet` | App.tsx:106-110 | after unlike then like the likes hold the same set of ids |
| `App.LikeNotice` | App.tsx:115-126 | a like notification is unread, names the viewer, the post and the author of the last post with the id (the map's `targetPost`), is never about the viewer's own post, and exists exactly when the target exists, was not liked and was written by someone else |
| `App.LikeNoticeIff` | App.tsx:115-126 | with distinct ids: a like notification is created exactly when the post exists, was not liked and belongs to someone else |
| `App.Prepend` | App.tsx:125 | a new notification goes in front and the others follow unchanged; no notification leaves the list as it is |
| `App.CommentedPostsShape` | App.tsx:139-145 | a post with the id gains exactly the new comment at the end and keeps the earlier ones; other posts are unchanged |
| `App.CommentsAdded` | App.tsx:139-145 | the total number of comments grows by the number of posts with the id |
| `App.UniqueIdsOneIndex` | App.tsx:139-145 | with distinct ids, exactly one post carries an existing id |
| `App.CommentNotice` | App.tsx:147-158 | a comment notification is unread, names the viewer, the post and the author of the last post with the id, and exists exactly when the target exists and belongs to someone else |
| `App.CommentNoticeIff` | App.tsx:147-158 | with distinct ids: a comment notification is created exactly when the post exists and belongs to someone else |
| `App.MarkAllReadShape` | App.tsx:188 | every notification becomes read, nothing else changes, and read ones are kept as they are |
| `App.MarkAllReadIdempotent` | App.tsx:188 | marking twice is marking once |
| `App.MarkAllReadInbox` | App.tsx:217 | marking covers all notifications; the header's list afterwards is its old list marked, with no unread entry |
| `App.UpdatedUsersShape` | App.tsx:194-199 | only the bio and avatar of users with the id change |
| `App.FindUpdatedUser` | App.tsx:194-205 | looking a user up after the update finds the same user, updated when it is the one edited |
| `App.RefreshedCurrent` | App.tsx:202-207 | the current user changes only when it is the user edited, and keeps its id |
| `App.RefreshedCurrentListed` | App.tsx:202-207 | the refreshed current user is its own record with the new bio and avatar, and is still the first user with its id |
| `App.ShareTextShape` | App.tsx:165 | the first 100 characters, followed by an ellipsis exactly when the content is longer |
| `App.NewPost` | App.tsx:80-88 | the new post is by the given author, with the given content and image, no likes and no comments |
| `App.MapLikes` | App.tsx:103-113 | the loop builds the mapped posts and leaves `targetPost` at the last post with the id |
| `App.MapComments` | App.tsx:139-145 | the loop builds the commented posts and leaves `targetPost` at the last post with the id |
| `App.AppState.constructor` | App.tsx:65-70 | the state starts from the given records, with the first user as the current user |
| `App.AppState.Notify` | App.tsx:125 | a notification that is not self-addressed is put in front; nothing else changes |
| `App.AppState.AddPost` | App.tsx:79-90 | exactly one new post at the front, by the current user, with no content check; all else unchanged |
| `App.AppState.ToggleLike` | App.tsx:99-127 | posts become `LikedPosts` and at most one like notification is prepended; users unchanged; invariant kept |
| `App.AppState.AddComment` | App.tsx:129-159 | posts become `CommentedPosts` and at most one comment notification is prepended; invariant kept |
| `App.AppState.MarkNotificationsAsRead` | App.tsx:185-191 | the notifications become `MarkAllRead` of the old ones; all else unchanged |
| `App.AppState.UpdateProfile` | App.tsx:193-208 | users get the new bio and avatar; the current user is refreshed when it is the one edited |
| `App.AppState.SubmitPostForm` | components/CreatePost.tsx:26-36 | a submit with no text after trimming and no image changes no state; otherwise exactly the forwarded post is added |
| `App.AppState.SubmitCommentForm` | components/PostCard.tsx:21-27 | an accepted comment is applied and notified and clears the card's text; a blank comment adds no comment and no notification and keeps the text; the list's visibility is unchanged |
| `App.AppState.ClickBell` | components/Header.tsx:18-23 | opening the panel marks every notification read; closing it changes nothing |
| `App.AppState.SaveProfile` | components/Profile.tsx:38-42 | saving applies the edited bio and the chosen or existing avatar to the edited user, refreshes the current user exactly when it is that user, leaves edit mode and keeps the typed bio |

## Left out

- Video playback is not modelled: play and pause, seek, volume, mute, the controls timer and the autoplay observer. They are DOM media APIs with floating-point time and timers.
- `formatNumber` is not modelled: it relies on floating-point division and `toFixed`.
- `VideoCard.FormatTime` takes whole seconds. The player's fractional progress and duration, which are floored first, are not modelled.
- Sharing is not modelled: the Web Share and clipboard calls, the toast and its timer, and the share URL. Only the share text is.
- `window.scrollTo`, navigation between views, and the click-outside listener that closes the panel are not modelled (browser side effects).
- `App.AppState.MarkNotificationsAsRead` marks at once. The source waits 500 ms and then writes back the notifications captured when it was called. A notification that arrives during the wait would be lost; that timing is not modelled.
- Ids and timestamps are parameters, not `Date.now()` or ISO date strings. `toLocaleString` formatting and date parsing are not modelled.
- `FileReader` is not modelled. The data URL it produces is the parameter of `ImageLoaded` and `AvatarLoaded`, and resetting the file input's value is not modelled.
- The handlers for liking, commenting on, following and deleting videos are not modelled: they are not part of the shown source. The video card only forwards requests and checks the visibility guards.
- The JSX layout, styles, icons and the mock data that seeds the state are not modelled (no behaviour).
- `Feed.Render` sorts the array it is given, and in the app that array is the `posts` state itself. The model keeps the app's `posts` as a sequence, so it does not capture how that in-place sort reorders the stored state.
- `App.ShareTextShape` counts characters as code points; JavaScript's `substring` and `length` count UTF-16 code units, so texts with characters outside the Basic Multilingual Plane are cut differently.
- `VideoCard.Card.ShowMore` requires the comment section to be open, because the more button exists only inside it.
- The effect that clears `showAllComments` after the section closes is applied in the same step as the toggle, not after a render.
