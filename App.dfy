/** `App.tsx`: the application state (`users`, `posts`, `currentUser`,
    `notifications`) and the handlers that replace it. Each handler is a
    method of `AppState` whose new state is given by the pure transforms
    defined first; the lemmas state what those transforms promise. */
module App {
  import opened Domain
  import opened Seqs
  import opened Js
  import Header
  import CreatePost
  import PostCard
  import Profile

  // ---------------------------------------------------------------------
  // Looking posts up

  /** The post `find` returns for an id: the first post carrying it. */
  function FindPost(posts: seq<Post>, postId: int): (r: Option<Post>)
    ensures r.Some? <==> exists k :: 0 <= k < |posts| && posts[k].id == postId
    ensures r.Some? ==> exists k :: 0 <= k < |posts| && posts[k] == r.value && r.value.id == postId &&
                                    forall j :: 0 <= j < k ==> posts[j].id != postId
    decreases |posts|
  {
    if posts == [] then None
    else if posts[0].id == postId then Some(posts[0])
    else
      var r := FindPost(posts[1..], postId);
      assert forall k :: 1 <= k < |posts| ==> posts[k] == posts[1..][k - 1];
      r
  }

  /** The value `targetPost` holds after a `map` that assigns it at every
      post with the id: the last such post. */
  function LastTarget(posts: seq<Post>, postId: int): (r: Option<Post>)
    ensures r.Some? <==> exists k :: 0 <= k < |posts| && posts[k].id == postId
    ensures r.Some? ==> exists k :: 0 <= k < |posts| && posts[k] == r.value && r.value.id == postId &&
                                    forall j :: k < j < |posts| ==> posts[j].id != postId
    decreases |posts|
  {
    if posts == [] then None
    else if posts[|posts| - 1].id == postId then Some(posts[|posts| - 1])
    else
      var r := LastTarget(posts[..|posts| - 1], postId);
      assert forall k :: 0 <= k < |posts| - 1 ==> posts[k] == posts[..|posts| - 1][k];
      r
  }

  lemma LastTargetSnoc(posts: seq<Post>, postId: int, i: nat)
    requires i < |posts|
    ensures LastTarget(posts[..i + 1], postId) ==
            if posts[i].id == postId then Some(posts[i]) else LastTarget(posts[..i], postId)
  {
    assert posts[..i + 1][..i] == posts[..i];
  }

  predicate UniqueIds(posts: seq<Post>) {
    forall i, j :: 0 <= i < |posts| && 0 <= j < |posts| && posts[i].id == posts[j].id ==> i == j
  }

  /** With distinct ids, the post `find` returns and the post the `map`
      callback last assigned are the same. */
  lemma UniqueTarget(posts: seq<Post>, postId: int)
    requires UniqueIds(posts)
    ensures LastTarget(posts, postId) == FindPost(posts, postId)
  {
    if FindPost(posts, postId).Some? {
      var k :| 0 <= k < |posts| && posts[k] == FindPost(posts, postId).value && posts[k].id == postId;
      var m :| 0 <= m < |posts| && posts[m] == LastTarget(posts, postId).value && posts[m].id == postId;
      assert k == m;
    }
  }

  /** A transform that keeps ids moves `find`'s answer along with it. */
  lemma FindPostMap(posts: seq<Post>, postId: int, f: Post -> Post)
    requires forall p: Post :: f(p).id == p.id
    ensures FindPost(Map(posts, f), postId) ==
            if FindPost(posts, postId).Some? then Some(f(FindPost(posts, postId).value)) else None
  {
    var m := Map(posts, f);
    assert forall k :: 0 <= k < |posts| ==> m[k].id == posts[k].id;
    if FindPost(m, postId).Some? {
      var k :| 0 <= k < |m| && m[k] == FindPost(m, postId).value && m[k].id == postId &&
               forall j :: 0 <= j < k ==> m[j].id != postId;
      var k' :| 0 <= k' < |posts| && posts[k'] == FindPost(posts, postId).value && posts[k'].id == postId &&
                forall j :: 0 <= j < k' ==> posts[j].id != postId;
      assert k == k';
    }
  }

  // ---------------------------------------------------------------------
  // handleLikePost

  function IsNot(viewer: UserId): UserId -> bool {
    (id: UserId) => id != viewer
  }

  /** The likes with every occurrence of the viewer filtered out. */
  function Without(likes: seq<UserId>, viewer: UserId): seq<UserId> {
    Filter(likes, IsNot(viewer))
  }

  /** The two branches of the `map` callback: remove the viewer, or append it. */
  function ToggledLikes(likes: seq<UserId>, viewer: UserId, alreadyLiked: bool): seq<UserId> {
    if alreadyLiked then Without(likes, viewer) else likes + [viewer]
  }

  /** Unliking removes every occurrence of the viewer and keeps every other
      id as often as before, so the count drops by the viewer's occurrences. */
  lemma {:induction false} WithoutRemovesViewer(likes: seq<UserId>, viewer: UserId)
    ensures viewer !in Without(likes, viewer)
    ensures forall x :: x != viewer ==> multiset(Without(likes, viewer))[x] == multiset(likes)[x]
    ensures |Without(likes, viewer)| == |likes| - multiset(likes)[viewer]
    decreases |likes|
  {
    if likes != [] {
      var l := likes[..|likes| - 1];
      WithoutRemovesViewer(l, viewer);
      assert likes == l + [likes[|likes| - 1]];
    }
  }

  /** The handler's `isAlreadyLiked`: whether the first post with the id holds
      the viewer among its likes; a missing post counts as not liked. */
  predicate AlreadyLiked(posts: seq<Post>, postId: int, viewer: UserId) {
    FindPost(posts, postId).Some? && viewer in FindPost(posts, postId).value.likes
  }

  /** The `map` callback: every post with the id gets its likes toggled the
      same way, decided once from the first such post. */
  function LikeStep(postId: int, viewer: UserId, alreadyLiked: bool): Post -> Post {
    (p: Post) => if p.id == postId then p.(likes := ToggledLikes(p.likes, viewer, alreadyLiked)) else p
  }

  function LikedPosts(posts: seq<Post>, postId: int, viewer: UserId): seq<Post> {
    Map(posts, LikeStep(postId, viewer, AlreadyLiked(posts, postId, viewer)))
  }

  /** What the like toggle changes: the order and the length of `posts` are
      kept, a post with another id is untouched, and a post with the id
      changes only in `likes`, which gain the viewer at the end or lose
      every occurrence of it. */
  lemma LikedPostsShape(posts: seq<Post>, postId: int, viewer: UserId)
    ensures |LikedPosts(posts, postId, viewer)| == |posts|
    ensures forall i :: 0 <= i < |posts| && posts[i].id != postId ==> LikedPosts(posts, postId, viewer)[i] == posts[i]
    ensures forall i :: 0 <= i < |posts| && posts[i].id == postId ==>
              LikedPosts(posts, postId, viewer)[i].(likes := posts[i].likes) == posts[i]
    ensures !AlreadyLiked(posts, postId, viewer) ==> forall i :: 0 <= i < |posts| && posts[i].id == postId ==>
              LikedPosts(posts, postId, viewer)[i].likes == posts[i].likes + [viewer]
    ensures AlreadyLiked(posts, postId, viewer) ==> forall i :: 0 <= i < |posts| && posts[i].id == postId ==>
              viewer !in LikedPosts(posts, postId, viewer)[i].likes
    ensures AlreadyLiked(posts, postId, viewer) ==> forall i :: 0 <= i < |posts| && posts[i].id == postId ==>
              LikedPosts(posts, postId, viewer)[i].likes == Without(posts[i].likes, viewer)
  {
    forall i | 0 <= i < |posts| && posts[i].id == postId
      ensures AlreadyLiked(posts, postId, viewer) ==> viewer !in LikedPosts(posts, postId, viewer)[i].likes
    {
      WithoutRemovesViewer(posts[i].likes, viewer);
    }
  }

  /** The number next to the heart of a toggled post: one more after
      liking, and fewer by the viewer's occurrences (one, when the viewer
      appears once) after unliking. */
  lemma ToggleLikeCount(posts: seq<Post>, postId: int, viewer: UserId, i: nat)
    requires i < |posts| && posts[i].id == postId
    ensures !AlreadyLiked(posts, postId, viewer) ==>
              PostCard.LikeCount(LikedPosts(posts, postId, viewer)[i]) == PostCard.LikeCount(posts[i]) + 1
    ensures AlreadyLiked(posts, postId, viewer) ==>
              PostCard.LikeCount(LikedPosts(posts, postId, viewer)[i]) ==
              PostCard.LikeCount(posts[i]) - multiset(posts[i].likes)[viewer]
  {
    WithoutRemovesViewer(posts[i].likes, viewer);
  }

  lemma LikeStepKeepsIds(postId: int, viewer: UserId, alreadyLiked: bool)
    ensures forall p: Post :: LikeStep(postId, viewer, alreadyLiked)(p).id == p.id
  {
  }

  /** After one toggle, the first post with the id is liked exactly when it
      was not liked before. */
  lemma FirstToggleFlips(posts: seq<Post>, postId: int, viewer: UserId)
    requires FindPost(posts, postId).Some?
    ensures AlreadyLiked(LikedPosts(posts, postId, viewer), postId, viewer) == !AlreadyLiked(posts, postId, viewer)
  {
    var liked := AlreadyLiked(posts, postId, viewer);
    LikeStepKeepsIds(postId, viewer, liked);
    FindPostMap(posts, postId, LikeStep(postId, viewer, liked));
    if liked {
      WithoutRemovesViewer(FindPost(posts, postId).value.likes, viewer);
    }
  }

  lemma WithoutAppended(likes: seq<UserId>, viewer: UserId)
    ensures Without(likes + [viewer], viewer) == Without(likes, viewer)
  {
    FilterAppend(likes, [viewer], IsNot(viewer));
    FilterSingleton(viewer, IsNot(viewer));
  }

  /** Liking a post that was not liked and toggling again leaves, at every
      post with the id, the likes without the viewer; when none of them held
      the viewer, and only then, `posts` is restored exactly. */
  lemma LikeTwiceFromUnliked(posts: seq<Post>, postId: int, viewer: UserId)
    requires !AlreadyLiked(posts, postId, viewer)
    ensures forall i :: 0 <= i < |posts| ==>
              LikedPosts(LikedPosts(posts, postId, viewer), postId, viewer)[i] ==
              if posts[i].id == postId then posts[i].(likes := Without(posts[i].likes, viewer)) else posts[i]
    ensures (forall i :: 0 <= i < |posts| && posts[i].id == postId ==> viewer !in posts[i].likes) <==>
              LikedPosts(LikedPosts(posts, postId, viewer), postId, viewer) == posts
  {
    var once := LikedPosts(posts, postId, viewer);
    var twice := LikedPosts(once, postId, viewer);
    forall i | 0 <= i < |posts|
      ensures twice[i] == if posts[i].id == postId then posts[i].(likes := Without(posts[i].likes, viewer)) else posts[i]
    {
      if posts[i].id == postId {
        FirstToggleFlips(posts, postId, viewer);
        WithoutAppended(posts[i].likes, viewer);
      }
    }
    if forall i :: 0 <= i < |posts| && posts[i].id == postId ==> viewer !in posts[i].likes {
      forall i | 0 <= i < |posts| && posts[i].id == postId ensures twice[i] == posts[i] {
        FilterAll(posts[i].likes, IsNot(viewer));
      }
    }
    if twice == posts {
      forall i | 0 <= i < |posts| && posts[i].id == postId ensures viewer !in posts[i].likes {
        assert twice[i].likes == posts[i].likes;
        WithoutRemovesViewer(posts[i].likes, viewer);
      }
    }
  }

  /** Unliking a liked post and toggling again leaves, at every post with
      the id, the old likes without the viewer, followed by the viewer once:
      the same set of ids, with the viewer moved to the end. */
  lemma LikeTwiceFromLiked(posts: seq<Post>, postId: int, viewer: UserId)
    requires AlreadyLiked(posts, postId, viewer)
    ensures forall i :: 0 <= i < |posts| ==>
              LikedPosts(LikedPosts(posts, postId, viewer), postId, viewer)[i] ==
              if posts[i].id == postId then posts[i].(likes := Without(posts[i].likes, viewer) + [viewer]) else posts[i]
  {
    FirstToggleFlips(posts, postId, viewer);
  }

  /** The likes after a double toggle from liked hold the same ids as before. */
  lemma {:induction false} RelikedSameSet(likes: seq<UserId>, viewer: UserId)
    requires viewer in likes
    ensures forall x :: x in Without(likes, viewer) + [viewer] <==> x in likes
  {
    WithoutRemovesViewer(likes, viewer);
    forall x ensures x in Without(likes, viewer) + [viewer] <==> x in likes {
      if x != viewer {
        assert x in Without(likes, viewer) <==> x in multiset(Without(likes, viewer));
        assert x in likes <==> x in multiset(likes);
      }
    }
  }

  /** The like notification of `handleLikePost`: sent only when a post with
      the id exists, the viewer had not liked it, and the post's author is
      someone else; it names the viewer, the post and its author, and is unread. */
  function LikeNotice(posts: seq<Post>, postId: int, actor: UserId, id: int, now: int): (r: Option<Notification>)
    ensures r.Some? ==> r.value == Notification(id, Liked, actor, postId, r.value.postAuthorId, now, false)
    ensures r.Some? ==> r.value.postAuthorId != actor
    ensures r.Some? ==> exists k :: 0 <= k < |posts| && posts[k].id == postId && posts[k].authorId == r.value.postAuthorId
    ensures r.Some? <==> LastTarget(posts, postId).Some? && !AlreadyLiked(posts, postId, actor) &&
                         LastTarget(posts, postId).value.authorId != actor
    ensures r.Some? ==> r.value.postAuthorId == LastTarget(posts, postId).value.authorId
  {
    var target := LastTarget(posts, postId);
    if target.Some? && !AlreadyLiked(posts, postId, actor) && target.value.authorId != actor then
      Some(Notification(id, Liked, actor, target.value.id, target.value.authorId, now, false))
    else None
  }

  /** With distinct post ids: a like notification is created exactly when
      the post exists, was not liked by the viewer, and belongs to someone
      else. Unliking, or liking a missing post, creates none. */
  lemma LikeNoticeIff(posts: seq<Post>, postId: int, actor: UserId, id: int, now: int)
    requires UniqueIds(posts)
    ensures LikeNotice(posts, postId, actor, id, now).Some? <==>
              FindPost(posts, postId).Some? && actor !in FindPost(posts, postId).value.likes &&
              FindPost(posts, postId).value.authorId != actor
    ensures LikeNotice(posts, postId, actor, id, now).Some? ==>
              LikeNotice(posts, postId, actor, id, now).value.postAuthorId == FindPost(posts, postId).value.authorId
  {
    UniqueTarget(posts, postId);
  }

  /** Puts the new notification, when there is one, in front of the others. */
  function Prepend(notice: Option<Notification>, notifications: seq<Notification>): (r: seq<Notification>)
    ensures notice.None? ==> r == notifications
    ensures notice.Some? ==> |r| == |notifications| + 1 && r[0] == notice.value && r[1..] == notifications
  {
    match notice
    case None => notifications
    case Some(n) => [n] + notifications
  }

  // ---------------------------------------------------------------------
  // handleAddComment

  function CommentStep(postId: int, c: Comment): Post -> Post {
    (p: Post) => if p.id == postId then p.(comments := p.comments + [c]) else p
  }

  /** The posts after the handler's map: the comment goes at the end of every
      post with the id. */
  function CommentedPosts(posts: seq<Post>, postId: int, c: Comment): seq<Post> {
    Map(posts, CommentStep(postId, c))
  }

  /** A post with the id gains exactly the new comment at the end; its
      earlier comments and everything else are unchanged, and so is every
      other post. */
  lemma CommentedPostsShape(posts: seq<Post>, postId: int, c: Comment)
    ensures |CommentedPosts(posts, postId, c)| == |posts|
    ensures forall i :: 0 <= i < |posts| && posts[i].id != postId ==> CommentedPosts(posts, postId, c)[i] == posts[i]
    ensures forall i :: 0 <= i < |posts| && posts[i].id == postId ==>
              var q := CommentedPosts(posts, postId, c)[i];
              q.(comments := posts[i].comments) == posts[i] &&
              |q.comments| == |posts[i].comments| + 1 &&
              q.comments[..|posts[i].comments|] == posts[i].comments &&
              q.comments[|posts[i].comments|] == c
  {
    forall i | 0 <= i < |posts| && posts[i].id == postId
      ensures CommentedPosts(posts, postId, c)[i].comments[..|posts[i].comments|] == posts[i].comments
    {
      assert (posts[i].comments + [c])[..|posts[i].comments|] == posts[i].comments;
    }
  }

  function TotalComments(posts: seq<Post>): nat
    decreases |posts|
  {
    if posts == [] then 0 else TotalComments(posts[..|posts| - 1]) + |posts[|posts| - 1].comments|
  }

  function HasId(postId: int): Post -> bool {
    (p: Post) => p.id == postId
  }

  /** Across all posts, a comment is added once per post carrying the id:
      exactly one comment when ids are distinct and the post exists, none
      when it is missing. */
  lemma {:induction false} CommentsAdded(posts: seq<Post>, postId: int, c: Comment)
    ensures TotalComments(CommentedPosts(posts, postId, c)) == TotalComments(posts) + |Indices(posts, HasId(postId))|
    decreases |posts|
  {
    if posts == [] {
      assert Indices(posts, HasId(postId)) == {};
    } else {
      var s := posts[..|posts| - 1];
      CommentsAdded(s, postId, c);
      IndicesSnoc(posts, HasId(postId));
      var m := CommentedPosts(posts, postId, c);
      assert m[..|m| - 1] == CommentedPosts(s, postId, c);
    }
  }

  lemma UniqueIdsOneIndex(posts: seq<Post>, postId: int)
    requires UniqueIds(posts)
    ensures |Indices(posts, HasId(postId))| == if FindPost(posts, postId).Some? then 1 else 0
  {
    if FindPost(posts, postId).Some? {
      var k :| 0 <= k < |posts| && posts[k].id == postId;
      assert Indices(posts, HasId(postId)) == {k};
    } else {
      assert Indices(posts, HasId(postId)) == {};
    }
  }

  /** The comment notification: sent exactly when a post with the id exists
      and its author is someone else; a self-comment creates none. */
  function CommentNotice(posts: seq<Post>, postId: int, actor: UserId, id: int, now: int): (r: Option<Notification>)
    ensures r.Some? ==> r.value == Notification(id, Commented, actor, postId, r.value.postAuthorId, now, false)
    ensures r.Some? ==> r.value.postAuthorId != actor
    ensures r.Some? ==> exists k :: 0 <= k < |posts| && posts[k].id == postId && posts[k].authorId == r.value.postAuthorId
    ensures r.Some? <==> LastTarget(posts, postId).Some? && LastTarget(posts, postId).value.authorId != actor
    ensures r.Some? ==> r.value.postAuthorId == LastTarget(posts, postId).value.authorId
  {
    var target := LastTarget(posts, postId);
    if target.Some? && target.value.authorId != actor then
      Some(Notification(id, Commented, actor, target.value.id, target.value.authorId, now, false))
    else None
  }

  /** With distinct post ids: a comment notification is created exactly when
      the post exists and belongs to someone else. */
  lemma CommentNoticeIff(posts: seq<Post>, postId: int, actor: UserId, id: int, now: int)
    requires UniqueIds(posts)
    ensures CommentNotice(posts, postId, actor, id, now).Some? <==>
              FindPost(posts, postId).Some? && FindPost(posts, postId).value.authorId != actor
  {
    UniqueTarget(posts, postId);
  }

  // ---------------------------------------------------------------------
  // handleMarkNotificationsAsRead

  /** A notification already read is kept as it is; any other is copied with `read` set. */
  function MarkRead(n: Notification): Notification {
    if n.read then n else n.(read := true)
  }

  function MarkAllRead(notifications: seq<Notification>): seq<Notification> {
    Map(notifications, MarkRead)
  }

  /** Afterwards every notification is read; nothing else changes, and the
      length and order are kept. */
  lemma MarkAllReadShape(notifications: seq<Notification>)
    ensures |MarkAllRead(notifications)| == |notifications|
    ensures forall i :: 0 <= i < |notifications| ==> MarkAllRead(notifications)[i] == notifications[i].(read := true)
    ensures forall i :: 0 <= i < |notifications| && notifications[i].read ==> MarkAllRead(notifications)[i] == notifications[i]
  {
  }

  /** Marking twice is marking once. */
  lemma {:induction false} MarkAllReadIdempotent(notifications: seq<Notification>)
    ensures MarkAllRead(MarkAllRead(notifications)) == MarkAllRead(notifications)
  {
    var once := MarkAllRead(notifications);
    forall i | 0 <= i < |once| ensures MarkAllRead(once)[i] == once[i] {
      assert once[i].read;
    }
  }

  /** What the header receives: the notifications about posts written by the
      viewer. */
  function AddressedTo(viewer: UserId): Notification -> bool {
    (n: Notification) => n.postAuthorId == viewer
  }

  function Inbox(notifications: seq<Notification>, viewer: UserId): seq<Notification> {
    Filter(notifications, AddressedTo(viewer))
  }

  /** The handler marks every notification, not only the ones the header
      shows; the header's list after marking is its list before, marked, and
      its unread count is then zero. */
  lemma MarkAllReadInbox(notifications: seq<Notification>, viewer: UserId)
    ensures Inbox(MarkAllRead(notifications), viewer) == MarkAllRead(Inbox(notifications, viewer))
    ensures Header.UnreadCount(Inbox(MarkAllRead(notifications), viewer)) == 0
  {
    FilterMapCommute(notifications, MarkRead, AddressedTo(viewer));
    var r := Inbox(MarkAllRead(notifications), viewer);
    FilterNone(r, Header.IsUnread());
  }

  // ---------------------------------------------------------------------
  // handleUpdateProfile

  /** A user with the id gets the new bio and avatar; every other user is kept. */
  function ProfileMerge(userId: UserId, bio: string, avatar: string): User -> User {
    (u: User) => if u.id == userId then u.(bio := bio, avatar := avatar) else u
  }

  function UpdatedUsers(users: seq<User>, userId: UserId, bio: string, avatar: string): seq<User> {
    Map(users, ProfileMerge(userId, bio, avatar))
  }

  /** Only `bio` and `avatar` change, and only on users with the id. */
  lemma UpdatedUsersShape(users: seq<User>, userId: UserId, bio: string, avatar: string)
    ensures |UpdatedUsers(users, userId, bio, avatar)| == |users|
    ensures forall i :: 0 <= i < |users| && users[i].id != userId ==> UpdatedUsers(users, userId, bio, avatar)[i] == users[i]
    ensures forall i :: 0 <= i < |users| && users[i].id == userId ==>
              UpdatedUsers(users, userId, bio, avatar)[i] == users[i].(bio := bio, avatar := avatar)
  {
  }

  /** Looking a user up after the update finds the same user as before,
      with the new bio and avatar when it is the one updated. */
  lemma FindUpdatedUser(users: seq<User>, userId: UserId, bio: string, avatar: string, id: UserId)
    ensures FindUser(UpdatedUsers(users, userId, bio, avatar), id) ==
            if FindUser(users, id).Some? then Some(ProfileMerge(userId, bio, avatar)(FindUser(users, id).value)) else None
  {
    var f := ProfileMerge(userId, bio, avatar);
    var m := UpdatedUsers(users, userId, bio, avatar);
    assert forall k :: 0 <= k < |users| ==> m[k].id == users[k].id;
    if FindUser(m, id).Some? {
      var k :| 0 <= k < |m| && m[k] == FindUser(m, id).value && m[k].id == id &&
               forall j :: 0 <= j < k ==> m[j].id != id;
      var k' :| 0 <= k' < |users| && users[k'] == FindUser(users, id).value && users[k'].id == id &&
                forall j :: 0 <= j < k' ==> users[j].id != id;
      assert k == k';
    }
  }

  /** `currentUser` after the update: the updated record when it is the
      current user's own profile and the id is found, otherwise unchanged. */
  function RefreshedCurrent(currentUser: User, updated: seq<User>, userId: UserId): (r: User)
    ensures currentUser.id != userId ==> r == currentUser
    ensures r.id == currentUser.id
  {
    if currentUser.id == userId then
      match FindUser(updated, userId)
      case Some(u) => u
      case None => currentUser
    else currentUser
  }

  /** When the current user is listed, the refreshed current user is its
      own record with the update applied, and is still the first user with
      its id. */
  lemma RefreshedCurrentListed(users: seq<User>, currentUser: User, userId: UserId, bio: string, avatar: string)
    requires FindUser(users, currentUser.id) == Some(currentUser)
    ensures var updated := UpdatedUsers(users, userId, bio, avatar);
            RefreshedCurrent(currentUser, updated, userId) == ProfileMerge(userId, bio, avatar)(currentUser) &&
            FindUser(updated, currentUser.id) == Some(RefreshedCurrent(currentUser, updated, userId))
  {
    FindUpdatedUser(users, userId, bio, avatar, currentUser.id);
  }

  // ---------------------------------------------------------------------
  // handleSharePost

  /** The text handed to the share sheet: the first 100 characters, then an
      ellipsis when the content is longer than that. */
  function ShareText(content: string): string {
    Substring(content, 0, 100) + (if |content| > 100 then "..." else "")
  }

  /** Short content is shared whole; longer content is cut to its first 100
      characters and marked with an ellipsis. */
  lemma ShareTextShape(content: string)
    ensures |content| <= 100 ==> ShareText(content) == content
    ensures |content| > 100 ==> ShareText(content) == content[..100] + "..." && |ShareText(content)| == 103
    ensures ShareText(content)[..if |content| < 100 then |content| else 100] <= content
  {
    SubstringPrefix(content, 100);
  }

  // ---------------------------------------------------------------------
  // The state

  /** The map over `posts` in `handleLikePost`, which also assigns
      `targetPost` at every post with the id. */
  method MapLikes(posts: seq<Post>, postId: int, viewer: UserId, isAlreadyLiked: bool)
    returns (after: seq<Post>, targetPost: Option<Post>)
    ensures after == Map(posts, LikeStep(postId, viewer, isAlreadyLiked))
    ensures targetPost == LastTarget(posts, postId)
  {
    ghost var step := LikeStep(postId, viewer, isAlreadyLiked);
    targetPost := None;
    after := [];
    var i := 0;
    while i < |posts|
      invariant 0 <= i <= |posts|
      invariant after == Map(posts[..i], step)
      invariant targetPost == LastTarget(posts[..i], postId)
    {
      var post := posts[i];
      if post.id == postId {
        targetPost := Some(post);
        if isAlreadyLiked {
          after := after + [post.(likes := Without(post.likes, viewer))];
        } else {
          after := after + [post.(likes := post.likes + [viewer])];
        }
      } else {
        after := after + [post];
      }
      MapSnoc(posts, step, i);
      LastTargetSnoc(posts, postId, i);
      i := i + 1;
    }
    assert posts[..i] == posts;
  }

  /** The map over `posts` in `handleAddComment`, with its `targetPost`. */
  method MapComments(posts: seq<Post>, postId: int, newComment: Comment)
    returns (after: seq<Post>, targetPost: Option<Post>)
    ensures after == CommentedPosts(posts, postId, newComment)
    ensures targetPost == LastTarget(posts, postId)
  {
    ghost var step := CommentStep(postId, newComment);
    targetPost := None;
    after := [];
    var i := 0;
    while i < |posts|
      invariant 0 <= i <= |posts|
      invariant after == Map(posts[..i], step)
      invariant targetPost == LastTarget(posts[..i], postId)
    {
      var post := posts[i];
      if post.id == postId {
        targetPost := Some(post);
        after := after + [post.(comments := post.comments + [newComment])];
      } else {
        after := after + [post];
      }
      MapSnoc(posts, step, i);
      LastTargetSnoc(posts, postId, i);
      i := i + 1;
    }
    assert posts[..i] == posts;
  }

  /** `handleCreatePost`: the new post by the current user, with no likes
      and no comments. */
  function NewPost(author: UserId, content: string, image: Option<string>, id: int, now: int): (p: Post)
    ensures p.authorId == author && p.content == content && p.image == image
    ensures p.likes == [] && p.comments == [] && p.id == id && p.timestamp == now
  {
    Post(id, author, content, image, [], [], now)
  }

  /** No one is notified about their own like or comment. */
  predicate NoSelfNotice(notifications: seq<Notification>) {
    forall i :: 0 <= i < |notifications| ==> notifications[i].actorId != notifications[i].postAuthorId
  }

  class AppState {
    var users: seq<User>
    var posts: seq<Post>
    var currentUser: User
    var notifications: seq<Notification>

    /** The current user is the first user with its id, and no stored
        notification is about its own actor. */
    ghost predicate Valid()
      reads this
    {
      FindUser(users, currentUser.id) == Some(currentUser) && NoSelfNotice(notifications)
    }

    /** The initial state: the current user is the first of the users. */
    constructor (initialUsers: seq<User>, initialPosts: seq<Post>, initialNotifications: seq<Notification>)
      requires |initialUsers| > 0
      requires NoSelfNotice(initialNotifications)
      ensures Valid()
      ensures users == initialUsers && posts == initialPosts && notifications == initialNotifications
      ensures currentUser == initialUsers[0]
    {
      users := initialUsers;
      posts := initialPosts;
      notifications := initialNotifications;
      currentUser := initialUsers[0];
    }

    /** `handleCreatePost`: exactly one new post, at the front; no check on
        the content here. */
    method AddPost(content: string, image: Option<string>, id: int, now: int)
      requires Valid()
      modifies this
      ensures Valid()
      ensures posts == [NewPost(currentUser.id, content, image, id, now)] + old(posts)
      ensures users == old(users) && currentUser == old(currentUser) && notifications == old(notifications)
    {
      posts := [NewPost(currentUser.id, content, image, id, now)] + posts;
    }

    /** Stores a new notification in front of the existing ones. */
    method Notify(n: Notification)
      requires Valid() && n.actorId != n.postAuthorId
      modifies this
      ensures Valid()
      ensures notifications == [n] + old(notifications)
      ensures users == old(users) && posts == old(posts) && currentUser == old(currentUser)
    {
      notifications := [n] + notifications;
    }

    /** `handleLikePost`. */
    method ToggleLike(postId: int, id: int, now: int)
      requires Valid()
      modifies this
      ensures Valid()
      ensures posts == LikedPosts(old(posts), postId, currentUser.id)
      ensures notifications == Prepend(LikeNotice(old(posts), postId, currentUser.id, id, now), old(notifications))
      ensures users == old(users) && currentUser == old(currentUser)
    {
      var viewer := currentUser.id;
      var isAlreadyLiked := AlreadyLiked(posts, postId, viewer);
      var after, targetPost := MapLikes(posts, postId, viewer, isAlreadyLiked);
      posts := after;
      if targetPost.Some? && !isAlreadyLiked && targetPost.value.authorId != viewer {
        Notify(Notification(id, Liked, viewer, targetPost.value.id, targetPost.value.authorId, now, false));
      }
    }

    /** `handleAddComment`. */
    method AddComment(postId: int, text: string, commentId: int, noticeId: int, now: int)
      requires Valid()
      modifies this
      ensures Valid()
      ensures posts == CommentedPosts(old(posts), postId, Comment(commentId, text, currentUser.id, now))
      ensures notifications == Prepend(CommentNotice(old(posts), postId, currentUser.id, noticeId, now), old(notifications))
      ensures users == old(users) && currentUser == old(currentUser)
    {
      var newComment := Comment(commentId, text, currentUser.id, now);
      var after, targetPost := MapComments(posts, postId, newComment);
      posts := after;
      if targetPost.Some? && targetPost.value.authorId != currentUser.id {
        Notify(Notification(noticeId, Commented, currentUser.id, targetPost.value.id, targetPost.value.authorId, now, false));
      }
    }

    /** `handleMarkNotificationsAsRead`, with the delay left out. */
    method MarkNotificationsAsRead()
      requires Valid()
      modifies this
      ensures Valid()
      ensures notifications == MarkAllRead(old(notifications))
      ensures users == old(users) && posts == old(posts) && currentUser == old(currentUser)
    {
      notifications := MarkAllRead(notifications);
    }

    /** `handleUpdateProfile`. */
    method UpdateProfile(userId: UserId, bio: string, avatar: string)
      requires Valid()
      modifies this
      ensures Valid()
      ensures users == UpdatedUsers(old(users), userId, bio, avatar)
      ensures old(currentUser).id == userId ==> currentUser == old(currentUser).(bio := bio, avatar := avatar)
      ensures old(currentUser).id != userId ==> currentUser == old(currentUser)
      ensures posts == old(posts) && notifications == old(notifications)
    {
      var updated := UpdatedUsers(users, userId, bio, avatar);
      RefreshedCurrentListed(users, currentUser, userId, bio, avatar);
      users := updated;
      currentUser := RefreshedCurrent(currentUser, updated, userId);
    }

    /** The new-post form wired to `handleCreatePost`: a blank submit with no
        image changes nothing, anywhere. */
    method SubmitPostForm(form: CreatePost.Form, id: int, now: int)
      requires Valid()
      modifies this, form
      ensures Valid()
      ensures CreatePost.Accepts(old(form.content), old(form.image)) ==>
                var r := CreatePost.Forwarded(old(form.content), old(form.image));
                posts == [NewPost(currentUser.id, r.content, r.image, id, now)] + old(posts) &&
                form.content == "" && form.image == None
      ensures !CreatePost.Accepts(old(form.content), old(form.image)) ==>
                posts == old(posts) && form.content == old(form.content) && form.image == old(form.image)
      ensures users == old(users) && currentUser == old(currentUser) && notifications == old(notifications)
    {
      var sent := form.Submit();
      if sent.Some? {
        AddPost(sent.value.content, sent.value.image, id, now);
      }
    }

    /** A post card's comment form wired to `handleAddComment`: a blank
        comment adds no comment and no notification. */
    method SubmitCommentForm(card: PostCard.Card, post: Post, commentId: int, noticeId: int, now: int)
      requires Valid()
      modifies this, card
      ensures Valid()
      ensures HasText(old(card.commentText)) ==>
                posts == CommentedPosts(old(posts), post.id, Comment(commentId, old(card.commentText), currentUser.id, now)) &&
                notifications == Prepend(CommentNotice(old(posts), post.id, currentUser.id, noticeId, now), old(notifications))
      ensures !HasText(old(card.commentText)) ==> posts == old(posts) && notifications == old(notifications)
      ensures HasText(old(card.commentText)) ==> card.commentText == ""
      ensures !HasText(old(card.commentText)) ==> card.commentText == old(card.commentText)
      ensures card.commentsVisible == old(card.commentsVisible)
      ensures users == old(users) && currentUser == old(currentUser)
    {
      var sent := card.SubmitComment(post);
      if sent.Some? {
        AddComment(sent.value.targetId, sent.value.text, commentId, noticeId, now);
      }
    }

    /** The bell wired to `handleMarkNotificationsAsRead`: opening the panel
        marks everything read, closing it changes nothing. */
    method ClickBell(panel: Header.Panel)
      requires Valid()
      modifies this, panel
      ensures Valid()
      ensures panel.isPanelOpen == !old(panel.isPanelOpen)
      ensures panel.isPanelOpen ==> notifications == MarkAllRead(old(notifications))
      ensures !panel.isPanelOpen ==> notifications == old(notifications)
      ensures users == old(users) && posts == old(posts) && currentUser == old(currentUser)
    {
      var markRead := panel.TogglePanel();
      if markRead {
        MarkNotificationsAsRead();
      }
    }

    /** The profile editor's save wired to `handleUpdateProfile`. */
    method SaveProfile(editor: Profile.Editor, user: User)
      requires Valid()
      modifies this, editor
      ensures Valid()
      ensures users == UpdatedUsers(old(users), user.id, old(editor.editedBio),
                                    Profile.ShownAvatar(old(editor.editedAvatar), user))
      ensures old(currentUser).id == user.id ==>
                currentUser == old(currentUser).(bio := old(editor.editedBio),
                                                 avatar := Profile.ShownAvatar(old(editor.editedAvatar), user))
      ensures old(currentUser).id != user.id ==> currentUser == old(currentUser)
      ensures !editor.isEditing && editor.editedAvatar == None && editor.editedBio == old(editor.editedBio)
      ensures posts == old(posts) && notifications == old(notifications)
    {
      var update := editor.Save(user);
      UpdateProfile(update.userId, update.bio, update.avatar);
    }
  }
}
