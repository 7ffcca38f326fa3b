/** `components/Feed.tsx`: sorts the received `posts` array newest-first in
    place, then renders one card per post whose author is known. */
module Feed {
  import opened Domain
  import opened Seqs
  import opened Ordering

  /** What one rendered `PostCard` receives. */
  datatype PostView = PostView(post: Post, author: User)

  /** The cards of the feed: a post whose author is not found renders nothing,
      and each card pairs its post with the first user whose id is the post's
      `authorId`. */
  function Cards(posts: seq<Post>, users: seq<User>): (r: seq<PostView>)
    ensures forall i :: 0 <= i < |r| ==> FindUser(users, r[i].post.authorId) == Some(r[i].author)
    decreases |posts|
  {
    if posts == [] then []
    else
      var rest := Cards(posts[..|posts| - 1], users);
      var p := posts[|posts| - 1];
      match FindUser(users, p.authorId)
      case None => rest
      case Some(a) => rest + [PostView(p, a)]
  }

  function CardPost(v: PostView): Post {
    v.post
  }

  predicate HasAuthor(users: seq<User>, p: Post) {
    FindUser(users, p.authorId).Some?
  }

  function KnownAuthor(users: seq<User>): Post -> bool {
    (p: Post) => HasAuthor(users, p)
  }

  /** The cards show, in order, exactly the posts whose author is known: a
      post with a dangling `authorId` is left out. */
  lemma {:induction false} CardsAreKnownAuthors(posts: seq<Post>, users: seq<User>)
    ensures Map(Cards(posts, users), CardPost) == Filter(posts, KnownAuthor(users))
    decreases |posts|
  {
    if posts != [] {
      var posts' := posts[..|posts| - 1];
      CardsAreKnownAuthors(posts', users);
      var rest := Cards(posts', users);
      var p := posts[|posts| - 1];
      match FindUser(users, p.authorId)
      case None =>
      case Some(a) =>
        var cs := rest + [PostView(p, a)];
        assert cs[..|cs| - 1] == rest;
    }
  }

  /** One step of the in-place insertion: `a[i]` moves left past the
      elements before it with a smaller timestamp, which shift right by one;
      `j` is where it lands. */
  method ShiftIn(a: array<Post>, i: nat) returns (j: nat)
    requires i < a.Length
    modifies a
    ensures j <= i
    ensures forall k :: 0 <= k < j ==> a[k] == old(a[k])
    ensures a[j] == old(a[i])
    ensures forall k :: j < k <= i ==> a[k] == old(a[k - 1])
    ensures forall k :: i < k < a.Length ==> a[k] == old(a[k])
    ensures j > 0 ==> old(a[j - 1]).timestamp >= old(a[i]).timestamp
    ensures forall k :: j <= k < i ==> old(a[k]).timestamp < old(a[i]).timestamp
  {
    var x := a[i];
    j := i;
    while j > 0 && a[j - 1].timestamp < x.timestamp
      invariant 0 <= j <= i
      invariant forall k :: 0 <= k < j ==> a[k] == old(a[k])
      invariant forall k :: j < k <= i ==> a[k] == old(a[k - 1])
      invariant forall k :: j <= k < i ==> old(a[k]).timestamp < x.timestamp
      invariant forall k :: i < k < a.Length ==> a[k] == old(a[k])
      invariant x == old(a[i])
    {
      a[j] := a[j - 1];
      j := j - 1;
    }
    a[j] := x;
  }

  /** The newest-first sort of the received array, in place: a stable
      insertion sort whose result is `NewestFirst` of the old contents. */
  method SortNewestFirst(a: array<Post>)
    modifies a
    ensures a[..] == NewestFirst(old(a[..]), PostTime)
  {
    ghost var s := a[..];
    var i := 0;
    while i < a.Length
      invariant 0 <= i <= a.Length
      invariant a[..i] == NewestFirst(s[..i], PostTime)
      invariant forall k :: i <= k < a.Length ==> a[k] == s[k]
    {
      ghost var t := a[..i];
      ghost var x := a[i];
      NewestFirstSorts(s[..i], PostTime);
      var j := ShiftIn(a, i);
      ShiftedPrefix(t, x, j, a[..]);
      InsertStopsAt(t, x, PostTime, j);
      NewestFirstSnoc(s, PostTime, i);
      assert a[..i + 1] == a[..][..i + 1];
      i := i + 1;
    }
    assert s[..a.Length] == s;
  }

  /** The whole component: the array is sorted in place and the cards are
      computed from the sorted order. */
  method Render(posts: array<Post>, users: seq<User>) returns (cards: seq<PostView>)
    modifies posts
    ensures posts[..] == NewestFirst(old(posts[..]), PostTime)
    ensures cards == Cards(posts[..], users)
  {
    SortNewestFirst(posts);
    cards := Cards(posts[..], users);
  }
}
