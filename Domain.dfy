/** The records of `types.ts`. Ids are whole numbers; every ISO timestamp is
    held as the millisecond count the sort comparators compute from it. */
module Domain {

  datatype Option<T> = None | Some(value: T)

  type UserId = int

  datatype User = User(
    id: UserId,
    name: string,
    avatar: string,
    bio: string,
    followers: int,
    following: int,
    gender: Option<string>,
    country: Option<string>,
    profession: Option<string>,
    qualification: Option<string>)

  datatype Comment = Comment(id: int, text: string, authorId: UserId, timestamp: int)

  datatype Post = Post(
    id: int,
    authorId: UserId,
    content: string,
    image: Option<string>,
    likes: seq<UserId>,
    comments: seq<Comment>,
    timestamp: int)

  datatype Video = Video(
    id: int,
    creatorId: UserId,
    title: string,
    description: string,
    thumbnail: string,
    videoUrl: string,
    views: int,
    likes: seq<UserId>,
    comments: seq<Comment>,
    timestamp: int)

  /** The `type` field of a notification: `'like' | 'comment'`. */
  datatype NotificationKind = Liked | Commented

  datatype Notification = Notification(
    id: int,
    kind: NotificationKind,
    actorId: UserId,
    postId: int,
    postAuthorId: UserId,
    timestamp: int,
    read: bool)

  /** What a card's comment form hands to its `onAddComment` callback. */
  datatype CommentRequest = CommentRequest(targetId: int, text: string)

  function PostTime(p: Post): int {
    p.timestamp
  }

  function VideoTime(v: Video): int {
    v.timestamp
  }

  /** The user `find` returns for an id: the first user carrying it, if any. */
  function FindUser(users: seq<User>, id: UserId): (r: Option<User>)
    ensures r.Some? <==> exists k :: 0 <= k < |users| && users[k].id == id
    ensures r.Some? ==> exists k :: 0 <= k < |users| && users[k] == r.value && r.value.id == id &&
                                    forall j :: 0 <= j < k ==> users[j].id != id
    decreases |users|
  {
    if users == [] then None
    else if users[0].id == id then Some(users[0])
    else
      var r := FindUser(users[1..], id);
      assert forall k :: 1 <= k < |users| ==> users[k] == users[1..][k - 1];
      r
  }

  /** A `string | null` value used as a condition: null and `''` are falsy. */
  predicate Truthy(s: Option<string>) {
    s.Some? && s.value != ""
  }
}
