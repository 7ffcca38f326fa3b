/** `components/Profile.tsx`: one user's page. It lists that user's posts
    newest-first, counts them, and lets the owner edit bio and avatar. */
module Profile {
  import opened Domain
  import opened Seqs
  import opened Ordering

  function AuthoredBy(id: UserId): Post -> bool {
    (p: Post) => p.authorId == id
  }

  /** The profile's posts: those written by the user, sorted newest first;
      the sort runs on the fresh array the filter returns. */
  function UserPosts(posts: seq<Post>, user: User): seq<Post> {
    NewestFirst(Filter(posts, AuthoredBy(user.id)), PostTime)
  }

  /** The profile lists exactly the user's own posts, each as often as in
      `posts`, newest first. */
  lemma UserPostsExactly(posts: seq<Post>, user: User)
    ensures forall i :: 0 <= i < |UserPosts(posts, user)| ==>
              UserPosts(posts, user)[i].authorId == user.id && UserPosts(posts, user)[i] in posts
    ensures forall i :: 0 <= i < |posts| && posts[i].authorId == user.id ==> posts[i] in UserPosts(posts, user)
    ensures multiset(UserPosts(posts, user)) == multiset(Filter(posts, AuthoredBy(user.id)))
    ensures Descending(UserPosts(posts, user), PostTime)
  {
    var own := Filter(posts, AuthoredBy(user.id));
    var r := UserPosts(posts, user);
    NewestFirstSorts(own, PostTime);
    forall i | 0 <= i < |r| ensures r[i].authorId == user.id && r[i] in posts {
      assert r[i] in multiset(own);
      assert r[i] in own;
      var k :| 0 <= k < |own| && own[k] == r[i];
      assert AuthoredBy(user.id)(own[k]);
    }
    forall i | 0 <= i < |posts| && posts[i].authorId == user.id ensures posts[i] in r {
      assert AuthoredBy(user.id)(posts[i]);
      assert posts[i] in own;
      assert posts[i] in multiset(r);
    }
  }

  /** The number shown under the posts label. */
  function PostCount(posts: seq<Post>, user: User): nat {
    |UserPosts(posts, user)|
  }

  /** The count shown is the number of posts whose author is the profile's user. */
  lemma PostCountCounts(posts: seq<Post>, user: User)
    ensures PostCount(posts, user) == |set i: nat | i < |posts| && posts[i].authorId == user.id|
  {
    var own := Filter(posts, AuthoredBy(user.id));
    NewestFirstSorts(own, PostTime);
    assert |multiset(UserPosts(posts, user))| == |multiset(own)|;
    FilterCountsIndices(posts, AuthoredBy(user.id));
    assert Indices(posts, AuthoredBy(user.id)) == set i: nat | i < |posts| && posts[i].authorId == user.id;
  }

  /** The chosen avatar when it is a non-empty string, else the user's own:
      the avatar shown while editing, and the one saved. */
  function ShownAvatar(editedAvatar: Option<string>, user: User): (a: string)
    ensures Truthy(editedAvatar) ==> a == editedAvatar.value
    ensures !Truthy(editedAvatar) ==> a == user.avatar
  {
    if Truthy(editedAvatar) then editedAvatar.value else user.avatar
  }

  /** The pencil button: offered to the profile's owner while not editing. */
  function EditButtonShown(currentUser: User, user: User, isEditing: bool): (shown: bool)
    ensures shown ==> currentUser.id == user.id
    ensures shown ==> !isEditing
    ensures currentUser.id == user.id && !isEditing ==> shown
  {
    currentUser.id == user.id && !isEditing
  }

  /** The arguments of `onUpdateProfile(userId, newBio, newAvatar)`. */
  datatype ProfileUpdate = ProfileUpdate(userId: UserId, bio: string, avatar: string)

  /** The `isEditing`, `editedBio` and `editedAvatar` state of the page. */
  class Editor {
    var isEditing: bool
    var editedBio: string
    var editedAvatar: Option<string>

    constructor (user: User)
      ensures !isEditing && editedBio == user.bio && editedAvatar == None
    {
      isEditing := false;
      editedBio := user.bio;
      editedAvatar := None;
    }

    /** The pencil button: enters edit mode, which hides the button. */
    method StartEditing(currentUser: User, user: User)
      modifies this
      ensures isEditing && editedBio == old(editedBio) && editedAvatar == old(editedAvatar)
      ensures !EditButtonShown(currentUser, user, isEditing)
    {
      isEditing := true;
    }

    /** The bio textarea's `onChange`. */
    method EditBio(text: string)
      modifies this
      ensures editedBio == text && isEditing == old(isEditing) && editedAvatar == old(editedAvatar)
    {
      editedBio := text;
    }

    /** The file reader's `onload` for a new avatar. */
    method AvatarLoaded(dataUrl: string)
      modifies this
      ensures editedAvatar == Some(dataUrl) && isEditing == old(isEditing) && editedBio == old(editedBio)
    {
      editedAvatar := Some(dataUrl);
    }

    /** `handleSave`: sends the edited bio and the edited avatar, or the
        current one when none was chosen; then leaves edit mode with the
        chosen avatar cleared. The edited bio stays as typed. */
    method Save(user: User) returns (update: ProfileUpdate)
      modifies this
      ensures update.userId == user.id && update.bio == old(editedBio)
      ensures update.avatar == ShownAvatar(old(editedAvatar), user)
      ensures !isEditing && editedAvatar == None && editedBio == old(editedBio)
    {
      update := ProfileUpdate(user.id, editedBio, ShownAvatar(editedAvatar, user));
      isEditing := false;
      editedAvatar := None;
    }

    /** `handleCancel`: leaves edit mode, puts the bio back to the user's and
        drops the chosen avatar; nothing is sent. */
    method Cancel(user: User)
      modifies this
      ensures !isEditing && editedBio == user.bio && editedAvatar == None
    {
      isEditing := false;
      editedBio := user.bio;
      editedAvatar := None;
    }
  }
}
