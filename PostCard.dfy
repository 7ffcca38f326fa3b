/** `components/PostCard.tsx`: one post with its like state, counts, comment
    list and comment form. */
module PostCard {
  import opened Domain
  import opened Js

  /** Whether the viewer's id is among the post's likes. */
  function IsLiked(post: Post, viewer: UserId): (liked: bool)
    ensures liked <==> exists i :: 0 <= i < |post.likes| && post.likes[i] == viewer
  {
    viewer in post.likes
  }

  /** The number next to the heart. */
  function LikeCount(post: Post): nat {
    |post.likes|
  }

  /** The number next to the comment button. */
  function CommentCount(post: Post): nat {
    |post.comments|
  }

  /** The comment list is rendered only when it is open and there is
      something in it. */
  function CommentListShown(commentsVisible: bool, post: Post): (shown: bool)
    ensures shown ==> commentsVisible
    ensures shown <==> commentsVisible && CommentCount(post) > 0
  {
    commentsVisible && post.comments != []
  }

  /** The `commentText` and `commentsVisible` state of a card. */
  class Card {
    var commentText: string
    var commentsVisible: bool

    constructor ()
      ensures commentText == "" && !commentsVisible
    {
      commentText := "";
      commentsVisible := false;
    }

    /** The input's `onChange`. */
    method SetCommentText(text: string)
      modifies this
      ensures commentText == text && commentsVisible == old(commentsVisible)
    {
      commentText := text;
    }

    /** The comment button: flips the list's visibility. */
    method ToggleComments()
      modifies this
      ensures commentsVisible == !old(commentsVisible) && commentText == old(commentText)
    {
      commentsVisible := !commentsVisible;
    }

    /** The input's `onFocus`: opens the list, whatever its state. */
    method FocusInput()
      modifies this
      ensures commentsVisible && commentText == old(commentText)
    {
      commentsVisible := true;
    }

    /** `handleCommentSubmit`: forwards `(post.id, commentText)` untrimmed
        exactly when the trimmed text is non-empty, and then clears the
        input; a rejected submit changes nothing. */
    method SubmitComment(post: Post) returns (sent: Option<CommentRequest>)
      modifies this
      ensures sent.Some? <==> HasText(old(commentText))
      ensures sent.Some? ==> sent.value == CommentRequest(post.id, old(commentText)) && commentText == ""
      ensures sent.None? ==> commentText == old(commentText)
      ensures commentsVisible == old(commentsVisible)
    {
      if HasText(commentText) {
        sent := Some(CommentRequest(post.id, commentText));
        commentText := "";
      } else {
        sent := None;
      }
    }
  }
}
