/** `components/VideoCard.tsx`, without playback: time labels, like state,
    the comment form, the three-comment preview with its "more" button, and
    the delete and follow controls. */
module VideoCard {
  import opened Domain
  import opened Js

  /** The text of a number below 60 as two digits: a leading `'0'` below 10. */
  function TwoDigits(n: nat): (r: string)
    requires n < 60
    ensures |r| == 2 && AllDigits(r)
  {
    (if n < 10 then "0" else "") + DecimalString(n)
  }

  /** `formatTime` on whole seconds: minutes, `':'`, then the seconds within
      the minute padded to two digits. */
  function FormatTime(seconds: nat): (r: string)
    ensures |r| >= 4 && r[|r| - 3] == ':'
    ensures AllDigits(r[..|r| - 3]) && AllDigits(r[|r| - 2..])
    ensures |r| > 4 ==> r[0] != '0'
  {
    var r := DecimalString(seconds / 60) + ":" + TwoDigits(seconds % 60);
    assert r[..|r| - 3] == DecimalString(seconds / 60);
    assert r[|r| - 2..] == TwoDigits(seconds % 60);
    r
  }

  /** Reads a `m:ss` label back: digits, one `':'`, two digits below 60. */
  function ParseTime(t: string): Option<nat> {
    if |t| < 4 || t[|t| - 3] != ':' then None
    else
      var m := t[..|t| - 3];
      var s := t[|t| - 2..];
      if !AllDigits(m) || !AllDigits(s) || ParseDecimal(s) >= 60 then None
      else Some(ParseDecimal(m) * 60 + ParseDecimal(s))
  }

  lemma TwoDigitsValue(n: nat)
    requires n < 60
    ensures ParseDecimal(TwoDigits(n)) == n
  {
    DecimalRoundTrip(n);
    if n < 10 {
      ParseDecimalLeadingZero(DecimalString(n));
    }
  }

  /** The label determines the time: reading it back gives the seconds. */
  lemma FormatTimeRoundTrip(seconds: nat)
    ensures ParseTime(FormatTime(seconds)) == Some(seconds)
  {
    var r := FormatTime(seconds);
    assert r[..|r| - 3] == DecimalString(seconds / 60);
    assert r[|r| - 2..] == TwoDigits(seconds % 60);
    DecimalRoundTrip(seconds / 60);
    TwoDigitsValue(seconds % 60);
  }

  /** Different times get different labels. */
  lemma FormatTimeInjective(s1: nat, s2: nat)
    requires FormatTime(s1) == FormatTime(s2)
    ensures s1 == s2
  {
    FormatTimeRoundTrip(s1);
    FormatTimeRoundTrip(s2);
  }

  /** Whether the viewer's id is among the video's likes. */
  function IsLiked(video: Video, viewer: UserId): (liked: bool)
    ensures liked <==> exists i :: 0 <= i < |video.likes| && video.likes[i] == viewer
  {
    viewer in video.likes
  }

  /** The comments listed: a slice from the start, three long unless every
      comment is to be shown. */
  function Preview(comments: seq<Comment>, showAll: bool): (r: seq<Comment>)
    ensures showAll ==> r == comments
    ensures !showAll ==> r == comments[..if |comments| < 3 then |comments| else 3]
  {
    SlicePrefix(comments, if showAll then |comments| else 3);
    Slice(comments, 0, if showAll then |comments| else 3)
  }

  /** The "more" button and the count it shows, `comments.length - 3`. */
  function MoreButton(comments: seq<Comment>, showAll: bool): (r: Option<nat>)
    ensures r.Some? <==> |comments| > 3 && !showAll
    ensures r.Some? ==> r.value == |comments| - 3
  {
    if |comments| > 3 && !showAll then Some(|comments| - 3) else None
  }

  /** What the open comment section shows: an invitation when there is no
      comment, otherwise the preview and possibly the "more" button. */
  datatype Section = Closed | FirstToComment | Listed(preview: seq<Comment>, more: Option<nat>)

  function CommentSection(commentsVisible: bool, showAll: bool, comments: seq<Comment>): (r: Section)
    ensures r == Closed <==> !commentsVisible
    ensures r == FirstToComment <==> commentsVisible && comments == []
    ensures r.Listed? ==> r.preview == Preview(comments, showAll) && r.more == MoreButton(comments, showAll)
  {
    if !commentsVisible then Closed
    else if comments == [] then FirstToComment
    else Listed(Preview(comments, showAll), MoreButton(comments, showAll))
  }

  /** The preview and the number on the "more" button account for every
      comment: nothing is hidden without being counted. */
  lemma PreviewCoversAll(comments: seq<Comment>, showAll: bool)
    ensures MoreButton(comments, showAll).None? ==> Preview(comments, showAll) == comments
    ensures MoreButton(comments, showAll).Some? ==>
              |Preview(comments, showAll)| == 3 &&
              |Preview(comments, showAll)| + MoreButton(comments, showAll).value == |comments|
    ensures Preview(comments, showAll) <= comments
  {
  }

  /** Only the creator sees the delete control. */
  predicate ShowDelete(viewer: UserId, creator: User) {
    viewer == creator.id
  }

  /** Everyone else sees the follow control. */
  predicate ShowFollow(viewer: UserId, creator: User) {
    viewer != creator.id
  }

  /** Exactly one of the two controls is offered. */
  lemma DeleteOrFollow(viewer: UserId, creator: User)
    ensures ShowDelete(viewer, creator) != ShowFollow(viewer, creator)
  {
  }

  /** The three texts of the follow button. */
  datatype FollowLabel = Unfollow | Following | Follow

  function FollowText(isFollowing: bool, isHovering: bool): (l: FollowLabel)
    ensures l == Unfollow <==> isFollowing && isHovering
    ensures l == Following <==> isFollowing && !isHovering
    ensures l == Follow <==> !isFollowing
  {
    if isFollowing then (if isHovering then Unfollow else Following) else Follow
  }

  /** The card's form and comment-section state. The effect that clears
      `showAllComments` whenever the section closes is applied together with
      the change that triggers it. */
  class Card {
    var commentText: string
    var commentsVisible: bool
    var showAllComments: bool
    var isHoveringFollow: bool

    ghost predicate Valid()
      reads this
    {
      !commentsVisible ==> !showAllComments
    }

    constructor ()
      ensures Valid()
      ensures commentText == "" && !commentsVisible && !showAllComments && !isHoveringFollow
    {
      commentText := "";
      commentsVisible := false;
      showAllComments := false;
      isHoveringFollow := false;
    }

    method SetCommentText(text: string)
      requires Valid()
      modifies this
      ensures Valid()
      ensures commentText == text
      ensures commentsVisible == old(commentsVisible) && showAllComments == old(showAllComments)
      ensures isHoveringFollow == old(isHoveringFollow)
    {
      commentText := text;
    }

    /** The comment button; closing the section also folds the list back to
        three comments. */
    method ToggleComments()
      requires Valid()
      modifies this
      ensures Valid()
      ensures commentsVisible == !old(commentsVisible)
      ensures showAllComments == (commentsVisible && old(showAllComments))
      ensures commentText == old(commentText) && isHoveringFollow == old(isHoveringFollow)
    {
      commentsVisible := !commentsVisible;
      if !commentsVisible {
        showAllComments := false;
      }
    }

    /** The "more" button: shows every comment. */
    method ShowMore()
      requires Valid() && commentsVisible
      modifies this
      ensures Valid()
      ensures showAllComments && commentsVisible
      ensures commentText == old(commentText) && isHoveringFollow == old(isHoveringFollow)
    {
      showAllComments := true;
    }

    /** `onMouseEnter` / `onMouseLeave` of the follow button. */
    method SetHovering(hovering: bool)
      requires Valid()
      modifies this
      ensures Valid()
      ensures isHoveringFollow == hovering
      ensures commentText == old(commentText) && commentsVisible == old(commentsVisible)
      ensures showAllComments == old(showAllComments)
    {
      isHoveringFollow := hovering;
    }

    /** `handleCommentSubmit`: forwards `(video.id, commentText)` exactly when
        the trimmed text is non-empty, then clears the input. */
    method SubmitComment(video: Video) returns (sent: Option<CommentRequest>)
      requires Valid()
      modifies this
      ensures Valid()
      ensures sent.Some? <==> HasText(old(commentText))
      ensures sent.Some? ==> sent.value == CommentRequest(video.id, old(commentText)) && commentText == ""
      ensures sent.None? ==> commentText == old(commentText)
      ensures commentsVisible == old(commentsVisible) && showAllComments == old(showAllComments)
      ensures isHoveringFollow == old(isHoveringFollow)
    {
      if HasText(commentText) {
        sent := Some(CommentRequest(video.id, commentText));
        commentText := "";
      } else {
        sent := None;
      }
    }
  }
}
