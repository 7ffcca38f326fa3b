/** `components/VideosFeed.tsx`: sorts a copy of `videos` newest-first and renders
    one card per video whose creator is known, flagging whether the viewer
    follows that creator. Nothing it receives is changed. */
module VideosFeed {
  import opened Domain
  import opened Seqs
  import opened Ordering

  /** What one rendered `VideoCard` receives besides the callbacks. */
  datatype VideoView = VideoView(video: Video, creator: User, isFollowing: bool)

  /** The newest-first sort of a copy of the videos; the input is left alone. */
  function SortedVideos(videos: seq<Video>): seq<Video> {
    NewestFirst(videos, VideoTime)
  }

  /** The `map` over the sorted copy, omitting videos whose creator is unknown.
      Each card carries the first user whose id is the video's `creatorId`, and
      `isFollowing` exactly when that id is in `following`. */
  function Cards(sorted: seq<Video>, users: seq<User>, following: seq<UserId>): (r: seq<VideoView>)
    ensures forall i :: 0 <= i < |r| ==> FindUser(users, r[i].video.creatorId) == Some(r[i].creator)
    ensures forall i :: 0 <= i < |r| ==> (r[i].isFollowing <==> r[i].video.creatorId in following)
    decreases |sorted|
  {
    if sorted == [] then []
    else
      var rest := Cards(sorted[..|sorted| - 1], users, following);
      var v := sorted[|sorted| - 1];
      match FindUser(users, v.creatorId)
      case None => rest
      case Some(c) => rest + [VideoView(v, c, v.creatorId in following)]
  }

  function Render(videos: seq<Video>, users: seq<User>, following: seq<UserId>): seq<VideoView> {
    Cards(SortedVideos(videos), users, following)
  }

  function CardVideo(v: VideoView): Video {
    v.video
  }

  function KnownCreator(users: seq<User>): Video -> bool {
    (v: Video) => FindUser(users, v.creatorId).Some?
  }

  /** The sorted copy is newest-first, holds exactly the input videos, and
      keeps videos with equal timestamps in their input order. */
  lemma SortedVideosOrder(videos: seq<Video>, t: int)
    ensures Descending(SortedVideos(videos), VideoTime)
    ensures multiset(SortedVideos(videos)) == multiset(videos)
    ensures Filter(SortedVideos(videos), KeyIs(VideoTime, t)) == Filter(videos, KeyIs(VideoTime, t))
  {
    NewestFirstSorts(videos, VideoTime);
    NewestFirstStable(videos, VideoTime, t);
  }

  /** The cards show, in order, exactly the videos whose creator is known. */
  lemma {:induction false} CardsAreKnownCreators(sorted: seq<Video>, users: seq<User>, following: seq<UserId>)
    ensures Map(Cards(sorted, users, following), CardVideo) == Filter(sorted, KnownCreator(users))
    decreases |sorted|
  {
    if sorted != [] {
      var sorted' := sorted[..|sorted| - 1];
      CardsAreKnownCreators(sorted', users, following);
      var rest := Cards(sorted', users, following);
      var v := sorted[|sorted| - 1];
      match FindUser(users, v.creatorId)
      case None =>
      case Some(c) =>
        var cs := rest + [VideoView(v, c, v.creatorId in following)];
        assert cs[..|cs| - 1] == rest;
    }
  }
}
