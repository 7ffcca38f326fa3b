/** `components/Header.tsx`: the notification bell. It receives the viewer's
    notifications, counts the unread ones, shows a badge, and opens or closes
    a panel; opening asks the app to mark notifications as read. */
module Header {
  import opened Domain
  import opened Seqs

  function IsUnread(): Notification -> bool {
    (n: Notification) => !n.read
  }

  /** The number of notifications left after keeping the unread ones. */
  function UnreadCount(notifications: seq<Notification>): nat {
    |Filter(notifications, IsUnread())|
  }

  /** The unread count is the number of notifications whose `read` flag is false. */
  lemma UnreadCountCounts(notifications: seq<Notification>)
    ensures UnreadCount(notifications) == |set i: nat | i < |notifications| && !notifications[i].read|
  {
    FilterCountsIndices(notifications, IsUnread());
    assert Indices(notifications, IsUnread()) == set i: nat | i < |notifications| && !notifications[i].read;
  }

  /** The badge over the bell is rendered when the unread count is positive. */
  predicate BadgeShown(notifications: seq<Notification>) {
    UnreadCount(notifications) > 0
  }

  /** The badge is shown exactly when some notification is unread. */
  lemma BadgeShownIff(notifications: seq<Notification>)
    ensures BadgeShown(notifications) <==> exists i :: 0 <= i < |notifications| && !notifications[i].read
  {
    var r := Filter(notifications, IsUnread());
    if |r| > 0 {
      assert IsUnread()(r[0]) && r[0] in notifications;
    }
    if exists i :: 0 <= i < |notifications| && !notifications[i].read {
      var i :| 0 <= i < |notifications| && !notifications[i].read;
      assert IsUnread()(notifications[i]);
      assert notifications[i] in r;
    }
  }

  /** The two texts of the panel: the `like` one and the `comment` one. */
  datatype Message = LikedYourPost | CommentedOnYourPost

  datatype NoticeLine = NoticeLine(notification: Notification, actor: User, message: Message)

  /** The like text for a `like` notification, the comment text for any other. */
  function MessageFor(kind: NotificationKind): (m: Message)
    ensures m == LikedYourPost <==> kind == Liked
  {
    if kind == Liked then LikedYourPost else CommentedOnYourPost
  }

  /** The lines of the open panel: a notification whose actor is not
      among `users` renders nothing; every line shows the first user with the
      actor's id. */
  function Lines(notifications: seq<Notification>, users: seq<User>): (r: seq<NoticeLine>)
    ensures forall i :: 0 <= i < |r| ==> FindUser(users, r[i].notification.actorId) == Some(r[i].actor)
    ensures forall i :: 0 <= i < |r| ==> r[i].message == MessageFor(r[i].notification.kind)
    decreases |notifications|
  {
    if notifications == [] then []
    else
      var rest := Lines(notifications[..|notifications| - 1], users);
      var n := notifications[|notifications| - 1];
      match FindUser(users, n.actorId)
      case None => rest
      case Some(a) => rest + [NoticeLine(n, a, MessageFor(n.kind))]
  }

  function LineNotification(l: NoticeLine): Notification {
    l.notification
  }

  function KnownActor(users: seq<User>): Notification -> bool {
    (n: Notification) => FindUser(users, n.actorId).Some?
  }

  /** The panel lists, in order, exactly the notifications whose actor is known. */
  lemma {:induction false} LinesAreKnownActors(notifications: seq<Notification>, users: seq<User>)
    ensures Map(Lines(notifications, users), LineNotification) == Filter(notifications, KnownActor(users))
    decreases |notifications|
  {
    if notifications != [] {
      var ns' := notifications[..|notifications| - 1];
      LinesAreKnownActors(ns', users);
      var rest := Lines(ns', users);
      var n := notifications[|notifications| - 1];
      match FindUser(users, n.actorId)
      case None =>
      case Some(a) =>
        var ls := rest + [NoticeLine(n, a, MessageFor(n.kind))];
        assert ls[..|ls| - 1] == rest;
    }
  }

  /** The `isPanelOpen` state of the header. */
  class Panel {
    var isPanelOpen: bool

    constructor ()
      ensures !isPanelOpen
    {
      isPanelOpen := false;
    }

    /** `togglePanel`: flips the panel; `markRead` says whether `onMarkAsRead`
        was called, which happens exactly when the panel was closed. */
    method TogglePanel() returns (markRead: bool)
      modifies this
      ensures isPanelOpen == !old(isPanelOpen)
      ensures markRead == isPanelOpen
    {
      markRead := !isPanelOpen;
      isPanelOpen := !isPanelOpen;
    }
  }
}
