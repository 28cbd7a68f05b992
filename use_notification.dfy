/**
 * The notification hook (`useNotification`): the signed-in user's list, its
 * local updates after a successful mark-read, the unread count, and the
 * dispatch of `viewDetail` by notification type. The local list updates are
 * also those of the notifications page.
 */
module UseNotification {
  import opened Wrappers
  import opened Seqs
  import opened Types
  import opened Transformers
  import opened NotificationData
  import opened ModalStore

  /** The local copy of a notification after marking it read at `now`. */
  function MarkedLocally(n: Notification, now: int): Notification
  {
    n.(isRead := true, readAt := Some(now))
  }

  /** The local update mirrors the backend update of the row the notification was read from. */
  lemma LocalMarkMirrorsRow(r: NotificationRow, now: int)
    ensures TransformNotificationRow(Read(r, now)) == MarkedLocally(TransformNotificationRow(r), now)
  {
  }

  /** `prev.map(n => n.id === id ? { ...n, isRead: true, readAt: now } : n)`. */
  function MarkOneLocal(ns: seq<Notification>, id: string, now: int): (r: seq<Notification>)
    ensures |r| == |ns|
    ensures forall i :: 0 <= i < |ns| && ns[i].id == id ==> r[i] == MarkedLocally(ns[i], now)
    ensures forall i :: 0 <= i < |ns| && ns[i].id != id ==> r[i] == ns[i]
  {
    if ns == [] then []
    else [if ns[0].id == id then MarkedLocally(ns[0], now) else ns[0]] + MarkOneLocal(ns[1..], id, now)
  }

  /** `prev.map(n => ({ ...n, isRead: true, readAt: now }))`: the read time is overwritten everywhere. */
  function MarkAllLocal(ns: seq<Notification>, now: int): (r: seq<Notification>)
    ensures |r| == |ns|
    ensures forall i :: 0 <= i < |ns| ==> r[i] == MarkedLocally(ns[i], now)
  {
    if ns == [] then [] else [MarkedLocally(ns[0], now)] + MarkAllLocal(ns[1..], now)
  }

  function IsUnread(n: Notification): bool
  {
    !n.isRead
  }

  /** `notifications.filter(n => !n.isRead).length`. */
  function UnreadCount(ns: seq<Notification>): (c: nat)
    ensures c <= |ns|
    ensures c == 0 <==> forall i :: 0 <= i < |ns| ==> ns[i].isRead
    ensures c == |set i | 0 <= i < |ns| && !ns[i].isRead|
  {
    FilterMembers(ns, IsUnread);
    FilterCount(ns, IsUnread);
    assert Matching(ns, IsUnread) == set i | 0 <= i < |ns| && !ns[i].isRead;
    assert (exists i :: 0 <= i < |ns| && !ns[i].isRead) ==> Filter(ns, IsUnread) != [] by {
      if exists i :: 0 <= i < |ns| && !ns[i].isRead {
        var i :| 0 <= i < |ns| && !ns[i].isRead;
        assert ns[i] in ns;
      }
    }
    assert (forall i :: 0 <= i < |ns| ==> ns[i].isRead) ==> Filter(ns, IsUnread) == [] by {
      if forall i :: 0 <= i < |ns| ==> ns[i].isRead {
        FilterNoneMatch(ns, IsUnread);
      }
    }
    |Filter(ns, IsUnread)|
  }

  /** The entries with `id` that are still unread. */
  function UnreadWithId(ns: seq<Notification>, id: string): nat
  {
    |Filter(ns, (n: Notification) => n.id == id && !n.isRead)|
  }

  /** Marking one entry lowers the unread count by the number of unread entries with its id. */
  lemma {:induction false} MarkOneLowersCount(ns: seq<Notification>, id: string, now: int)
    ensures UnreadCount(MarkOneLocal(ns, id, now)) == UnreadCount(ns) - UnreadWithId(ns, id)
  {
    if ns != [] {
      MarkOneLowersCount(ns[1..], id, now);
      var r := MarkOneLocal(ns, id, now);
      assert r[1..] == MarkOneLocal(ns[1..], id, now);
    }
  }

  /** After marking all, nothing is unread. */
  lemma {:induction false} MarkAllClearsCount(ns: seq<Notification>, now: int)
    ensures UnreadCount(MarkAllLocal(ns, now)) == 0
  {
    var r := MarkAllLocal(ns, now);
    assert forall i :: 0 <= i < |r| ==> r[i].isRead;
  }

  /** What `viewDetail` does with a notification. */
  datatype DetailAction =
    | NoAction                     // no related message: nothing at all, not even mark-read
    | MarkOnly                     // friend request, system or any other kind: mark read
    | MarkAndOpen(target: string)  // a message kind: mark read, target the message, open the modal

  function DetailActionFor(n: Notification): (a: DetailAction)
    ensures a.NoAction? <==> !Truthy(n.relatedMessageId)
    ensures a.MarkAndOpen? <==> Truthy(n.relatedMessageId) && (n.kind.NewMessage? || n.kind.MessageReply?)
    ensures a.MarkAndOpen? ==> a.target == n.relatedMessageId.value
  {
    if !Truthy(n.relatedMessageId) then NoAction
    else match n.kind
      case NewMessage => MarkAndOpen(n.relatedMessageId.value)
      case MessageReply => MarkAndOpen(n.relatedMessageId.value)
      case FriendRequest => MarkOnly
      case System => MarkOnly
      case Unlisted(_) => MarkOnly
  }

  class NotificationHook {
    const userId: Option<string>
    const modals: Store
    var notifications: seq<Notification>
    /** The message the message modal is asked to scroll to (`setTarget("message", ...)`). */
    var messageTarget: Option<string>

    constructor (userId: Option<string>, modals: Store)
      ensures this.userId == userId && this.modals == modals
      ensures notifications == [] && messageTarget.None?
    {
      this.userId := userId;
      this.modals := modals;
      notifications := [];
      messageTarget := None;
    }

    /** `loadNotifications`: without a user, nothing; otherwise the list is replaced. */
    method LoadNotifications(table: NotificationTable, failed: bool)
      modifies this
      ensures !Truthy(userId) ==> notifications == old(notifications)
      ensures Truthy(userId) ==> notifications == FetchNotificationsByUserId(table.rows, userId.value, failed)
      ensures messageTarget == old(messageTarget)
    {
      if !Truthy(userId) {
        return;
      }
      notifications := FetchNotificationsByUserId(table.rows, userId.value, failed);
    }

    /**
     * `markAsRead`: the backend update at `now`; only on success is the local
     * entry marked, with the local clock reading `localNow`.
     */
    method MarkAsRead(table: NotificationTable, id: string, failed: bool, now: int, localNow: int)
      modifies this, table
      ensures table.rows == if failed then old(table.rows) else MarkedRead(old(table.rows), id, now)
      ensures notifications == if failed then old(notifications) else MarkOneLocal(old(notifications), id, localNow)
      ensures messageTarget == old(messageTarget)
    {
      var success := table.MarkNotificationAsRead(id, failed, now);
      if success {
        notifications := MarkOneLocal(notifications, id, localNow);
      }
    }

    /** `markAllAsRead`: without a user, nothing; on success every local entry is read. */
    method MarkAllAsRead(table: NotificationTable, failed: bool, now: int, localNow: int)
      modifies this, table
      ensures !Truthy(userId) ==> table.rows == old(table.rows) && notifications == old(notifications)
      ensures Truthy(userId) ==>
        && table.rows == (if failed then old(table.rows) else MarkedAllRead(old(table.rows), userId.value, now))
        && notifications == (if failed then old(notifications) else MarkAllLocal(old(notifications), localNow))
      ensures messageTarget == old(messageTarget)
    {
      if !Truthy(userId) {
        return;
      }
      var success := table.MarkAllNotificationsAsRead(userId.value, failed, now);
      if success {
        notifications := MarkAllLocal(notifications, localNow);
      }
    }

    /** `viewDetail`, dispatching on `DetailActionFor`. */
    method ViewDetail(table: NotificationTable, n: Notification, failed: bool, now: int, localNow: int)
      modifies this, table, modals
      ensures DetailActionFor(n).NoAction? ==>
        table.rows == old(table.rows) && notifications == old(notifications)
        && messageTarget == old(messageTarget) && modals.modals == old(modals.modals)
      ensures !DetailActionFor(n).NoAction? ==>
        && table.rows == (if failed then old(table.rows) else MarkedRead(old(table.rows), n.id, now))
        && notifications == (if failed then old(notifications) else MarkOneLocal(old(notifications), n.id, localNow))
      ensures DetailActionFor(n).MarkOnly? ==> messageTarget == old(messageTarget) && modals.modals == old(modals.modals)
      ensures DetailActionFor(n).MarkAndOpen? ==>
        messageTarget == Some(DetailActionFor(n).target) && modals.modals == OpenModal(old(modals.modals), MessageModal)
    {
      if !Truthy(n.relatedMessageId) {
        return;
      }
      MarkAsRead(table, n.id, failed, now, localNow);
      match n.kind {
        case NewMessage =>
          messageTarget := n.relatedMessageId;
          modals.Open(MessageModal);
        case MessageReply =>
          messageTarget := n.relatedMessageId;
          modals.Open(MessageModal);
        case FriendRequest =>
        case System =>
        case Unlisted(_) =>
      }
    }
  }
}
