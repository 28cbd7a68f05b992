/**
 * The notification table and its eight operations (`fetchNotificationsByUserId`,
 * `fetchUnreadNotifications`, `getUnreadNotificationCount`,
 * `markNotificationAsRead`, `markAllNotificationsAsRead`, `createNotification`,
 * `deleteNotification`, `deleteReadNotifications`). The table is a sequence of
 * rows; each call may fail, which a `failed` flag expresses, and "now" is a
 * parameter.
 */
module NotificationData {
  import opened Wrappers
  import opened Seqs
  import opened Types
  import opened Transformers

  /** Every row is read exactly when it carries a read time. */
  ghost predicate Consistent(rows: seq<NotificationRow>)
  {
    forall i :: 0 <= i < |rows| ==> (rows[i].isRead <==> rows[i].readAt.Some?)
  }

  /** `ORDER BY created_at DESC`. */
  function NewestFirst(r: NotificationRow): int
  {
    -r.createdAt
  }

  function OfUser(userId: string): NotificationRow -> bool
  {
    (r: NotificationRow) => r.userId == userId
  }

  function UnreadOf(userId: string): NotificationRow -> bool
  {
    (r: NotificationRow) => r.userId == userId && !r.isRead
  }

  /** A transformed row is in the transformed rows exactly when the row is in the rows. */
  lemma TransformedMembers(rows: seq<NotificationRow>, r: NotificationRow)
    ensures TransformNotificationRow(r) in TransformNotificationRows(rows) <==> r in rows
  {
    var ns := TransformNotificationRows(rows);
    if r in rows {
      var i :| 0 <= i < |rows| && rows[i] == r;
      assert ns[i] == TransformNotificationRow(r);
    }
    if TransformNotificationRow(r) in ns {
      var i :| 0 <= i < |ns| && ns[i] == TransformNotificationRow(r);
      NotificationRowBijective(ns[i], rows[i], r);
    }
  }

  /** A transformed row occurs in the transformed rows as often as the row occurs in the rows. */
  lemma {:induction false} TransformedMultiplicity(rows: seq<NotificationRow>, r: NotificationRow)
    ensures multiset(TransformNotificationRows(rows))[TransformNotificationRow(r)] == multiset(rows)[r]
  {
    if rows != [] {
      var head, tail := rows[0], rows[1..];
      TransformedMultiplicity(tail, r);
      assert rows == [head] + tail;
      var n, ns := TransformNotificationRow(head), TransformNotificationRows(tail);
      assert TransformNotificationRows(rows) == [n] + ns;
      assert multiset(TransformNotificationRows(rows)) == multiset{n} + multiset(ns);
      assert multiset(rows) == multiset{head} + multiset(tail);
      if head != r {
        assert NotificationToRow(n) == head;
        assert NotificationToRow(TransformNotificationRow(r)) == r;
      }
    }
  }

  /** The rows matching `p`, newest first, as notifications; an error yields none. */
  function Select(rows: seq<NotificationRow>, p: NotificationRow -> bool, failed: bool): (ns: seq<Notification>)
    ensures failed ==> ns == []
    ensures |ns| <= |rows|
    ensures forall i, j :: 0 <= i < j < |ns| ==> ns[i].createdAt >= ns[j].createdAt
  {
    if failed then []
    else
      var sorted := SortBy(Filter(rows, p), NewestFirst);
      var ns := TransformNotificationRows(sorted);
      assert forall i, j :: 0 <= i < j < |ns| ==> ns[i].createdAt >= ns[j].createdAt by {
        forall i, j | 0 <= i < j < |ns| ensures ns[i].createdAt >= ns[j].createdAt {
          assert NewestFirst(sorted[i]) <= NewestFirst(sorted[j]);
        }
      }
      ns
  }

  /** Without an error, a row is selected exactly when it is in the table and matches. */
  lemma SelectExact(rows: seq<NotificationRow>, p: NotificationRow -> bool, r: NotificationRow)
    ensures TransformNotificationRow(r) in Select(rows, p, false) <==> r in rows && p(r)
  {
    var kept := Filter(rows, p);
    FilterMembers(rows, p);
    SortByMembers(kept, NewestFirst, r);
    TransformedMembers(SortBy(kept, NewestFirst), r);
  }

  /** Without an error, a selected row occurs as often as in the table, and an unmatched one not at all. */
  lemma SelectMultiplicity(rows: seq<NotificationRow>, p: NotificationRow -> bool, r: NotificationRow)
    ensures multiset(Select(rows, p, false))[TransformNotificationRow(r)] == if p(r) then multiset(rows)[r] else 0
  {
    var kept := Filter(rows, p);
    FilterMultiset(rows, p);
    TransformedMultiplicity(SortBy(kept, NewestFirst), r);
  }

  /** Without an error, the selection is as long as the number of matching positions. */
  lemma SelectLength(rows: seq<NotificationRow>, p: NotificationRow -> bool)
    ensures |Select(rows, p, false)| == |Matching(rows, p)|
  {
    var kept := Filter(rows, p);
    FilterCount(rows, p);
    assert |SortBy(kept, NewestFirst)| == |kept|;
  }

  /** Without an error, the user's selection holds each of the user's rows as often as the table does, and no other. */
  lemma UserSelection(rows: seq<NotificationRow>, userId: string)
    ensures forall r :: r in rows && r.userId == userId <==> TransformNotificationRow(r) in Select(rows, OfUser(userId), false)
    ensures forall r ::
      multiset(Select(rows, OfUser(userId), false))[TransformNotificationRow(r)] == if r.userId == userId then multiset(rows)[r] else 0
    ensures |Select(rows, OfUser(userId), false)| == |set i | 0 <= i < |rows| && rows[i].userId == userId|
  {
    var mine := OfUser(userId);
    var ns := Select(rows, mine, false);
    SelectLength(rows, mine);
    assert Matching(rows, mine) == set i | 0 <= i < |rows| && rows[i].userId == userId;
    forall r ensures multiset(ns)[TransformNotificationRow(r)] == if r.userId == userId then multiset(rows)[r] else 0 {
      SelectMultiplicity(rows, mine, r);
    }
    forall r ensures r in rows && r.userId == userId <==> TransformNotificationRow(r) in ns {
      SelectExact(rows, mine, r);
    }
  }

  /** `fetchNotificationsByUserId`: the user's notifications, newest first. */
  function FetchNotificationsByUserId(rows: seq<NotificationRow>, userId: string, failed: bool): (ns: seq<Notification>)
    ensures failed ==> ns == []
    ensures forall i, j :: 0 <= i < j < |ns| ==> ns[i].createdAt >= ns[j].createdAt
    ensures !failed ==> forall r :: r in rows && r.userId == userId <==> TransformNotificationRow(r) in ns
    ensures !failed ==> forall r :: multiset(ns)[TransformNotificationRow(r)] == if r.userId == userId then multiset(rows)[r] else 0
    ensures !failed ==> |ns| == |set i | 0 <= i < |rows| && rows[i].userId == userId|
  {
    UserSelection(rows, userId);
    Select(rows, OfUser(userId), failed)
  }

  /** `fetchUnreadNotifications`: the user's unread notifications, newest first. */
  function FetchUnreadNotifications(rows: seq<NotificationRow>, userId: string, failed: bool): (ns: seq<Notification>)
    ensures failed ==> ns == []
    ensures forall i, j :: 0 <= i < j < |ns| ==> ns[i].createdAt >= ns[j].createdAt
    ensures !failed ==> forall r :: r in rows && r.userId == userId && !r.isRead <==> TransformNotificationRow(r) in ns
    ensures !failed ==> forall r ::
      multiset(ns)[TransformNotificationRow(r)] == if r.userId == userId && !r.isRead then multiset(rows)[r] else 0
    ensures !failed ==> |ns| == |set i | 0 <= i < |rows| && rows[i].userId == userId && !rows[i].isRead|
  {
    var ns := Select(rows, UnreadOf(userId), failed);
    if failed then ns
    else
      var unread := UnreadOf(userId);
      SelectLength(rows, unread);
      assert Matching(rows, unread) == set i | 0 <= i < |rows| && rows[i].userId == userId && !rows[i].isRead;
      assert forall r :: multiset(ns)[TransformNotificationRow(r)] == if r.userId == userId && !r.isRead then multiset(rows)[r] else 0 by {
        forall r ensures multiset(ns)[TransformNotificationRow(r)] == if r.userId == userId && !r.isRead then multiset(rows)[r] else 0 {
          SelectMultiplicity(rows, unread, r);
        }
      }
      assert forall r :: r in rows && r.userId == userId && !r.isRead <==> TransformNotificationRow(r) in ns by {
        forall r ensures r in rows && r.userId == userId && !r.isRead <==> TransformNotificationRow(r) in ns {
          SelectExact(rows, UnreadOf(userId), r);
        }
      }
      ns
  }

  /** The number of the user's unread rows. */
  function UnreadRows(rows: seq<NotificationRow>, userId: string): nat
  {
    |Filter(rows, UnreadOf(userId))|
  }

  /** The unread list is as long as the number of the user's unread rows. */
  lemma UnreadListLength(rows: seq<NotificationRow>, userId: string)
    ensures |FetchUnreadNotifications(rows, userId, false)| == UnreadRows(rows, userId)
  {
    var kept := Filter(rows, UnreadOf(userId));
    assert |SortBy(kept, NewestFirst)| == |kept|;
  }

  /** How the head-only count query answers: an error, a null count, or the exact count. */
  datatype CountReply = CountError | NullCount | Counted

  /**
   * `getUnreadNotificationCount`: the number of the user's unread rows, the
   * length of the unread list; 0 on an error or a null count.
   */
  function GetUnreadNotificationCount(rows: seq<NotificationRow>, userId: string, reply: CountReply): (n: nat)
    ensures reply.Counted? ==> n == |FetchUnreadNotifications(rows, userId, false)|
    ensures !reply.Counted? ==> n == 0
  {
    match reply
    case CountError => 0
    case NullCount => 0
    case Counted =>
      var count := UnreadRows(rows, userId);
      UnreadListLength(rows, userId);
      if count != 0 then count else 0
  }

  /** A row after `update({ is_read: true, read_at: now })`. */
  function Read(r: NotificationRow, now: int): NotificationRow
  {
    r.(isRead := true, readAt := Some(now))
  }

  /** The table after marking the row with `id` read; every other row is kept. */
  function MarkedRead(rows: seq<NotificationRow>, id: string, now: int): (r: seq<NotificationRow>)
    ensures |r| == |rows|
    ensures forall i :: 0 <= i < |rows| && rows[i].id == id ==> r[i] == Read(rows[i], now)
    ensures forall i :: 0 <= i < |rows| && rows[i].id != id ==> r[i] == rows[i]
  {
    if rows == [] then []
    else [if rows[0].id == id then Read(rows[0], now) else rows[0]] + MarkedRead(rows[1..], id, now)
  }

  /**
   * The table after marking the user's unread rows read. Rows that were read
   * already keep their read time; other users' rows are kept.
   */
  function MarkedAllRead(rows: seq<NotificationRow>, userId: string, now: int): (r: seq<NotificationRow>)
    ensures |r| == |rows|
    ensures forall i :: 0 <= i < |rows| && rows[i].userId == userId && !rows[i].isRead ==> r[i] == Read(rows[i], now)
    ensures forall i :: 0 <= i < |rows| && (rows[i].userId != userId || rows[i].isRead) ==> r[i] == rows[i]
  {
    if rows == [] then []
    else [if UnreadOf(userId)(rows[0]) then Read(rows[0], now) else rows[0]] + MarkedAllRead(rows[1..], userId, now)
  }

  /** Marking one row twice leaves the later read time: the update overwrites `read_at`. */
  lemma MarkReadTwice(rows: seq<NotificationRow>, id: string, t1: int, t2: int)
    ensures MarkedRead(MarkedRead(rows, id, t1), id, t2) == MarkedRead(rows, id, t2)
  {
    var once := MarkedRead(rows, id, t1);
    assert forall i :: 0 <= i < |rows| ==> MarkedRead(once, id, t2)[i] == MarkedRead(rows, id, t2)[i];
  }

  /** After marking all, the user has no unread row; the other users' unread rows are the same. */
  lemma {:induction false} MarkAllLeavesNoUnread(rows: seq<NotificationRow>, userId: string, other: string, now: int)
    ensures UnreadRows(MarkedAllRead(rows, userId, now), userId) == 0
    ensures other != userId ==> Filter(MarkedAllRead(rows, userId, now), UnreadOf(other)) == Filter(rows, UnreadOf(other))
  {
    if rows != [] {
      MarkAllLeavesNoUnread(rows[1..], userId, other, now);
      var r := MarkedAllRead(rows, userId, now);
      assert r[1..] == MarkedAllRead(rows[1..], userId, now);
    }
  }

  /** Marking one row read never adds an unread row. */
  lemma {:induction false} MarkReadNeverAddsUnread(rows: seq<NotificationRow>, id: string, userId: string, now: int)
    ensures UnreadRows(MarkedRead(rows, id, now), userId) <= UnreadRows(rows, userId)
  {
    if rows != [] {
      MarkReadNeverAddsUnread(rows[1..], id, userId, now);
      var r := MarkedRead(rows, id, now);
      assert r[1..] == MarkedRead(rows[1..], id, now);
    }
  }

  function OtherThan(id: string): NotificationRow -> bool
  {
    (x: NotificationRow) => x.id != id
  }

  function NotReadOf(userId: string): NotificationRow -> bool
  {
    (x: NotificationRow) => !(x.userId == userId && x.isRead)
  }

  /**
   * The table without the row(s) with `id`: every other row stays, as often
   * as it was there, and the table loses exactly the rows with that id.
   */
  function WithoutId(rows: seq<NotificationRow>, id: string): (r: seq<NotificationRow>)
    ensures forall x :: x in r <==> x in rows && x.id != id
    ensures forall x :: multiset(r)[x] == if x.id != id then multiset(rows)[x] else 0
    ensures |r| == |set i | 0 <= i < |rows| && rows[i].id != id|
  {
    var keep := OtherThan(id);
    FilterMembers(rows, keep);
    FilterMultiset(rows, keep);
    FilterCount(rows, keep);
    assert Matching(rows, keep) == set i | 0 <= i < |rows| && rows[i].id != id;
    Filter(rows, keep)
  }

  /**
   * The table without the user's read rows: every other row stays, as often
   * as it was there, and the table loses exactly the user's read rows.
   */
  function WithoutRead(rows: seq<NotificationRow>, userId: string): (r: seq<NotificationRow>)
    ensures forall x :: x in r <==> x in rows && !(x.userId == userId && x.isRead)
    ensures forall x :: multiset(r)[x] == if !(x.userId == userId && x.isRead) then multiset(rows)[x] else 0
    ensures |r| == |set i | 0 <= i < |rows| && !(rows[i].userId == userId && rows[i].isRead)|
  {
    var keep := NotReadOf(userId);
    FilterMembers(rows, keep);
    FilterMultiset(rows, keep);
    FilterCount(rows, keep);
    assert Matching(rows, keep) == set i | 0 <= i < |rows| && !(rows[i].userId == userId && rows[i].isRead);
    Filter(rows, keep)
  }

  /** Deleting by id works segment by segment, so the surviving rows keep their order. */
  lemma {:induction false} WithoutIdKeepsOrder(a: seq<NotificationRow>, b: seq<NotificationRow>, id: string)
    ensures WithoutId(a + b, id) == WithoutId(a, id) + WithoutId(b, id)
    ensures forall x :: WithoutId([x], id) == if x.id != id then [x] else []
  {
    FilterAppend(a, b, OtherThan(id));
    forall x ensures WithoutId([x], id) == if x.id != id then [x] else [] {
      assert [x][1..] == [];
    }
  }

  /** Deleting the read rows works segment by segment, so the surviving rows keep their order. */
  lemma {:induction false} WithoutReadKeepsOrder(a: seq<NotificationRow>, b: seq<NotificationRow>, userId: string)
    ensures WithoutRead(a + b, userId) == WithoutRead(a, userId) + WithoutRead(b, userId)
    ensures forall x :: WithoutRead([x], userId) == if !(x.userId == userId && x.isRead) then [x] else []
  {
    FilterAppend(a, b, NotReadOf(userId));
    forall x ensures WithoutRead([x], userId) == if !(x.userId == userId && x.isRead) then [x] else [] {
      assert [x][1..] == [];
    }
  }

  /** Deleting the read rows keeps every unread row, of every user, in order. */
  lemma {:induction false} DeleteReadKeepsUnread(rows: seq<NotificationRow>, userId: string, other: string)
    ensures Filter(WithoutRead(rows, userId), UnreadOf(other)) == Filter(rows, UnreadOf(other))
  {
    if rows != [] {
      DeleteReadKeepsUnread(rows[1..], userId, other);
    }
  }

  /** Every update keeps read flags and read times in step. */
  lemma UpdatesStayConsistent(rows: seq<NotificationRow>, id: string, userId: string, now: int)
    requires Consistent(rows)
    ensures Consistent(MarkedRead(rows, id, now))
    ensures Consistent(MarkedAllRead(rows, userId, now))
    ensures Consistent(WithoutId(rows, id))
    ensures Consistent(WithoutRead(rows, userId))
  {
    var a := WithoutId(rows, id);
    forall i | 0 <= i < |a| ensures a[i].isRead <==> a[i].readAt.Some? {
      assert a[i] in a;
    }
    var b := WithoutRead(rows, userId);
    forall i | 0 <= i < |b| ensures b[i].isRead <==> b[i].readAt.Some? {
      assert b[i] in b;
    }
  }

  /** How the insert of `createNotification` answers. */
  datatype CreateReply = CreateError | Created(id: string, createdAt: int)

  /**
   * The row `createNotification` inserts: empty optional texts stored as null.
   * The insert sends no `is_read` or `read_at`; the row is unread with no read
   * time by the table's column defaults, which this model assumes.
   */
  function NewNotificationRow(id: string, userId: string, kind: NotificationType, title: string,
                              content: Option<string>, relatedUserId: Option<string>,
                              relatedMessageId: Option<string>, createdAt: int): (r: NotificationRow)
    ensures r.id == id && r.userId == userId && r.rowType == TypeName(kind) && r.title == title
    ensures r.content.Some? <==> Truthy(content)
    ensures r.relatedUserId.Some? <==> Truthy(relatedUserId)
    ensures r.relatedMessageId.Some? <==> Truthy(relatedMessageId)
    ensures !r.isRead && r.readAt.None? && r.createdAt == createdAt
  {
    NotificationRow(id, userId, TypeName(kind), title, NullIfEmpty(content), NullIfEmpty(relatedUserId),
                    NullIfEmpty(relatedMessageId), false, createdAt, None)
  }

  /** A created notification reads back with its kind, and unread. */
  lemma CreatedReadsBack(id: string, userId: string, kind: NotificationType, title: string, createdAt: int)
    requires Canonical(kind)
    ensures var n := TransformNotificationRow(NewNotificationRow(id, userId, kind, title, None, None, None, createdAt));
      n.kind == kind && !n.isRead && n.readAt.None? && n.content.None?
  {
    TypeNameRoundTrip(kind);
  }

  class NotificationTable {
    var rows: seq<NotificationRow>

    constructor (initial: seq<NotificationRow>)
      ensures rows == initial
    {
      rows := initial;
    }

    /** `markNotificationAsRead`: on success only the row with `id` is read, at `now`. */
    method MarkNotificationAsRead(id: string, failed: bool, now: int) returns (ok: bool)
      modifies this
      ensures ok == !failed
      ensures rows == if failed then old(rows) else MarkedRead(old(rows), id, now)
      ensures Consistent(old(rows)) ==> Consistent(rows)
    {
      if failed {
        return false;
      }
      if Consistent(rows) {
        UpdatesStayConsistent(rows, id, "", now);
      }
      rows := MarkedRead(rows, id, now);
      return true;
    }

    /** `markAllNotificationsAsRead`: on success the user's unread rows are read, at `now`. */
    method MarkAllNotificationsAsRead(userId: string, failed: bool, now: int) returns (ok: bool)
      modifies this
      ensures ok == !failed
      ensures rows == if failed then old(rows) else MarkedAllRead(old(rows), userId, now)
      ensures Consistent(old(rows)) ==> Consistent(rows)
    {
      if failed {
        return false;
      }
      if Consistent(rows) {
        UpdatesStayConsistent(rows, "", userId, now);
      }
      rows := MarkedAllRead(rows, userId, now);
      return true;
    }

    /** `createNotification`: inserts one unread row and yields its id, or null. */
    method CreateNotification(userId: string, kind: NotificationType, title: string,
                              content: Option<string>, relatedUserId: Option<string>,
                              relatedMessageId: Option<string>, reply: CreateReply)
      returns (id: Option<string>)
      modifies this
      ensures reply.CreateError? ==> id.None? && rows == old(rows)
      ensures reply.Created? ==>
        rows == old(rows) + [NewNotificationRow(reply.id, userId, kind, title, content,
                                                relatedUserId, relatedMessageId, reply.createdAt)]
        && id == NullIfEmpty(Some(reply.id))
      ensures Consistent(old(rows)) ==> Consistent(rows)
    {
      match reply {
        case CreateError =>
          id := None;
        case Created(newId, at) =>
          var row := NewNotificationRow(newId, userId, kind, title, content, relatedUserId, relatedMessageId, at);
          rows := rows + [row];
          id := NullIfEmpty(Some(newId));
      }
    }

    /** `deleteNotification`: on success the row with `id` is gone. */
    method DeleteNotification(id: string, failed: bool) returns (ok: bool)
      modifies this
      ensures ok == !failed
      ensures rows == if failed then old(rows) else WithoutId(old(rows), id)
      ensures Consistent(old(rows)) ==> Consistent(rows)
    {
      if failed {
        return false;
      }
      if Consistent(rows) {
        UpdatesStayConsistent(rows, id, "", 0);
      }
      rows := WithoutId(rows, id);
      return true;
    }

    /** `deleteReadNotifications`: on success the user's read rows are gone. */
    method DeleteReadNotifications(userId: string, failed: bool) returns (ok: bool)
      modifies this
      ensures ok == !failed
      ensures rows == if failed then old(rows) else WithoutRead(old(rows), userId)
      ensures Consistent(old(rows)) ==> Consistent(rows)
    {
      if failed {
        return false;
      }
      if Consistent(rows) {
        UpdatesStayConsistent(rows, "", userId, 0);
      }
      rows := WithoutRead(rows, userId);
      return true;
    }
  }
}
