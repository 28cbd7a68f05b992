/**
 * The notifications page (`Notifications`): the signed-in user's list with a
 * loading flag, mark-read on success only, the unread badge and mark-all
 * button, and the relative age shown on each card (`formatDate`). Ages are
 * differences of millisecond timestamps; `Math.floor` of a division by a
 * positive constant is Dafny's `/`.
 */
module NotificationsPage {
  import opened Wrappers
  import opened Types
  import opened JsString
  import opened NotificationData
  import opened UseNotification

  const MINUTE: int := 60_000
  const HOUR: int := 3_600_000
  const DAY: int := 86_400_000

  /** The age bucket of a notification. */
  datatype Age = JustNow | MinutesAgo(minutes: nat) | HoursAgo(hours: nat) | DaysAgo(days: nat) | OlderThanAWeek

  lemma HoursAreNestedFloor(diff: int)
    ensures (diff / MINUTE) / 60 == diff / HOUR
  {
    var m, h := diff / MINUTE, diff / HOUR;
    assert diff == h * HOUR + diff % HOUR;
    assert 0 <= diff % HOUR < HOUR;
    assert m == h * 60 + (diff % HOUR) / MINUTE;
  }

  lemma DaysAreNestedFloor(diff: int)
    ensures ((diff / MINUTE) / 60) / 24 == diff / DAY
  {
    HoursAreNestedFloor(diff);
    var h, d := diff / HOUR, diff / DAY;
    assert diff == d * DAY + diff % DAY;
    assert h == d * 24 + (diff % DAY) / HOUR;
  }

  /**
   * `formatDate`'s buckets for an age of `diff` ms: under a minute (a future
   * time included) is "just now"; then whole minutes under an hour, whole
   * hours under a day, whole days under a week; anything older is shown as a
   * date.
   */
  function AgeOf(diff: int): (a: Age)
    ensures a.JustNow? <==> diff < MINUTE
    ensures a.MinutesAgo? ==> MINUTE <= diff < HOUR && a.minutes * MINUTE <= diff < (a.minutes + 1) * MINUTE
    ensures a.HoursAgo? ==> HOUR <= diff < DAY && a.hours * HOUR <= diff < (a.hours + 1) * HOUR
    ensures a.DaysAgo? ==> DAY <= diff < 7 * DAY && a.days * DAY <= diff < (a.days + 1) * DAY
    ensures a.OlderThanAWeek? <==> diff >= 7 * DAY
  {
    var diffInMinutes := diff / MINUTE;
    var diffInHours := diffInMinutes / 60;
    var diffInDays := diffInHours / 24;
    HoursAreNestedFloor(diff);
    DaysAreNestedFloor(diff);
    if diffInMinutes < 1 then JustNow
    else if diffInMinutes < 60 then MinutesAgo(diffInMinutes)
    else if diffInHours < 24 then HoursAgo(diffInHours)
    else if diffInDays < 7 then DaysAgo(diffInDays)
    else OlderThanAWeek
  }

  /** The bucket boundaries: 59 999 ms is just now, 60 000 ms one minute, and so on. */
  lemma AgeBoundaries()
    ensures AgeOf(MINUTE - 1) == JustNow && AgeOf(MINUTE) == MinutesAgo(1)
    ensures AgeOf(HOUR - 1) == MinutesAgo(59) && AgeOf(HOUR) == HoursAgo(1)
    ensures AgeOf(DAY - 1) == HoursAgo(23) && AgeOf(DAY) == DaysAgo(1)
    ensures AgeOf(7 * DAY - 1) == DaysAgo(6) && AgeOf(7 * DAY) == OlderThanAWeek
  {
    var _ := AgeOf(MINUTE - 1);
    var _ := AgeOf(HOUR - 1);
    var _ := AgeOf(DAY - 1);
    var _ := AgeOf(7 * DAY - 1);
  }

  const JUST_NOW: string := "방금 전"
  const MINUTES_AGO: string := "분 전"
  const HOURS_AGO: string := "시간 전"
  const DAYS_AGO: string := "일 전"

  /** `text` is the decimal rendering of `count` followed by the unit text `unit`. */
  predicate Shows(text: string, count: nat, unit: string)
  {
    |text| > |unit| && text[|text| - |unit|..] == unit
    && var digits := text[..|text| - |unit|];
    AllDigits(digits) && DecimalValue(digits) == count && (digits[0] == '0' ==> count == 0)
  }

  /** The rendered count followed by `unit` shows that count. */
  lemma {:induction false} CountLabelShows(count: nat, unit: string)
    ensures Shows(NatToDecimal(count) + unit, count, unit)
  {
    var digits := NatToDecimal(count);
    NatToDecimalValue(count);
    assert (digits + unit)[..|digits + unit| - |unit|] == digits;
    assert (digits + unit)[|digits + unit| - |unit|..] == unit;
  }

  /**
   * The label of a bucket: "just now", or the count of the bucket's unit with
   * that unit's text. An older notification's date is locale formatting, not
   * modelled.
   */
  function AgeLabel(a: Age): (s: Option<string>)
    ensures s.None? <==> a.OlderThanAWeek?
    ensures a.JustNow? ==> s == Some(JUST_NOW)
    ensures a.MinutesAgo? ==> s.Some? && Shows(s.value, a.minutes, MINUTES_AGO)
    ensures a.HoursAgo? ==> s.Some? && Shows(s.value, a.hours, HOURS_AGO)
    ensures a.DaysAgo? ==> s.Some? && Shows(s.value, a.days, DAYS_AGO)
  {
    match a
    case JustNow => Some(JUST_NOW)
    case MinutesAgo(m) => CountLabelShows(m, MINUTES_AGO); Some(NatToDecimal(m) + MINUTES_AGO)
    case HoursAgo(h) => CountLabelShows(h, HOURS_AGO); Some(NatToDecimal(h) + HOURS_AGO)
    case DaysAgo(d) => CountLabelShows(d, DAYS_AGO); Some(NatToDecimal(d) + DAYS_AGO)
    case OlderThanAWeek => None
  }

  class Page {
    const userId: Option<string>
    var notifications: seq<Notification>
    var isLoading: bool

    constructor (userId: Option<string>)
      ensures this.userId == userId && notifications == [] && isLoading
    {
      this.userId := userId;
      notifications := [];
      isLoading := true;
    }

    /** `loadNotifications`: without a user it returns at once, so the page keeps loading. */
    method LoadNotifications(table: NotificationTable, failed: bool)
      modifies this
      ensures !Truthy(userId) ==> notifications == old(notifications) && isLoading == old(isLoading)
      ensures Truthy(userId) ==> notifications == FetchNotificationsByUserId(table.rows, userId.value, failed) && !isLoading
    {
      if !Truthy(userId) {
        return;
      }
      isLoading := true;
      notifications := FetchNotificationsByUserId(table.rows, userId.value, failed);
      isLoading := false;
    }

    /** `handleMarkAsRead`: the local entry is marked only after the backend succeeds. */
    method HandleMarkAsRead(table: NotificationTable, id: string, failed: bool, now: int, localNow: int)
      modifies this, table
      ensures table.rows == if failed then old(table.rows) else MarkedRead(old(table.rows), id, now)
      ensures notifications == if failed then old(notifications) else MarkOneLocal(old(notifications), id, localNow)
      ensures isLoading == old(isLoading)
    {
      var success := table.MarkNotificationAsRead(id, failed, now);
      if success {
        notifications := MarkOneLocal(notifications, id, localNow);
      }
    }

    /** `handleMarkAllAsRead`: without a user, nothing; on success every entry is read. */
    method HandleMarkAllAsRead(table: NotificationTable, failed: bool, now: int, localNow: int)
      modifies this, table
      ensures !Truthy(userId) ==> table.rows == old(table.rows) && notifications == old(notifications)
      ensures Truthy(userId) ==>
        && table.rows == (if failed then old(table.rows) else MarkedAllRead(old(table.rows), userId.value, now))
        && notifications == (if failed then old(notifications) else MarkAllLocal(old(notifications), localNow))
      ensures isLoading == old(isLoading)
    {
      if !Truthy(userId) {
        return;
      }
      var success := table.MarkAllNotificationsAsRead(userId.value, failed, now);
      if success {
        notifications := MarkAllLocal(notifications, localNow);
      }
    }

    /** A click on a card marks it read only if it is unread. */
    method CardClick(table: NotificationTable, n: Notification, failed: bool, now: int, localNow: int)
      modifies this, table
      ensures n.isRead ==> table.rows == old(table.rows) && notifications == old(notifications)
      ensures !n.isRead ==>
        && table.rows == (if failed then old(table.rows) else MarkedRead(old(table.rows), n.id, now))
        && notifications == (if failed then old(notifications) else MarkOneLocal(old(notifications), n.id, localNow))
      ensures isLoading == old(isLoading)
    {
      if !n.isRead {
        HandleMarkAsRead(table, n.id, failed, now, localNow);
      }
    }

    /** The badge and the mark-all button are shown exactly when some entry is unread. */
    function ShowMarkAll(): (b: bool)
      reads this
      ensures b <==> exists i :: 0 <= i < |notifications| && !notifications[i].isRead
    {
      UnreadCount(notifications) > 0
    }
  }
}
