/**
 * The single translation layer between the backend's snake-case rows and the
 * client's entities. Each row transform is a bijection (its inverse is the
 * flattening back into a row), and each list transform applies it elementwise.
 */
module Transformers {
  import opened Wrappers
  import opened Types

  /** A row of the message view, which joins both parties' names and pictures. */
  datatype MessageViewRow = MessageViewRow(
    id: string,
    authorId: string, authorUsername: string, authorProfilePic: string,
    recipientId: string, recipientUsername: string, recipientProfilePic: string,
    message: string, createdAt: int)

  /** A row of the user table. */
  datatype UserRow = UserRow(
    id: string, username: string, profilePic: string, email: string,
    provider: string, createdAt: string, updatedAt: string)

  /** A row of the notification table; `type` is an unchecked string. */
  datatype NotificationRow = NotificationRow(
    id: string, userId: string, rowType: string, title: string,
    content: Option<string>, relatedUserId: Option<string>, relatedMessageId: Option<string>,
    isRead: bool, createdAt: int, readAt: Option<int>)

  /** The view row a message is read from: the author and recipient flattened back. */
  function MessageToViewRow(m: Message): MessageViewRow
  {
    MessageViewRow(m.id, m.author.id, m.author.username, m.author.profilePic,
                   m.recipient.id, m.recipient.username, m.recipient.profilePic,
                   m.message, m.createdAt)
  }

  /** Nests the `author_*` and `recipient_*` columns; no column is lost. */
  function TransformMessageViewRow(row: MessageViewRow): (m: Message)
    ensures MessageToViewRow(m) == row
  {
    Message(row.id,
            UserRef(row.authorId, row.authorUsername, row.authorProfilePic),
            UserRef(row.recipientId, row.recipientUsername, row.recipientProfilePic),
            row.message, row.createdAt)
  }

  /** Every message is the transform of exactly one view row. */
  lemma MessageViewRowBijective(m: Message, r1: MessageViewRow, r2: MessageViewRow)
    ensures TransformMessageViewRow(MessageToViewRow(m)) == m
    ensures TransformMessageViewRow(r1) == TransformMessageViewRow(r2) ==> r1 == r2
  {
    assert MessageToViewRow(TransformMessageViewRow(r1)) == r1;
    assert MessageToViewRow(TransformMessageViewRow(r2)) == r2;
  }

  /** `rows.map(transformMessageViewRow)`. */
  function TransformMessageViewRows(rows: seq<MessageViewRow>): (ms: seq<Message>)
    ensures |ms| == |rows|
    ensures forall i :: 0 <= i < |rows| ==> ms[i] == TransformMessageViewRow(rows[i])
  {
    if rows == [] then [] else [TransformMessageViewRow(rows[0])] + TransformMessageViewRows(rows[1..])
  }

  /** The user row a user is read from (the camel-case names renamed back). */
  function UserToRow(u: User): UserRow
  {
    UserRow(u.id, u.username, u.profilePic, u.email, u.provider, u.createdAt, u.updatedAt)
  }

  /** Renames the columns field for field. */
  function TransformUserRow(row: UserRow): (u: User)
    ensures UserToRow(u) == row
  {
    User(row.id, row.username, row.profilePic, row.email, row.provider, row.createdAt, row.updatedAt)
  }

  lemma UserRowBijective(u: User, r1: UserRow, r2: UserRow)
    ensures TransformUserRow(UserToRow(u)) == u
    ensures TransformUserRow(r1) == TransformUserRow(r2) ==> r1 == r2
  {
    assert UserToRow(TransformUserRow(r1)) == r1;
    assert UserToRow(TransformUserRow(r2)) == r2;
  }

  /** `rows.map(transformUserRow)`. */
  function TransformUserRows(rows: seq<UserRow>): (us: seq<User>)
    ensures |us| == |rows|
    ensures forall i :: 0 <= i < |rows| ==> us[i] == TransformUserRow(rows[i])
  {
    if rows == [] then [] else [TransformUserRow(rows[0])] + TransformUserRows(rows[1..])
  }

  /** The notification row a notification is read from. */
  function NotificationToRow(n: Notification): NotificationRow
  {
    NotificationRow(n.id, n.userId, TypeName(n.kind), n.title, n.content,
                    n.relatedUserId, n.relatedMessageId, n.isRead, n.createdAt, n.readAt)
  }

  /**
   * Renames every column, the nullable ones included, and casts `type` without
   * checking it: the stored string is kept whatever it is.
   */
  function TransformNotificationRow(row: NotificationRow): (n: Notification)
    ensures NotificationToRow(n) == row
    ensures Canonical(n.kind)
  {
    Notification(row.id, row.userId, AsNotificationType(row.rowType), row.title, row.content,
                 row.relatedUserId, row.relatedMessageId, row.isRead, row.createdAt, row.readAt)
  }

  lemma NotificationRowBijective(n: Notification, r1: NotificationRow, r2: NotificationRow)
    requires Canonical(n.kind)
    ensures TransformNotificationRow(NotificationToRow(n)) == n
    ensures TransformNotificationRow(r1) == TransformNotificationRow(r2) ==> r1 == r2
  {
    TypeNameRoundTrip(n.kind);
    assert NotificationToRow(TransformNotificationRow(r1)) == r1;
    assert NotificationToRow(TransformNotificationRow(r2)) == r2;
  }

  /** `rows.map(transformNotificationRow)`. */
  function TransformNotificationRows(rows: seq<NotificationRow>): (ns: seq<Notification>)
    ensures |ns| == |rows|
    ensures forall i :: 0 <= i < |rows| ==> ns[i] == TransformNotificationRow(rows[i])
  {
    if rows == [] then [] else [TransformNotificationRow(rows[0])] + TransformNotificationRows(rows[1..])
  }
}
