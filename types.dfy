/** The client's domain entities, in the camel-case shape the transformers produce. */
module Types {
  import opened Wrappers

  /** Author or recipient of a message, as the message view denormalises it. */
  datatype UserRef = UserRef(id: string, username: string, profilePic: string)

  /** A direct message. `createdAt` is the server timestamp in milliseconds. */
  datatype Message = Message(id: string, author: UserRef, recipient: UserRef, message: string, createdAt: int)

  /** A user profile. The timestamps are kept as the ISO strings the backend sends. */
  datatype User = User(
    id: string, username: string, profilePic: string, email: string,
    provider: string, createdAt: string, updatedAt: string)

  /**
   * The four notification kinds. The transformer casts the stored string without
   * checking it, so a row may carry any other string: `Unlisted` holds it.
   */
  datatype NotificationType = NewMessage | MessageReply | FriendRequest | System | Unlisted(raw: string)

  /** A notification; `createdAt` and `readAt` are timestamps in milliseconds. */
  datatype Notification = Notification(
    id: string, userId: string, kind: NotificationType, title: string,
    content: Option<string>, relatedUserId: Option<string>, relatedMessageId: Option<string>,
    isRead: bool, createdAt: int, readAt: Option<int>)

  /** The stored spelling of a notification kind. */
  function TypeName(t: NotificationType): string
  {
    match t
    case NewMessage => "new_message"
    case MessageReply => "message_reply"
    case FriendRequest => "friend_request"
    case System => "system"
    case Unlisted(raw) => raw
  }

  /** `row.type as NotificationType`: the stored string, read as a kind. */
  function AsNotificationType(s: string): (t: NotificationType)
    ensures TypeName(t) == s
    ensures t.Unlisted? <==> s !in {"new_message", "message_reply", "friend_request", "system"}
  {
    if s == "new_message" then NewMessage
    else if s == "message_reply" then MessageReply
    else if s == "friend_request" then FriendRequest
    else if s == "system" then System
    else Unlisted(s)
  }

  /** A kind whose `Unlisted` string is not one of the four names. */
  predicate Canonical(t: NotificationType)
  {
    t.Unlisted? ==> t.raw !in {"new_message", "message_reply", "friend_request", "system"}
  }

  /** Reading back a stored kind gives the same kind. */
  lemma TypeNameRoundTrip(t: NotificationType)
    requires Canonical(t)
    ensures AsNotificationType(TypeName(t)) == t
  {
  }
}
