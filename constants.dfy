/** Application constants: polling intervals, message length bounds, group ids and user-facing texts. */
module Constants {

  /** How often message views re-fetch, in milliseconds (3 minutes). */
  const MESSAGE_POLLING_INTERVAL: int := 180_000
  /** How often notification views re-fetch, in milliseconds (30 seconds). */
  const NOTIFICATION_POLLING_INTERVAL: int := 30_000
  const MINUTES_TO_MS: int := 60_000

  /**
   * Minutes to milliseconds. The result is a whole number of minutes again:
   * dividing it by `MINUTES_TO_MS` gives back `minutes` with nothing left over.
   */
  function CalculateMinutesToMs(minutes: int): (ms: int)
    ensures ms / MINUTES_TO_MS == minutes
    ensures ms % MINUTES_TO_MS == 0
    ensures (minutes >= 0) == (ms >= 0)
  {
    minutes * MINUTES_TO_MS
  }

  /** Bounds on the trimmed length of a message, in UTF-16 code units. */
  const MESSAGE_MAX_LENGTH: nat := 1000
  const MESSAGE_MIN_LENGTH: nat := 1

  /** The public friend group and the default group share one id. */
  const FRIEND_GROUP_ALL: string := "0"
  const FRIEND_GROUP_DEFAULT: string := "0"
  const DEFAULT_USER_FROM: string := "0"
  const DEFAULT_FRIEND_GROUP: string := "0"

  const SEND_FAILED: string := "Failed to send message. Please try again."
  const SEND_ERROR: string := "An error occurred while sending the message."
  const MESSAGE_REQUIRED: string := "메시지를 입력해주세요."
  const MESSAGE_TOO_LONG: string := "메시지는 1000자를 초과할 수 없습니다."
  const NO_MESSAGES: string := "No messages yet. Start the conversation!"

  /** The values the constants are documented to have agree with one another. */
  lemma ConstantsAgree()
    ensures MESSAGE_POLLING_INTERVAL == CalculateMinutesToMs(3) == 180_000
    ensures NOTIFICATION_POLLING_INTERVAL == 30_000
    ensures MESSAGE_MIN_LENGTH <= MESSAGE_MAX_LENGTH
    ensures FRIEND_GROUP_ALL == FRIEND_GROUP_DEFAULT == "0"
  {
  }
}
