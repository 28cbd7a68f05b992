/**
 * The message composer (`MessageForm`): a draft, a submitting flag, and the
 * submit handler that trims and validates the draft, inserts it, and on
 * success clears the draft and asks the parent to refresh.
 *
 * The handler is asynchronous. Its first half (validation, setting the flag)
 * is `Submit`; the second half, run when `insertMessage` settles, is
 * `Resolve`. Alerts are recorded in order in `alerts`, calls of the
 * `onMessageSent` callback are counted in `refreshes`.
 */
module MessageForm {
  import opened Wrappers
  import opened JsString
  import opened Constants
  import opened MessageData

  /** What the synchronous checks of the submit handler decide. */
  datatype Validation =
    | Ignore              // empty after trimming, or a send is in flight
    | Reject(alert: string) // an alert is shown, nothing is sent
    | Send(text: string)  // the trimmed draft is sent

  /**
   * The checks of `handleSubmit`, in the handler's order: a blank draft or a
   * send in flight is ignored; a trimmed draft shorter than the minimum is
   * refused with "message required" (which therefore never happens: a
   * non-empty string has at least one code unit); one longer than the maximum
   * is refused with "too long"; anything else is sent, trimmed.
   */
  function Validate(draft: string, submitting: bool): (v: Validation)
    ensures v.Ignore? <==> Trim(draft) == [] || submitting
    ensures v.Reject? ==> v.alert == MESSAGE_TOO_LONG && Utf16Length(Trim(draft)) > MESSAGE_MAX_LENGTH
    ensures v.Send? ==> v.text == Trim(draft) && MESSAGE_MIN_LENGTH <= Utf16Length(v.text) <= MESSAGE_MAX_LENGTH
    ensures !submitting && Trim(draft) != [] ==> (v.Reject? <==> Utf16Length(Trim(draft)) > MESSAGE_MAX_LENGTH)
  {
    var trimmed := Trim(draft);
    if trimmed == [] || submitting then Ignore
    else if Utf16Length(trimmed) < MESSAGE_MIN_LENGTH then Reject(MESSAGE_REQUIRED)
    else if Utf16Length(trimmed) > MESSAGE_MAX_LENGTH then Reject(MESSAGE_TOO_LONG)
    else Send(trimmed)
  }

  /**
   * The textarea's `maxLength` keeps a typed draft within the maximum; such a
   * draft is never refused as too long.
   */
  lemma TypedDraftNeverTooLong(draft: string, submitting: bool)
    requires Utf16Length(draft) <= MESSAGE_MAX_LENGTH
    ensures !Validate(draft, submitting).Reject?
  {
    TrimShortens(draft);
  }

  /** The send button is enabled exactly when submitting would do something. */
  function SendEnabled(draft: string, submitting: bool): (b: bool)
    ensures b <==> !Validate(draft, submitting).Ignore?
  {
    !(submitting || Trim(draft) == [])
  }

  /** How the awaited `insertMessage` settled. */
  datatype Settlement = Threw | Returned(reply: InsertReply)

  class Form {
    const currentUserId: string
    const recipientId: Option<string>
    const hasOnMessageSent: bool
    var message: string
    var isSubmitting: bool
    /** The trimmed text whose insert is awaited. */
    var inFlight: Option<string>
    var alerts: seq<string>
    var refreshes: nat

    /** A send is in flight exactly while the form is submitting. */
    ghost predicate Valid()
      reads this
    {
      isSubmitting <==> inFlight.Some?
    }

    constructor (currentUserId: string, recipientId: Option<string>, hasOnMessageSent: bool)
      ensures Valid()
      ensures this.currentUserId == currentUserId && this.recipientId == recipientId
      ensures this.hasOnMessageSent == hasOnMessageSent
      ensures message == "" && !isSubmitting && alerts == [] && refreshes == 0
    {
      this.currentUserId := currentUserId;
      this.recipientId := recipientId;
      this.hasOnMessageSent := hasOnMessageSent;
      message := "";
      isSubmitting := false;
      inFlight := None;
      alerts := [];
      refreshes := 0;
    }

    /** `onChange` of the textarea, which is disabled while submitting. */
    method Edit(value: string)
      modifies this
      requires Valid()
      ensures Valid()
      ensures message == (if old(isSubmitting) then old(message) else value)
      ensures isSubmitting == old(isSubmitting) && inFlight == old(inFlight)
      ensures alerts == old(alerts) && refreshes == old(refreshes)
    {
      if !isSubmitting {
        message := value;
      }
    }

    /** The synchronous half of `handleSubmit`. */
    method Submit()
      modifies this
      requires Valid()
      ensures Valid()
      ensures message == old(message) && refreshes == old(refreshes)
      ensures match Validate(old(message), old(isSubmitting))
        case Ignore => isSubmitting == old(isSubmitting) && inFlight == old(inFlight) && alerts == old(alerts)
        case Reject(a) => !isSubmitting && inFlight.None? && alerts == old(alerts) + [a]
        case Send(t) => isSubmitting && inFlight == Some(t) && alerts == old(alerts)
    {
      match Validate(message, isSubmitting) {
        case Ignore =>
        case Reject(a) =>
          alerts := alerts + [a];
        case Send(t) =>
          isSubmitting := true;
          inFlight := Some(t);
      }
    }

    /** `handleKeyDown`: Enter without Shift submits; any other key changes nothing here. */
    method KeyDown(key: string, shift: bool)
      modifies this
      requires Valid()
      ensures Valid()
      ensures message == old(message) && refreshes == old(refreshes)
      ensures !(key == "Enter" && !shift) ==>
        isSubmitting == old(isSubmitting) && inFlight == old(inFlight) && alerts == old(alerts)
      ensures key == "Enter" && !shift ==> match Validate(old(message), old(isSubmitting))
        case Ignore => isSubmitting == old(isSubmitting) && inFlight == old(inFlight) && alerts == old(alerts)
        case Reject(a) => !isSubmitting && inFlight.None? && alerts == old(alerts) + [a]
        case Send(t) => isSubmitting && inFlight == Some(t) && alerts == old(alerts)
    {
      if key == "Enter" && !shift {
        Submit();
      }
    }

    /**
     * The asynchronous half of `handleSubmit`, once `insertMessage` settles. An
     * id clears the draft and calls `onMessageSent` if there is one; null
     * alerts "send failed" and keeps the draft; an exception alerts "send
     * error" and keeps the draft. Either way the form stops submitting.
     */
    method Resolve(table: MessageTable, env: Env, settled: Settlement)
      modifies this, table
      requires Valid()
      ensures Valid()
      ensures old(inFlight).None? ==> unchanged(this) && unchanged(table)
      ensures old(inFlight).Some? ==> !isSubmitting && inFlight.None?
      ensures old(inFlight).Some? && settled.Threw? ==>
        table.rows == old(table.rows) && message == old(message)
        && alerts == old(alerts) + [SEND_ERROR] && refreshes == old(refreshes)
      ensures old(inFlight).Some? && settled.Returned? ==>
        var target := FinalRecipient(env, currentUserId, recipientId);
        var id := InsertResult(env, currentUserId, recipientId, settled.reply);
        && (if target.None? || settled.reply.InsertError? then table.rows == old(table.rows)
            else table.rows == old(table.rows) + [MessageRow(settled.reply.id, currentUserId, target.value, old(inFlight).value, settled.reply.createdAt)])
        && (id.Some? ==> message == "" && alerts == old(alerts)
                         && refreshes == old(refreshes) + (if hasOnMessageSent then 1 else 0))
        && (id.None? ==> message == old(message) && alerts == old(alerts) + [SEND_FAILED]
                         && refreshes == old(refreshes))
    {
      if inFlight.None? {
        return;
      }
      match settled {
        case Threw =>
          alerts := alerts + [SEND_ERROR];
        case Returned(reply) =>
          var messageId := table.InsertMessage(env, currentUserId, inFlight.value, recipientId, reply);
          if messageId.Some? {
            message := "";
            if hasOnMessageSent {
              refreshes := refreshes + 1;
            }
          } else {
            alerts := alerts + [SEND_FAILED];
          }
      }
      isSubmitting := false;
      inFlight := None;
    }
  }
}
