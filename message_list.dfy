/**
 * The conversation list (`MessageList`): the owner loads every message, anyone
 * else their conversation with the owner; each load replaces the list, and
 * the list renders as a placeholder or one item per message.
 */
module MessageList {
  import opened Constants
  import opened MessageData

  /** `isMe` of a rendered message: the viewer wrote it. */
  predicate IsMe(viewerId: string, m: MessageRow)
  {
    m.authorId == viewerId
  }

  /** One rendered message. */
  datatype Item = Item(message: MessageRow, isMe: bool)

  /** What a message list renders. */
  datatype View = Placeholder(text: string) | Items(items: seq<Item>)

  /** The rendering of `messages` for `viewerId`, in list order. */
  function Render(messages: seq<MessageRow>, viewerId: string, placeholder: string): (v: View)
    ensures v.Placeholder? <==> messages == []
    ensures v.Placeholder? ==> v.text == placeholder
    ensures v.Items? ==> |v.items| == |messages|
    ensures v.Items? ==> forall i :: 0 <= i < |messages| ==> v.items[i].message == messages[i]
    ensures v.Items? ==> forall i :: 0 <= i < |messages| ==> (v.items[i].isMe <==> messages[i].authorId == viewerId)
  {
    if messages == [] then Placeholder(placeholder)
    else Items(RenderItems(messages, viewerId))
  }

  function RenderItems(messages: seq<MessageRow>, viewerId: string): (items: seq<Item>)
    ensures |items| == |messages|
    ensures forall i :: 0 <= i < |messages| ==> items[i] == Item(messages[i], IsMe(viewerId, messages[i]))
  {
    if messages == [] then []
    else [Item(messages[0], IsMe(viewerId, messages[0]))] + RenderItems(messages[1..], viewerId)
  }

  /**
   * In the owner's view of a conversation with another user, a message is the
   * owner's own exactly when it is addressed to that user.
   */
  lemma OwnerSeesOwnReplies(env: Env, rows: seq<MessageRow>, userId: string, failed: bool, i: nat)
    requires userId != GetOwnerId(env)
    requires i < |FetchMessagesByUserId(env, rows, userId, failed)|
    ensures var m := FetchMessagesByUserId(env, rows, userId, failed)[i];
      IsMe(GetOwnerId(env), m) <==> m.recipientId == userId
  {
    var conv := FetchMessagesByUserId(env, rows, userId, failed);
    ConversationExact(env, rows, userId, failed);
    assert conv[i] in conv;
  }

  class MessageListView {
    const currentUserId: string
    var messages: seq<MessageRow>

    constructor (currentUserId: string)
      ensures this.currentUserId == currentUserId && messages == []
    {
      this.currentUserId := currentUserId;
      messages := [];
    }

    /** `loadMessages`: the source is chosen by role, and the result replaces the list. */
    method Load(env: Env, rows: seq<MessageRow>, failed: bool)
      modifies this
      ensures messages == if IsOwner(env, currentUserId) then FetchAllMessages(rows, failed)
                          else FetchMessagesByUserId(env, rows, currentUserId, failed)
    {
      var fetchedMessages: seq<MessageRow>;
      if IsOwner(env, currentUserId) {
        fetchedMessages := FetchAllMessages(rows, failed);
      } else {
        fetchedMessages := FetchMessagesByUserId(env, rows, currentUserId, failed);
      }
      messages := fetchedMessages;
    }

    /** The rendered list. */
    function View(): (v: View)
      reads this
      ensures v.Placeholder? <==> messages == []
      ensures v.Placeholder? ==> v.text == NO_MESSAGES
    {
      Render(messages, currentUserId, NO_MESSAGES)
    }
  }

  /** A regular user's list holds only messages between that user and the owner. */
  lemma RegularViewIsOwnConversation(env: Env, rows: seq<MessageRow>, viewerId: string, failed: bool, m: MessageRow)
    requires !IsOwner(env, viewerId)
    requires m in FetchMessagesByUserId(env, rows, viewerId, failed)
    ensures (m.authorId == viewerId && m.recipientId == GetOwnerId(env))
         || (m.authorId == GetOwnerId(env) && m.recipientId == viewerId)
  {
    ConversationExact(env, rows, viewerId, failed);
  }
}
