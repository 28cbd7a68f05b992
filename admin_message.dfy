/**
 * The owner's message page (`AdminMessage`): the roster with a message count
 * per user, the selected user's conversation, and the count update after a
 * send. The roster comes from a server-side procedure and is a parameter; each
 * conversation fetch may fail on its own, which `failures` (the ids whose
 * fetch fails) expresses.
 */
module AdminMessage {
  import opened Wrappers
  import opened Types
  import opened MessageData
  import opened UseMessage
  import MessageList

  /** Where the page goes before rendering. */
  datatype Route = RedirectHome | ShowPage

  /** Nobody signed in, or someone other than the owner, is sent to `/`. */
  function Gate(env: Env, userId: Option<string>): (r: Route)
    ensures r.ShowPage? <==> userId.Some? && userId.value == GetOwnerId(env)
  {
    if userId.None? || !IsOwner(env, userId.value) then RedirectHome else ShowPage
  }

  /** The count shown next to a roster user: `messageCount.get(u.id) || 0`. */
  function DisplayCount(counts: map<string, nat>, u: User): (n: nat)
    ensures u.id !in counts ==> n == 0
    ensures u.id in counts ==> n == counts[u.id]
  {
    if u.id in counts && counts[u.id] != 0 then counts[u.id] else 0
  }

  const SELECT_PROMPT: string := "사용자를 선택하여 메시지를 확인하세요"
  const NO_CONVERSATION: string := "메시지가 없습니다."

  /** The right-hand pane: a prompt to pick a user, or the selected user's conversation. */
  datatype Pane = SelectPrompt(text: string) | Conversation(view: MessageList.View)

  class AdminMessagePage {
    const viewerId: string
    var users: seq<User>
    var selectedUser: Option<User>
    var messages: seq<MessageRow>
    var messageCount: map<string, nat>
    var isLoading: bool

    constructor (viewerId: string)
      ensures this.viewerId == viewerId
      ensures users == [] && selectedUser.None? && messages == [] && messageCount == map[] && isLoading
    {
      this.viewerId := viewerId;
      users := [];
      selectedUser := None;
      messages := [];
      messageCount := map[];
      isLoading := true;
    }

    /**
     * The pane: without a selection, the prompt; otherwise the conversation,
     * with its own placeholder when empty, and each message marked as the
     * owner's own exactly when the owner wrote it.
     */
    function ShownPane(): (p: Pane)
      reads this
      ensures p.SelectPrompt? <==> selectedUser.None?
      ensures p.SelectPrompt? ==> p.text == SELECT_PROMPT
      ensures p.Conversation? ==> (p.view.Placeholder? <==> messages == [])
      ensures p.Conversation? && p.view.Placeholder? ==> p.view.text == NO_CONVERSATION
      ensures p.Conversation? && p.view.Items? ==> |p.view.items| == |messages|
      ensures p.Conversation? && p.view.Items? ==> forall i :: 0 <= i < |messages| ==>
        p.view.items[i].message == messages[i] && (p.view.items[i].isMe <==> messages[i].authorId == viewerId)
    {
      if selectedUser.None? then SelectPrompt(SELECT_PROMPT)
      else Conversation(MessageList.Render(messages, viewerId, NO_CONVERSATION))
    }

    /**
     * `loadUsers`: one count per roster user, the length of that user's
     * conversation with the owner (zero when its fetch fails).
     */
    method LoadUsers(env: Env, rows: seq<MessageRow>, roster: seq<User>, failures: set<string>)
      modifies this
      ensures users == roster && !isLoading
      ensures forall id :: id in messageCount <==> exists i :: 0 <= i < |roster| && roster[i].id == id
      ensures forall id :: id in messageCount ==>
        messageCount[id] == |FetchMessagesByUserId(env, rows, id, id in failures)|
      ensures selectedUser == old(selectedUser) && messages == old(messages)
    {
      isLoading := true;
      users := roster;
      var counts: map<string, nat> := map[];
      for k := 0 to |roster|
        invariant forall id :: id in counts <==> exists i :: 0 <= i < k && roster[i].id == id
        invariant forall id :: id in counts ==>
          counts[id] == |FetchMessagesByUserId(env, rows, id, id in failures)|
      {
        var u := roster[k];
        var userMessages := FetchMessagesByUserId(env, rows, u.id, u.id in failures);
        counts := counts[u.id := |userMessages|];
      }
      messageCount := counts;
      isLoading := false;
    }

    /** `handleUserClick`: the toggle, loading the clicked user's conversation. */
    method HandleUserClick(env: Env, rows: seq<MessageRow>, u: User, failed: bool)
      modifies this
      ensures (selectedUser, messages) == Toggled(old(selectedUser), u, FetchMessagesByUserId(env, rows, u.id, failed))
      ensures users == old(users) && messageCount == old(messageCount) && isLoading == old(isLoading)
    {
      if selectedUser.Some? && selectedUser.value.id == u.id {
        selectedUser := None;
        messages := [];
      } else {
        selectedUser := Some(u);
        messages := FetchMessagesByUserId(env, rows, u.id, failed);
      }
    }

    /**
     * `handleMessageSent`: with a selected user, reloads the conversation and
     * sets that user's count to one more than the length of the list shown
     * before the reload; other counts are kept. Without a selection, nothing.
     */
    method HandleMessageSent(env: Env, rows: seq<MessageRow>, failed: bool)
      modifies this
      ensures old(selectedUser).None? ==> unchanged(this)
      ensures old(selectedUser).Some? ==>
        var id := old(selectedUser).value.id;
        && messages == FetchMessagesByUserId(env, rows, id, failed)
        && messageCount == old(messageCount)[id := |old(messages)| + 1]
      ensures users == old(users) && selectedUser == old(selectedUser) && isLoading == old(isLoading)
    {
      if selectedUser.Some? {
        var shown := |messages|;
        messages := FetchMessagesByUserId(env, rows, selectedUser.value.id, failed);
        messageCount := messageCount[selectedUser.value.id := shown + 1];
      }
    }
  }

  /**
   * The count `handleMessageSent` stores agrees with the reloaded conversation
   * when the reload holds exactly the shown messages plus the one just sent.
   */
  lemma SentCountAgrees(env: Env, shown: seq<MessageRow>, rows: seq<MessageRow>, id: string, sent: MessageRow)
    requires multiset(FetchMessagesByUserId(env, rows, id, false)) == multiset(shown) + multiset{sent}
    ensures |FetchMessagesByUserId(env, rows, id, false)| == |shown| + 1
  {
    var r := FetchMessagesByUserId(env, rows, id, false);
    assert |r| == |multiset(r)|;
    assert |multiset(shown) + multiset{sent}| == |shown| + 1;
  }
}
