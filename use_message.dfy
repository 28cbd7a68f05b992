/**
 * The message hook (`useMessage`): the roster, the selected peer and its
 * conversation, the per-peer message counts, and the draft with its submit
 * handler. The message list comes from a query this model does not see, so
 * each reload takes the fetched list as a parameter; the group roster comes
 * from a server-side procedure and is a parameter the same way.
 */
module UseMessage {
  import opened Wrappers
  import opened Seqs
  import opened Types
  import opened Constants
  import opened Transformers
  import opened MessageData

  /** `msg.author.id === id || msg.recipient.id === id`. */
  function Involves(id: string): Message -> bool
  {
    (m: Message) => m.author.id == id || m.recipient.id == id
  }

  /** The fetched messages that have `id` as author or recipient, in list order. */
  function PeerMessages(fetched: seq<Message>, id: string): (r: seq<Message>)
    ensures forall m :: m in r <==> m in fetched && (m.author.id == id || m.recipient.id == id)
    ensures forall m :: multiset(r)[m] == if m.author.id == id || m.recipient.id == id then multiset(fetched)[m] else 0
  {
    FilterMembers(fetched, Involves(id));
    FilterMultiset(fetched, Involves(id));
    Filter(fetched, Involves(id))
  }

  /** The peer's messages of two fetched segments are those of the first followed by those of the second. */
  lemma {:induction false} PeerMessagesAppend(a: seq<Message>, b: seq<Message>, id: string)
    ensures PeerMessages(a + b, id) == PeerMessages(a, id) + PeerMessages(b, id)
    ensures forall m :: PeerMessages([m], id) == if m.author.id == id || m.recipient.id == id then [m] else []
  {
    FilterAppend(a, b, Involves(id));
    forall m ensures PeerMessages([m], id) == if m.author.id == id || m.recipient.id == id then [m] else [] {
      assert [m][1..] == [];
    }
  }

  /**
   * `fetchAllUsers(userId)`: every user but the caller, or none on error.
   */
  function FetchAllUsers(rows: seq<UserRow>, callerId: string, failed: bool): (us: seq<User>)
    ensures failed ==> us == []
    ensures |us| <= |rows|
    ensures forall i :: 0 <= i < |us| ==> us[i].id != callerId
  {
    if failed then []
    else TransformUserRows(Filter(rows, (r: UserRow) => r.id != callerId))
  }

  /** Without an error, exactly the rows other than the caller's become users. */
  lemma FetchAllUsersExact(rows: seq<UserRow>, callerId: string, r: UserRow)
    ensures r in rows && r.id != callerId ==> TransformUserRow(r) in FetchAllUsers(rows, callerId, false)
    ensures TransformUserRow(r) in FetchAllUsers(rows, callerId, false) ==> r in rows && r.id != callerId
  {
    var p := (x: UserRow) => x.id != callerId;
    var kept := Filter(rows, p);
    FilterMembers(rows, p);
    var us := TransformUserRows(kept);
    if r in kept {
      var i :| 0 <= i < |kept| && kept[i] == r;
      assert us[i] == TransformUserRow(r);
    }
    if TransformUserRow(r) in us {
      var i :| 0 <= i < |us| && us[i] == TransformUserRow(r);
      UserRowBijective(TransformUserRow(r), kept[i], r);
    }
  }

  /**
   * The select/deselect toggle of a peer list: clicking the selected user
   * clears the selection and the shown conversation; clicking anyone else
   * selects them and shows `conversation`, their conversation.
   */
  function Toggled<M>(selected: Option<User>, u: User, conversation: seq<M>): (r: (Option<User>, seq<M>))
    ensures r.0.None? <==> selected.Some? && selected.value.id == u.id
    ensures r.0.None? ==> r.1 == []
    ensures r.0.Some? ==> r.0.value == u && r.1 == conversation
  {
    if selected.Some? && selected.value.id == u.id then (None, [])
    else (Some(u), conversation)
  }

  /** Clicking the same user twice, from any other selection, leaves nobody selected. */
  lemma ToggleTwiceClears<M>(selected: Option<User>, u: User, first: seq<M>, second: seq<M>)
    requires !(selected.Some? && selected.value.id == u.id)
    ensures Toggled(Toggled(selected, u, first).0, u, second) == (None, [])
  {
  }

  /** After clicking `p` and then a different `q`, `q` is selected with its conversation. */
  lemma ToggleSwitches<M>(selected: Option<User>, p: User, q: User, first: seq<M>, second: seq<M>)
    requires p.id != q.id
    ensures Toggled(Toggled(selected, p, first).0, q, second) == (Some(q), second)
  {
  }

  /**
   * The counting loop of `loadMessages`: one entry per roster user, zeros
   * included, holding the number of fetched messages with that user.
   */
  method CountPerUser(roster: seq<User>, fetched: seq<Message>) returns (counts: map<string, nat>)
    ensures forall id :: id in counts <==> exists i :: 0 <= i < |roster| && roster[i].id == id
    ensures forall id :: id in counts ==> counts[id] == |PeerMessages(fetched, id)|
  {
    counts := map[];
    for k := 0 to |roster|
      invariant forall id :: id in counts <==> exists i :: 0 <= i < k && roster[i].id == id
      invariant forall id :: id in counts ==> counts[id] == |PeerMessages(fetched, id)|
    {
      counts := counts[roster[k].id := |PeerMessages(fetched, roster[k].id)|];
    }
  }

  /** The draft and recipient captured when a send starts. */
  datatype Pending = Pending(text: string, recipientId: Option<string>)

  /** How the awaited `insertMessage` settled. */
  datatype Settlement = Threw | Returned(reply: InsertReply)

  class MessageHook {
    const currentUserId: string
    var users: seq<User>
    var selectedUser: Option<User>
    var message: string
    var messages: seq<Message>
    var allMessages: seq<Message>
    var messageCount: map<string, nat>
    var isSubmitting: bool
    var inFlight: Option<Pending>
    var alerts: seq<string>

    /** A send is in flight exactly while the hook is submitting. */
    ghost predicate Valid()
      reads this
    {
      isSubmitting <==> inFlight.Some?
    }

    /** The hook's initial state; the current user's id is `user?.id || ""`. */
    constructor (userId: Option<string>)
      ensures Valid()
      ensures currentUserId == userId.GetOr("")
      ensures users == [] && selectedUser.None? && message == "" && messages == []
      ensures allMessages == [] && messageCount == map[] && !isSubmitting && alerts == []
    {
      currentUserId := userId.GetOr("");
      users := [];
      selectedUser := None;
      message := "";
      messages := [];
      allMessages := [];
      messageCount := map[];
      isSubmitting := false;
      inFlight := None;
      alerts := [];
    }

    /** `loadUsers`: the owner sees every other user, anyone else their group. */
    method LoadUsers(env: Env, rows: seq<UserRow>, failed: bool, groupRoster: seq<User>)
      modifies this
      requires Valid()
      ensures Valid()
      ensures users == if IsOwner(env, currentUserId) then FetchAllUsers(rows, currentUserId, failed) else groupRoster
      ensures selectedUser == old(selectedUser) && message == old(message) && messages == old(messages)
      ensures allMessages == old(allMessages) && messageCount == old(messageCount)
      ensures isSubmitting == old(isSubmitting) && inFlight == old(inFlight) && alerts == old(alerts)
    {
      if IsOwner(env, currentUserId) {
        users := FetchAllUsers(rows, currentUserId, failed);
      } else {
        users := groupRoster;
      }
    }

    /**
     * `loadMessages`: keeps the fetched list, counts each roster user's
     * messages (one entry per roster user, zeros included), and refreshes
     * the conversation of the selected user if there is one.
     */
    method LoadMessages(fetched: seq<Message>)
      modifies this
      requires Valid()
      ensures Valid()
      ensures allMessages == fetched
      ensures forall id :: id in messageCount <==> exists i :: 0 <= i < |users| && users[i].id == id
      ensures forall id :: id in messageCount ==> messageCount[id] == |PeerMessages(fetched, id)|
      ensures messages == if selectedUser.Some? then PeerMessages(fetched, selectedUser.value.id) else old(messages)
      ensures users == old(users) && selectedUser == old(selectedUser) && message == old(message)
      ensures isSubmitting == old(isSubmitting) && inFlight == old(inFlight) && alerts == old(alerts)
    {
      allMessages := fetched;
      var counts := CountPerUser(users, fetched);
      if selectedUser.Some? {
        messages := PeerMessages(fetched, selectedUser.value.id);
      }
      messageCount := counts;
    }

    /** `toggleSelectedUser`, over the messages loaded last. */
    method ToggleSelectedUser(u: User)
      modifies this
      requires Valid()
      ensures Valid()
      ensures (selectedUser, messages) == Toggled(old(selectedUser), u, PeerMessages(allMessages, u.id))
      ensures users == old(users) && allMessages == old(allMessages) && messageCount == old(messageCount)
      ensures message == old(message) && isSubmitting == old(isSubmitting) && inFlight == old(inFlight)
      ensures alerts == old(alerts)
    {
      if selectedUser.Some? && selectedUser.value.id == u.id {
        selectedUser := None;
        messages := [];
      } else {
        selectedUser := Some(u);
        messages := PeerMessages(allMessages, u.id);
      }
    }

    /** `setMessage` from the textarea. */
    method Edit(value: string)
      modifies this
      requires Valid()
      ensures Valid()
      ensures message == value
      ensures users == old(users) && selectedUser == old(selectedUser) && messages == old(messages)
      ensures allMessages == old(allMessages) && messageCount == old(messageCount)
      ensures isSubmitting == old(isSubmitting) && inFlight == old(inFlight) && alerts == old(alerts)
    {
      message := value;
    }

    /**
     * The synchronous half of `handleSubmit`: a send in flight makes it
     * return; otherwise the draft is sent as it is (untrimmed, whatever the
     * validation helper thinks of it) to the selected user, if any.
     */
    method Submit()
      modifies this
      requires Valid()
      ensures Valid()
      ensures old(isSubmitting) ==> inFlight == old(inFlight)
      ensures !old(isSubmitting) ==>
        inFlight == Some(Pending(message, if selectedUser.Some? then Some(selectedUser.value.id) else None))
      ensures isSubmitting
      ensures users == old(users) && selectedUser == old(selectedUser) && message == old(message)
      ensures messages == old(messages) && allMessages == old(allMessages)
      ensures messageCount == old(messageCount) && alerts == old(alerts)
    {
      if isSubmitting {
        return;
      }
      isSubmitting := true;
      var recipient := if selectedUser.Some? then Some(selectedUser.value.id) else None;
      inFlight := Some(Pending(message, recipient));
    }

    /**
     * The asynchronous half of `handleSubmit`. An id clears the draft and
     * reloads the messages (`reload` is what that reload fetches); null alerts
     * "send failed" and keeps the draft; an exception alerts "send error".
     * Either way the hook stops submitting.
     */
    method Resolve(table: MessageTable, env: Env, settled: Settlement, reload: seq<Message>)
      modifies this, table
      requires Valid()
      ensures Valid()
      ensures old(inFlight).None? ==> unchanged(this) && unchanged(table)
      ensures old(inFlight).Some? ==> !isSubmitting && inFlight.None?
      ensures users == old(users) && selectedUser == old(selectedUser)
      ensures old(inFlight).Some? && settled.Threw? ==>
        table.rows == old(table.rows) && message == old(message) && alerts == old(alerts) + [SEND_ERROR]
        && messages == old(messages) && allMessages == old(allMessages) && messageCount == old(messageCount)
      ensures old(inFlight).Some? && settled.Returned? ==>
        var p := old(inFlight).value;
        var target := FinalRecipient(env, currentUserId, p.recipientId);
        var id := InsertResult(env, currentUserId, p.recipientId, settled.reply);
        && (if target.None? || settled.reply.InsertError? then table.rows == old(table.rows)
            else table.rows == old(table.rows) + [MessageRow(settled.reply.id, currentUserId, target.value, p.text, settled.reply.createdAt)])
        && (id.Some? ==> message == "" && alerts == old(alerts) && allMessages == reload
                         && messages == (if selectedUser.Some? then PeerMessages(reload, selectedUser.value.id) else old(messages))
                         && (forall k :: k in messageCount <==> exists i :: 0 <= i < |users| && users[i].id == k)
                         && (forall k :: k in messageCount ==> messageCount[k] == |PeerMessages(reload, k)|))
        && (id.None? ==> message == old(message) && alerts == old(alerts) + [SEND_FAILED]
                         && messages == old(messages) && allMessages == old(allMessages)
                         && messageCount == old(messageCount))
    {
      if inFlight.None? {
        return;
      }
      var p := inFlight.value;
      match settled {
        case Threw =>
          alerts := alerts + [SEND_ERROR];
        case Returned(reply) =>
          var messageId := table.InsertMessage(env, currentUserId, p.text, p.recipientId, reply);
          if messageId.Some? {
            message := "";
            LoadMessages(reload);
          } else {
            alerts := alerts + [SEND_FAILED];
          }
      }
      isSubmitting := false;
      inFlight := None;
    }
  }
}
