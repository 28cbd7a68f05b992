/**
 * The message data layer: who the owner is, where a message is routed, which
 * messages a viewer may load, and the grouping of messages by author. The
 * `message` table of the backend is a sequence of rows; every query takes the
 * table's rows and a flag saying whether the backend answered with an error.
 */
module MessageData {
  import opened Wrappers
  import opened Seqs

  /** The configured owner id (`VITE_OWNER_USER_ID`): absent when the variable is unset. */
  type Env = Option<string>

  /** `getOwnerId`: the configured id, or "" when it is unset or empty. */
  function GetOwnerId(env: Env): (id: string)
    ensures env.None? ==> id == ""
    ensures env.Some? ==> id == env.value
  {
    if !Truthy(env) then "" else env.value
  }

  /** `isOwner` (the callers' `isAdmin`): the id is the configured owner id. */
  predicate IsOwner(env: Env, userId: string)
  {
    userId == GetOwnerId(env)
  }

  /** With the owner unset, exactly the empty id counts as the owner; otherwise exactly the configured id. */
  lemma IsOwnerExactly(env: Env, userId: string)
    ensures env.None? ==> (IsOwner(env, userId) <==> userId == "")
    ensures env.Some? ==> (IsOwner(env, userId) <==> userId == env.value)
  {
  }

  /** A row of the `message` table. `createdAt` is the server timestamp in milliseconds. */
  datatype MessageRow = MessageRow(id: string, authorId: string, recipientId: string, message: string, createdAt: int)

  function CreatedAt(r: MessageRow): int
  {
    r.createdAt
  }

  /**
   * The recipient an `insertMessage` call resolves to, or None when the call is
   * rejected: the owner must name a non-empty recipient, and any other author's
   * message goes to the owner whatever recipient was passed.
   */
  function FinalRecipient(env: Env, authorId: string, recipientId: Option<string>): (r: Option<string>)
    ensures IsOwner(env, authorId) ==> r == NullIfEmpty(recipientId)
    ensures !IsOwner(env, authorId) ==> r == Some(GetOwnerId(env))
  {
    if IsOwner(env, authorId) then
      if !Truthy(recipientId) then None else recipientId
    else Some(GetOwnerId(env))
  }

  /** A regular user's message reaches the owner, and the recipient passed in makes no difference. */
  lemma RegularUserSendsToOwner(env: Env, authorId: string, r1: Option<string>, r2: Option<string>)
    requires !IsOwner(env, authorId)
    ensures FinalRecipient(env, authorId, r1) == FinalRecipient(env, authorId, r2) == Some(GetOwnerId(env))
  {
  }

  /** The owner is rejected exactly when the recipient is absent or empty; otherwise it is used as given. */
  lemma OwnerNeedsRecipient(env: Env, authorId: string, recipientId: Option<string>)
    requires IsOwner(env, authorId)
    ensures FinalRecipient(env, authorId, recipientId).None? <==> (recipientId.None? || recipientId.value == "")
    ensures recipientId.Some? && recipientId.value != "" ==> FinalRecipient(env, authorId, recipientId) == recipientId
  {
  }

  /** What the backend answers to an insert: an error, or the id and timestamp it gave the new row. */
  datatype InsertReply = InsertError | Inserted(id: string, createdAt: int)

  /**
   * What `insertMessage` returns: the new row's id, or null when the call is
   * rejected, the insert fails, or the backend's id is empty.
   */
  function InsertResult(env: Env, authorId: string, recipientId: Option<string>, reply: InsertReply): (id: Option<string>)
    ensures id.Some? <==> FinalRecipient(env, authorId, recipientId).Some? && reply.Inserted? && reply.id != ""
    ensures id.Some? ==> id.value == reply.id
  {
    if FinalRecipient(env, authorId, recipientId).None? then None
    else match reply
      case InsertError => None
      case Inserted(newId, _) => NullIfEmpty(Some(newId))
  }

  /** The backend's `message` table. */
  class MessageTable {
    var rows: seq<MessageRow>

    constructor (initial: seq<MessageRow>)
      ensures rows == initial
    {
      rows := initial;
    }

    /**
     * `insertMessage`: resolves the recipient, then inserts one row holding the
     * author and the body exactly as given (no trimming, no length check). A
     * rejected call or a backend error inserts nothing and yields null; a
     * success yields the new id (null if the backend's id is empty).
     */
    method InsertMessage(env: Env, authorId: string, message: string, recipientId: Option<string>, reply: InsertReply)
      returns (id: Option<string>)
      modifies this
      ensures var target := FinalRecipient(env, authorId, recipientId);
        if target.None? || reply.InsertError? then rows == old(rows)
        else rows == old(rows) + [MessageRow(reply.id, authorId, target.value, message, reply.createdAt)]
      ensures id == InsertResult(env, authorId, recipientId, reply)
    {
      var ownerId := GetOwnerId(env);
      var finalRecipientId: string;
      if IsOwner(env, authorId) {
        if !Truthy(recipientId) {
          return None;
        }
        finalRecipientId := recipientId.value;
      } else {
        finalRecipientId := ownerId;
      }
      match reply
      case InsertError =>
        id := None;
      case Inserted(newId, at) =>
        rows := rows + [MessageRow(newId, authorId, finalRecipientId, message, at)];
        id := NullIfEmpty(Some(newId));
    }
  }

  /** `fetchAllMessages`: every row, oldest first; an error yields no rows. */
  function FetchAllMessages(rows: seq<MessageRow>, failed: bool): (r: seq<MessageRow>)
    ensures failed ==> r == []
    ensures !failed ==> multiset(r) == multiset(rows)
    ensures SortedBy(r, CreatedAt)
  {
    if failed then [] else SortBy(rows, CreatedAt)
  }

  /** The row belongs to the conversation between `userId` and the owner. */
  predicate InConversation(env: Env, userId: string, r: MessageRow)
  {
    (r.authorId == userId && r.recipientId == GetOwnerId(env))
    || (r.authorId == GetOwnerId(env) && r.recipientId == userId)
  }

  function ConversationOf(env: Env, userId: string): MessageRow -> bool
  {
    (r: MessageRow) => InConversation(env, userId, r)
  }

  /** `fetchMessagesByUserId`: the conversation between `userId` and the owner, oldest first. */
  function FetchMessagesByUserId(env: Env, rows: seq<MessageRow>, userId: string, failed: bool): (r: seq<MessageRow>)
    ensures failed ==> r == []
    ensures SortedBy(r, CreatedAt)
  {
    if failed then [] else SortBy(Filter(rows, ConversationOf(env, userId)), CreatedAt)
  }

  /**
   * Without an error, the conversation holds exactly the rows between `userId`
   * and the owner, each as often as the table holds it.
   */
  lemma ConversationExact(env: Env, rows: seq<MessageRow>, userId: string, failed: bool)
    ensures forall x :: x in FetchMessagesByUserId(env, rows, userId, failed) <==> !failed && x in rows && InConversation(env, userId, x)
    ensures forall x :: multiset(FetchMessagesByUserId(env, rows, userId, failed))[x]
                     == if !failed && InConversation(env, userId, x) then multiset(rows)[x] else 0
  {
    if !failed {
      var kept := Filter(rows, ConversationOf(env, userId));
      var r := SortBy(kept, CreatedAt);
      FilterMultiset(rows, ConversationOf(env, userId));
      FilterMembers(rows, ConversationOf(env, userId));
      forall x ensures x in r <==> x in kept { SortByMembers(kept, CreatedAt, x); }
    }
  }

  /**
   * Every message a user loads has the owner on one side: nobody sees a message
   * between two other users, whatever rows the table holds.
   */
  lemma ConversationAlwaysWithOwner(env: Env, rows: seq<MessageRow>, userId: string, failed: bool, i: nat)
    requires i < |FetchMessagesByUserId(env, rows, userId, failed)|
    ensures var m := FetchMessagesByUserId(env, rows, userId, failed)[i];
      (m.authorId == userId || m.recipientId == userId)
      && (m.authorId == GetOwnerId(env) || m.recipientId == GetOwnerId(env))
  {
    var r := FetchMessagesByUserId(env, rows, userId, failed);
    ConversationExact(env, rows, userId, failed);
    assert r[i] in r;
  }

  /**
   * A regular user's message "hi" to the owner and the owner's reply to that user
   * are both in the user's conversation, the earlier one first; the owner's
   * unfiltered load holds them too.
   */
  lemma ExchangeIsVisible(env: Env, rows: seq<MessageRow>, user: string, hi: MessageRow, reply: MessageRow)
    requires !IsOwner(env, user)
    requires hi.authorId == user && hi.recipientId == GetOwnerId(env)
    requires reply.authorId == GetOwnerId(env) && reply.recipientId == user
    requires hi.createdAt < reply.createdAt
    ensures var conv := FetchMessagesByUserId(env, rows + [hi, reply], user, false);
      exists i, j :: 0 <= i < j < |conv| && conv[i] == hi && conv[j] == reply
    ensures hi in FetchAllMessages(rows + [hi, reply], false) && reply in FetchAllMessages(rows + [hi, reply], false)
  {
    var all := rows + [hi, reply];
    assert hi in all && reply in all;
    assert InConversation(env, user, hi) && InConversation(env, user, reply);
    var conv := FetchMessagesByUserId(env, all, user, false);
    ConversationExact(env, all, user, false);
    assert hi in conv && reply in conv;
    var i :| 0 <= i < |conv| && conv[i] == hi;
    var j :| 0 <= j < |conv| && conv[j] == reply;
    SortedIndexOrder(conv, CreatedAt, i, j);
    var everything := FetchAllMessages(all, false);
    assert hi in multiset(all) && reply in multiset(all);
    assert hi in multiset(everything) && reply in multiset(everything);
  }

  function AuthoredBy(authorId: string): MessageRow -> bool
  {
    (m: MessageRow) => m.authorId == authorId
  }

  /** The total size of the groups listed in `order`. */
  function GroupSizes(order: seq<string>, grouped: map<string, seq<MessageRow>>): nat
    requires forall k :: k in order ==> k in grouped
  {
    if order == [] then 0
    else GroupSizes(order[..|order| - 1], grouped) + |grouped[order[|order| - 1]]|
  }

  /** Changing a group that is not listed leaves the total unchanged. */
  lemma {:induction false} GroupSizesUnlisted(order: seq<string>, grouped: map<string, seq<MessageRow>>, k: string, v: seq<MessageRow>)
    requires forall x :: x in order ==> x in grouped
    requires k !in order
    ensures GroupSizes(order, grouped[k := v]) == GroupSizes(order, grouped)
  {
    if order != [] {
      GroupSizesUnlisted(order[..|order| - 1], grouped, k, v);
    }
  }

  /** Growing a group listed once by one message adds one to the total. */
  lemma {:induction false} GroupSizesGrow(order: seq<string>, grouped: map<string, seq<MessageRow>>, k: string, m: MessageRow)
    requires forall x :: x in order ==> x in grouped
    requires forall a, b :: 0 <= a < b < |order| ==> order[a] != order[b]
    requires k in order
    ensures GroupSizes(order, grouped[k := grouped[k] + [m]]) == GroupSizes(order, grouped) + 1
  {
    var init := order[..|order| - 1];
    var last := order[|order| - 1];
    if last == k {
      forall a | 0 <= a < |init| ensures init[a] != k {
        assert init[a] == order[a];
      }
      GroupSizesUnlisted(init, grouped, k, grouped[k] + [m]);
    } else {
      assert k in init by {
        var a :| 0 <= a < |order| && order[a] == k;
        assert a < |order| - 1;
        assert init[a] == k;
      }
      GroupSizesGrow(init, grouped, k, m);
    }
  }

  /** Listing a new group of one message last adds one to the total. */
  lemma GroupSizesNew(order: seq<string>, grouped: map<string, seq<MessageRow>>, k: string, m: MessageRow)
    requires forall x :: x in order ==> x in grouped
    requires k !in order
    ensures GroupSizes(order + [k], grouped[k := [m]]) == GroupSizes(order, grouped) + 1
  {
    assert (order + [k])[..|order|] == order;
    GroupSizesUnlisted(order, grouped, k, [m]);
  }

  /** `order` lists the keys of `grouped`, each once. */
  ghost predicate ListsKeys(order: seq<string>, grouped: map<string, seq<MessageRow>>)
  {
    && (forall a :: a in order <==> a in grouped)
    && (forall a, b :: 0 <= a < b < |order| ==> order[a] != order[b])
  }

  /** The keys of `grouped` are exactly the authors in `prefix`. */
  ghost predicate KeysAreAuthors(prefix: seq<MessageRow>, grouped: map<string, seq<MessageRow>>)
  {
    forall a :: a in grouped <==> exists j :: 0 <= j < |prefix| && prefix[j].authorId == a
  }

  /** Each group holds exactly its author's messages of `prefix`, in order. */
  ghost predicate GroupsExact(prefix: seq<MessageRow>, grouped: map<string, seq<MessageRow>>)
  {
    forall a :: a in grouped ==> grouped[a] == Filter(prefix, AuthoredBy(a))
  }

  /** `grouped` files the messages of `prefix` by author, with `order` listing each key once. */
  ghost predicate GroupedBy(prefix: seq<MessageRow>, order: seq<string>, grouped: map<string, seq<MessageRow>>)
  {
    && ListsKeys(order, grouped)
    && KeysAreAuthors(prefix, grouped)
    && GroupsExact(prefix, grouped)
    && GroupSizes(order, grouped) == |prefix|
  }

  /** The grouping after filing `msg` into the groups of `grouped`. */
  function Filed(grouped: map<string, seq<MessageRow>>, msg: MessageRow): map<string, seq<MessageRow>>
  {
    grouped[msg.authorId := (if msg.authorId in grouped then grouped[msg.authorId] else []) + [msg]]
  }

  /** The key order after filing `msg`: a new author is listed last. */
  function FiledOrder(order: seq<string>, grouped: map<string, seq<MessageRow>>, msg: MessageRow): seq<string>
  {
    if msg.authorId in grouped then order else order + [msg.authorId]
  }

  lemma StepListsKeys(order: seq<string>, grouped: map<string, seq<MessageRow>>, msg: MessageRow)
    requires ListsKeys(order, grouped)
    ensures ListsKeys(FiledOrder(order, grouped, msg), Filed(grouped, msg))
  {
  }

  lemma StepKeysAreAuthors(prefix: seq<MessageRow>, grouped: map<string, seq<MessageRow>>, msg: MessageRow)
    requires KeysAreAuthors(prefix, grouped)
    ensures KeysAreAuthors(prefix + [msg], Filed(grouped, msg))
  {
    var next := prefix + [msg];
    var g := Filed(grouped, msg);
    forall a | a in g ensures exists j :: 0 <= j < |next| && next[j].authorId == a {
      if a == msg.authorId {
        assert next[|prefix|].authorId == a;
      } else {
        var j :| 0 <= j < |prefix| && prefix[j].authorId == a;
        assert next[j] == prefix[j];
      }
    }
    forall a | exists j :: 0 <= j < |next| && next[j].authorId == a ensures a in g {
      var j :| 0 <= j < |next| && next[j].authorId == a;
      if j < |prefix| { assert prefix[j] == next[j]; }
    }
  }

  lemma StepGroupsExact(prefix: seq<MessageRow>, grouped: map<string, seq<MessageRow>>, msg: MessageRow)
    requires KeysAreAuthors(prefix, grouped) && GroupsExact(prefix, grouped)
    ensures GroupsExact(prefix + [msg], Filed(grouped, msg))
  {
    var g := Filed(grouped, msg);
    var author := msg.authorId;
    if author !in grouped {
      assert forall j :: 0 <= j < |prefix| ==> prefix[j].authorId != author;
      FilterNoneMatch(prefix, AuthoredBy(author));
    }
    forall a | a in g ensures g[a] == Filter(prefix + [msg], AuthoredBy(a)) {
      FilterAppend(prefix, [msg], AuthoredBy(a));
      assert [msg][1..] == [];
      if a == author {
        assert Filter([msg], AuthoredBy(a)) == [msg];
      } else {
        assert Filter([msg], AuthoredBy(a)) == [];
        assert a in grouped;
      }
    }
  }

  lemma StepGroupSizes(order: seq<string>, grouped: map<string, seq<MessageRow>>, msg: MessageRow)
    requires ListsKeys(order, grouped)
    ensures GroupSizes(FiledOrder(order, grouped, msg), Filed(grouped, msg)) == GroupSizes(order, grouped) + 1
  {
    var author := msg.authorId;
    if author in grouped {
      GroupSizesGrow(order, grouped, author, msg);
    } else {
      assert [] + [msg] == [msg];
      GroupSizesNew(order, grouped, author, msg);
    }
  }

  /** Filing one more message keeps the grouping exact. */
  lemma GroupStep(prefix: seq<MessageRow>, msg: MessageRow, order: seq<string>, grouped: map<string, seq<MessageRow>>)
    requires GroupedBy(prefix, order, grouped)
    ensures GroupedBy(prefix + [msg], FiledOrder(order, grouped, msg), Filed(grouped, msg))
  {
    StepListsKeys(order, grouped, msg);
    StepKeysAreAuthors(prefix, grouped, msg);
    StepGroupsExact(prefix, grouped, msg);
    StepGroupSizes(order, grouped, msg);
  }

  lemma GroupedByMeans(messages: seq<MessageRow>, order: seq<string>, grouped: map<string, seq<MessageRow>>)
    requires GroupedBy(messages, order, grouped)
    ensures forall a :: a in grouped <==> exists j :: 0 <= j < |messages| && messages[j].authorId == a
    ensures forall a :: a in grouped ==> grouped[a] == Filter(messages, AuthoredBy(a))
    ensures forall a :: a in order <==> a in grouped
    ensures forall a, b :: 0 <= a < b < |order| ==> order[a] != order[b]
    ensures GroupSizes(order, grouped) == |messages|
  {
  }

  /** The position of the first message by `author`, or `|messages|` when there is none. */
  function FirstBy(messages: seq<MessageRow>, author: string): (i: nat)
    ensures i <= |messages|
    ensures i < |messages| ==> messages[i].authorId == author
    ensures forall j :: 0 <= j < i ==> messages[j].authorId != author
  {
    if messages == [] || messages[0].authorId == author then 0
    else 1 + FirstBy(messages[1..], author)
  }

  /** The keys of `order` are listed in the order in which their authors first wrote. */
  ghost predicate FirstAppearance(messages: seq<MessageRow>, order: seq<string>)
  {
    forall k, l :: 0 <= k < l < |order| ==> FirstBy(messages, order[k]) < FirstBy(messages, order[l])
  }

  /** One more message does not move the first message of an author who already wrote. */
  lemma FirstByExtend(prefix: seq<MessageRow>, msg: MessageRow, author: string)
    requires FirstBy(prefix, author) < |prefix|
    ensures FirstBy(prefix + [msg], author) == FirstBy(prefix, author)
  {
    var f, g := FirstBy(prefix, author), FirstBy(prefix + [msg], author);
    assert (prefix + [msg])[f] == prefix[f];
  }

  /** Filing one more message keeps the keys in order of first appearance. */
  lemma StepFirstAppearance(prefix: seq<MessageRow>, msg: MessageRow, order: seq<string>, grouped: map<string, seq<MessageRow>>)
    requires KeysAreAuthors(prefix, grouped) && (forall a :: a in order <==> a in grouped)
    requires FirstAppearance(prefix, order)
    ensures FirstAppearance(prefix + [msg], FiledOrder(order, grouped, msg))
  {
    var next, order' := prefix + [msg], FiledOrder(order, grouped, msg);
    forall k | 0 <= k < |order| ensures FirstBy(next, order[k]) == FirstBy(prefix, order[k]) < |prefix| {
      assert order[k] in grouped;
      var j :| 0 <= j < |prefix| && prefix[j].authorId == order[k];
      FirstByExtend(prefix, msg, order[k]);
    }
    if msg.authorId !in grouped {
      var author := msg.authorId;
      assert FirstBy(next, author) == |prefix| by {
        var g := FirstBy(next, author);
        assert next[|prefix|].authorId == author;
      }
      forall k, l | 0 <= k < l < |order'| ensures FirstBy(next, order'[k]) < FirstBy(next, order'[l]) {
        assert order'[k] == order[k];
        if l < |order| {
          assert order'[l] == order[l];
        }
      }
    }
  }

  /** The grouping reached after filing every message of `messages` in turn. */
  function FiledAll(messages: seq<MessageRow>): (seq<string>, map<string, seq<MessageRow>>)
  {
    if messages == [] then ([], map[])
    else
      var (order, grouped) := FiledAll(messages[..|messages| - 1]);
      var m := messages[|messages| - 1];
      (FiledOrder(order, grouped, m), Filed(grouped, m))
  }

  /** Filing every message in turn groups them exactly, listing the authors in order of first appearance. */
  lemma {:induction false} FiledAllGroups(messages: seq<MessageRow>)
    ensures GroupedBy(messages, FiledAll(messages).0, FiledAll(messages).1)
    ensures FirstAppearance(messages, FiledAll(messages).0)
  {
    if messages != [] {
      var init, last := messages[..|messages| - 1], messages[|messages| - 1];
      assert init + [last] == messages;
      var (order, grouped) := FiledAll(init);
      assert FiledAll(messages) == (FiledOrder(order, grouped, last), Filed(grouped, last));
      FiledAllGroups(init);
      GroupStep(init, last, order, grouped);
      StepFirstAppearance(init, last, order, grouped);
    }
  }

  /**
   * The `forEach` of `fetchMessagesGroupedByUser`: files each message under its
   * author, creating a group the first time an author is seen. The groups are
   * keyed by exactly the authors that occur; each holds exactly its author's
   * messages in input order, so every message is in exactly one group; the keys
   * come in order of first appearance, once each, and the group sizes add up to
   * the number of messages.
   */
  method GroupByAuthor(messages: seq<MessageRow>) returns (order: seq<string>, grouped: map<string, seq<MessageRow>>)
    ensures forall a :: a in grouped <==> exists j :: 0 <= j < |messages| && messages[j].authorId == a
    ensures forall a :: a in grouped ==> grouped[a] == Filter(messages, AuthoredBy(a))
    ensures forall a :: a in order <==> a in grouped
    ensures forall a, b :: 0 <= a < b < |order| ==> order[a] != order[b]
    ensures forall k, l :: 0 <= k < l < |order| ==> FirstBy(messages, order[k]) < FirstBy(messages, order[l])
    ensures GroupSizes(order, grouped) == |messages|
  {
    order, grouped := [], map[];
    var i := 0;
    while i < |messages|
      invariant 0 <= i <= |messages|
      invariant (order, grouped) == FiledAll(messages[..i])
    {
      var msg := messages[i];
      var author := msg.authorId;
      assert messages[..i + 1][..i] == messages[..i];
      // The group of a new author starts empty; then the message is pushed onto it.
      var group: seq<MessageRow> := [];
      if author in grouped {
        group := grouped[author];
      } else {
        order := order + [author];
      }
      grouped := grouped[author := group + [msg]];
      i := i + 1;
    }
    assert messages[..i] == messages;
    FiledAllGroups(messages);
    GroupedByMeans(messages, order, grouped);
  }

  /** `fetchMessagesGroupedByUser`: all messages (none on a backend error), grouped by author. */
  method FetchMessagesGroupedByUser(rows: seq<MessageRow>, failed: bool)
    returns (order: seq<string>, grouped: map<string, seq<MessageRow>>)
    ensures forall a :: a in grouped <==> !failed && exists m :: m in rows && m.authorId == a
    ensures forall a :: a in grouped ==> grouped[a] == Filter(FetchAllMessages(rows, failed), AuthoredBy(a))
    ensures forall a :: a in order <==> a in grouped
    ensures forall a, b :: 0 <= a < b < |order| ==> order[a] != order[b]
    ensures forall k, l :: 0 <= k < l < |order| ==>
      FirstBy(FetchAllMessages(rows, failed), order[k]) < FirstBy(FetchAllMessages(rows, failed), order[l])
    ensures GroupSizes(order, grouped) == |rows| || failed
  {
    var messages := FetchAllMessages(rows, failed);
    order, grouped := GroupByAuthor(messages);
    forall a | a in grouped ensures !failed && exists m :: m in rows && m.authorId == a {
      var j :| 0 <= j < |messages| && messages[j].authorId == a;
      assert messages[j] in multiset(messages);
    }
    forall m | m in rows && !failed ensures m.authorId in grouped {
      assert m in multiset(rows);
      assert m in messages;
    }
    if !failed {
      assert |messages| == |multiset(messages)| == |multiset(rows)| == |rows|;
    }
  }
}
