/** The chat of one item: opening the thread (which marks it read), sending,
    editing and deleting messages. */
module Thread {
  import opened Domain
  import opened Seqs
  import MessageModel
  import opened Requests
  import opened UserModel
  import opened Transactions

  // ---------------------------------------------------------------------------
  // The thread a participant sees

  function CreatedAt(m: Message): int {
    m.createdAt
  }

  function InvolvesOn(item: ItemId, u: UserId): Message -> bool {
    (m: Message) => Involves(m, item, u)
  }

  /** The item's messages that `u` sent or received, oldest first. */
  function ThreadOf(s: Store, item: ItemId, u: UserId): (r: seq<Message>)
    ensures SortedAsc(r, CreatedAt)
    ensures forall i :: 0 <= i < |r| ==> r[i] in s.messages && Involves(r[i], item, u)
    ensures forall i :: 0 <= i < |s.messages| && Involves(s.messages[i], item, u) ==> s.messages[i] in r
    ensures |r| == Count(s.messages, InvolvesOn(item, u))
  {
    var picked := Filter(s.messages, InvolvesOn(item, u));
    var r := SortAsc(picked, CreatedAt);
    SameElements(r, picked);
    PickedInvolve(s.messages, picked, r, item, u);
    r
  }

  lemma PickedInvolve(msgs: seq<Message>, picked: seq<Message>, r: seq<Message>, item: ItemId, u: UserId)
    requires forall i :: 0 <= i < |picked| ==> InvolvesOn(item, u)(picked[i]) && picked[i] in msgs
    requires forall x :: x in r <==> x in picked
    ensures forall i :: 0 <= i < |r| ==> r[i] in msgs && Involves(r[i], item, u)
  {
    forall i | 0 <= i < |r| ensures r[i] in msgs && Involves(r[i], item, u) {
      assert r[i] in picked;
      var j :| 0 <= j < |picked| && picked[j] == r[i];
      assert InvolvesOn(item, u)(picked[j]);
    }
  }

  // ---------------------------------------------------------------------------
  // Opening the chat

  /** Marks every message of `item` addressed to `u` as read. */
  function MarkReadOnItem(msgs: seq<Message>, item: ItemId, u: UserId): (r: seq<Message>)
    ensures |r| == |msgs|
    ensures forall i :: 0 <= i < |r| ==> r[i].(isRead := msgs[i].isRead) == msgs[i]
    ensures forall i :: 0 <= i < |r| ==>
      (r[i].isRead <==> msgs[i].isRead || (msgs[i].itemId == item && msgs[i].receiver == u))
  {
    if msgs == [] then []
    else
      var head := if msgs[0].itemId == item && msgs[0].receiver == u then MessageModel.MarkAsRead(msgs[0]) else msgs[0];
      var rest := MarkReadOnItem(msgs[1..], item, u);
      var r := [head] + rest;
      assert forall i :: 1 <= i < |r| ==> r[i] == rest[i - 1] && msgs[i] == msgs[1..][i - 1];
      r
  }

  /** What opening the chat writes: the viewer's unread messages on the item
      become read; nothing else in the store changes. */
  function ChatEffect(s: Store, item: ItemId, u: UserId): (t: Store)
    ensures t.(messages := s.messages) == s
    ensures |t.messages| == |s.messages|
    ensures forall i :: 0 <= i < |t.messages| ==> t.messages[i].(isRead := s.messages[i].isRead) == s.messages[i]
    ensures UnreadMessageCountForItem(t, u, item) == 0
  {
    s.(messages := MarkReadOnItem(s.messages, item, u))
  }

  /** Opening the chat twice writes nothing the second time. */
  lemma ChatEffectIdempotent(s: Store, item: ItemId, u: UserId)
    ensures ChatEffect(ChatEffect(s, item, u), item, u) == ChatEffect(s, item, u)
  {
    var t := ChatEffect(s, item, u);
    var t2 := ChatEffect(t, item, u);
    assert t2.messages == t.messages by {
      forall i | 0 <= i < |t.messages| ensures t2.messages[i] == t.messages[i] {
        assert t2.messages[i].(isRead := t.messages[i].isRead) == t.messages[i];
      }
    }
  }

  lemma {:induction false} MarkReadCounts(msgs: seq<Message>, item: ItemId, u: UserId, v: UserId)
    ensures Count(MarkReadOnItem(msgs, item, u), UnreadTo(v))
         == Count(msgs, UnreadTo(v)) - (if v == u then Count(msgs, UnreadToOnItem(u, item)) else 0)
  {
    if msgs != [] {
      var r := MarkReadOnItem(msgs, item, u);
      assert r[1..] == MarkReadOnItem(msgs[1..], item, u);
      MarkReadCounts(msgs[1..], item, u, v);
    }
  }

  /** Opening the chat clears exactly the viewer's unread count on this item
      from their overall count, and leaves everyone else's count alone. */
  lemma ChatClearsItemUnread(s: Store, item: ItemId, u: UserId, v: UserId)
    ensures UnreadMessageCount(ChatEffect(s, item, u), v)
         == UnreadMessageCount(s, v) - (if v == u then UnreadMessageCountForItem(s, u, item) else 0)
  {
    MarkReadCounts(s.messages, item, u, v);
  }

  lemma ChatEffectPreservesValid(s: Store, item: ItemId, u: UserId)
    requires Valid(s)
    ensures Valid(ChatEffect(s, item, u)) && ClaimsGrow(s, ChatEffect(s, item, u))
  {
    var t := ChatEffect(s, item, u);
    forall i | 0 <= i < |t.messages|
      ensures t.messages[i].id == s.messages[i].id && t.messages[i].itemId == s.messages[i].itemId
      ensures t.messages[i].sender == s.messages[i].sender && t.messages[i].receiver == s.messages[i].receiver
    {
      assert t.messages[i].(isRead := s.messages[i].isRead) == s.messages[i];
    }
  }

  /** What the chat page is rendered from. */
  datatype ChatPage = ChatPage(
    thread: seq<Message>,
    others: seq<Transaction>,
    isCompleted: bool,
    hasRated: bool,
    canRate: bool)

  /** `chat`: an unknown item is 404 and a non-participant 403; otherwise the
      thread is read as it stood, the viewer's messages on the item are then
      marked read, and the sidebar lists the viewer's other open deals. Only
      the buyer is told the deal is completed and asked to rate the seller. */
  method Chat(s: Store, u: UserId, item: ItemId) returns (reply: Reply, page: Option<ChatPage>, t: Store)
    ensures item !in s.items ==> reply == NotFound && page.None? && t == s
    ensures item in s.items && !IsParticipant(s, item, u) ==> reply == Forbidden && page.None? && t == s
    ensures reply == Done <==> item in s.items && IsParticipant(s, item, u)
    ensures reply == Done ==>
      && t == ChatEffect(s, item, u)
      && page.Some?
      && page.value.thread == ThreadOf(s, item, u)
      && (forall x :: x in page.value.others <==> IsEntry(t, u, Some(item), x))
      && Distinct(page.value.others)
      && SortedDesc(page.value.others, SidebarKey)
      && (page.value.isCompleted <==> IsBuyer(s, item, u) && IsCompleted(s, item))
      && (page.value.hasRated <==> page.value.isCompleted && HasRated(s, u, s.items[item].owner, item))
      && (page.value.canRate <==> page.value.isCompleted && !page.value.hasRated)
  {
    if item !in s.items {
      return NotFound, None, s;
    }
    if !IsBuyer(s, item, u) && s.items[item].owner != u {
      return Forbidden, None, s;
    }
    var thread := ThreadOf(s, item, u);
    t := ChatEffect(s, item, u);
    var others := GetUserTransactions(t, u, Some(item));
    var isCompleted := IsBuyer(s, item, u) && s.claims[item].isCompleted;
    var hasRated := false;
    var canRate := false;
    if isCompleted {
      var partner := s.items[item].owner;
      hasRated := HasRated(t, u, partner, item);
      canRate := !hasRated;
    }
    reply := Done;
    page := Some(ChatPage(thread, others, isCompleted, hasRated, canRate));
  }

  // ---------------------------------------------------------------------------
  // Sending

  /** `sendMessage`: the request is validated first (the chat form is sent
      back with the errors); then the item must
      exist (404) and the sender take part (403). A buyer whose deal is
      completed is sent back with an error; the owner may still write. The
      buyer writes to the owner; the owner writes to the claim's buyer, and
      with no claim the lookup dereferences null. */
  function SendMessage(s: Store, u: UserId, item: ItemId, body: Option<string>, image: Option<Upload>, now: Time): (o: Outcome)
    ensures !MessagePasses(Post, body, image) ==> o == Outcome(Invalid, s)
    ensures MessagePasses(Post, body, image) && item !in s.items ==> o == Outcome(NotFound, s)
    ensures MessagePasses(Post, body, image) && item in s.items && !IsParticipant(s, item, u) ==> o == Outcome(Forbidden, s)
    ensures MessagePasses(Post, body, image) && IsBuyer(s, item, u) && IsCompleted(s, item) && item in s.items
            ==> o == Outcome(Rejected, s)
    ensures MessagePasses(Post, body, image) && IsOwner(s, item, u) && item !in s.claims ==> o == Outcome(ServerError, s)
    ensures o.reply != Done ==> o.store == s
    ensures o.reply == Done <==>
      MessagePasses(Post, body, image) && item in s.items && item in s.claims && IsParticipant(s, item, u)
      && !(IsBuyer(s, item, u) && IsCompleted(s, item))
    ensures o.reply == Done ==>
      && o.store.(messages := s.messages, nextMessageId := s.nextMessageId) == s
      && o.store.nextMessageId == s.nextMessageId + 1
      && |o.store.messages| == |s.messages| + 1
      && o.store.messages[..|s.messages|] == s.messages
      && var m := o.store.messages[|s.messages|];
         && m.id == s.nextMessageId && m.itemId == item && m.sender == u
         && m.receiver == Counterparty(s, item, u)
         && m.body == body.value && m.createdAt == now
         && !m.isRead && !m.isEdited && m.editedAt.None?
  {
    if !MessagePasses(Post, body, image) then Outcome(Invalid, s)
    else if item !in s.items then Outcome(NotFound, s)
    else if !IsBuyer(s, item, u) && s.items[item].owner != u then Outcome(Forbidden, s)
    else if IsBuyer(s, item, u) && s.claims[item].isCompleted then Outcome(Rejected, s)
    else if !IsBuyer(s, item, u) && item !in s.claims then Outcome(ServerError, s)
    else
      var receiver := if IsBuyer(s, item, u) then s.items[item].owner else s.claims[item].buyer;
      var m := MessageModel.Create(MessageModel.NewMessage(
        s.nextMessageId, item, u, receiver, body.value,
        if image.Some? then Some(StoredImagePath) else None,
        Some(false), None, None, now));
      assert (s.messages + [m])[..|s.messages|] == s.messages;
      Outcome(Done, s.(messages := s.messages + [m], nextMessageId := s.nextMessageId + 1))
  }

  /** The storage path the upload is saved under; the name is generated by
      the storage layer and does not matter here. */
  const StoredImagePath: string := "chat_images/upload"

  /** As written, a message sent with an image is stored without its path:
      the file is saved, but the path never reaches the row, so the page
      has no picture to show. */
  lemma ImageDroppedOnSend(s: Store, u: UserId, item: ItemId, body: Option<string>, image: Upload, now: Time)
    requires SendMessage(s, u, item, body, Some(image), now).reply == Done
    ensures SendMessage(s, u, item, body, Some(image), now).store.messages[|s.messages|].imagePath == None
  {
  }

  /** `sendMessage` with the image path kept on the new message; every
      reply and every other part of the store is as in `SendMessage`. */
  function SendMessageKeepingImage(s: Store, u: UserId, item: ItemId, body: Option<string>, image: Option<Upload>, now: Time): (o: Outcome)
    ensures o.reply == SendMessage(s, u, item, body, image, now).reply
    ensures o.reply != Done ==> o.store == s
    ensures o.reply == Done ==>
      && |o.store.messages| == |s.messages| + 1
      && o.store.messages[..|s.messages|] == s.messages
      && (o.store.messages[|s.messages|].imagePath.Some? <==> image.Some?)
      && o.store.messages[|s.messages|].(imagePath := None)
         == SendMessage(s, u, item, body, image, now).store.messages[|s.messages|]
      && o.store.(messages := s.messages) == SendMessage(s, u, item, body, image, now).store.(messages := s.messages)
  {
    var o := SendMessage(s, u, item, body, image, now);
    if o.reply != Done then o
    else
      var n := |s.messages|;
      var m := MessageModel.CreateKeepingImage(MessageModel.NewMessage(
        s.nextMessageId, item, u, Counterparty(s, item, u), body.value,
        if image.Some? then Some(StoredImagePath) else None,
        Some(false), None, None, now));
      assert (s.messages + [m])[..n] == s.messages;
      o.(store := o.store.(messages := s.messages + [m]))
  }

  /** Sending keeps the store valid: the new message gets a fresh id and
      runs between the item's two participants. */
  lemma SendPreservesValid(s: Store, u: UserId, item: ItemId, body: Option<string>, image: Option<Upload>, now: Time)
    requires Valid(s)
    ensures Valid(SendMessage(s, u, item, body, image, now).store)
    ensures ClaimsGrow(s, SendMessage(s, u, item, body, image, now).store)
  {
    var o := SendMessage(s, u, item, body, image, now);
    if o.reply == Done {
      ParticipantsAreOwnerAndBuyer(s, item, u);
      var t := o.store;
      assert forall i :: 0 <= i < |s.messages| ==> t.messages[i] == s.messages[i];
    }
  }

  /** A sent message reaches the other side's unread count, and only theirs. */
  lemma SendRaisesReceiverUnread(s: Store, u: UserId, item: ItemId, body: Option<string>, image: Option<Upload>, now: Time, v: UserId)
    requires SendMessage(s, u, item, body, image, now).reply == Done
    ensures UnreadMessageCount(SendMessage(s, u, item, body, image, now).store, v)
         == UnreadMessageCount(s, v) + (if v == Counterparty(s, item, u) then 1 else 0)
  {
    var o := SendMessage(s, u, item, body, image, now);
    var m := o.store.messages[|s.messages|];
    assert o.store.messages == s.messages + [m];
    UnreadAfterAppend(s, m, v);
    assert s.(messages := s.messages + [m]).messages == o.store.messages;
  }

  // ---------------------------------------------------------------------------
  // Editing

  /** `updateMessage`: an unknown message is 404 (it is looked up before the
      request is validated), an invalid body a failed form request (sent
      back with the errors), someone else's message or
      one older than the window 403. An edit replaces the body and flags the
      message as edited; `edited_at` stays empty. */
  function UpdateMessage(s: Store, u: UserId, id: MessageId, body: Option<string>, now: Time): (o: Outcome)
    ensures FindMessage(s.messages, id).None? ==> o == Outcome(NotFound, s)
    ensures FindMessage(s.messages, id).Some? && !MessagePasses(Put, body, None) ==> o == Outcome(Invalid, s)
    ensures o.reply != Done ==> o.store == s
    ensures o.reply in {Done, NotFound, Invalid, Forbidden}
    ensures o.reply == Done <==>
      exists k :: 0 <= k < |s.messages| && s.messages[k].id == id
        && MessagePasses(Put, body, None) && s.messages[k].sender == u
        && WithinEditWindow(s.messages[k].createdAt, now)
        && FindMessage(s.messages, id) == Some(k)
    ensures o.reply == Done ==>
      var k := FindMessage(s.messages, id).value;
      && o.store.(messages := s.messages) == s
      && |o.store.messages| == |s.messages|
      && (forall j :: 0 <= j < |s.messages| && j != k ==> o.store.messages[j] == s.messages[j])
      && o.store.messages[k].body == body.value
      && o.store.messages[k].isEdited
      && o.store.messages[k].(body := s.messages[k].body, isEdited := s.messages[k].isEdited) == s.messages[k]
  {
    match FindMessage(s.messages, id)
    case None => Outcome(NotFound, s)
    case Some(k) =>
      var m := s.messages[k];
      if !MessagePasses(Put, body, None) then Outcome(Invalid, s)
      else if m.sender != u then Outcome(Forbidden, s)
      else if !WithinEditWindow(m.createdAt, now) then Outcome(Forbidden, s)
      else Outcome(Done, s.(messages := s.messages[k := m.(body := body.value, isEdited := true)]))
  }

  lemma UpdatePreservesValid(s: Store, u: UserId, id: MessageId, body: Option<string>, now: Time)
    requires Valid(s)
    ensures Valid(UpdateMessage(s, u, id, body, now).store)
    ensures ClaimsGrow(s, UpdateMessage(s, u, id, body, now).store)
  {
  }

  // ---------------------------------------------------------------------------
  // Deleting

  function IdIsNot(id: MessageId): Message -> bool {
    (m: Message) => m.id != id
  }

  /** `deleteMessage`: an unknown message is 404, someone else's 403; one
      older than the window sends the user back with an error. Otherwise the
      row is removed for good. */
  function DeleteMessage(s: Store, u: UserId, id: MessageId, now: Time): (o: Outcome)
    ensures FindMessage(s.messages, id).None? ==> o == Outcome(NotFound, s)
    ensures o.reply != Done ==> o.store == s
    ensures o.reply in {Done, NotFound, Forbidden, Rejected}
    ensures o.reply == Forbidden <==>
      exists k :: 0 <= k < |s.messages| && FindMessage(s.messages, id) == Some(k) && s.messages[k].sender != u
    ensures o.reply == Done <==>
      exists k :: 0 <= k < |s.messages| && FindMessage(s.messages, id) == Some(k)
        && s.messages[k].sender == u && WithinEditWindow(s.messages[k].createdAt, now)
    ensures o.reply == Done ==>
      && o.store.(messages := s.messages) == s
      && (forall j :: 0 <= j < |o.store.messages| ==> o.store.messages[j].id != id && o.store.messages[j] in s.messages)
      && (forall j :: 0 <= j < |s.messages| && s.messages[j].id != id ==> s.messages[j] in o.store.messages)
  {
    match FindMessage(s.messages, id)
    case None => Outcome(NotFound, s)
    case Some(k) =>
      var m := s.messages[k];
      if m.sender != u then Outcome(Forbidden, s)
      else if !WithinEditWindow(m.createdAt, now) then Outcome(Rejected, s)
      else Outcome(Done, s.(messages := Filter(s.messages, IdIsNot(id))))
  }

  /** With unique ids a delete removes exactly one message. */
  lemma DeleteRemovesOne(s: Store, u: UserId, id: MessageId, now: Time)
    requires MessageIdsUnique(s.messages)
    requires DeleteMessage(s, u, id, now).reply == Done
    ensures |DeleteMessage(s, u, id, now).store.messages| == |s.messages| - 1
  {
    var k := FindMessage(s.messages, id).value;
    var p := (m: Message) => m.id == id;
    CountSplit(s.messages, (m: Message) => true, p, IdIsNot(id), p);
    OnlyOneWithId(s.messages, id, k);
    CountAll(s.messages);
  }

  lemma {:induction false} OnlyOneWithId(msgs: seq<Message>, id: MessageId, k: nat)
    requires MessageIdsUnique(msgs)
    requires k < |msgs| && msgs[k].id == id
    ensures Count(msgs, (m: Message) => m.id == id) == 1
  {
    var p := (m: Message) => m.id == id;
    if k == 0 {
      assert forall i :: 0 <= i < |msgs[1..]| ==> !p(msgs[1..][i]) by {
        forall i | 0 <= i < |msgs[1..]| ensures !p(msgs[1..][i]) {
          assert msgs[1..][i] == msgs[i + 1];
        }
      }
    } else {
      assert MessageIdsUnique(msgs[1..]) by {
        forall i, j | 0 <= i < j < |msgs[1..]| ensures msgs[1..][i].id != msgs[1..][j].id {
          assert msgs[1..][i] == msgs[i + 1] && msgs[1..][j] == msgs[j + 1];
        }
      }
      assert msgs[1..][k - 1] == msgs[k];
      OnlyOneWithId(msgs[1..], id, k - 1);
      assert msgs[0].id != id;
    }
  }

  lemma {:induction false} CountAll<T>(s: seq<T>)
    ensures Count(s, (x: T) => true) == |s|
  {
    if s != [] {
      CountAll(s[1..]);
    }
  }

  /** A deleted message cannot be deleted again, and no thread shows it. */
  lemma DeleteIsFinal(s: Store, u: UserId, id: MessageId, now: Time, later: Time, item: ItemId, v: UserId)
    requires DeleteMessage(s, u, id, now).reply == Done
    ensures var t := DeleteMessage(s, u, id, now).store;
      && DeleteMessage(t, u, id, later) == Outcome(NotFound, t)
      && UpdateMessage(t, u, id, Some("x"), later) == Outcome(NotFound, t)
      && forall i :: 0 <= i < |ThreadOf(t, item, v)| ==> ThreadOf(t, item, v)[i].id != id
  {
  }

  lemma DeletePreservesValid(s: Store, u: UserId, id: MessageId, now: Time)
    requires Valid(s)
    ensures Valid(DeleteMessage(s, u, id, now).store)
    ensures ClaimsGrow(s, DeleteMessage(s, u, id, now).store)
  {
    var o := DeleteMessage(s, u, id, now);
    if o.reply == Done {
      var msgId := (m: Message) => m.id;
      assert KeysUnique(s.messages, msgId);
      FilterKeepsKeysUnique(s.messages, IdIsNot(id), msgId);
      assert KeysUnique(o.store.messages, msgId);
    }
  }
}
