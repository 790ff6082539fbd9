/** The persistent state of the buyer–seller transaction subsystem: items,
    purchase claims (`sold_items`), chat messages and ratings, held as one
    immutable record, plus the reply classes the controllers answer with. */
module Domain {

  type UserId = int
  type ItemId = int
  type MessageId = int

  /** Seconds on a fixed clock; the current time is always passed in. */
  type Time = nat

  datatype Option<T> = None | Some(value: T)

  /** A listed item, as far as this subsystem reads it. */
  datatype Item = Item(owner: UserId, updatedAt: Time)

  /** A purchase claim (`sold_items` row); the map key is the item id. */
  datatype Claim = Claim(buyer: UserId, isCompleted: bool)

  /** A stored chat message. `imagePath` and `editedAt` are columns the
      code as written never fills; only the corrected send fills
      `imagePath`. */
  datatype Message = Message(
    id: MessageId,
    itemId: ItemId,
    sender: UserId,
    receiver: UserId,
    body: string,
    imagePath: Option<string>,
    isRead: bool,
    isEdited: bool,
    editedAt: Option<Time>,
    createdAt: Time)

  /** A rating; `score` is whatever the request carried (no range check). */
  datatype Rating = Rating(rater: UserId, rated: UserId, itemId: ItemId, score: int, comment: Option<string>)

  /** One attempt to mail the seller that a transaction was completed. */
  datatype Notice = Notice(itemId: ItemId, buyer: UserId, seller: UserId)

  datatype Store = Store(
    users: set<UserId>,
    items: map<ItemId, Item>,
    claims: map<ItemId, Claim>,
    messages: seq<Message>,
    ratings: seq<Rating>,
    nextMessageId: MessageId,
    notices: seq<Notice>)

  /** How a request ends.
      Done: the action happened (200, or a redirect with a success flash).
      Redirected: a plain redirect elsewhere, nothing written.
      Rejected: a redirect back with an error flash, nothing written.
      Forbidden 403, NotFound 404, BadRequest 400,
      Invalid: the form request failed (422 when the client asks for JSON,
      as the rating requests do; otherwise, as for the chat page's send and
      edit, a redirect back with the validation errors),
      Conflict: the storage layer refused a duplicate key,
      ServerError: the code dereferenced null or wrote a null into a not-null column. */
  datatype Reply = Done | Redirected | Rejected | Forbidden | NotFound | BadRequest | Conflict | Invalid | ServerError

  /** A reply together with the store after the request. */
  datatype Outcome = Outcome(reply: Reply, store: Store)

  // ---------------------------------------------------------------------------
  // Who takes part in an item's transaction

  predicate IsOwner(s: Store, item: ItemId, u: UserId) {
    item in s.items && s.items[item].owner == u
  }

  /** `u` holds the claim on `item` (the `sold_items` row with user_id = u). */
  predicate IsBuyer(s: Store, item: ItemId, u: UserId) {
    item in s.claims && s.claims[item].buyer == u
  }

  predicate IsParticipant(s: Store, item: ItemId, u: UserId) {
    IsBuyer(s, item, u) || IsOwner(s, item, u)
  }

  predicate IsOpen(s: Store, item: ItemId) {
    item in s.claims && !s.claims[item].isCompleted
  }

  predicate IsCompleted(s: Store, item: ItemId) {
    item in s.claims && s.claims[item].isCompleted
  }

  /** The other side of the thread: the owner for the buyer, otherwise the
      claim's buyer. */
  function Counterparty(s: Store, item: ItemId, u: UserId): (c: UserId)
    requires item in s.items && item in s.claims
    ensures IsBuyer(s, item, u) ==> c == s.items[item].owner
    ensures !IsBuyer(s, item, u) ==> c == s.claims[item].buyer
  {
    if IsBuyer(s, item, u) then s.items[item].owner else s.claims[item].buyer
  }

  /** `u` sent or received `m`, and `m` belongs to `item`'s thread. */
  predicate Involves(m: Message, item: ItemId, u: UserId) {
    m.itemId == item && (m.sender == u || m.receiver == u)
  }

  /** `rater` has already rated `rated` for `item`. */
  predicate HasRated(s: Store, rater: UserId, rated: UserId, item: ItemId) {
    exists k :: 0 <= k < |s.ratings| && s.ratings[k].rater == rater && s.ratings[k].rated == rated && s.ratings[k].itemId == item
  }

  // ---------------------------------------------------------------------------
  // Store invariants kept by every operation

  /** `sold_items.item_id` refers to an existing item. */
  predicate ClaimsReferToItems(s: Store) {
    forall item :: item in s.claims ==> item in s.items
  }

  /** Nobody holds the claim on their own item (the purchase guard). */
  predicate NoSelfPurchase(s: Store) {
    forall item :: item in s.claims && item in s.items ==> s.claims[item].buyer != s.items[item].owner
  }

  predicate MessageIdsFresh(s: Store) {
    forall i :: 0 <= i < |s.messages| ==> s.messages[i].id < s.nextMessageId
  }

  predicate MessageIdsUnique(msgs: seq<Message>) {
    forall i, j :: 0 <= i < j < |msgs| ==> msgs[i].id != msgs[j].id
  }

  /** Every message runs between the two participants of its item. */
  predicate MessagesBetweenParticipants(s: Store) {
    forall i :: 0 <= i < |s.messages| ==>
      var m := s.messages[i];
      m.itemId in s.items && m.itemId in s.claims && m.sender != m.receiver &&
      IsParticipant(s, m.itemId, m.sender) && IsParticipant(s, m.itemId, m.receiver)
  }

  /** The storage key of ratings: one per (rater, item). */
  predicate RatingsUnique(rs: seq<Rating>) {
    forall i, j :: 0 <= i < j < |rs| ==> !(rs[i].rater == rs[j].rater && rs[i].itemId == rs[j].itemId)
  }

  predicate Valid(s: Store) {
    && ClaimsReferToItems(s)
    && NoSelfPurchase(s)
    && MessageIdsFresh(s)
    && MessageIdsUnique(s.messages)
    && MessagesBetweenParticipants(s)
    && RatingsUnique(s.ratings)
  }

  /** Claims are never removed, never change buyer, and never reopen. */
  predicate ClaimsGrow(s: Store, t: Store) {
    forall item :: item in s.claims ==>
      item in t.claims && t.claims[item].buyer == s.claims[item].buyer &&
      (s.claims[item].isCompleted ==> t.claims[item].isCompleted)
  }

  lemma {:induction false} ParticipantsAreOwnerAndBuyer(s: Store, item: ItemId, u: UserId)
    requires Valid(s) && item in s.claims && IsParticipant(s, item, u)
    ensures Counterparty(s, item, u) != u
    ensures IsParticipant(s, item, Counterparty(s, item, u))
    ensures {u, Counterparty(s, item, u)} == {s.items[item].owner, s.claims[item].buyer}
  {
    assert s.claims[item].buyer != s.items[item].owner;
  }

  // ---------------------------------------------------------------------------
  // Message lookup (route-model binding)

  function FindMessage(msgs: seq<Message>, id: MessageId): (r: Option<nat>)
    ensures r.Some? ==> r.value < |msgs| && msgs[r.value].id == id
    ensures r.Some? ==> forall k :: 0 <= k < r.value ==> msgs[k].id != id
    ensures r.None? <==> forall k :: 0 <= k < |msgs| ==> msgs[k].id != id
  {
    if msgs == [] then None
    else if msgs[0].id == id then Some(0)
    else match FindMessage(msgs[1..], id)
      case None => None
      case Some(k) => Some(k + 1)
  }

  // ---------------------------------------------------------------------------
  // PHP value helpers

  /** A string is truthy in PHP unless it is "" or "0". */
  predicate Truthy(s: string) {
    s != "" && s != "0"
  }

  /** Characters PHP's trim() strips. */
  predicate IsTrimmed(c: char) {
    c == ' ' || c == '\t' || c == '\n' || c == '\r' || c == '\0' || c == '\U{000B}'
  }

  /** The string trims to "" (Laravel's `required` then fails). */
  predicate IsBlank(s: string) {
    forall i :: 0 <= i < |s| ==> IsTrimmed(s[i])
  }

  // ---------------------------------------------------------------------------
  // The edit/delete window

  const EditWindowMinutes: nat := 15

  /** Whole minutes between two instants (absolute, truncated). */
  function WholeMinutesBetween(from: Time, to: Time): nat {
    (if to >= from then to - from else from - to) / 60
  }

  predicate WithinEditWindow(createdAt: Time, now: Time) {
    WholeMinutesBetween(createdAt, now) <= EditWindowMinutes
  }

  /** For a message from the past, the window stays open for exactly the
      first 16 * 60 seconds: 15 min 59 s is still inside, 16 min is not. */
  lemma WindowInSeconds(createdAt: Time, now: Time)
    requires createdAt <= now
    ensures WithinEditWindow(createdAt, now) <==> now - createdAt < 16 * 60
  {
  }
}
