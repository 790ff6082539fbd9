/** What the chat page derives from the store: sidebar badges, the partner
    heading, per-message controls, the action area and the input area. */
module ChatView {
  import opened Domain
  import opened Requests
  import opened Transactions
  import opened Thread
  import opened Completion
  import opened RatingLedger

  // ---------------------------------------------------------------------------
  // Sidebar

  /** The unread badge of a sidebar row: none at zero, "9+" above nine,
      otherwise the single digit. */
  function Badge(unread: nat): (b: Option<string>)
    ensures b.None? <==> unread == 0
    ensures b == Some("9+") <==> unread > 9
    ensures 0 < unread <= 9 ==> b.Some? && |b.value| == 1 && CanonicalDigits(b.value) && DigitsValue(b.value) == unread
  {
    if unread == 0 then None
    else if unread > 9 then Some("9+")
    else Some(DecimalText(unread))
  }

  datatype SidebarRow = SidebarRow(itemId: ItemId, badge: Option<string>, partnerIsSeller: bool)

  datatype Sidebar = NoOtherTransactions | Rows(rows: seq<SidebarRow>)

  /** One row per transaction in list order, or the "no other
      transactions" text when the list is empty. */
  function RenderSidebar(others: seq<Transaction>): (v: Sidebar)
    ensures v.NoOtherTransactions? <==> |others| == 0
    ensures v.Rows? ==> |v.rows| == |others| && forall i :: 0 <= i < |others| ==>
      && v.rows[i].itemId == others[i].itemId
      && v.rows[i].badge == Badge(others[i].unreadCount)
      && (v.rows[i].partnerIsSeller <==> others[i].role == Purchased)
  {
    if |others| == 0 then NoOtherTransactions
    else Rows(seq(|others|, i requires 0 <= i < |others| =>
      SidebarRow(others[i].itemId, Badge(others[i].unreadCount), others[i].role == Purchased)))
  }

  // ---------------------------------------------------------------------------
  // The viewer's standing, as the page recomputes it

  datatype Partner = SellerIs(seller: UserId) | BuyerIs(buyer: UserId) | NoPartner | NullClaim

  /** The heading's partner: the owner for the buyer, the claim's buyer for
      the owner, nobody for anyone else. An owner whose item has no claim
      reads the buyer of a missing claim. */
  function PartnerOf(s: Store, item: ItemId, u: UserId): (p: Partner)
    requires item in s.items
    ensures IsBuyer(s, item, u) ==> p == SellerIs(s.items[item].owner)
    ensures !IsBuyer(s, item, u) && IsOwner(s, item, u) && item in s.claims ==> p == BuyerIs(s.claims[item].buyer)
    ensures !IsParticipant(s, item, u) <==> p == NoPartner
    ensures p == NullClaim <==> IsOwner(s, item, u) && item !in s.claims
  {
    if IsBuyer(s, item, u) then SellerIs(s.items[item].owner)
    else if s.items[item].owner == u then
      if item in s.claims then BuyerIs(s.claims[item].buyer) else NullClaim
    else NoPartner
  }

  /** The heading names exactly the counterparty the controller sends to. */
  lemma PartnerIsCounterparty(s: Store, item: ItemId, u: UserId)
    requires item in s.items && item in s.claims && IsParticipant(s, item, u)
    ensures PartnerOf(s, item, u) == SellerIs(Counterparty(s, item, u))
         || PartnerOf(s, item, u) == BuyerIs(Counterparty(s, item, u))
  {
  }

  datatype ViewState = ViewState(isBuyer: bool, isSeller: bool, isCompleted: bool, hasRated: bool, canRate: bool)

  /** The id the rating form targets: the owner for the buyer, otherwise the
      claim's buyer for the owner, otherwise none (0). */
  function RatingTarget(s: Store, item: ItemId, u: UserId): UserId
    requires item in s.items && item in s.claims
  {
    if IsBuyer(s, item, u) then s.items[item].owner
    else if s.items[item].owner == u then s.claims[item].buyer
    else 0
  }

  /** Completion is read from the item's claim, whoever views. A participant
      of a completed deal may rate; whether they already did is looked up
      against the rating target, and only when there is one. */
  function ViewStateOf(s: Store, item: ItemId, u: UserId): (v: ViewState)
    requires item in s.items
    ensures v.isBuyer <==> IsBuyer(s, item, u)
    ensures v.isSeller <==> IsOwner(s, item, u)
    ensures v.isCompleted <==> IsCompleted(s, item)
    ensures v.canRate <==> IsCompleted(s, item) && IsParticipant(s, item, u)
    ensures v.hasRated ==> v.canRate
    ensures v.canRate ==> (v.hasRated <==> RatingTarget(s, item, u) != 0 && HasRated(s, u, RatingTarget(s, item, u), item))
  {
    var isBuyer := IsBuyer(s, item, u);
    var isSeller := s.items[item].owner == u;
    var isCompleted := item in s.claims && s.claims[item].isCompleted;
    var canRate := isCompleted && (isBuyer || isSeller);
    var hasRated := canRate && RatingTarget(s, item, u) != 0 && HasRated(s, u, RatingTarget(s, item, u), item);
    ViewState(isBuyer, isSeller, isCompleted, hasRated, canRate)
  }

  // ---------------------------------------------------------------------------
  // Controls on one message

  datatype Controls = Controls(edit: bool, delete: bool)

  /** Edit and delete show on the viewer's own messages inside the window;
      edit only when the text is non-empty. */
  function MessageControls(m: Message, viewer: UserId, now: Time): (c: Controls)
    ensures c.delete <==> m.sender == viewer && WholeMinutesBetween(m.createdAt, now) <= 15
    ensures c.edit <==> c.delete && Truthy(m.body)
  {
    var own := m.sender == viewer && WithinEditWindow(m.createdAt, now);
    Controls(own && Truthy(m.body), own)
  }

  lemma {:induction false} FindUnique(msgs: seq<Message>, k: nat)
    requires MessageIdsUnique(msgs) && k < |msgs|
    ensures FindMessage(msgs, msgs[k].id) == Some(k)
  {
    var r := FindMessage(msgs, msgs[k].id);
    assert r.Some?;
  }

  /** The controls appear exactly when the controller would carry out the
      action at the same moment: delete always, edit for any acceptable new text. */
  lemma ControlsMatchController(s: Store, viewer: UserId, k: nat, now: Time, newBody: string)
    requires MessageIdsUnique(s.messages) && k < |s.messages|
    requires MessagePasses(Put, Some(newBody), None)
    ensures MessageControls(s.messages[k], viewer, now).delete
        <==> DeleteMessage(s, viewer, s.messages[k].id, now).reply == Done
    ensures MessageControls(s.messages[k], viewer, now).delete
        <==> UpdateMessage(s, viewer, s.messages[k].id, Some(newBody), now).reply == Done
  {
    FindUnique(s.messages, k);
  }

  // ---------------------------------------------------------------------------
  // The action area beside the partner's name

  datatype Action = CompleteButton | RateButton | RatedLabel | CompletedLabel | NoAction

  /** The first matching row: buyer and open, complete; buyer, completed and
      unrated, rate; open, owner and unrated, rate; completed and rated,
      "rated"; completed, "completed". */
  function ActionFor(v: ViewState): (a: Action)
    ensures a == CompleteButton <==> v.isBuyer && !v.isCompleted
    ensures a == RateButton <==>
      (v.isBuyer && v.isCompleted && !v.hasRated) || (!v.isBuyer && !v.isCompleted && v.isSeller && !v.hasRated)
    ensures a == RatedLabel <==> v.isCompleted && v.hasRated && !(v.isBuyer && !v.hasRated)
    ensures a == NoAction <==> !v.isCompleted && !v.isBuyer && !(v.isSeller && !v.hasRated)
  {
    if v.isBuyer && !v.isCompleted then CompleteButton
    else if v.isBuyer && v.isCompleted && !v.hasRated then RateButton
    else if !v.isCompleted && v.isSeller && !v.hasRated then RateButton
    else if v.isCompleted && v.hasRated then RatedLabel
    else if v.isCompleted then CompletedLabel
    else NoAction
  }

  /** The action area, drawn only under a partner heading; `None` when there
      is no heading, and for an owner without a claim the page fails. */
  function ActionArea(s: Store, item: ItemId, u: UserId): (a: Option<Action>)
    requires item in s.items
    ensures a.None? <==> !IsParticipant(s, item, u) || (IsOwner(s, item, u) && item !in s.claims)
    ensures a.Some? ==> a.value == ActionFor(ViewStateOf(s, item, u))
  {
    match PartnerOf(s, item, u)
    case NoPartner => None
    case NullClaim => None
    case _ => Some(ActionFor(ViewStateOf(s, item, u)))
  }

  /** The complete button shows exactly when completing would succeed. */
  lemma CompleteButtonMatchesController(s: Store, item: ItemId, u: UserId, mailOk: bool)
    requires item in s.items
    ensures ActionArea(s, item, u) == Some(CompleteButton)
        <==> CompleteTransaction(s, item := item, u := u, mailOk := mailOk).reply == Done
  {
  }

  /** As written, the owner of an open deal is offered the rate button, and
      the rating it leads to is always refused, the deal not being completed. */
  lemma SellerRateButtonBeforeCompletion(s: Store, item: ItemId, u: UserId, score: Option<int>, comment: Option<string>)
    requires Valid(s) && item in s.claims && IsOwner(s, item, u) && IsOpen(s, item)
    ensures ActionArea(s, item, u) == Some(RateButton)
    ensures StoreRating(s, u, item, AsNumber(RatingTarget(s, item, u)), score, comment).reply != Done
    ensures StoreRating(s, u, item, AsText(RatingTarget(s, item, u)), score, comment).reply != Done
  {
    assert s.claims[item].buyer != s.items[item].owner;
  }

  /** The buyer's rate button leads to a stored rating as written, with the
      id sent as the form's text; ratings are assumed well formed, so that no
      rating by the buyer on this item is stored under another rated user.
      Database ids start at 1; a seller id of 0 would be falsy and skip the
      page's "already rated" lookup. The score is one of the form's five
      radio buttons. */
  lemma BuyerRateButtonStores(s: Store, item: ItemId, u: UserId, score: int, comment: Option<string>)
    requires Valid(s) && RatingsWellFormed(s) && item in s.items && IsBuyer(s, item, u)
    requires ActionArea(s, item, u) == Some(RateButton)
    requires s.items[item].owner in s.users && s.items[item].owner > 0
    requires 1 <= score <= 5
    ensures IsCompleted(s, item)
    ensures StoreRating(s, u, item, AsText(RatingTarget(s, item, u)), Some(score), comment).reply == Done
  {
    assert s.claims[item].buyer != s.items[item].owner;
    KeyImpliesRated(s, u, item);
  }

  /** The table with its third row requiring completion, so that it mirrors
      the buyer's row. */
  function ActionForCorrected(v: ViewState): (a: Action)
    ensures a == CompleteButton <==> v.isBuyer && !v.isCompleted
    ensures a == RateButton <==> v.isCompleted && (v.isBuyer || v.isSeller) && !v.hasRated
    ensures a == RatedLabel <==> v.isCompleted && v.hasRated
    ensures a == CompletedLabel <==> v.isCompleted && !v.hasRated && !v.isBuyer && !v.isSeller
    ensures a == NoAction <==> !v.isCompleted && !v.isBuyer
  {
    if v.isBuyer && !v.isCompleted then CompleteButton
    else if v.isBuyer && v.isCompleted && !v.hasRated then RateButton
    else if v.isCompleted && v.isSeller && !v.hasRated then RateButton
    else if v.isCompleted && v.hasRated then RatedLabel
    else if v.isCompleted then CompletedLabel
    else NoAction
  }

  /** Every rate button of the corrected table leads to a rating the checked
      ledger stores, for any acceptable score and comment. */
  lemma CorrectedRateButtonSucceeds(s: Store, item: ItemId, u: UserId, score: int, comment: Option<string>)
    requires Valid(s) && RatingsWellFormed(s)
    requires item in s.items && item in s.claims
    requires ActionForCorrected(ViewStateOf(s, item, u)) == RateButton
    requires RatingTarget(s, item, u) in s.users && RatingTarget(s, item, u) != 0
    requires MinScore <= score <= MaxScore
    requires comment.Some? ==> |comment.value| <= MaxCommentLength
    ensures StoreRatingChecked(s, u, item, AsText(RatingTarget(s, item, u)), Some(score), comment).reply == Done
  {
    var target := RatingTarget(s, item, u);
    assert s.claims[item].buyer != s.items[item].owner;
    assert target == Counterparty(s, item, u);
    KeyImpliesRated(s, u, item);
  }

  /** In a well-formed ledger a rating stored under (rater, item) is a
      rating of the rater's counterparty. */
  lemma KeyImpliesRated(s: Store, rater: UserId, item: ItemId)
    requires Valid(s) && RatingsWellFormed(s) && item in s.items && item in s.claims
    ensures HasRatingKey(s, rater, item) ==> HasRated(s, rater, Counterparty(s, item, rater), item)
  {
    if HasRatingKey(s, rater, item) {
      var k :| 0 <= k < |s.ratings| && s.ratings[k].rater == rater && s.ratings[k].itemId == item;
      assert WellFormedRating(s, s.ratings[k]);
    }
  }

  // ---------------------------------------------------------------------------
  // The input area

  datatype Prompt = AskToRate | AlreadyRated | NoPrompt

  datatype InputArea = CompletionNotice(prompt: Prompt) | MessageForm

  /** Once the deal is completed the form gives way to a completion notice,
      which asks the viewer to rate until they have. */
  function InputAreaFor(v: ViewState): (i: InputArea)
    ensures i == MessageForm <==> !v.isCompleted
    ensures i == CompletionNotice(AskToRate) <==> v.isCompleted && v.canRate && !v.hasRated
    ensures i == CompletionNotice(AlreadyRated) <==> v.isCompleted && v.hasRated
  {
    if !v.isCompleted then MessageForm
    else if v.canRate && !v.hasRated then CompletionNotice(AskToRate)
    else if v.hasRated then CompletionNotice(AlreadyRated)
    else CompletionNotice(NoPrompt)
  }

  /** The rating prompt shows exactly to a participant of a completed deal
      who has not yet rated the other side for this item. */
  lemma RatingPromptRule(s: Store, item: ItemId, u: UserId)
    requires Valid(s) && item in s.items
    ensures InputAreaFor(ViewStateOf(s, item, u)) == CompletionNotice(AskToRate)
        <==> IsCompleted(s, item) && IsParticipant(s, item, u)
             && !(RatingTarget(s, item, u) != 0 && HasRated(s, u, RatingTarget(s, item, u), item))
  {
  }

  /** The form disappears for both sides at completion, though the
      controller still accepts a message from the owner. */
  lemma FormHiddenButOwnerMaySend(s: Store, item: ItemId, u: UserId, body: string, now: Time)
    requires item in s.items && IsOwner(s, item, u) && IsCompleted(s, item) && !IsBuyer(s, item, u)
    requires MessagePasses(Post, Some(body), None)
    ensures InputAreaFor(ViewStateOf(s, item, u)) != MessageForm
    ensures SendMessage(s, u, item, Some(body), None, now).reply == Done
  {
  }
}
