/** Whole transactions run through the model, end to end, on small stores. */
module Scenarios {
  import opened Domain
  import opened Requests
  import opened UserModel
  import P = Purchase
  import opened Thread
  import opened Completion
  import opened RatingLedger

  const Buyer: UserId := 1
  const Seller: UserId := 2
  const Listed: ItemId := 7

  /** Two users and one unsold item of the seller's. */
  function Start(): (s: Store)
    ensures Valid(s) && Listed in s.items && Listed !in s.claims
  {
    Store({Buyer, Seller}, map[Listed := Item(Seller, 0)], map[], [], [], 1, [])
  }

  /** The buyer claims the item and sends "hello"; the seller has one unread
      message until they open the chat, and none after. */
  lemma ClaimAndFirstMessage()
    ensures P.Purchase(Start(), Buyer, Listed).reply == Done
    ensures var s1 := P.Purchase(Start(), Buyer, Listed).store;
      && SendMessage(s1, Buyer, Listed, Some("hello"), None, 100).reply == Done
      && var s2 := SendMessage(s1, Buyer, Listed, Some("hello"), None, 100).store;
      && UnreadMessageCount(s2, Seller) == 1
      && UnreadMessageCountForSoldItems(s2, Seller) == 1
      && UnreadMessageCount(ChatEffect(s2, Listed, Seller), Seller) == 0
  {
    var s1 := P.Purchase(Start(), Buyer, Listed).store;
    assert !IsTrimmed("hello"[0]);
    var s2 := SendMessage(s1, Buyer, Listed, Some("hello"), None, 100).store;
    assert s2.messages == [s2.messages[0]];
    var s3 := ChatEffect(s2, Listed, Seller);
    assert s3.messages == [s3.messages[0]];
  }

  /** The state after the claim and the first message. */
  function Talking(): (s: Store)
    ensures Valid(s) && IsOpen(s, Listed) && IsBuyer(s, Listed, Buyer) && IsOwner(s, Listed, Seller)
    ensures |s.messages| == 1 && s.messages[0].sender == Buyer && s.messages[0].createdAt == 100
  {
    var s1 := P.Purchase(Start(), Buyer, Listed).store;
    assert !IsTrimmed("hello"[0]);
    SendPreservesValid(s1, Buyer, Listed, Some("hello"), None, 100);
    SendMessage(s1, Buyer, Listed, Some("hello"), None, 100).store
  }

  /** The seller may not complete; the buyer may, once, and the seller is
      mailed once. The buyer then rates the seller; asking again is refused. */
  lemma CompleteAndRate()
    ensures CompleteTransaction(Talking(), Seller, Listed, true).reply == Forbidden
    ensures var c := CompleteTransaction(Talking(), Buyer, Listed, true);
      && c.reply == Done && c.mailSent && IsCompleted(c.store, Listed) && |c.store.notices| == 1
      && StoreRating(c.store, Buyer, Listed, AsNumber(Seller), Some(5), None).reply == Done
      && var r := StoreRating(c.store, Buyer, Listed, AsNumber(Seller), Some(5), None).store;
      && AverageRating(r, Seller) == Some(Average(5, 1))
      && StoreRating(r, Buyer, Listed, AsNumber(Seller), Some(4), Some("again")).reply == BadRequest
      && CompleteTransaction(r, Buyer, Listed, true).reply == BadRequest
  {
    var c := CompleteTransaction(Talking(), Buyer, Listed, true);
    assert c.store.ratings == [];
    var r := StoreRating(c.store, Buyer, Listed, AsNumber(Seller), Some(5), None).store;
    assert r.ratings == [Rating(Buyer, Seller, Listed, 5, None)];
    assert RatedIs(Seller)(r.ratings[0]);
    assert HasRated(r, Buyer, Seller, Listed);
    assert r.ratings[1..] == [];
    assert ReceivedScores(r, Seller) == [5];
    assert Sum([5]) == 5;
    assert StoreRating(r, Buyer, Listed, AsNumber(Seller), Some(4), Some("again")).reply == BadRequest;
    assert CompleteTransaction(r, Buyer, Listed, true).reply == BadRequest;
  }

  /** The sender edits at ten minutes and is refused at sixteen; the
      creation time never moves. */
  lemma EditWindowScenario()
    ensures var id := Talking().messages[0].id;
      && UpdateMessage(Talking(), Buyer, id, Some("hello!"), 100 + 10 * 60).reply == Done
      && UpdateMessage(Talking(), Buyer, id, Some("hello!"), 100 + 10 * 60).store.messages[0].createdAt == 100
      && UpdateMessage(Talking(), Buyer, id, Some("hello!"), 100 + 16 * 60) == Outcome(Forbidden, Talking())
      && UpdateMessage(Talking(), Seller, id, Some("hello!"), 100 + 10 * 60) == Outcome(Forbidden, Talking())
      && UpdateMessage(Talking(), Seller, id, Some("hello!"), 100 + 16 * 60) == Outcome(Forbidden, Talking())
  {
    var s := Talking();
    assert !IsTrimmed("hello!"[0]);
    assert FindMessage(s.messages, s.messages[0].id) == Some(0);
  }
}
