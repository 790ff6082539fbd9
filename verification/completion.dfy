/** `completeTransaction`: the buyer closes an open deal, and the seller is
    mailed once. The mail is best effort: its failure is reported, never
    undone. */
module Completion {
  import opened Domain
  import opened Seqs
  import opened UserModel
  import opened Transactions

  /** The reply, whether the mail went out, and the store afterwards. */
  datatype Completion = Completion(reply: Reply, mailSent: bool, store: Store)

  /** `mailOk` is whether the mailer accepts the message this time. An unknown
      item is 404; anyone but the claim's buyer 403; a deal already completed
      400. Otherwise the claim is completed and one mail is attempted. */
  function CompleteTransaction(s: Store, u: UserId, item: ItemId, mailOk: bool): (c: Completion)
    ensures item !in s.items ==> c == Completion(NotFound, false, s)
    ensures item in s.items && !IsBuyer(s, item, u) ==> c == Completion(Forbidden, false, s)
    ensures item in s.items && IsBuyer(s, item, u) && IsCompleted(s, item) ==> c == Completion(BadRequest, false, s)
    ensures c.reply == Done <==> item in s.items && IsBuyer(s, item, u) && IsOpen(s, item)
    ensures c.reply != Done ==> c.store == s && !c.mailSent
    ensures c.reply == Done ==>
      && IsCompleted(c.store, item) && IsBuyer(c.store, item, u)
      && c.mailSent == mailOk
      && c.store.claims.Keys == s.claims.Keys
      && (forall other :: other in s.claims && other != item ==> c.store.claims[other] == s.claims[other])
      && c.store.notices == s.notices + [Notice(item, u, s.items[item].owner)]
      && c.store.(claims := s.claims, notices := s.notices) == s
  {
    if item !in s.items then Completion(NotFound, false, s)
    else if !IsBuyer(s, item, u) then Completion(Forbidden, false, s)
    else if s.claims[item].isCompleted then Completion(BadRequest, false, s)
    else
      var seller := s.items[item].owner;
      var t := s.(claims := s.claims[item := s.claims[item].(isCompleted := true)],
                  notices := s.notices + [Notice(item, u, seller)]);
      Completion(Done, mailOk, t)
  }

  /** A failed mail leaves the same store as a delivered one. */
  lemma MailFailureKeepsCompletion(s: Store, u: UserId, item: ItemId)
    ensures CompleteTransaction(s, u, item, false).store == CompleteTransaction(s, u, item, true).store
    ensures CompleteTransaction(s, u, item, false).reply == CompleteTransaction(s, u, item, true).reply
  {
  }

  lemma CompletionPreservesValid(s: Store, u: UserId, item: ItemId, mailOk: bool)
    requires Valid(s)
    ensures Valid(CompleteTransaction(s, u, item, mailOk).store)
    ensures ClaimsGrow(s, CompleteTransaction(s, u, item, mailOk).store)
  {
    var t := CompleteTransaction(s, u, item, mailOk).store;
    forall i | 0 <= i < |t.messages|
      ensures var m := t.messages[i];
        IsParticipant(t, m.itemId, m.sender) && IsParticipant(t, m.itemId, m.receiver)
    {
      var m := s.messages[i];
      assert IsParticipant(s, m.itemId, m.sender) && IsParticipant(s, m.itemId, m.receiver);
    }
  }

  /** Completing is a one-way step: whatever a later completion attempt
      answers, the deal stays completed and no further mail goes out. */
  lemma CompletionIsFinal(s: Store, u: UserId, v: UserId, item: ItemId, mailOk: bool, mailOk2: bool)
    requires CompleteTransaction(s, u, item, mailOk).reply == Done
    ensures var t := CompleteTransaction(s, u, item, mailOk).store;
      && CompleteTransaction(t, v, item, mailOk2).store == t
      && CompleteTransaction(t, v, item, mailOk2).reply in {Forbidden, BadRequest}
      && !CompleteTransaction(t, v, item, mailOk2).mailSent
  {
  }

  // ---------------------------------------------------------------------------
  // Effect on the counters and lists

  /** Completing moves the item's unread messages out of both trading
      counters (the buyer's bought side, the owner's sold side) while the
      overall counter does not change. */
  lemma CompletionMovesUnread(s: Store, u: UserId, item: ItemId, mailOk: bool, v: UserId)
    requires CompleteTransaction(s, u, item, mailOk).reply == Done
    ensures var t := CompleteTransaction(s, u, item, mailOk).store;
      && UnreadMessageCount(t, v) == UnreadMessageCount(s, v)
      && UnreadMessageCountForPurchasedItems(t, v)
         == UnreadMessageCountForPurchasedItems(s, v) - (if v == u then UnreadMessageCountForItem(s, v, item) else 0)
      && UnreadMessageCountForSoldItems(t, v)
         == UnreadMessageCountForSoldItems(s, v) - (if v == s.items[item].owner then UnreadMessageCountForItem(s, v, item) else 0)
  {
    var t := CompleteTransaction(s, u, item, mailOk).store;
    var elsewhere := (m: Message) => m.itemId != item;
    var here := (m: Message) => UnreadToPurchasedOpen(s, v)(m) && m.itemId == item;
    CountSplit(s.messages, UnreadToPurchasedOpen(s, v), UnreadToPurchasedOpen(t, v), here, elsewhere);
    if v == u {
      CountSame(s.messages, here, UnreadToOnItem(v, item));
    } else {
      CountSame(s.messages, here, (m: Message) => false);
      CountNone(s.messages);
    }
    var hereSold := (m: Message) => UnreadToSoldOpen(s, v)(m) && m.itemId == item;
    CountSplit(s.messages, UnreadToSoldOpen(s, v), UnreadToSoldOpen(t, v), hereSold, elsewhere);
    if v == s.items[item].owner {
      CountSame(s.messages, hereSold, UnreadToOnItem(v, item));
    } else {
      CountSame(s.messages, hereSold, (m: Message) => false);
      CountNone(s.messages);
    }
  }

  lemma {:induction false} CountNone<T>(s: seq<T>)
    ensures Count(s, (x: T) => false) == 0
  {
    if s != [] {
      CountNone(s[1..]);
    }
  }

  /** After completion the item leaves the buyer's trading tab and shows on
      their buy tab; both participants' trading counters drop by one. */
  lemma CompletionMovesItemToBuyTab(s: Store, u: UserId, item: ItemId, mailOk: bool)
    requires NoSelfPurchase(s)
    requires CompleteTransaction(s, u, item, mailOk).reply == Done
    ensures var t := CompleteTransaction(s, u, item, mailOk).store;
      && item !in BuyTab(s, u) && item in BuyTab(t, u)
      && (forall x :: IsEntry(t, u, None, x) ==> x.itemId != item)
      && TradingCount(t, u) == TradingCount(s, u) - 1
      && TradingCount(t, s.items[item].owner) == TradingCount(s, s.items[item].owner) - 1
  {
    var t := CompleteTransaction(s, u, item, mailOk).store;
    var owner := s.items[item].owner;
    assert u != owner;
    TradingCountDrops(s, t, u, item, owner);
    TradingCountDrops(s, t, owner, item, owner);
  }

  /** The two sets behind a trading counter each lose `item` or keep it out. */
  lemma TradingCountDrops(s: Store, t: Store, v: UserId, item: ItemId, owner: UserId)
    requires item in s.items && item in s.claims && !s.claims[item].isCompleted && owner == s.items[item].owner
    requires s.claims[item].buyer != owner
    requires v == s.claims[item].buyer || v == owner
    requires t == s.(claims := s.claims[item := s.claims[item].(isCompleted := true)], notices := t.notices)
    ensures TradingCount(t, v) == TradingCount(s, v) - 1
  {
    var bs := set i | i in s.claims && s.claims[i].buyer == v && !s.claims[i].isCompleted;
    var bt := set i | i in t.claims && t.claims[i].buyer == v && !t.claims[i].isCompleted;
    var os := set i | i in s.items && s.items[i].owner == v && IsOpen(s, i);
    var ot := set i | i in t.items && t.items[i].owner == v && IsOpen(t, i);
    assert bt == bs - {item} by {
      forall i ensures i in bt <==> i in bs - {item} {
        if i != item {
          assert i in t.claims <==> i in s.claims;
          assert i in s.claims ==> t.claims[i] == s.claims[i];
        }
      }
    }
    assert ot == os - {item} by {
      forall i ensures i in ot <==> i in os - {item} {
        if i != item {
          assert IsOpen(t, i) <==> IsOpen(s, i);
        }
      }
    }
    if v == owner {
      assert item !in bs && item in os;
    } else {
      assert item in bs && item !in os;
    }
  }

  // ---------------------------------------------------------------------------
  // Repeated completion answered as success

  /** The behaviour the completion tests expect: a repeated completion by the
      buyer is answered as a success, without writing or mailing. */
  function CompleteTransactionIdempotent(s: Store, u: UserId, item: ItemId, mailOk: bool): (c: Completion)
    ensures item in s.items && IsBuyer(s, item, u) && IsCompleted(s, item) ==> c == Completion(Done, false, s)
    ensures c.reply == Done <==> item in s.items && IsBuyer(s, item, u)
    ensures !(item in s.items && IsBuyer(s, item, u) && IsCompleted(s, item)) ==> c == CompleteTransaction(s, u, item, mailOk)
  {
    if item in s.items && IsBuyer(s, item, u) && s.claims[item].isCompleted then Completion(Done, false, s)
    else CompleteTransaction(s, u, item, mailOk)
  }

  /** Asking twice is the same as asking once: same store, still a success,
      and the seller is mailed once in all. */
  lemma IdempotentCompletionTwice(s: Store, u: UserId, item: ItemId, mailOk: bool, mailOk2: bool)
    requires CompleteTransactionIdempotent(s, u, item, mailOk).reply == Done
    ensures var t := CompleteTransactionIdempotent(s, u, item, mailOk).store;
      && CompleteTransactionIdempotent(t, u, item, mailOk2) == Completion(Done, false, t)
      && |t.notices| <= |s.notices| + 1
  {
  }

  /** As written, the repeated completion the tests expect to succeed is
      answered with 400, though neither writes anything. */
  lemma RepeatedCompletionRejected(s: Store, u: UserId, item: ItemId, mailOk: bool)
    requires item in s.items && IsBuyer(s, item, u) && IsCompleted(s, item)
    ensures CompleteTransaction(s, u, item, mailOk).reply == BadRequest
    ensures CompleteTransactionIdempotent(s, u, item, mailOk).reply == Done
    ensures CompleteTransaction(s, u, item, mailOk).store == CompleteTransactionIdempotent(s, u, item, mailOk).store
  {
  }
}
