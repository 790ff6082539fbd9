/** Per-user aggregates of the `User` model: unread-message counters and
    the count and sum behind the average rating. */
module UserModel {
  import opened Domain
  import opened Seqs
  import MessageModel

  // ---------------------------------------------------------------------------
  // Which messages each counter looks at

  function UnreadTo(u: UserId): Message -> bool {
    (m: Message) => m.receiver == u && MessageModel.IsUnread(m)
  }

  function UnreadToOnItem(u: UserId, item: ItemId): Message -> bool {
    (m: Message) => m.receiver == u && m.itemId == item && MessageModel.IsUnread(m)
  }

  /** Unread, addressed to `u`, on an item `u` bought whose claim is open. */
  function UnreadToPurchasedOpen(s: Store, u: UserId): Message -> bool {
    (m: Message) => m.receiver == u && MessageModel.IsUnread(m) && IsBuyer(s, m.itemId, u) && IsOpen(s, m.itemId)
  }

  /** Unread, addressed to `u`, on an item `u` owns whose claim is open. */
  function UnreadToSoldOpen(s: Store, u: UserId): Message -> bool {
    (m: Message) => m.receiver == u && MessageModel.IsUnread(m) && IsOwner(s, m.itemId, u) && IsOpen(s, m.itemId)
  }

  // ---------------------------------------------------------------------------
  // The counters

  /** Unread messages addressed to `u`, over all items. */
  function UnreadMessageCount(s: Store, u: UserId): (n: nat)
    ensures n <= |s.messages|
  {
    Count(s.messages, UnreadTo(u))
  }

  function UnreadMessageCountForItem(s: Store, u: UserId, item: ItemId): (n: nat)
    ensures n <= UnreadMessageCount(s, u)
  {
    CountMonotone(s.messages, UnreadToOnItem(u, item), UnreadTo(u));
    Count(s.messages, UnreadToOnItem(u, item))
  }

  function UnreadMessageCountForPurchasedItems(s: Store, u: UserId): (n: nat)
    ensures n <= UnreadMessageCount(s, u)
  {
    CountMonotone(s.messages, UnreadToPurchasedOpen(s, u), UnreadTo(u));
    Count(s.messages, UnreadToPurchasedOpen(s, u))
  }

  function UnreadMessageCountForSoldItems(s: Store, u: UserId): (n: nat)
    ensures n <= UnreadMessageCount(s, u)
  {
    CountMonotone(s.messages, UnreadToSoldOpen(s, u), UnreadTo(u));
    Count(s.messages, UnreadToSoldOpen(s, u))
  }

  /** The bought-side counter plus the sold-side counter. */
  function UnreadMessageCountForAllTradingItems(s: Store, u: UserId): nat {
    UnreadMessageCountForPurchasedItems(s, u) + UnreadMessageCountForSoldItems(s, u)
  }

  /** Since nobody holds the claim on their own item, no message is counted
      on both sides, so the trading counter never exceeds the overall one. */
  lemma TradingUnreadWithinTotal(s: Store, u: UserId)
    requires NoSelfPurchase(s)
    ensures UnreadMessageCountForAllTradingItems(s, u) <= UnreadMessageCount(s, u)
  {
    CountDisjointSum(s.messages, UnreadToPurchasedOpen(s, u), UnreadToSoldOpen(s, u), UnreadTo(u));
  }

  /** A message that is read, or meant for someone else, never moves `u`'s
      counter; an unread one for `u` moves it by exactly one. */
  lemma UnreadAfterAppend(s: Store, m: Message, u: UserId)
    ensures UnreadMessageCount(s.(messages := s.messages + [m]), u)
         == UnreadMessageCount(s, u) + (if m.receiver == u && !m.isRead then 1 else 0)
  {
    CountAppend(s.messages, [m], UnreadTo(u));
    assert [m][1..] == [];
  }

  // ---------------------------------------------------------------------------
  // Ratings received

  function RatedIs(u: UserId): Rating -> bool {
    (r: Rating) => r.rated == u
  }

  function RatingCount(s: Store, u: UserId): nat {
    Count(s.ratings, RatedIs(u))
  }

  /** The scores of the ratings `u` received, in storage order. */
  function ScoresOf(rs: seq<Rating>, u: UserId): (scores: seq<int>)
    ensures |scores| == Count(rs, RatedIs(u))
  {
    if rs == [] then []
    else if rs[0].rated == u then [rs[0].score] + ScoresOf(rs[1..], u)
    else ScoresOf(rs[1..], u)
  }

  function Sum(xs: seq<int>): int {
    if xs == [] then 0 else xs[0] + Sum(xs[1..])
  }

  function ReceivedScores(s: Store, u: UserId): (scores: seq<int>)
    ensures |scores| == RatingCount(s, u)
  {
    ScoresOf(s.ratings, u)
  }

  /** The average as an exact fraction sum / count. */
  datatype Average = Average(sum: int, count: nat)

  /** Averaging no ratings gives null; otherwise the exact mean of the
      received scores. */
  function AverageRating(s: Store, u: UserId): (a: Option<Average>)
    ensures a.None? <==> RatingCount(s, u) == 0
    ensures a.Some? ==> a.value.count == RatingCount(s, u) > 0 && a.value.sum == Sum(ReceivedScores(s, u))
  {
    var scores := ReceivedScores(s, u);
    if |scores| == 0 then None else Some(Average(Sum(scores), |scores|))
  }

  lemma {:induction false} ScoresAppend(rs: seq<Rating>, r: Rating, u: UserId)
    ensures ScoresOf(rs + [r], u) == ScoresOf(rs, u) + (if r.rated == u then [r.score] else [])
  {
    if rs == [] {
      assert rs + [r] == [r];
      assert [r][1..] == [];
    } else {
      assert (rs + [r])[1..] == rs[1..] + [r];
      ScoresAppend(rs[1..], r, u);
    }
  }

  lemma {:induction false} SumAppend(xs: seq<int>, ys: seq<int>)
    ensures Sum(xs + ys) == Sum(xs) + Sum(ys)
  {
    if xs == [] {
      assert xs + ys == ys;
    } else {
      assert (xs + ys)[1..] == xs[1..] + ys;
      SumAppend(xs[1..], ys);
    }
  }

  /** A new rating adds one to the rated user's count and its score to their
      sum, and leaves every other user's figures alone. */
  lemma RatingAppendEffect(s: Store, r: Rating, u: UserId)
    ensures var t := s.(ratings := s.ratings + [r]);
      && RatingCount(t, u) == RatingCount(s, u) + (if r.rated == u then 1 else 0)
      && Sum(ReceivedScores(t, u)) == Sum(ReceivedScores(s, u)) + (if r.rated == u then r.score else 0)
  {
    ScoresAppend(s.ratings, r, u);
    SumAppend(ScoresOf(s.ratings, u), if r.rated == u then [r.score] else []);
    assert Sum([r.score]) == r.score;
  }
}
