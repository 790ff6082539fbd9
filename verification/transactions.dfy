/** The lists of a user's transactions: the chat sidebar (open deals other
    than the current one, most recent activity first) and the my-page tabs
    (completed purchases; open deals by latest message). */
module Transactions {
  import opened Domain
  import opened Seqs
  import UserModel

  /** Which side of the deal the user is on. */
  datatype Role = Purchased | Sold

  /** One row of a transaction list, as the list decorates an item. */
  datatype Transaction = Transaction(
    itemId: ItemId,
    role: Role,
    unreadCount: nat,
    latestMessageAt: Option<Time>,
    updatedAt: Time)

  /** Creation time of the newest message of `item` that `u` sent or received. */
  function LatestMessageAt(msgs: seq<Message>, item: ItemId, u: UserId): (r: Option<Time>)
    ensures r.None? <==> forall i :: 0 <= i < |msgs| ==> !Involves(msgs[i], item, u)
    ensures r.Some? ==> exists i :: 0 <= i < |msgs| && Involves(msgs[i], item, u) && msgs[i].createdAt == r.value
    ensures r.Some? ==> forall i :: 0 <= i < |msgs| && Involves(msgs[i], item, u) ==> msgs[i].createdAt <= r.value
  {
    if msgs == [] then None
    else
      var rest := LatestMessageAt(msgs[1..], item, u);
      assert forall i :: 1 <= i < |msgs| ==> msgs[i] == msgs[1..][i - 1];
      if !Involves(msgs[0], item, u) then rest
      else if rest.Some? && rest.value >= msgs[0].createdAt then rest
      else Some(msgs[0].createdAt)
  }

  /** `exclude` names the chat's own item; an absent one excludes nothing. */
  predicate Excluded(exclude: Option<ItemId>, item: ItemId) {
    exclude.Some? && exclude.value == item
  }

  /** `item` is an open deal of `u` in role `role` that the list shows. */
  predicate Listed(s: Store, u: UserId, exclude: Option<ItemId>, item: ItemId, role: Role) {
    && item in s.items && IsOpen(s, item) && !Excluded(exclude, item)
    && match role
       case Purchased => IsBuyer(s, item, u)
       case Sold => IsOwner(s, item, u)
  }

  /** The row a list shows for `item`: unread messages to `u` on the item,
      `u`'s latest message time, and the item's own update time. */
  function EntryFor(s: Store, u: UserId, item: ItemId, role: Role): Transaction
    requires item in s.items
  {
    Transaction(item, role, UserModel.UnreadMessageCountForItem(s, u, item),
                LatestMessageAt(s.messages, item, u), s.items[item].updatedAt)
  }

  predicate IsEntry(s: Store, u: UserId, exclude: Option<ItemId>, t: Transaction) {
    Listed(s, u, exclude, t.itemId, t.role) && t == EntryFor(s, u, t.itemId, t.role)
  }

  function PurchasedOpen(s: Store, u: UserId, exclude: Option<ItemId>): set<ItemId> {
    set item | item in s.claims && Listed(s, u, exclude, item, Purchased)
  }

  function SoldOpen(s: Store, u: UserId, exclude: Option<ItemId>): set<ItemId> {
    set item | item in s.claims && Listed(s, u, exclude, item, Sold)
  }

  /** The rows one claimed item contributes: none, or one per role `u` plays. */
  function RowsFor(s: Store, u: UserId, exclude: Option<ItemId>, item: ItemId): (rows: seq<Transaction>)
    ensures forall t :: t in rows <==> IsEntry(s, u, exclude, t) && t.itemId == item
    ensures Distinct(rows)
    ensures |rows| == (if Listed(s, u, exclude, item, Purchased) then 1 else 0)
                    + (if Listed(s, u, exclude, item, Sold) then 1 else 0)
  {
    var bought := if Listed(s, u, exclude, item, Purchased) then [EntryFor(s, u, item, Purchased)] else [];
    var sold := if Listed(s, u, exclude, item, Sold) then [EntryFor(s, u, item, Sold)] else [];
    assert forall t :: t in bought <==> IsEntry(s, u, exclude, t) && t.itemId == item && t.role == Purchased;
    assert forall t :: t in sold <==> IsEntry(s, u, exclude, t) && t.itemId == item && t.role == Sold;
    assert forall t :: t in bought + sold <==> t in bought || t in sold;
    bought + sold
  }

  /** `r` holds exactly the rows of the claimed items no longer in `todo`,
      each once. */
  ghost predicate CollectedSoFar(s: Store, u: UserId, exclude: Option<ItemId>, r: seq<Transaction>, todo: set<ItemId>) {
    && (forall t :: t in r <==> IsEntry(s, u, exclude, t) && t.itemId !in todo)
    && Distinct(r)
    && |r| == |PurchasedOpen(s, u, exclude) - todo| + |SoldOpen(s, u, exclude) - todo|
  }

  /** Adding one more item's rows keeps the collection exact. */
  lemma CollectStep(s: Store, u: UserId, exclude: Option<ItemId>, r: seq<Transaction>, todo: set<ItemId>, item: ItemId)
    requires item in todo && item in s.claims
    requires CollectedSoFar(s, u, exclude, r, todo)
    ensures CollectedSoFar(s, u, exclude, r + RowsFor(s, u, exclude, item), todo - {item})
  {
    var rows := RowsFor(s, u, exclude, item);
    forall i, j | 0 <= i < |r| && 0 <= j < |rows| ensures r[i] != rows[j] {
      assert r[i] in r && rows[j] in rows;
    }
    DistinctAppend(r, rows);
    forall t ensures t in r + rows <==> IsEntry(s, u, exclude, t) && t.itemId !in todo - {item} {
      assert t in r + rows <==> t in r || t in rows;
      if t.itemId == item {
        assert t !in r;
      } else {
        assert t !in rows;
      }
    }
    DoneGrows(PurchasedOpen(s, u, exclude), todo, item);
    DoneGrows(SoldOpen(s, u, exclude), todo, item);
    assert item in PurchasedOpen(s, u, exclude) <==> Listed(s, u, exclude, item, Purchased);
    assert item in SoldOpen(s, u, exclude) <==> Listed(s, u, exclude, item, Sold);
  }

  /** One row per open deal of `u` on either side, in no particular order. */
  method CollectOpen(s: Store, u: UserId, exclude: Option<ItemId>) returns (r: seq<Transaction>)
    ensures forall t :: t in r <==> IsEntry(s, u, exclude, t)
    ensures Distinct(r)
    ensures |r| == |PurchasedOpen(s, u, exclude)| + |SoldOpen(s, u, exclude)|
  {
    r := [];
    var todo := s.claims.Keys;
    assert PurchasedOpen(s, u, exclude) - todo == {};
    assert SoldOpen(s, u, exclude) - todo == {};
    while todo != {}
      invariant todo <= s.claims.Keys
      invariant CollectedSoFar(s, u, exclude, r, todo)
      decreases |todo|
    {
      var item :| item in todo;
      CollectStep(s, u, exclude, r, todo, item);
      r := r + RowsFor(s, u, exclude, item);
      todo := todo - {item};
    }
    assert PurchasedOpen(s, u, exclude) - {} == PurchasedOpen(s, u, exclude);
    assert SoldOpen(s, u, exclude) - {} == SoldOpen(s, u, exclude);
  }

  // ---------------------------------------------------------------------------
  // The chat sidebar

  /** Latest message time, or the item's update time for a silent deal. */
  function SidebarKey(t: Transaction): int {
    match t.latestMessageAt
    case Some(at) => at
    case None => t.updatedAt
  }

  /** `getUserTransactions`: every open deal of `u` except `exclude`, once,
      most recent activity first. */
  method GetUserTransactions(s: Store, u: UserId, exclude: Option<ItemId>) returns (r: seq<Transaction>)
    ensures forall t :: t in r <==> IsEntry(s, u, exclude, t)
    ensures Distinct(r)
    ensures SortedDesc(r, SidebarKey)
    ensures |r| == |PurchasedOpen(s, u, exclude)| + |SoldOpen(s, u, exclude)|
  {
    var collected := CollectOpen(s, u, exclude);
    r := SortDesc(collected, SidebarKey);
    DistinctPermutation(collected, r);
    assert forall t :: t in r <==> t in multiset(collected);
  }

  // ---------------------------------------------------------------------------
  // My page

  /** A deal without messages has no latest time; it sorts below every
      message time. */
  function TradingKey(t: Transaction): int {
    match t.latestMessageAt
    case Some(at) => at
    case None => -1
  }

  /** The "trading" tab: every open deal, newest message first. */
  method TradingTab(s: Store, u: UserId) returns (r: seq<Transaction>)
    requires ClaimsReferToItems(s)
    ensures forall t :: t in r <==> IsEntry(s, u, None, t)
    ensures Distinct(r)
    ensures SortedDesc(r, TradingKey)
    ensures |r| == TradingCount(s, u)
  {
    var collected := CollectOpen(s, u, None);
    r := SortDesc(collected, TradingKey);
    DistinctPermutation(collected, r);
    assert forall t :: t in r <==> t in multiset(collected);
    assert PurchasedOpen(s, u, None) == set item | item in s.claims && s.claims[item].buyer == u && !s.claims[item].isCompleted;
    assert SoldOpen(s, u, None) == set item | item in s.items && s.items[item].owner == u && IsOpen(s, item);
  }

  /** The counter beside the tab: open claims held by `u`, plus `u`'s items
      whose claim is open. */
  function TradingCount(s: Store, u: UserId): nat {
    |set item | item in s.claims && s.claims[item].buyer == u && !s.claims[item].isCompleted|
    + |set item | item in s.items && s.items[item].owner == u && IsOpen(s, item)|
  }

  /** No deal is counted twice: since nobody buys their own item, the
      counter is the number of open deals `u` takes part in. */
  lemma TradingCountIsOpenDeals(s: Store, u: UserId)
    requires Valid(s)
    ensures TradingCount(s, u) == |set item | item in s.claims && IsOpen(s, item) && IsParticipant(s, item, u)|
  {
    var bought := set item | item in s.claims && s.claims[item].buyer == u && !s.claims[item].isCompleted;
    var sold := set item | item in s.items && s.items[item].owner == u && IsOpen(s, item);
    var open := set item | item in s.claims && IsOpen(s, item) && IsParticipant(s, item, u);
    assert open == bought + sold;
  }

  /** The "buy" tab: items whose claim by `u` is completed. */
  function BuyTab(s: Store, u: UserId): (r: set<ItemId>)
    ensures forall item :: item in r <==> IsBuyer(s, item, u) && IsCompleted(s, item)
  {
    set item | item in s.claims && s.claims[item].buyer == u && s.claims[item].isCompleted
  }

  /** The two tabs never share an item: an item is bought-and-done or open. */
  lemma BuyAndTradingDisjoint(s: Store, u: UserId, t: Transaction)
    requires IsEntry(s, u, None, t)
    ensures t.itemId !in BuyTab(s, u)
  {
  }
}
