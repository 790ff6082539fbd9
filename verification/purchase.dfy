/** PurchaseController: the profile-completeness guard of the purchase page
    and the creation of a claim. */
module Purchase {
  import opened Domain

  /** The address part of a user's profile. */
  datatype Profile = Profile(postcode: Option<string>, address: Option<string>)

  predicate FieldFilled(v: Option<string>) {
    v.Some? && Truthy(v.value)
  }

  /** The purchase page opens only for a user with a profile whose postcode
      and address are both filled (PHP truthiness: "" and "0" do not count);
      anyone else is redirected to the profile settings. */
  function OpenPurchasePage(profile: Option<Profile>): (r: Reply)
    ensures r == Done || r == Redirected
    ensures r == Done <==>
      profile.Some? && FieldFilled(profile.value.postcode) && FieldFilled(profile.value.address)
  {
    if profile.None? || !FieldFilled(profile.value.postcode) || !FieldFilled(profile.value.address)
    then Redirected
    else Done
  }

  /** `purchase`: a non-owner gets an open claim on the item; the owner is
      sent home. The storage key refuses a second claim on the same item;
      an unknown item is dereferenced as null. */
  function Purchase(s: Store, u: UserId, item: ItemId): (o: Outcome)
    ensures item !in s.items ==> o == Outcome(ServerError, s)
    ensures IsOwner(s, item, u) ==> o == Outcome(Redirected, s)
    ensures item in s.items && !IsOwner(s, item, u) && item in s.claims ==> o == Outcome(Conflict, s)
    ensures o.reply == Done <==> item in s.items && !IsOwner(s, item, u) && item !in s.claims
    ensures o.reply != Done ==> o.store == s
    ensures o.reply == Done ==>
      && IsBuyer(o.store, item, u) && IsOpen(o.store, item)
      && o.store.claims.Keys == s.claims.Keys + {item}
      && (forall other :: other in s.claims ==> o.store.claims[other] == s.claims[other])
      && o.store.(claims := s.claims) == s
  {
    if item !in s.items then Outcome(ServerError, s)
    else if s.items[item].owner == u then Outcome(Redirected, s)
    else if item in s.claims then Outcome(Conflict, s)
    else Outcome(Done, s.(claims := s.claims[item := Claim(u, false)]))
  }

  /** The address guard is PHP truthiness, not presence: a postcode of "0"
      or "" turns the user away just as a missing one does, while any other
      text opens the page. */
  lemma GuardUsesTruthiness(postcode: string, address: string)
    ensures OpenPurchasePage(Some(Profile(Some("0"), Some(address)))) == Redirected
    ensures OpenPurchasePage(Some(Profile(Some(postcode), Some("")))) == Redirected
    ensures postcode != "" && postcode != "0" && address != "" && address != "0" ==>
      OpenPurchasePage(Some(Profile(Some(postcode), Some(address)))) == Done
  {
  }

  /** The guard protects only the page: `purchase` never looks at the
      profile, so a user the page turns away still gets the claim by
      posting to the purchase route directly. */
  lemma PurchaseSkipsProfileGuard(s: Store, u: UserId, item: ItemId, profile: Option<Profile>)
    requires OpenPurchasePage(profile) == Redirected
    requires item in s.items && !IsOwner(s, item, u) && item !in s.claims
    ensures Purchase(s, u, item).reply == Done
    ensures IsBuyer(Purchase(s, u, item).store, item, u)
  {
  }

  lemma PurchasePreservesValid(s: Store, u: UserId, item: ItemId)
    requires Valid(s)
    ensures Valid(Purchase(s, u, item).store)
    ensures ClaimsGrow(s, Purchase(s, u, item).store)
  {
    var t := Purchase(s, u, item).store;
    if t != s {
      forall i | 0 <= i < |t.messages|
        ensures var m := t.messages[i];
          IsParticipant(t, m.itemId, m.sender) && IsParticipant(t, m.itemId, m.receiver)
      {
        var m := s.messages[i];
        assert IsParticipant(s, m.itemId, m.sender) && IsParticipant(s, m.itemId, m.receiver);
      }
    }
  }

  /** Once an item is claimed, every later purchase of it is turned away,
      whoever asks, and the first buyer keeps the claim. */
  lemma SecondPurchaseRefused(s: Store, u: UserId, v: UserId, item: ItemId)
    requires Purchase(s, u, item).reply == Done
    ensures var t := Purchase(s, u, item).store;
      && Purchase(t, v, item).reply in {Conflict, Redirected}
      && Purchase(t, v, item).store == t
      && IsBuyer(Purchase(t, v, item).store, item, u)
  {
  }
}
