/** `storeRating` as written, and a checked variant that validates the
    request and keys its duplicate check on the storage key. */
module RatingLedger {
  import opened Domain
  import opened UserModel

  /** How the rated user's id reached the controller: as a JSON number, or
      as text, which is how the chat page's rating form sends it (form values
      copied into a JSON body stay strings). Lookups convert text; the strict
      self-rating comparison does not. */
  datatype IdParam = AsNumber(value: int) | AsText(value: int)

  /** PHP's `===` between the user's integer id and the request value. */
  predicate StrictlyEqual(u: UserId, p: IdParam) {
    p.AsNumber? && p.value == u
  }

  /** Some rating by `rater` on `item` exists: the key storage keeps unique. */
  predicate HasRatingKey(s: Store, rater: UserId, item: ItemId) {
    exists k :: 0 <= k < |s.ratings| && s.ratings[k].rater == rater && s.ratings[k].itemId == item
  }

  /** The `rating` column is a signed 32-bit `integer`. */
  const IntColumnMin: int := -0x8000_0000
  const IntColumnMax: int := 0x7FFF_FFFF

  predicate FitsIntColumn(v: int) {
    IntColumnMin <= v <= IntColumnMax
  }

  /** `storeRating`: 404 for an unknown item or rated user; 400 for a
      self-rating, for a repeat of the same (rater, rated, item), and for a
      deal that is not completed. The insert itself fails on a missing score
      (a not-null column), on a score outside the 32-bit column (a strict
      database refuses it), and on a second rating for (rater, item). */
  function StoreRating(s: Store, u: UserId, item: ItemId, rated: IdParam, score: Option<int>, comment: Option<string>): (o: Outcome)
    ensures item !in s.items ==> o == Outcome(NotFound, s)
    ensures item in s.items && rated.value !in s.users ==> o == Outcome(NotFound, s)
    ensures item in s.items && rated.value in s.users && StrictlyEqual(u, rated) ==> o == Outcome(BadRequest, s)
    ensures (&& item in s.items && rated.value in s.users && !StrictlyEqual(u, rated)
             && !HasRated(s, u, rated.value, item) && IsCompleted(s, item)
             && score.Some? && !FitsIntColumn(score.value)) ==> o == Outcome(ServerError, s)
    ensures o.reply != Done ==> o.store == s
    ensures o.reply == Done <==>
      && item in s.items && rated.value in s.users && !StrictlyEqual(u, rated)
      && !HasRated(s, u, rated.value, item) && IsCompleted(s, item)
      && score.Some? && FitsIntColumn(score.value) && !HasRatingKey(s, u, item)
    ensures o.reply == Done ==>
      o.store == s.(ratings := s.ratings + [Rating(u, rated.value, item, score.value, comment)])
  {
    if item !in s.items then Outcome(NotFound, s)
    else if rated.value !in s.users then Outcome(NotFound, s)
    else if StrictlyEqual(u, rated) then Outcome(BadRequest, s)
    else if HasRated(s, u, rated.value, item) then Outcome(BadRequest, s)
    else if !IsCompleted(s, item) then Outcome(BadRequest, s)
    else if score.None? then Outcome(ServerError, s)
    else if !FitsIntColumn(score.value) then Outcome(ServerError, s)
    else if HasRatingKey(s, u, item) then Outcome(Conflict, s)
    else Outcome(Done, s.(ratings := s.ratings + [Rating(u, rated.value, item, score.value, comment)]))
  }

  /** Storage uniqueness holds whatever the request: the insert is refused
      rather than duplicating (rater, item). */
  lemma StoreRatingPreservesValid(s: Store, u: UserId, item: ItemId, rated: IdParam, score: Option<int>, comment: Option<string>)
    requires Valid(s)
    ensures Valid(StoreRating(s, u, item, rated, score, comment).store)
    ensures ClaimsGrow(s, StoreRating(s, u, item, rated, score, comment).store)
  {
    var o := StoreRating(s, u, item, rated, score, comment);
    if o.reply == Done {
      var rs := o.store.ratings;
      forall i, j | 0 <= i < j < |rs| ensures !(rs[i].rater == rs[j].rater && rs[i].itemId == rs[j].itemId) {
        if j == |s.ratings| {
          assert rs[i] == s.ratings[i];
        }
      }
    }
  }

  /** A stored rating adds one to the rated user's count and its score to the
      sum behind their average. */
  lemma StoreRatingFeedsAverage(s: Store, u: UserId, item: ItemId, rated: IdParam, score: Option<int>, comment: Option<string>)
    requires StoreRating(s, u, item, rated, score, comment).reply == Done
    ensures var t := StoreRating(s, u, item, rated, score, comment).store;
      && RatingCount(t, rated.value) == RatingCount(s, rated.value) + 1
      && Sum(ReceivedScores(t, rated.value)) == Sum(ReceivedScores(s, rated.value)) + score.value
  {
    RatingAppendEffect(s, Rating(u, rated.value, item, score.value, comment), rated.value);
  }

  /** Repeating a successful rating is refused and writes nothing. */
  lemma SecondRatingRefused(s: Store, u: UserId, item: ItemId, rated: IdParam, score: Option<int>, comment: Option<string>,
                            score2: Option<int>, comment2: Option<string>)
    requires StoreRating(s, u, item, rated, score, comment).reply == Done
    ensures var t := StoreRating(s, u, item, rated, score, comment).store;
      && StoreRating(t, u, item, rated, score2, comment2) == Outcome(BadRequest, t)
  {
    var t := StoreRating(s, u, item, rated, score, comment).store;
    assert t.ratings[|s.ratings|] == Rating(u, rated.value, item, score.value, comment);
    assert HasRated(t, u, rated.value, item);
  }

  // ---------------------------------------------------------------------------
  // Counterexamples to what the tests and the schema expect

  /** A store with one completed deal: user 1 sold item 10 to user 2;
      user 3 is a bystander. */
  function Sample(): (s: Store)
    ensures Valid(s) && IsCompleted(s, 10)
  {
    Store({1, 2, 3}, map[10 := Item(1, 0)], map[10 := Claim(2, true)], [], [], 1, [])
  }

  /** The score's 1..5 range is not enforced: a 6 is stored. */
  lemma OutOfRangeScoreStored()
    ensures StoreRating(Sample(), 2, 10, AsNumber(1), Some(6), None).reply == Done
    ensures StoreRating(Sample(), 2, 10, AsNumber(1), Some(6), None).store.ratings[0].score == 6
  {
    assert !HasRated(Sample(), 2, 1, 10);
    assert !HasRatingKey(Sample(), 2, 10);
  }

  /** A bystander who took no part in the deal can rate its seller. */
  lemma BystanderRates()
    ensures !IsParticipant(Sample(), 10, 3)
    ensures StoreRating(Sample(), 3, 10, AsNumber(1), Some(1), None).reply == Done
  {
    assert !HasRated(Sample(), 3, 1, 10);
    assert !HasRatingKey(Sample(), 3, 10);
  }

  /** An id posted as text slips past the strict self-rating comparison. */
  lemma SelfRatingByForm()
    ensures StoreRating(Sample(), 2, 10, AsText(2), Some(5), None).reply == Done
    ensures StoreRating(Sample(), 2, 10, AsText(2), Some(5), None).store.ratings[0].rated == 2
  {
    assert !HasRated(Sample(), 2, 2, 10);
    assert !HasRatingKey(Sample(), 2, 10);
  }

  /** The duplicate check keys on (rater, rated, item) but storage on
      (rater, item): after the buyer rated the seller, rating the bystander
      for the same item passes every check and then hits the storage key. */
  lemma DuplicateCheckMissesStorageKey()
    ensures var t := StoreRating(Sample(), 2, 10, AsNumber(1), Some(5), None).store;
      && StoreRating(Sample(), 2, 10, AsNumber(1), Some(5), None).reply == Done
      && !HasRated(t, 2, 3, 10)
      && StoreRating(t, 2, 10, AsNumber(3), Some(4), None).reply == Conflict
  {
    assert !HasRated(Sample(), 2, 1, 10);
    assert !HasRatingKey(Sample(), 2, 10);
    var t := StoreRating(Sample(), 2, 10, AsNumber(1), Some(5), None).store;
    assert t.ratings == [Rating(2, 1, 10, 5, None)];
    assert HasRatingKey(t, 2, 10) by {
      assert t.ratings[0].rater == 2 && t.ratings[0].itemId == 10;
    }
  }

  /** A score one past the 32-bit column passes every check of the
      controller and fails only at the insert; the largest that fits is
      stored. */
  lemma ScoreBeyondColumnFails()
    ensures StoreRating(Sample(), 2, 10, AsNumber(1), Some(0x8000_0000), None) == Outcome(ServerError, Sample())
    ensures StoreRating(Sample(), 2, 10, AsNumber(1), Some(0x7FFF_FFFF), None).reply == Done
  {
    assert !HasRated(Sample(), 2, 1, 10);
    assert !HasRatingKey(Sample(), 2, 10);
  }

  // ---------------------------------------------------------------------------
  // The checked variant

  const MinScore: int := 1
  const MaxScore: int := 5
  const MaxCommentLength: nat := 500

  /** The request rules the rating tests expect (422 on failure): an
      existing item and rated user, a score from 1 to 5, a comment of at most
      500 characters. The code itself answers 404 for an unknown item or
      rated user. */
  predicate ValidateRating(s: Store, item: ItemId, rated: IdParam, score: Option<int>, comment: Option<string>) {
    && item in s.items
    && rated.value in s.users
    && score.Some? && MinScore <= score.value <= MaxScore
    && (comment.Some? ==> |comment.value| <= MaxCommentLength)
  }

  /** A rating one participant of a completed deal left for the other. */
  predicate WellFormedRating(s: Store, r: Rating) {
    && MinScore <= r.score <= MaxScore
    && (r.comment.Some? ==> |r.comment.value| <= MaxCommentLength)
    && r.itemId in s.items && IsCompleted(s, r.itemId)
    && IsParticipant(s, r.itemId, r.rater)
    && r.rated == Counterparty(s, r.itemId, r.rater)
    && r.rated != r.rater
  }

  predicate RatingsWellFormed(s: Store) {
    forall k :: 0 <= k < |s.ratings| ==> WellFormedRating(s, s.ratings[k])
  }

  /** `storeRating` with the request validated (422, as the rating tests
      expect for a bad score, a long comment or an unknown id), the code's own 400
      for a self-rating, a participant check of this model's own (only the
      buyer and the seller may rate, each the other; refused with 403), and
      the duplicate check on the storage key (400), so the insert can no
      longer fail. */
  function StoreRatingChecked(s: Store, u: UserId, item: ItemId, rated: IdParam, score: Option<int>, comment: Option<string>): (o: Outcome)
    ensures !ValidateRating(s, item, rated, score, comment) ==> o == Outcome(Invalid, s)
    ensures ValidateRating(s, item, rated, score, comment) && rated.value == u ==> o == Outcome(BadRequest, s)
    ensures o.reply != Done ==> o.store == s
    ensures o.reply in {Done, Invalid, Forbidden, BadRequest}
    ensures o.reply == Done <==>
      && ValidateRating(s, item, rated, score, comment)
      && item in s.claims && IsParticipant(s, item, u)
      && rated.value == Counterparty(s, item, u) && rated.value != u
      && IsCompleted(s, item) && !HasRatingKey(s, u, item)
    ensures o.reply == Done ==>
      o.store == s.(ratings := s.ratings + [Rating(u, rated.value, item, score.value, comment)])
  {
    if !ValidateRating(s, item, rated, score, comment) then Outcome(Invalid, s)
    else if rated.value == u then Outcome(BadRequest, s)
    else if item !in s.claims || !IsParticipant(s, item, u) then Outcome(Forbidden, s)
    else if rated.value != Counterparty(s, item, u) then Outcome(Forbidden, s)
    else if !IsCompleted(s, item) then Outcome(BadRequest, s)
    else if HasRatingKey(s, u, item) then Outcome(BadRequest, s)
    else Outcome(Done, s.(ratings := s.ratings + [Rating(u, rated.value, item, score.value, comment)]))
  }

  /** Every rating the checked variant stores is well formed, and the store
      stays valid. */
  lemma CheckedRatingPreservesInvariants(s: Store, u: UserId, item: ItemId, rated: IdParam, score: Option<int>, comment: Option<string>)
    requires Valid(s) && RatingsWellFormed(s)
    ensures var t := StoreRatingChecked(s, u, item, rated, score, comment).store;
      Valid(t) && RatingsWellFormed(t)
  {
    var o := StoreRatingChecked(s, u, item, rated, score, comment);
    if o.reply == Done {
      var rs := o.store.ratings;
      forall i, j | 0 <= i < j < |rs| ensures !(rs[i].rater == rs[j].rater && rs[i].itemId == rs[j].itemId) {
        if j == |s.ratings| {
          assert rs[i] == s.ratings[i];
        }
      }
      forall k | 0 <= k < |rs| ensures WellFormedRating(o.store, rs[k]) {
        if k < |s.ratings| {
          assert rs[k] == s.ratings[k];
          assert WellFormedRating(s, s.ratings[k]);
        }
      }
    }
  }

  /** After a stored rating, any further rating by the same rater on the
      item is refused by the duplicate check, whoever it names. */
  lemma CheckedSecondRatingRefused(s: Store, u: UserId, item: ItemId, rated: IdParam, score: Option<int>, comment: Option<string>,
                                   rated2: IdParam, score2: Option<int>, comment2: Option<string>)
    requires StoreRatingChecked(s, u, item, rated, score, comment).reply == Done
    ensures var t := StoreRatingChecked(s, u, item, rated, score, comment).store;
      && StoreRatingChecked(t, u, item, rated2, score2, comment2).reply in {Invalid, Forbidden, BadRequest}
      && StoreRatingChecked(t, u, item, rated2, score2, comment2).store == t
  {
    var t := StoreRatingChecked(s, u, item, rated, score, comment).store;
    assert t.ratings[|s.ratings|].rater == u && t.ratings[|s.ratings|].itemId == item;
    assert HasRatingKey(t, u, item);
  }

  /** Nobody rates themself, however the id is sent: a well-formed request
      naming the rater gets the code's self-rating 400, and nothing is
      written. */
  lemma CheckedNoSelfRating(s: Store, u: UserId, item: ItemId, score: Option<int>, comment: Option<string>)
    ensures var o := StoreRatingChecked(s, u, item, AsNumber(u), score, comment);
      o.store == s && o.reply == (if ValidateRating(s, item, AsNumber(u), score, comment) then BadRequest else Invalid)
    ensures var o := StoreRatingChecked(s, u, item, AsText(u), score, comment);
      o.store == s && o.reply == (if ValidateRating(s, item, AsText(u), score, comment) then BadRequest else Invalid)
  {
  }

  /** On a valid store the checked variant agrees with the code whenever the
      request is one the code accepts and the tests consider valid. */
  lemma CheckedAgreesOnGoodRequests(s: Store, u: UserId, item: ItemId, rated: IdParam, score: Option<int>, comment: Option<string>)
    requires Valid(s) && RatingsWellFormed(s)
    requires StoreRatingChecked(s, u, item, rated, score, comment).reply == Done
    ensures StoreRating(s, u, item, rated, score, comment) == StoreRatingChecked(s, u, item, rated, score, comment)
  {
    RatedImpliesKey(s, u, rated.value, item);
  }

  /** A rating of anyone by `rater` on `item` occupies the storage key. */
  lemma RatedImpliesKey(s: Store, rater: UserId, rated: UserId, item: ItemId)
    ensures HasRated(s, rater, rated, item) ==> HasRatingKey(s, rater, item)
  {
  }
}
