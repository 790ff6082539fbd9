# FleaMarketApp buyer–seller transactions in Dafny

This project models the transaction subsystem of the FleaMarketApp Laravel application. A buyer claims a listed item, which creates a `sold_items` row. Buyer and seller then talk in a per-item chat, and the buyer completes the deal, which mails the seller. Each side may rate the other afterwards. The state is one immutable `Store` record (`Domain.Store`) holding:

- items (owner, `updated_at`);
- claims, one per item (`buyer`, `is_completed`);
- chat messages, in storage order;
- ratings;
- the next message id;
- a log of completion-mail attempts.

Every controller action is a pure function from the store and the request to a reply class and a new store. The reply classes are:

- `Done`;
- `Redirected` and `Rejected`, redirects without and with an error flash;
- `Forbidden` (403), `NotFound` (404), `BadRequest` (400);
- `Invalid`, a failed form request: 422 when the client asks for JSON, as the rating requests do, and otherwise a redirect back with the errors, as for the chat page's send and edit;
- `Conflict`, a duplicate key the database refuses;
- `ServerError`, a null dereference.

The two actions that iterate over all claims are methods with loops: the chat sidebar and the my-page trading tab.

Modules:

| module | models |
|---|---|
| `Seqs` | counting, filtering, distinctness and insertion sort on sequences |
| `Domain` | the store, participants, store invariants, the 15-minute edit window |
| `MessageModel` | `Message::create` through the fillable list, `isUnread`, `markAsRead` |
| `Requests` | `MessageRequest` and `ItemRequest`, including PHP's `integer` rule |
| `UserModel` | the `User` unread counters, rating count and exact average |
| `Purchase` | `PurchaseController::index` guard and `purchase` |
| `Transactions` | `getUserTransactions` (sidebar), the my-page buy and trading tabs and count |
| `Thread` | `chat`, `sendMessage`, `updateMessage`, `deleteMessage` |
| `Completion` | `completeTransaction` |
| `RatingLedger` | `storeRating` as written, and a checked variant |
| `ProfileView` | the rating summary of `profile.blade.php` |
| `ChatView` | the view-state decisions of `chat.blade.php` |
| `Scenarios` | whole transactions run through the model |

Time is a natural number of seconds and is always passed in. Elapsed minutes follow Carbon's `diffInMinutes`: the absolute difference, truncated to whole minutes.

Laravel's order of checks is kept:

- For sends, the form request (a redirect back with errors) runs before the item lookup (404).
- For edits, route-model binding (404) runs before the form request (a redirect back with errors).

## Model

| member | source | states |
|---|---|---|
| `Seqs.SortDesc` | src/app/Http/Controllers/UserController.php:310-312 | the result is sorted non-increasingly by the key and is a permutation of the input |
| `Seqs.SortAsc` | src/app/Http/Controllers/UserController.php:194 | the result is sorted non-decreasingly by the key and is a permutation of the input |
| `Domain.FindMessage` | src/app/Http/Controllers/UserController.php:382 | route-model binding finds the first message with the id, or reports that none has it |
| `Domain.ParticipantsAreOwnerAndBuyer` | src/app/Http/Controllers/UserController.php:341-349 | in a valid store a participant's counterparty is never themself, is a participant too, and the two are the item's owner and the claim's buyer |
| `Domain.WindowInSeconds` | src/app/Http/Controllers/UserController.php:390-392 | for a message created no later than now, "at most 15 whole minutes" is "less than 16 minutes" in seconds |
| `MessageModel.Create` | src/app/Models/Message.php:12-24 | only fillable attributes survive creation: `image_path` and `edited_at` are dropped, the booleans default to false |
| `MessageModel.CreateKeepingImage` | src/database/migrations/2025_07_06_075830_add_image_to_messages_table.php:16-18 | with `image_path` fillable, the image path given is stored, and nothing else differs from `Create` |
| `MessageModel.MarkAsRead` | src/app/Models/Message.php:44-55 | the result is read and differs from the message in `is_read` alone |
| `MessageModel.MarkAsReadIdempotent` | src/app/Models/Message.php:52-55 | marking twice is marking once, and marking changes nothing exactly when the message was already read |
| `Requests.MessagePasses` | src/app/Http/Requests/MessageRequest.php:24-38 | a request passes exactly when the body is present, not blank and at most 400 characters, and a sent image is a png or jpeg of at most 2048 KB, measured in bytes |
| `Requests.ImageSizeBoundary` | src/app/Http/Requests/MessageRequest.php:36 | an image of exactly 2048 KB passes and one half a kilobyte larger fails; the bound is not rounded to whole kilobytes |
| `Requests.EditIgnoresImage` | src/app/Http/Requests/MessageRequest.php:27-31 | an edit is judged on its body alone, whatever image it carries |
| `Requests.ItemErrors` | src/app/Http/Requests/ItemRequest.php:25-35 | each field fails `required` exactly when it is missing or blank; a present price fails `integer` exactly when it is not integer text |
| `Requests.ItemPasses` | src/app/Http/Requests/ItemRequest.php:25-35 | the listing form passes exactly when all six fields are present and the price is integer text |
| `Requests.MessageKeyRoundTrip` | src/app/Http/Requests/ItemRequest.php:37-48 | every failing rule's message key leads back to that rule |
| `Requests.MessageKeysDistinct` | src/app/Http/Requests/ItemRequest.php:37-48 | different rules have different message keys |
| `Requests.DecimalText` | src/app/Http/Requests/ItemRequest.php:29 | a number's decimal text is canonical digits whose value is that number |
| `Requests.DecimalPriceIsInteger` | src/app/Http/Requests/ItemRequest.php:29 | every price in PHP's integer range written in decimal passes the `integer` rule |
| `UserModel.UnreadMessageCountForItem` | src/app/Models/User.php:86-92 | the per-item unread count never exceeds the overall count |
| `UserModel.UnreadMessageCountForPurchasedItems` | src/app/Models/User.php:97-108 | the bought-side count of open deals never exceeds the overall count |
| `UserModel.UnreadMessageCountForSoldItems` | src/app/Models/User.php:113-126 | the sold-side count of open deals never exceeds the overall count |
| `UserModel.TradingUnreadWithinTotal` | src/app/Models/User.php:131-135 | the bought and sold counts together never exceed the overall count, since no one buys their own item |
| `UserModel.UnreadAfterAppend` | src/app/Models/User.php:78-81 | a new message raises the overall count of its receiver by one if unread, and no one else's |
| `UserModel.AverageRating` | src/app/Models/User.php:156-167 | no average without ratings; otherwise the exact sum and number of the scores received |
| `UserModel.RatingAppendEffect` | src/app/Models/User.php:148-167 | a new rating adds one to the rated user's count and its score to their sum, and changes no one else's figures |
| `Purchase.GuardUsesTruthiness` | src/app/Http/Controllers/PurchaseController.php:20-23 | the address guard uses PHP truthiness: a postcode of "0" or an empty address turns the user away like a missing one, and any other postcode and address open the page |
| `Purchase.PurchaseSkipsProfileGuard` | src/app/Http/Controllers/PurchaseController.php:16-42 | the guard protects only the page: a user it turns away still gets the claim by posting to `purchase`, which never reads the profile |
| `Purchase.Purchase` | src/app/Http/Controllers/PurchaseController.php:29-42 | an unknown item fails on null; the owner is redirected home; a claimed item is refused by the key; otherwise exactly one open claim of the requester is added |
| `Purchase.PurchasePreservesValid` | src/database/migrations/2025_02_22_170000_add_is_completed_to_sold_items_table.php:17 | purchasing keeps the store invariants and never removes or changes an existing claim |
| `Purchase.SecondPurchaseRefused` | src/app/Models/SoldItem.php:12-14 | after a purchase, any further purchase of the item is refused (a key conflict, or a redirect for the owner), writes nothing, and the claim stays the first buyer's |
| `Transactions.LatestMessageAt` | src/app/Http/Controllers/UserController.php:261-268 | there is no latest time exactly when the user has no message on the item; otherwise it is the greatest creation time among them |
| `Transactions.RowsFor` | src/app/Http/Controllers/UserController.php:242-303 | an item contributes exactly the open deals the user is party to, without duplicates |
| `Transactions.CollectOpen` | src/app/Http/Controllers/UserController.php:242-308 | the collected rows are exactly the user's open deals as buyer or owner, except the excluded item, once each |
| `Transactions.GetUserTransactions` | src/app/Http/Controllers/UserController.php:239-313 | the sidebar lists the same rows sorted by latest message time, else `updated_at`, newest first |
| `Transactions.TradingTab` | src/app/Http/Controllers/UserController.php:81-144 | the trading tab lists every open deal of the user once, newest message first, deals without messages last, and has as many rows as the trading count |
| `Transactions.TradingCountIsOpenDeals` | src/app/Http/Controllers/UserController.php:150-161 | the counter beside the trading tab, open claims held plus own items with an open claim, counts each open deal of the user once, since nobody buys their own item |
| `Transactions.BuyTab` | src/app/Http/Controllers/UserController.php:74-80 | the buy tab holds exactly the items the user bought whose deal is completed |
| `Transactions.BuyAndTradingDisjoint` | src/app/Http/Controllers/UserController.php:74-144 | no item of a trading entry is on the buy tab |
| `Thread.ThreadOf` | src/app/Http/Controllers/UserController.php:189-196 | the thread holds exactly the item's messages the viewer sent or received, oldest first |
| `Thread.MarkReadOnItem` | src/app/Http/Controllers/UserController.php:198-201 | a message ends up read exactly when it was read or is on the item and addressed to the viewer; nothing else changes |
| `Thread.ChatEffect` | src/app/Http/Controllers/UserController.php:198-201 | opening the chat leaves the viewer nothing unread on the item and changes only read flags |
| `Thread.ChatEffectIdempotent` | src/app/Http/Controllers/UserController.php:198-201 | opening the chat a second time writes nothing |
| `Thread.ChatClearsItemUnread` | src/app/Http/Controllers/UserController.php:198-201 | the viewer's overall count drops by exactly their count on the item, and no one else's changes |
| `Thread.ChatEffectPreservesValid` | src/app/Http/Controllers/UserController.php:198-201 | marking read keeps the store invariants |
| `Thread.Chat` | src/app/Http/Controllers/UserController.php:174-234 | 404 for an unknown item, 403 for a non-participant, and no write in either case. Otherwise the page shows the thread as it was before marking, and the sidebar shows the other open deals, newest first. The controller's completion flag holds only for the buyer. The page may rate exactly when the deal is completed and not yet rated. |
| `Thread.SendMessage` | src/app/Http/Controllers/UserController.php:318-377 | checks in order: a failed form request (sent back with errors), 404, 403 for a non-participant, refusal for the buyer of a completed deal, a null failure for an owner with no claim. On success exactly one unread, unedited message to the counterparty is appended with a fresh id. |
| `Thread.SendPreservesValid` | src/app/Http/Controllers/UserController.php:318-377 | sending keeps the store invariants, message ids stay fresh and unique |
| `Thread.SendRaisesReceiverUnread` | src/app/Http/Controllers/UserController.php:367-374 | a sent message raises the receiver's unread count by one and no one else's |
| `Thread.ImageDroppedOnSend` | src/app/Http/Controllers/UserController.php:351-374 | as written, a message sent with an image is stored with no image path |
| `Thread.SendMessageKeepingImage` | src/app/Http/Controllers/UserController.php:351-374 | with the path kept, the reply and the store are as before, except that the new message carries an image path exactly when an image was sent |
| `Thread.UpdateMessage` | src/app/Http/Controllers/UserController.php:382-401 | 404 for an unknown id, then a failed form request, then 403 for anyone but the sender, then 403 outside 15 whole minutes. A success sets the body and the edited flag of that message alone. `edited_at` is never set. |
| `Thread.UpdatePreservesValid` | src/app/Http/Controllers/UserController.php:382-401 | editing keeps the store invariants |
| `Thread.DeleteMessage` | src/app/Http/Controllers/UserController.php:406-424 | 404 for an unknown id, 403 for anyone but the sender, a refusal outside the window. A success removes the message outright and keeps every other one. |
| `Thread.DeleteRemovesOne` | src/app/Http/Controllers/UserController.php:420-421 | in a store with unique ids, a delete removes exactly one message |
| `Thread.DeleteIsFinal` | src/app/Http/Controllers/UserController.php:420-421 | after a delete the id is unknown to both a second delete and an edit, and the message is in no thread |
| `Thread.DeletePreservesValid` | src/app/Http/Controllers/UserController.php:406-424 | deleting keeps the store invariants |
| `Completion.CompleteTransaction` | src/app/Http/Controllers/UserController.php:429-478 | 404, 403 for anyone but the buyer, 400 for a completed deal, and none of these writes or mails. Otherwise the claim alone becomes completed and exactly one mail to the seller is attempted. |
| `Completion.MailFailureKeepsCompletion` | src/app/Http/Controllers/UserController.php:451-475 | a failed mail leaves the same store and reply as a delivered one |
| `Completion.CompletionPreservesValid` | src/app/Http/Controllers/UserController.php:429-478 | completing keeps the store invariants and every claim |
| `Completion.CompletionIsFinal` | src/app/Http/Controllers/UserController.php:435-447 | after completion no later attempt by anyone writes or mails anything |
| `Completion.CompletionMovesUnread` | src/app/Models/User.php:97-126 | completion leaves every overall unread count alone. It removes the item's unread messages from the buyer's bought-side count and from the owner's sold-side count. |
| `Completion.CompletionMovesItemToBuyTab` | src/app/Http/Controllers/UserController.php:74-161 | completion moves the item from the buyer's trading entries to their buy tab, and lowers both sides' trading counts by one |
| `Completion.RepeatedCompletionRejected` | src/app/Http/Controllers/UserController.php:444-446 | as written, a repeated completion by the buyer is a 400, where the idempotent version answers success with the same store |
| `Completion.CompleteTransactionIdempotent` | src/app/Http/Controllers/UserController.php:429-478 | a repeated completion by the buyer is a success that writes and mails nothing; every other request is answered as before |
| `Completion.IdempotentCompletionTwice` | src/app/Http/Controllers/UserController.php:429-478 | asking twice yields success both times, the same store, and at most one mail |
| `RatingLedger.StoreRating` | src/app/Http/Controllers/UserController.php:480-525 | checks in order: 404 item, 404 rated user, 400 strict self-rating, 400 already rated this user on the item, 400 deal not completed. The insert then fails on a null score, a score outside the 32-bit `integer` column, or a duplicate (rater, item). Exactly one rating is appended on success. |
| `RatingLedger.ScoreBeyondColumnFails` | src/database/migrations/2025_02_22_160000_create_ratings_table.php:21 | as written, a score of 2^31 passes every check of the controller and fails at the insert; 2^31 - 1 is stored |
| `RatingLedger.StoreRatingPreservesValid` | src/database/migrations/2025_02_22_160000_create_ratings_table.php:26 | whatever the request, storage keeps at most one rating per rater and item |
| `RatingLedger.StoreRatingFeedsAverage` | src/app/Models/User.php:156-167 | a stored rating adds its score to the rated user's sum and one to their count |
| `RatingLedger.SecondRatingRefused` | src/app/Http/Controllers/UserController.php:500-507 | after a stored rating, any further rating by the same rater on the item is refused without a write |
| `RatingLedger.OutOfRangeScoreStored` | src/app/Http/Controllers/UserController.php:516-522 | as written, a score of 6 is stored |
| `RatingLedger.BystanderRates` | src/app/Http/Controllers/UserController.php:480-525 | as written, a user who is neither buyer nor seller rates the seller |
| `RatingLedger.SelfRatingByForm` | src/app/Http/Controllers/UserController.php:495-497 | as written, a user rates themself when their id arrives as text |
| `RatingLedger.DuplicateCheckMissesStorageKey` | src/app/Http/Controllers/UserController.php:500-503 | as written, a second rating on the same item naming another rated user passes the duplicate check and is refused only by the database key |
| `RatingLedger.StoreRatingChecked` | src/app/Http/Controllers/UserController.php:480-525 | with request rules, the code's 400 for a self-rating, a participant check and a duplicate check on the storage key: a rating is stored exactly when it is valid, by a participant of a completed deal, about the counterparty, and the first on the item. The database never has to refuse it. |
| `RatingLedger.CheckedRatingPreservesInvariants` | src/database/migrations/2025_02_22_160000_create_ratings_table.php:26 | the checked variant stores only ratings from 1 to 5 by one participant about the other, and keeps the store valid |
| `RatingLedger.CheckedSecondRatingRefused` | src/app/Http/Controllers/UserController.php:500-507 | in the checked variant, after a stored rating any further rating by the rater on the item is refused before the insert, whoever it names, and writes nothing |
| `RatingLedger.CheckedNoSelfRating` | src/app/Http/Controllers/UserController.php:495-497 | in the checked variant nobody rates themself, whether the id arrives as a number or as text: a request that passes the rules gets the code's self-rating 400, any other the 422, and nothing is written |
| `RatingLedger.CheckedAgreesOnGoodRequests` | src/app/Http/Controllers/UserController.php:480-525 | on every request the checked variant accepts, the code as written does the same thing |
| `ProfileView.RoundedTenths` | src/resources/views/profile.blade.php:81 | the shown tenths are the mean rounded to the nearest tenth, halves away from zero |
| `ProfileView.RoundedTenthsIsNearest` | src/resources/views/profile.blade.php:81 | the shown tenths lie within half a tenth of the mean |
| `ProfileView.Grouped` | src/resources/views/profile.blade.php:81 | `number_format`'s integer part: the digits with a comma exactly before each group of three counted from the right, so one comma per full group after the first digit, and removing the commas gives the digits back |
| `ProfileView.TenthsText` | src/resources/views/profile.blade.php:81 | one decimal after a point, a minus sign only for a negative value, commas in the integer part exactly every three digits counted back from the point, and with the commas removed the plain decimal text of the rounded value |
| `ProfileView.Stars` | src/resources/views/profile.blade.php:65-78 | five slots: filled up to the floor of the mean, then one half star when the fraction is at least a half, then empty |
| `ProfileView.StarsMatchMean` | src/resources/views/profile.blade.php:65-67 | the full-star count is the floor of the mean, and the half star marks a fraction of at least a half |
| `ProfileView.AtMostOneHalfStar` | src/resources/views/profile.blade.php:70-78 | at most one slot is half, and none once five are full |
| `ProfileView.RatingSummary` | src/resources/views/profile.blade.php:62-88 | "no ratings yet" exactly when the user has none. Otherwise the block shows the stars and the rounded average of the received scores, with thousands separated by commas, and the count equals the number of ratings received. |
| `ProfileView.DisplayExamples` | src/resources/views/profile.blade.php:81 | means 13/3, 10/3, 7/2 and 8/2 show as 4.3, 3.3, 3.5 and 4.0 |
| `ProfileView.ThousandsExamples` | src/resources/views/profile.blade.php:81 | a mean of 1000 shows as "1,000.0" and one of -1000 as "-1,000.0" |
| `ProfileView.MillionsExample` | src/resources/views/profile.blade.php:81 | 1234567.8 shows as "1,234,567.8" |
| `ProfileView.DisplayAndStarsDiffer` | src/resources/views/profile.blade.php:65-81 | a mean of 3.45 shows as 3.5 beside three full stars and no half star |
| `ChatView.Badge` | src/resources/views/chat.blade.php:31-35 | no badge at zero, "9+" above nine, otherwise the count's single digit |
| `ChatView.RenderSidebar` | src/resources/views/chat.blade.php:25-49 | "no other transactions" exactly when the list is empty; otherwise one row per deal in order, with its badge and partner role |
| `ChatView.PartnerOf` | src/resources/views/chat.blade.php:56-67 | the partner is the owner for the buyer and the claim's buyer for the owner; nobody for anyone else; a failure for an owner whose item has no claim |
| `ChatView.PartnerIsCounterparty` | src/resources/views/chat.blade.php:56-67 | the heading's partner is the counterparty the controller sends messages to |
| `ChatView.ViewStateOf` | src/resources/views/chat.blade.php:55-92 | the page's completion flag reads the claim for any viewer. Any participant of a completed deal may rate. "Already rated" is looked up against the partner, and only when there is one. |
| `ChatView.MessageControls` | src/resources/views/chat.blade.php:170-181 | delete shows exactly on the viewer's own messages within 15 whole minutes; edit also needs non-empty text |
| `ChatView.ControlsMatchController` | src/resources/views/chat.blade.php:170-181 | the delete control shows exactly when the delete would succeed, and likewise an edit with any acceptable text |
| `ChatView.ActionFor` | src/resources/views/chat.blade.php:102-117 | the first matching row of the action table, stated one action at a time |
| `ChatView.ActionArea` | src/resources/views/chat.blade.php:96-120 | the action area is drawn exactly when there is a partner heading, and then follows the table |
| `ChatView.CompleteButtonMatchesController` | src/resources/views/chat.blade.php:102-104 | the complete button shows exactly when completion would succeed |
| `ChatView.BuyerRateButtonStores` | src/resources/views/chat.blade.php:105-107 | the buyer's rate button appears only after completion, and the rating it sends with one of the form's five star values is stored |
| `ChatView.SellerRateButtonBeforeCompletion` | src/resources/views/chat.blade.php:108-110 | as written, the owner of an open deal is offered the rate button, and the rating it sends is always refused |
| `ChatView.ActionForCorrected` | src/resources/views/chat.blade.php:102-117 | with completion required on the seller's row, the rate button shows exactly for an unrated participant of a completed deal |
| `ChatView.CorrectedRateButtonSucceeds` | src/resources/views/chat.blade.php:102-117 | every rate button of the corrected table leads to a rating the checked ledger stores |
| `ChatView.KeyImpliesRated` | src/database/migrations/2025_02_22_160000_create_ratings_table.php:26 | in a well-formed ledger, a rating stored under (rater, item) rates the rater's counterparty |
| `ChatView.InputAreaFor` | src/resources/views/chat.blade.php:190-230 | the message form shows exactly while the deal is open. Afterwards a completion notice shows, asking to rate until the viewer has. |
| `ChatView.RatingPromptRule` | src/resources/views/chat.blade.php:191-207 | the rating prompt shows exactly to a participant of a completed deal who has not rated the partner on this item |
| `ChatView.FormHiddenButOwnerMaySend` | src/resources/views/chat.blade.php:191-230 | after completion the page hides the form from the owner, yet the controller still accepts the owner's message |
| `Scenarios.ClaimAndFirstMessage` | src/app/Http/Controllers/PurchaseController.php:29-42 | a buyer claims, sends "hello"; the seller has one unread message until opening the chat, and none after |
| `Scenarios.CompleteAndRate` | src/app/Http/Controllers/UserController.php:429-525 | the seller cannot complete and the buyer can, with one mail. The buyer's 5 for the seller is stored and averages 5. A second rating and a second completion are refused with 400. |
| `Scenarios.EditWindowScenario` | src/app/Http/Controllers/UserController.php:382-401 | an edit at ten minutes succeeds, one at sixteen is refused, the other party is refused at ten and at sixteen minutes, and the creation time never moves |

## Left out

- The current time, mail delivery and file storage are parameters:
  - `now` is a number of seconds;
  - `mailOk` says whether the mailer accepted the completion mail;
  - an uploaded image's stored path is a fixed string.

  Logging, sessions, flash texts and redirect targets are dropped; only the reply class is kept.
- HTML, CSS and the views' JavaScript (modals, `fetch`, image preview) are not modelled. The chat view is modelled only through its derived decisions.
- The view's image display and the `file_exists` check are not modelled. Only whether a path is stored is.
- `ChatView.PartnerOf`: the heading's partner name is not modelled. For an owner whose item has no claim, the source reads a property of null. The model reports this as `NullClaim` and draws no action area, rather than modelling the error page.
- Authentication and middleware are not modelled: the acting user is always given. `MessageRequest` and `ItemRequest` authorise every caller, so the model has no authorisation step there.
- `MessageController::destroy` is not routed and is not part of this model.
- The my-page default tab (the user's own listings), profile and address editing, registration, and `mypage.blade.php` are not part of this model. That view repeats the badge and star logic modelled here.
- Database concurrency is not modelled. The unique keys on `sold_items.item_id` and on (`rater_id`, `item_id`) are store invariants, and a violating insert answers `Conflict`.
- `UserModel.AverageRating`: the floating-point `avg` is modelled as an exact (sum, count) fraction. Rounding follows `number_format` on that fraction, with its default "," thousands separator. This agrees with PHP whenever the floating-point mean rounds to the same tenth, as it does for means of small integer scores.
- Ids are integers. The rated user's id in `storeRating` may arrive as a JSON number or as text, and only the strict self-check tells them apart.
- `Thread.Chat`, `Transactions.GetUserTransactions` and `Transactions.TradingTab`: the order among deals with equal keys is not specified. The source's `arsort` keeps purchased deals before sold ones among ties; the model proves only that the order is non-increasing.
- `ChatView.BuyerRateButtonStores` assumes every stored rating is well formed and the seller's id is positive. Otherwise a rating by the buyer under another rated user would block the insert.
- Names, images and other display fields of items and users are not modelled.
- `Purchase.Purchase`: the `purchase` route middleware (src/routes/web.php:44) is not part of this model. It redirects a purchase of a sold item before the controller runs; the model answers that case `Conflict`, the refusal the storage key would give.
- `Requests.MessagePasses`: Laravel's `TrimStrings` middleware trims the message before validation and storage. The model judges and stores the text as received. It treats a whitespace-only body as blank, but a padded body counts its padding toward the 400 characters and is stored untrimmed.
- `RatingLedger.StoreRating`: the score is an integer. Non-numeric text in the score field, which a strict database would also refuse at the insert, is not modelled. The 32-bit column range is modelled, assuming the database's strict mode.

## Findings

| source | as written | input that shows it | evidently intended | confidence | as-written member | corrected member |
|---|---|---|---|---|---|---|
| src/app/Http/Controllers/UserController.php:444-446 | completing an already-completed deal answers 400 | the buyer completes, then completes again | a repeated completion by the buyer answers success, with no write and no second mail, as the completion-mail tests expect | high, not executed | `Completion.RepeatedCompletionRejected` | `Completion.CompleteTransactionIdempotent` |
| src/app/Http/Controllers/UserController.php:516-522 | `storeRating` stores any score and lets anyone rate | score 6 on a completed deal; user 3, neither buyer nor seller, rating the seller | scores 1 to 5 and comments of at most 500 characters, refused with 422 as the rating tests expect; only a participant rating the counterparty, a rule no test covers that the model infers from the chat page offering to rate only the partner | high, not executed | `RatingLedger.OutOfRangeScoreStored` | `RatingLedger.StoreRatingChecked` |
| src/app/Http/Controllers/UserController.php:480-525 | a non-participant's rating is stored | user 3 rates user 1 on item 10, sold by 1 to 2 | only the buyer and the seller may rate, each the other | high, not executed | `RatingLedger.BystanderRates` | `RatingLedger.CheckedRatingPreservesInvariants` |
| src/app/Http/Controllers/UserController.php:500-503 | the duplicate check looks for (rater, rated, item), but storage is unique on (rater, item) | the buyer rates the seller, then posts a rating of a third user on the same item | a second rating on the item is refused by the duplicate check, not by the database key | high, not executed | `RatingLedger.DuplicateCheckMissesStorageKey` | `RatingLedger.CheckedSecondRatingRefused` |
| src/app/Http/Controllers/UserController.php:495-497 | the self-rating check compares an integer id with the request value using `===` | the buyer posts `rated_user_id` as the text "2", their own id, as the page's form does | a user can never rate themself | medium, not executed | `RatingLedger.SelfRatingByForm` | `RatingLedger.CheckedNoSelfRating` |
| src/app/Http/Controllers/UserController.php:367-374 | `image_path` is passed to `create`, but it is not fillable, so it is dropped | a message sent with a png image | the stored message keeps the image path that the migration added and the chat page displays | high, not executed | `Thread.ImageDroppedOnSend` | `Thread.SendMessageKeepingImage` |
| src/resources/views/chat.blade.php:108-110 | the seller's rate button shows while the deal is open | the owner of an item whose claim is open opens the chat | the seller's row requires completion, like the buyer's | medium, not executed | `ChatView.SellerRateButtonBeforeCompletion` | `ChatView.ActionForCorrected` |

Other behaviour the model keeps as written, without calling it a defect:

- The owner may still send messages after completion; only the buyer is blocked.
- An owner sending on an unclaimed item fails on null.
- The controller's completion flag for the chat page is true only for the buyer, though the view recomputes it for both sides.
- `edited_at` is never written.
