# Verified model of the Polymarket client's stateful and numeric core

A Dafny model of the parts of the client whose correctness is not visible from one function body, with
proofs of what they are for. `dafny verify dfyconfig.toml` checks everything.

- **Market subscriptions** (`SortedStrings`, `MarketCounts`, `MarketProtocol`, `MarketClient`). Reference
  counts per asset and feature decide which frames go to the server. `MarketProtocol` interleaves calls,
  failed or half-delivered writes, connection swaps, disconnects and replays, and keeps the server's view
  beside the client's counts. `MarketClient` is the client as an object, tied to the same functions.
- **Reconnects and subscription lists** (`Reconnect`, `SubscriptionLists`). The compare-and-swap protocol
  of both WebSocket clients, its backoff, and the rollback of failed subscriptions among other calls.
- **RFQ session** (`RfqMessages`, `PendingTable`, `RfqSession`, `AfterShutdown`, `CallHistories`, `LiveSession`).
  Correlation keys, one-shot reply channels, the read loop and shutdown, as atomic steps in any order; then the
  session as an object.
- **Order arithmetic** (`Rationals`, `OrderAmounts`, `OrderValidation`, `OrderSigning`, `OrderBuilder`).
  Reduced fractions, floors and ceilings on grids, what they mean for the price, and the gate every
  signed order passes.
- **Combo quotes** (`DecimalE6`, `QuoteBuilder`, `QuoteSubmission`). Decimal text to scaled integers,
  complementary prices, notional caps, and which built quotes the submission check accepts.
- **Combo legs** (`PositionOrder`, `ComboProtocol`, `ContractAbi`, `ComboContext`). Canonical leg lists,
  derived position ids and their decimal, byte and hex forms.
- **Safe batches** (`SafeMultiSend`). The packed MultiSend encoding and an independent decoder.

`Wrappers`, `Arithmetic`, `Bytes`, `Text` and `SignatureTypes` hold what several of these share.

Concurrent code is modelled as a state machine over its atomic actions (one lock region, one channel
operation, one atomic variable access, one network write); theorems about "every run" quantify over all
finite sequences of such steps. Where the source updates an object, a class does the same beside it and
its methods are proved against the functions the machine uses.

Three things one might expect of the code are false, and each has its input and its exact condition here. A
failed subscription does not always leave what the other calls alone would have left: its rollback can remove
another caller's live entry (`SubscriptionLists.RollbackTakesAnothersEntry`, `InterleavedRollback`). The map of
pending calls is not always empty after shutdown (`RfqSession.LateCallOutlivesShutdown`,
`AfterShutdown.MapAfterShutdown`). A cancel or confirm call can receive another call's ids when ids contain
colons (`RfqMessages.ColonsCollide`, `RepliesExactIff`).

The code and its own comment disagree in one place: `clob/amount.go:20` says a BUY order never implies more than
the limit price. That is false for some sizes with more than 6 decimals (price 0.99, size 0.0000019 gives
1 for 1). `OrderAmounts.BuyLimitIff` gives the exact condition on the size.

Values from outside are parameters: clocks, random salts, the outcome of each write and dial, Keccak, and
signatures. Numbers the source keeps in `big.Int` are unbounded integers here; 256-bit and 64-bit limits are
written out where the source checks or truncates.

## Model

| member | source | states |
|---|---|---|
| SortedStrings.CanonicalStrings | clob/ws/client.go:872-891 | the result is the strictly ascending list of exactly the distinct trimmed non-empty inputs |
| SortedStrings.UnionSortedStrings | clob/ws/client.go:893-904 | the union of two id lists, canonical, whichever list is empty |
| SortedStrings.CanonicalIdempotent | clob/ws/client.go:872-891 | canonicalising a canonical list changes nothing |
| SortedStrings.LessAfterPrefix | clob/ws/client.go:889 | the string order is lexicographic: after the longest common prefix the shorter text or the smaller character comes first |
| MarketCounts.IncrementAllCounts | clob/ws/client.go:122-129 | a subscribe adds exactly one reference per listed asset under its feature and touches no other count |
| MarketCounts.DecrementAllCounts | clob/ws/client.go:131-144 | an unsubscribe drops exactly one reference where there is one and touches no other count |
| MarketCounts.CountsDetermine | clob/ws/client.go:122-144 | no zero count or empty asset is ever kept: states with equal counts are equal |
| MarketCounts.UnsubscribeUndoesSubscribe | clob/ws/client.go:448-531 | unsubscribing after subscribing restores the state, whatever else is held on those assets |
| MarketClient.SubscriptionState.Increment | clob/ws/client.go:122-129 | the nested map after one increment |
| MarketClient.SubscriptionState.Decrement | clob/ws/client.go:131-144 | the nested map after one decrement, with empty entries deleted |
| MarketClient.SubscriptionState.MissingIDs | clob/ws/client.go:457-477 | the three id lists merge to exactly the assets that lack a subscription, a custom flag or a dump |
| MarketClient.SubscriptionState.SubscribePlan | clob/ws/client.go:457-488 | the frame of a subscribe call, or none; SubscribeWire says what is in it |
| MarketClient.ReleasedIDs | clob/ws/client.go:504-518 | exactly the assets whose last reference goes are released, and skipping zero counts changes nothing |
| MarketClient.UnsubscribePlan | clob/ws/client.go:504-526 | the unsubscribe frame, or none while any reference remains |
| MarketClient.ActiveAssetIDs | clob/ws/client.go:172-181 | all listed assets in order, whatever order the map yields |
| MarketClient.Client.SendMarketSubscription | clob/ws/client.go:560-575 | the frame as written, typed exactly when its operation is empty, reaches the loaded connection or the call fails |
| MarketClient.Client.SubscribeMarketAssets | clob/ws/client.go:448-493 | a call that succeeds adds one reference per distinct trimmed id and a call that fails none; it writes at most its one frame, and keeps client and server in agreement |
| MarketClient.Client.UnsubscribeMarketAssets | clob/ws/client.go:495-531 | the same for unsubscribe, one reference dropped where there is one |
| MarketClient.Client.ReplayMarketSubscription | clob/ws/client.go:533-558 | one frame that re-creates everything live on the server |
| MarketClient.Client.Connect | clob/ws/client.go:259-294 | refused when closed or not dialled, with nothing changed; otherwise the old connection is dropped, and once the replay succeeds the new server holds exactly the live assets |
| MarketProtocol.SubscribeAgrees | clob/ws/client.go:448-493 | the delta a subscribe sends is enough: agreement on assets, custom flags and dumps is kept |
| MarketProtocol.UnsubscribeAgrees | clob/ws/client.go:495-531 | removing only last references keeps agreement, even with custom and plain features mixed |
| MarketProtocol.UnsubscribeKeys | clob/ws/client.go:150-157 | the assets that disappear are exactly those whose last reference is dropped |
| MarketProtocol.ReplayAgrees | clob/ws/client.go:533-542 | one replay frame puts any connection in full agreement |
| MarketProtocol.PerformAgrees | clob/ws/client.go:448-542 | any call on a fixed connection, delivered or not, keeps the agreement |
| MarketProtocol.SubscribeWire | clob/ws/client.go:457-488 | to a server in agreement: no frame when it lacks nothing, else exactly the assets it lacks something of, typed and without operation exactly when it has no asset yet, the configured dump for order books, the custom flag for the three custom features |
| MarketProtocol.UnsubscribeWire | clob/ws/client.go:504-526 | no frame while nothing loses its last reference, else an unsubscribe of exactly the assets that do, without flags |
| MarketProtocol.ReplayWire | clob/ws/client.go:533-558 | always the typed first frame with all live assets, the dump exactly when an order book is counted, the custom flag exactly when a custom feature is |
| MarketProtocol.InvNext | clob/ws/client.go:448-575 | every step of every interleaving keeps the invariant |
| MarketProtocol.ServerAgreesOnEveryRun | clob/ws/client.go:448-542 | in every run, on a live replayed connection the server's assets are exactly the active ones and every live custom feature and order book is enabled there |
| MarketProtocol.ReplayEstablishesAgreement | clob/ws/client.go:533-542 | in every run a delivered replay on the current connection makes the server's assets the active ones |
| MarketProtocol.AgreementPersists | clob/ws/client.go:448-542 | in every run agreement is lost only with the connection, never through a call |
| MarketProtocol.FailedSendKeepsCounts | clob/ws/client.go:448-531 | in every run a call, from its begin to its write, applies its whole effect to the counts it began with or, when its send fails, leaves them all as they were, whatever happens to connections in between |
| Reconnect.OneReconnectLoop | clob/ws/client.go:746-787 | in every run at most one task holds the flag, and the flag is set exactly while one does |
| Reconnect.StaleFailureDetachesNothing | clob/ws/rtds/client.go:493-500 | in every run a connection is detached only for its own failure or a newer connection |
| Reconnect.BackoffSchedule | clob/ws/rtds/client.go:505-524 | in every run the k-th wait of a loop is min(2^k, 64) seconds |
| Reconnect.WaitDoubles | clob/ws/client.go:782-784 | doubling below a minute is the capped power of two |
| Reconnect.InvNext | clob/ws/client.go:746-787 | every step of the reconnect protocol keeps its invariant |
| Reconnect.NoReconnectUnlessEnabled | clob/ws/client.go:747-752 | without automatic reconnects no run sets the flag or changes the connection by itself |
| Reconnect.CloseStopsLoops | clob/ws/client.go:766-774 | in every run a loop waits at most once more after Close, and only if it was already waiting |
| Reconnect.Connector.ScheduleReconnect | clob/ws/client.go:746-787 | one uninterrupted run: the flag is released, nothing happens for a stale failure, waits follow the schedule, the first successful dial attaches |
| SubscriptionLists.RollbackRestoresIff | clob/ws/rtds/client.go:327-341 | taking a failed batch back restores the list exactly, duplicates included, if and only if every entry marshals |
| SubscriptionLists.RemoveEachTail | clob/ws/rtds/client.go:335-338 | removing the batch entry by entry, in any order, removes exactly the appended tail |
| SubscriptionLists.RemoveLastKeys | clob/ws/rtds/client.go:535-543 | a removal takes away one entry with the identity, or nothing |
| SubscriptionLists.InterleavedRollback | clob/ws/client.go:577-592 | with any appends and removals of other calls in between, a failed batch leaves the identities the others alone would have left if and only if every entry has an identity and, for each, no removal in the others' own run misses it or it is absent at the end of that run |
| SubscriptionLists.RollbackTakesAnothersEntry | clob/ws/client.go:577-592 | an input where a failed send removes another caller's live entry |
| SubscriptionLists.InterleavedAppends | clob/ws/client.go:577-586 | with only appends in between the rollback disturbs nobody |
| SubscriptionLists.RemoveLastAt | clob/ws/client.go:792-798 | the backward scan removes the last entry with the identity, or nothing |
| SubscriptionLists.SameStrings | clob/ws/client.go:855-870 | decides multiset equality of two lists |
| SubscriptionLists.UserSubscriptions.RemoveMatching | clob/ws/client.go:789-799 | the last entry with the same markets in any order goes, and nothing else |
| SubscriptionLists.UserSubscriptions.AddUserAndSend | clob/ws/client.go:577-586 | with other calls acting while the frame is sent: a failed send leaves what they alone would have left exactly when they do not need the entry; with none in between the list is as it was |
| SubscriptionLists.UserSubscriptions.RemoveUserAndSend | clob/ws/client.go:588-592 | the entry goes whether or not the frame is sent |
| SubscriptionLists.RtdsSubscriptions.RemoveSubscription | clob/ws/rtds/client.go:535-556 | the last entry with the same JSON goes; an entry that does not marshal matches nothing |
| SubscriptionLists.RtdsSubscriptions.SubscribeMany | clob/ws/rtds/client.go:253-341 | the same for a batch, which must also marshal; with none in between the list is restored exactly when every entry marshals |
| RfqMessages.DispatchedKey | combo/ws/client.go:401-447 | the key a message resolves is built from the ids it carries, errors included |
| RfqMessages.ReplyIsDispatched | combo/ws/client.go:401-447 | every acknowledgement or error that answers a call by kind and ids is dispatched to that call's key with its content |
| RfqMessages.ReceivedFromOwnKind | combo/ws/client.go:401-447 | what a call receives is the content of an acknowledgement or error of its own kind, and with an unsplittable key of one with its ids |
| RfqMessages.DispatchOfOthers | combo/ws/client.go:343-453 | exactly complete replies resolve, other complete errors are reported, valid events pushed, and the rest ends the session |
| RfqMessages.RepliesFitTheirCall | combo/ws/client.go:161-237 | what reaches a call passes its type assertion; a quote reply has the requested RFQ id |
| RfqMessages.ColonFreeRepliesAreExact | combo/ws/client.go:574-593 | with colon-free RFQ ids cancel and confirm replies, errors included, carry the caller's own ids |
| RfqMessages.CorrelationUniqueIff | combo/ws/client.go:192-219 | the key determines the ids exactly when it has no second split at a colon |
| RfqMessages.RepliesExactIff | combo/ws/client.go:188-237 | a cancel or confirm call can receive only its own ids, from acknowledgements and errors, exactly when its key has no second split |
| RfqMessages.ColonsCollide | combo/ws/client.go:192 | two cancel calls that share a key, and an acknowledgement that reaches one with the other's ids |
| RfqMessages.KindsDiffer | combo/ws/client.go:169-219 | quote, cancel and confirm keys never coincide |
| PendingTable.StepRegister | combo/ws/client.go:253-277 | registration keeps one entry per key and the limit |
| PendingTable.StepLeave | combo/ws/client.go:278-293 | giving up keeps the invariant even when the key has been reused |
| PendingTable.StepResolve | combo/ws/client.go:294-307 | resolving sends once, to a channel that nobody else owns |
| PendingTable.CanRegisterIff | combo/ws/client.go:256-273 | a call may register exactly when its key is free and fewer than maxPending keys are taken |
| PendingTable.ReplyIsDelivered | combo/ws/client.go:294-307 | a message that answers a registered call puts exactly its content into that call's channel, removes that entry, and touches nothing else |
| PendingTable.UnexpectedReplyChangesNothing | combo/ws/client.go:294-307 | a reply nobody waits for changes nothing |
| PendingTable.StepSwap | combo/ws/client.go:654-657 | shutdown's swap moves every registered channel to shutdown |
| PendingTable.StepDrain | combo/ws/client.go:658-662 | one send of shutdown keeps the invariant |
| PendingTable.RemoveSingle | combo/ws/client.go:278-293 | removal deletes the caller's own entry or nothing |
| PendingTable.RemoveFirstAt | combo/ws/client.go:282-287 | the splice removes the first occurrence |
| PendingTable.TotalOfSingletons | combo/ws/client.go:266-269 | the counted total is the number of keys |
| RfqSession.InvNext | combo/ws/client.go:253-668 | every step of every interleaving of calls, read loop, Close and shutdown keeps the invariant |
| RfqSession.ChannelsAreOneShot | combo/ws/client.go:253-307 | in every run a channel has at most one owner and receives at most one send in its life; one entry per key; the total stays within maxPending |
| RfqSession.SendsNeverBlock | combo/ws/client.go:303-306 | in every run resolve's send and every step of shutdown are enabled |
| RfqSession.WaitersAreNeverLost | combo/ws/client.go:308-323 | in every run a waiting call has its reply or exactly one owner that will send it, and can leave once done is closed |
| RfqSession.GivingUpForgetsNobodyElse | combo/ws/client.go:278-293 | in every run a timeout or cancellation changes no other channel and no other registration |
| RfqSession.ResultsBelongToTheirCall | combo/ws/client.go:161-237 | in every run a result was dispatched to the caller's key and has its type; it carries the caller's ids when RFQ ids are colon-free or the key has no second split |
| RfqSession.RepliesReachTheirCall | combo/ws/client.go:294-307 | in every run a message that answers a registered call is in that call's channel, alone, after the reader's next step, whatever happens in between |
| RfqSession.NoSendAfterClose | combo/ws/client.go:325-342 | in every run no select with a send case runs on a closed events or errs channel, full or not |
| RfqSession.TerminalErrorIsLast | combo/ws/client.go:623-647 | in every run in which the read loop fails first, its error is the last value of the error stream |
| RfqSession.LateCallOutlivesShutdown | combo/ws/client.go:648-668 | a run in which the map is not empty after shutdown |
| AfterShutdown.MapStep | combo/ws/client.go:253-307 | apart from shutdown's swap, a channel leaves the map only by being resolved or when its own call gives up |
| AfterShutdown.Lifetime | combo/ws/client.go:253-307 | in every run a call registered after the swap is in the map exactly until it is resolved or gives up |
| AfterShutdown.MapAfterShutdown | combo/ws/client.go:648-668 | in every run, at every moment after the swap: the map holds only calls registered after it and before done closed, and is empty exactly when each of them has been resolved or has given up |
| AfterShutdown.EmptyUnlessCalledInBetween | combo/ws/client.go:648-668 | in every run, if no call registers between the swap and the closing of done, the map is empty from then on |
| CallHistories.OutcomesHaveCauses | combo/ws/client.go:308-323 | in every run a call waits only after its frame was written and returns only what happened to it: its reply, its timeout, its cancellation, its failed write or a closed done; a call that gave up has removed its entry |
| CallHistories.EventsComeInOrder | combo/ws/client.go:594-608 | in every run taken, queued and in-flight events are all valid events in the order read, except that a reader that stopped may have dropped the last |
| LiveSession.Session.AddPending | combo/ws/client.go:253-277 | registers exactly when open, the key is free and fewer than maxPending keys are taken |
| LiveSession.Session.CountPending | combo/ws/client.go:266-269 | the loop counts every registered channel |
| LiveSession.Session.RemovePending | combo/ws/client.go:278-293 | removes the first occurrence under the key and empties the key if it was the only one |
| LiveSession.Session.Resolve | combo/ws/client.go:294-307 | a message that answers a registered call puts exactly its content into that call's channel and takes its entry out; nothing else changes |
| LiveSession.Session.Push | combo/ws/client.go:594-608 | queued exactly when open and there is room |
| LiveSession.Session.ReportError | combo/ws/client.go:609-622 | kept when open and there is room, dropped otherwise |
| LiveSession.Session.ReportTerminalError | combo/ws/client.go:627-647 | before done the terminal error becomes the newest buffered error, displacing an older one |
| LiveSession.Session.ServePending | combo/ws/client.go:654-662 | every channel registered at the swap is told once, and no other |
| LiveSession.Session.Shutdown | combo/ws/client.go:648-668 | runs once; afterwards done is closed, every registered call is told, the invariant holds |
| Text.HexDecodeMeaning | relayer/safe.go:189 | decoding reads both cases alike: printing the bytes gives the text in lower case |
| Text.SameAddressIff | clob/sign_order.go:294-296 | two spellings name one address exactly when their digits agree up to case |
| Text.FoldedAddress | combo/builder.go:173-185 | spellings equal up to case name one address |
| Text.SignsAreRead | clob/validate.go:82 | digits are read with or without one sign |
| Text.OnlyIntegersAreRead | clob/validate.go:82 | nothing else is an integer |
| Text.TrimSpaceMeaning | clob/combo_protocol.go:99 | blanks at both ends go, and nothing else |
| Rationals.IsIntMeansIntegral | clob/validate.go:34-37 | in lowest terms the denominator is 1 exactly for integral values |
| Rationals.FloorOfQuotient | clob/amount.go:130-132 | dividing the parts gives the floor of the value |
| Rationals.TruncRat | clob/amount.go:130-132 | the floor |
| Rationals.CeilRat | clob/amount.go:134-143 | the ceiling |
| Rationals.TruncRatToQuantum | clob/amount.go:145-149 | the greatest multiple of the quantum not above the value |
| Rationals.CeilRatToQuantum | clob/amount.go:151-159 | the least multiple of the quantum not below the value |
| OrderAmounts.ComputeOrderAmounts | clob/amount.go:26-61 | exactly which inputs are refused, and the two printed amounts otherwise |
| OrderAmounts.LimitAmountsTight | clob/amount.go:26-61 | the four amounts are the tightest integers: the most within size and price times size, and for a seller's price the least not below it |
| OrderAmounts.SellMeetsLimit | clob/amount.go:22-25 | a seller never asks less than the limit price per share |
| OrderAmounts.BuyNearLimit | clob/amount.go:16-20 | a buyer offers less than the limit price for one unit more, whatever the size |
| OrderAmounts.BuyMeetsLimitOnGrid | clob/amount.go:16-20 | with at most 6 decimals in the size a buyer never offers more than the limit |
| OrderAmounts.BuyLimitIff | clob/amount.go:16-20 | the stated BUY limit holds for all prices in range exactly when the size has at most 6 decimals or is below one unit |
| OrderAmounts.BuyLimitBroken | clob/amount.go:20 | a price and a size that break the stated BUY limit |
| OrderAmounts.AlignedOrdersAreExact | clob/amount.go:26-61 | on a tick of 10^-k with at most 6 - k decimals in the size nothing is rounded and BUY and SELL are mirror images at exactly the price |
| OrderAmounts.ComputeMarketOrderAmounts | clob/amount.go:83-120 | exactly which inputs are refused, and the two printed amounts otherwise |
| OrderAmounts.MarketTakerIsLeast | clob/amount.go:74-75 | the taker amount meets the worst price, and an amount on the grid meets it exactly when it is not smaller |
| OrderAmounts.MarketMakerIsGreatest | clob/amount.go:65-72 | the maker amount is the greatest multiple of its grid within the amount |
| OrderAmounts.MarketMinimum | clob/amount.go:9-12 | amounts of at least 0.01, and only those, give positive amounts, and then at least one grid step each |
| OrderValidation.ValidPriceTicks | clob/validate.go:13-37 | a price passes exactly when it is an integral multiple of a positive tick, or one of the two is empty |
| OrderValidation.MultipleIff | clob/validate.go:34-37 | the reduced quotient is an integer exactly for multiples |
| OrderValidation.PrintedUint256 | clob/validate.go:74-101 | a printed integer passes exactly when it is in the range of a uint256 |
| OrderValidation.Uint256Meaning | clob/validate.go:74-101 | blank text passes exactly when not required, any other exactly when it reads as an integer in range |
| OrderValidation.ValidateBytes32Hex | clob/validate.go:40-57 | accepts the empty text and the prefixed hex of exactly 32 bytes |
| OrderSigning.Int64Fits | clob/sign_order.go:176 | the salt is a 64-bit integer, and one that fits is unchanged |
| OrderSigning.SignedOrder.PrepareOrderForSigning | clob/sign_order.go:121-187 | accepted exactly when the gate holds; the new fields; amounts, token and side untouched |
| OrderSigning.SignedOrder.PrepareDepositWalletOrderForSigning | clob/deposit_wallet_signing.go:110-190 | the same for deposit-wallet orders, with the inferred wallet |
| OrderSigning.SignedOrder.SignOrder | clob/sign_order.go:67-119 | signed exactly when the chain is known, its gate holds and the signing function succeeds |
| OrderSigning.GateMeaning | clob/sign_order.go:121-187 | the gate in terms of the numbers, bytes and addresses the fields stand for |
| OrderSigning.SignedFields | clob/sign_order.go:121-187 | a signed order keeps what was given and fills each gap with its default: addresses, hashes, salt, timestamp, expiration |
| OrderSigning.ResigningChangesNothing | clob/sign_order.go:121-187 | signing a signed order again is accepted and changes nothing, whatever salt and clock are at hand, if and only if its salt is positive and its timestamp was given or taken past the epoch |
| OrderBuilder.BuildOrder | clob/order_builder.go:87-122 | succeeds exactly when range, tick, amounts, chain, gate and signature do; the order carries the requested side, token, signature type, hashes, expiration and owner, and the amounts |
| OrderBuilder.BuildMarketOrder | clob/order_builder.go:124-155 | the same for market orders |
| OrderBuilder.SigningKeepsTheTrade | clob/sign_order.go:121-187 | signing changes neither amounts nor token nor side |
| OrderBuilder.GateOnAmounts | clob/sign_order.go:154-159 | the gate lets printed amounts through exactly when both are in 1..2^256-1 |
| OrderBuilder.SignedLimitOrder | clob/order_builder.go:87-122 | a signed limit order carries what was asked for and amounts in 1..2^256-1 that keep the limit of its own side, at a price on the tick |
| OrderBuilder.TickAlignedOrdersAreExact | clob/order_builder.go:91-96 | an order that passes the check of a tick 10^-k with a size of at most 6 - k decimals is not rounded: exact amounts, mirrored between BUY and SELL, at exactly the price |
| OrderBuilder.SignedMarketOrder | clob/order_builder.go:124-155 | a signed market order carries what was asked for and meets the worst price of its own side, with maker at least 10000 and taker at least 100 on their grids |
| OrderBuilder.MarketOrderSignableIff | clob/order_builder.go:124-155 | with nothing else wrong, exactly the market orders of at least 0.01 that fit a uint256 are signed |
| DecimalE6.DecimalMeaning | combo/builder.go:193-215 | which texts are accepted and what each means, odd fractions included |
| DecimalE6.AcceptedForm | combo/builder.go:193-198 | every accepted text has a whole part and at most one fraction |
| DecimalE6.DecimalIsExact | combo/builder.go:193-215 | on digit texts with at most 6 fraction digits the result is the value times 10^6 |
| DecimalE6.OddFractions | combo/builder.go:209-213 | a signed fraction is subtracted and a non-numeric one is ignored |
| QuoteBuilder.CeilMulDiv | combo/builder.go:224-228 | the least q with q times the divisor at least the product |
| QuoteBuilder.SourcesAreComplementary | combo/builder.go:99-131 | collateral payment plus inventory receipt is exactly the size, for BUY and SELL |
| QuoteBuilder.RequesterNeverLosesToRounding | combo/builder.go:99-131 | whatever the source, a buying requester pays the quoted price rounded down and a selling one gets it rounded up |
| QuoteBuilder.QuoterTakesTheOtherSide | combo/builder.go:99-126 | token, side and price fit: the order is the other side of the request, at the price of its token |
| QuoteBuilder.NotionalCap | combo/builder.go:76-80 | a notional request is never exceeded and one more unit would exceed it |
| QuoteBuilder.AmountsWithinSize | combo/builder.go:123-134 | both amounts are within the size; only an inventory receipt below one unit is zero |
| QuoteBuilder.TermsMeaning | combo/builder.go:63-134 | accepted terms: price, size, default size, cap and amounts in 1..size |
| QuoteBuilder.TermsExistIff | combo/builder.go:57-134 | exactly which requests and options have terms |
| QuoteBuilder.IdentityMeaning | combo/builder.go:164-191 | whose addresses a valid identity holds, by signature type |
| QuoteBuilder.SignatureLayout | combo/builder.go:271-273 | the wrapped signature: digest signature, domain separator, contents hash, order type, its length in two bytes |
| QuoteBuilder.SignedQuoteCarries | combo/builder.go:123-161 | every field of a built quote read back: price, size, side, token, amounts at the token's price, addresses, salt, time, hashes, signature |
| QuoteBuilder.AgreeTerms | combo/builder.go:57-134 | the terms, token, side and amounts, or a refusal |
| QuoteBuilder.ChooseSize | combo/builder.go:71-90 | the largest size, or the one asked for within it |
| QuoteBuilder.BuildAndSign | combo/builder.go:47-162 | succeeds exactly when identity, terms and signing do; the quote carries its terms in every field |
| QuoteSubmission.ParseUint256Field | combo/client.go:193-199 | accepts exactly the decimal texts of uint256 values |
| QuoteSubmission.SubmissionMeaning | combo/client.go:120-191 | the submission check in terms of numbers, bytes and lengths |
| QuoteSubmission.AcceptedNamesIdentity | combo/client.go:133-139 | an accepted order names the identity's own two addresses |
| QuoteSubmission.BuiltNumbers | combo/client.go:120-156 | the numeric checks of a built quote come down to size, token and clock |
| QuoteSubmission.BuiltShape | combo/client.go:128-191 | side, bytes32 fields, identity and signature length of a built quote always pass |
| QuoteSubmission.BuiltQuoteAcceptedIff | combo/client.go:99-191 | a built quote is accepted exactly when size and token fit a positive uint256 and the clock is past the epoch |
| PositionOrder.SortPositions | clob/combo_protocol.go:33 | the array becomes an ascending permutation of itself |
| PositionOrder.AscendingUnique | clob/combo_protocol.go:33 | an ascending list is determined by what it holds |
| ComboProtocol.AdjacentScanIsComplete | clob/combo_protocol.go:34-43 | after sorting, comparing neighbours finds every pair that shares a condition |
| ComboProtocol.DistinctByMultiset | clob/combo_protocol.go:34-43 | whether conditions are distinct does not depend on the order |
| ComboProtocol.LegOrderIsIrrelevant | clob/combo_protocol.go:17-45 | permuted legs have the same canonical list or are both refused |
| ComboProtocol.PositionIsRead | clob/combo_protocol.go:98-108 | a printed uint256 is read with blanks around it, a larger number is refused |
| ComboProtocol.LegMeaning | clob/combo_protocol.go:27-30 | as a number: most significant byte 1 or 2, least significant 0 or 1 |
| ComboProtocol.AcceptableMeaning | clob/combo_protocol.go:17-45 | acceptable legs in numbers: 1 to 50, no two with the same upper 31 bytes |
| ComboProtocol.ParseLegs | clob/combo_protocol.go:21-32 | succeeds exactly when every leg is a binary or neg-risk yes/no position |
| ComboProtocol.FindClash | clob/combo_protocol.go:34-43 | reports a clash exactly when two neighbours share a condition |
| ComboProtocol.SortedDecides | clob/combo_protocol.go:33-43 | the scan of the sorted list decides acceptability of the legs |
| ComboProtocol.CanonicalizeComboLegs | clob/combo_protocol.go:17-45 | succeeds exactly on 1 to 50 acceptable legs with distinct conditions, with their canonical list |
| ContractAbi.UintAndBytesRoundTrip | clob/combo_protocol.go:61-66 | a reader that follows the offset in the head gets both arguments back (Contract ABI Specification, "Formal Specification of the Encoding") |
| ContractAbi.UintArrayRoundTrip | clob/combo_protocol.go:53-60 | the same for an array of words |
| ContractAbi.TailShape | clob/combo_protocol.go:63 | bytes are padded with zeros to whole words, no more than needed |
| ContractAbi.NestedEncodingInjective | clob/combo_protocol.go:53-66 | different tuples have different encodings (Contract ABI Specification, "Formal Specification of the Encoding") |
| ContractAbi.WordsInjective | clob/combo_protocol.go:57 | lists of uint256 words are determined by their bytes |
| ContractAbi.BytesTailInjective | clob/combo_protocol.go:63 | a dynamic bytes argument is determined by its encoding |
| ComboContext.DeriveComboPositionContext | clob/combo_protocol.go:48-78 | the condition and both position ids, for any hash function |
| ComboContext.LegOrderKeepsContext | clob/combo_protocol.go:48-78 | permuted legs have the same condition and the same two position ids, or are both refused |
| ComboContext.PreimageReadsBack | clob/combo_protocol.go:53-66 | the hashed bytes read back as 3 and exactly the canonical legs, with nothing after them |
| ComboContext.ConditionNumber | clob/combo_protocol.go:67-77 | as numbers: the condition is 3, the low 16 bytes of the hash and 14 zero bytes; a position is 256 times it plus the outcome |
| ComboContext.DecodeMeaning | clob/combo_protocol.go:81-96 | a position id decodes exactly when its module is 3 and its outcome 0 or 1 |
| ComboContext.NormalizeIgnoresCase | combo/types.go:205 | upper- and lower-case spellings normalise alike |
| ComboContext.PreimagesDiffer | clob/combo_protocol.go:53-67 | two leg lists have the same preimage exactly when they have the same canonical list |
| ComboContext.DecodePrinted | clob/combo_protocol.go:81-96 | decoding a printed combo position gives back its condition and outcome |
| ComboContext.DerivedPositionsDecode | clob/combo_protocol.go:71-77 | both derived ids decode to the derived condition and their outcome |
| ComboContext.NormalizeIdempotent | combo/types.go:204-218 | normalising twice is normalising once, and normal forms are its fixed points |
| ComboContext.NormalizePositionHex | combo/types.go:204-218 | the hex of a combo position normalises to the hex of its decoded condition |
| SafeMultiSend.EncodeTransaction | relayer/safe.go:184-210 | one record, or an error exactly for a malformed transaction |
| SafeMultiSend.EncodeTransactions | relayer/safe.go:183-211 | the packed records of the whole list |
| SafeMultiSend.DenoteMeaning | relayer/safe.go:184-202 | a transaction is read as its own operation, value, and the bytes its address and data spell in any case |
| SafeMultiSend.ValueIsRead | relayer/safe.go:440-453 | a printed value is read with blanks around it below 2^256, blank text is zero |
| SafeMultiSend.RecordLayout | relayer/safe.go:204-210 | one byte, twenty, thirty-two, thirty-two and the data, big-endian |
| SafeMultiSend.BatchShape | relayer/safe.go:213-230 | the batch is a delegate call of value 0 to MultiSend with the selector of multiSend(bytes) |
| SafeMultiSend.CreateSafeMultiSendTransaction | relayer/safe.go:178-231 | succeeds exactly for non-empty well-formed lists |
| SafeMultiSend.AggregateSafeTransactions | relayer/safe.go:150-175 | one transaction passes through, several need the chain's MultiSend contract |
| SafeMultiSend.DecodeRecord | relayer/safe.go:204-210 | decoding starts with the first record, whatever follows |
| SafeMultiSend.CallsRoundTrip | relayer/safe.go:183-211 | the packed bytes of any list decode to exactly that list |
| SafeMultiSend.MultiSendDataRoundTrip | relayer/safe.go:213-224 | the contract reads the packed bytes back from the call data |
| SafeMultiSend.PassThroughKeepsMeaning | relayer/safe.go:154-168 | the one-transaction path changes the spelling, not the call |
| SafeMultiSend.AggregateMeansSequence | relayer/safe.go:150-231 | executing the aggregate means executing the list in order, for every way of executing a call |
| SafeMultiSend.PackSafeSignature | relayer/safe.go:351-376 | the hex of r and s unchanged and v in the Safe's range; other signatures refused |

## Left out

- HTTP clients, endpoint wrappers, JSON decoding and marshalling: I/O without invariants of their own; messages arrive decoded, and an RTDS subscription carries its JSON text or the fact that it has none.
- Keccak, ECDSA, HMAC, EIP-712 hashing and ERC-7739 wrapping: Keccak is any function to 32-byte words, signatures are parameters, and only the length of a wrapped signature is modelled.
- Contract address tables, chain checks before signing, Safe transaction hashes, nonces, CREATE2 addresses: only the Polygon MultiSend address is used.
- Expiration and post-only checks, posting, ValidateHexAddress, tick-size and neg-risk lookups: single comparisons or I/O.
- Real time and scheduling: timers and races are nondeterministic steps. Nothing is claimed about a reconnect happening eventually; a failure reported while the flag is held is dropped.
- The events decoded from the market and RTDS channels, heartbeats and the stale watchdog, except for the failures they report to the reconnect protocol.
- MarketProtocol.InvNext: the lock and the computation of the frame are one step, which is sound because the counts change only under that lock.
- RfqSession.InvNext: a single authentication frame is assumed, so the blocking send on the authentication channel is not a step; the validators of pushed events are one verdict per message.
- LiveSession.Session.Shutdown: the object's methods run without interruption; interleavings are in RfqSession, and calls that register after the swap in AfterShutdown.
- LiveSession.Session.Push: an uninterrupted run looks at done once; RfqSession has both looks.
- LiveSession.Session.ReportTerminalError: nobody drains the error buffer meanwhile; RfqSession has the version with a concurrent consumer.
- Reconnect.Connector.ScheduleReconnect: an uninterrupted run; running out of dial results stands for Close.
- SubscriptionLists.RtdsSubscriptions.SubscribeMany: other calls act between the append and the rollback; the removals of one batch rollback run together.
- MarketClient.Client.Connect: the stored URL, the callbacks and the started goroutines; the user subscriptions replayed with it.
- OrderAmounts.ComputeOrderAmounts: the grammar of big.Rat.SetString is not modelled; a field is empty or carries the fraction it parses to, if any.
- OrderBuilder.BuildOrder: validatePriceRange parses with a 64-bit big.Float; its verdict is a parameter, and no theorem here needs the price to be below 1.
- OrderBuilder.BuildMarketOrder: the same parameter for the verdict of validatePriceRange.
- OrderSigning.SignedOrder.SignOrder: the EIP-55 case of printed addresses is any printing that reads back to the same 20 bytes.
- SafeMultiSend.CreateSafeMultiSendTransaction: the same for the address of the MultiSend contract.
- SafeMultiSend.AggregateSafeTransactions: the same for the address of a single transaction.
- QuoteBuilder.AgreeTerms: error texts are not distinguished; BuildAndSign is split in three methods at the points where the source has finished the size and the amounts.
- ComboContext.PreimagesDiffer: collision resistance of the hash is not assumed, so it is about preimages only.
- SafeMultiSend.AggregateMeansSequence: the packed bytes and each data field are shorter than 2^256 bytes, and the MultiSend contract is characterised by its decoder.
- Text is a sequence of characters, not UTF-8 bytes: lengths in characters and bytes agree on ASCII text, which is all these formats use.
