# Perpetual futures exchange: a verified model

A Dafny model of the exchange's in-memory matching engine and of the services whose correctness rests on it:
the private event channel to the browser, the market maker's quote ladder, the public depth feed, decimal-string
money, the database writer and fill paging. `dafny verify dfyconfig.toml` checks everything.

Prices, quantities and money are exact numbers (`real`); the two-decimal rounding the engine applies to margins,
averages and liquidation prices is modelled as what it is, a monotone rounding that fixes whole cents. Where the
running code changes state step by step the model does too: `ExchangeEngine`, `UserFeedChannel`, `DbWriter` and
`Consumer` are classes whose methods update fields and loop as the code does, each proved equal to a function from
old state to new state. The laws are then proved about those functions, over single requests and over whole runs.

## Layout

- `Sequences`, `Rounding`, `Exchange`, `Books`, `Positions`: rounding, records, price levels and their queue, one-way netting.
- `Matching`, `Engine`, `EngineSteps`: one match, one order or cancel, one request; runs and reachable states.
- `EngineBooks`, `EngineLaws`, `EngineLedger`, `EnginePrices`, `EnginePrints`, `EngineRuns`: what every run keeps.
- `PositionWorth`, `OrderTerms`, `EngineClose`, `EngineResting`, `EngineLiquidations`, `EngineAccounts`, `EngineDepth`,
  `EngineReplies`: what one request comes to, said without the functions that compute it.
- `UserEvents`, `EventBatches`, `ExchangeEngine`: the engine class and the events it sends.
- `RestingOrders`, `ClientSync`, `PositionSync`, `FillSync`, `UserFeed`, `UserFeedChannel`: the client's tables against
  the engine.
- `QuoteLadder`, `LadderTerms`, `LadderReconcile`, `LadderConvergence`, `LadderScroll`, `MakerCycle`, `CycleConverges`: the
  maker.
- `MarketFeed`, `DepthFeed`, `Money`, `WriterTables`, `DbWriter`, `DbComms`, `FillPages`: the depth feed and the smaller
  cores.

## What the proofs found

- `createPosition` takes it that a position changes sides only on an order with margin (the comment at its sign
  switch, exchange-engine.ts:469). The guard in `placeOrder` lets any opposite order of up to twice the position
  through without margin, as its own comment says for 50 against 40, and drops the margin of one sent with equity.
  Such an order turns the position round exactly when others take more of it than is held
  (`MarginFreeOrderFlipsIff`), at once or after resting (`RestingOrdersFlipIff`). The new position has no margin, is
  liquidated at its own entry price, and leaves the old margin locked (`TwiceThePositionTurnsRound`).
- Fill paging can lose fills. The database stamps fills to the microsecond and gives all fills of a transaction the
  same stamp; the cursor carries milliseconds. When a page ends inside such a group the rest of it is on no page
  (`SplitTransactionLosesAFill`). The exact condition is that every page ends at a clean cut
  (`WalkVisitsEveryFillOnceIff`); whole milliseconds always do.
- A positive spread alone does not keep the ladder uncrossed. It takes a spread of more than twice the tick epsilon
  in grid cells; `TouchesNeverMeetIff` and `LadderIsUncrossedIff` have both directions.
- The maker can trade with itself in three ways: a crossing order's cancel fails, which is logged and no more
  (`FailedCancelSelfTrades`); a crossing order is live but not yet in the database list the cycle reads, so nobody
  cancels it (`UnlistedOrderSelfTrades`); a placement that timed out lands later (`LatePlacementSelfTrades`). While
  its orders and its ladder are uncrossed to begin with there is no fourth: `NoCycleSelfTradesIff` and
  `CancelsClearTheWayIff` say exactly which starts are safe when cancels may fail and when none of a crossing order does.
- The private channel drops the newest batches once its buffer is full. That is not harmless: a finished order can
  reappear (`OverflowBringsBackAFinishedOrder`); `SettlesIff` says exactly when it is. Nor is a snapshot of
  open orders that lags behind the socket, as one read from the database does: an order told just before the socket
  opened can be in neither (`LaggingSnapshotHidesAnOrder`); `UndroppedSettlesIff` says exactly when it is harmless.
- Funding changes margins and liquidation prices and tells no account, so the positions table is exact in those two
  only until the first dispersal (`PositionTableIsTheAccount`).
- The depth feed loses trades and prices when its buffer overflows (`OverflowIsVisible`), and no bound beyond the
  buffer's own would do (`BufferingIsInvisibleIff`). Its depth is lost only when a dropped frame is newer than all that
  was kept (`OverflowKeepsDepthIff`) and heals with the next one (`NextDepthHeals`).
- A reply whose write failed is retried on the next start, after replies that came later. Its update then overwrites
  theirs, and a finished order's row can say partially filled for good (`LateRetryReopensAnOrder`); `RowIsAsToldIff`
  says when a row is right.
- A duplicate-key error means "already processed" only while row ids are unique. A reply whose row id collides is
  skipped and, on the pending path, acknowledged without its rows (`CollisionLosesAReply`).
- An entry that is no JSON throws outside the handler's `try` on both paths. Once claimed as pending it stops every
  later start at the same place (`HandlePendingEntries`).
- After a partial netting the liquidation price is computed with the incoming trade's side. What is left of the
  position is then liquidated on the far side of its entry (`NettedIsLiquidatedOnTheTradesSide`): with any margin behind
  it, it is under water at its own entry price (`GainIsAheadOfTheEntry`), and right only where both prices agree to the
  cent (`GainIsTheLossIff`). It stays so until the next trade on its side or the next funding dispersal
  (`FundingFollowsThePremium`).
- Entry prices are no means. Adding weighs the newcomer with the new total (`AddedEntryIsTheMeanIff`), and reducing moves
  the entry price at all (`NettedEntryStaysIff`).
- A resting order that is hit more than once gives its position less margin than it held, since each share is taken of
  what is left by the size there was (`FillKeepsMarginIff`, `SecondFillLosesMargin`); the rest stays locked.
- An order's margin is locked as sent and released in cents, so a cancel is exact only for whole cents
  (`PlaceThenCancel`).
- The maintenance margin is 1% of the margin, where the comments beside it say 10%. The model follows the code.

## Model

| member | source | states |
|---|---|---|
| `Matching.MatchingIsPriceTimePriority` | apps/engine/src/services/exchange-engine.ts:547-817 | For any well-formed book and any order the fills are exactly the greedy prefix of the opposite side sorted by price and time, cut at the limit price and at the quantity; the side left behind is that queue minus the prefix (a half-eaten order stays in front); filled quantity, price total and remainder are the sums over those fills; the match ends. |
| `Matching.FillHeadConsumesFront` | apps/engine/src/services/exchange-engine.ts:573-700 | One fill takes the front of the queue: it disappears when finished, stays in front further filled when not, and nothing behind it moves. |
| `Matching.HeadLevelStaysWf` | apps/engine/src/services/exchange-engine.ts:606-661 | After each of the three fill cases the level's total is again the exact sum over its orders, and it reaches zero exactly when its last order leaves. |
| `Matching.MatchEndsDone` | apps/engine/src/services/exchange-engine.ts:561-565 | A match stops only when the order is done, the side is empty, or the best price left is worse than the limit. |
| `Books.TimeQueueIsStableSort` | apps/engine/src/services/exchange-engine.ts:81-97 | Serving a level oldest-first, earliest-in-list on ties, is a stable sort by creation time. |
| `Books.QueueIsPriceTimeSorted` | apps/engine/src/services/exchange-engine.ts:42-97 | Price first, then time: no slot ever stands behind one of a worse price or of the same price and a later time. |
| `Books.QueueHoldsEveryLevel` | apps/engine/src/services/exchange-engine.ts:42-97 | The queue holds every level whole: nothing missing, nothing twice. |
| `Books.NextBestPrice` | apps/engine/src/services/exchange-engine.ts:42-79 | The scan returns the best price strictly past the given one among levels that still hold something, or nothing when there is none; one method for both mirrored selectors. |
| `Books.FirstCreatedOrder` | apps/engine/src/services/exchange-engine.ts:81-97 | The scan returns the first of the oldest orders, or none on an empty level. |
| `ExchangeEngineClass.ExchangeEngine.MatchOrder` | apps/engine/src/services/exchange-engine.ts:547-703 | The two nested loops, updating books, accounts and accumulators in place, end in exactly the state of the specified match, and terminate. |
| `ExchangeEngineClass.ExchangeEngine.FillRestingOrder` | apps/engine/src/services/exchange-engine.ts:578-695 | The three branches of one fill (resting order larger, equal, smaller) each change book, maker and accumulators exactly as one specified fill does. |
| `EngineBooks.MatchKeepsQuantities` | apps/engine/src/services/exchange-engine.ts:606-661 | What trades and what is left always add up to the order, and matching never creates a price level. |
| `EngineClose.FilledIsSizeOrLiquidity` | apps/engine/src/services/exchange-engine.ts:561-703 | What an order fills is its size or the liquidity at acceptable prices, whichever is less. |
| `Positions.NettingAddsSignedQuantity` | apps/engine/src/services/exchange-engine.ts:393-511 | Netting one execution adds its signed quantity to the account's exposure in that market and to no other, and keeps at most one position per market, each with a positive quantity: through opening, adding, reducing, closing and flipping. |
| `Positions.NettingMovesEquityByPnl` | apps/engine/src/services/exchange-engine.ts:444-483 | Netting changes available plus locked by the PnL it books and by nothing else. |
| `PositionWorth.OppositeTradePays` | apps/engine/src/services/exchange-engine.ts:427-483 | A trade against a position changes available plus locked by its size times the move from the settled entry price to the last price, up for a long, down for a short; the settled entry is the cent rounding of the mean of entry and trade price, weighted by the size held and by what is left over. |
| `PositionWorth.WholeCloseGainsIff` | apps/engine/src/services/exchange-engine.ts:434-440 | Closing the whole position gains, for a long, if and only if the last price is above its rounded entry price, for a short if and only if it is below. |
| `PositionWorth.OtherTradesPayNothing` | apps/engine/src/services/exchange-engine.ts:405-417 | A trade on the side held, or where nothing is held, moves no collateral and closes nothing. |
| `PositionWorth.NettingUnlocks` | apps/engine/src/services/exchange-engine.ts:444-489 | A whole close unlocks the position's margin; any other netting unlocks exactly the margin it leaves behind the position, the rounded share of the one that prevails. |
| `PositionWorth.AddedEntryIsTheMeanIff` | apps/engine/src/services/exchange-engine.ts:491-502 | Adding weighs the newcomer with the new total, so the entry price is the mean of what was bought if and only if both prices agree. |
| `PositionWorth.NettedEntryStaysIff` | apps/engine/src/services/exchange-engine.ts:427-433 | Reducing moves the entry price unless the trade is at that price or takes the whole position. |
| `PositionWorth.OpenedIsLiquidatedAtItsLoss` | apps/engine/src/services/exchange-engine.ts:363-417 | A position just opened has the trade's side, size, margin and price, and is liquidated exactly at prices no better than the cent rounding of the one that costs it 99% of its margin. |
| `PositionWorth.AddedIsLiquidatedAtItsLoss` | apps/engine/src/services/exchange-engine.ts:490-508 | So is a position added to, with the sum of the sizes and margins and the rounded mean of the prices. |
| `PositionWorth.NettedIsLiquidatedOnTheTradesSide` | apps/engine/src/services/exchange-engine.ts:464-508 | So is one turned round. One made smaller keeps its side and is liquidated on the far side of its entry, at prices that leave it ahead by 99% of its margin or less. |
| `PositionWorth.LossIsBehindTheEntry` | apps/engine/src/services/exchange-engine.ts:386-391 | With margin of nothing or more, a long liquidated at its loss has a liquidation price at or below its rounded entry, a short at or above. |
| `PositionWorth.GainIsAheadOfTheEntry` | apps/engine/src/services/exchange-engine.ts:501-506 | A position liquidated at its gain is under water at its own rounded entry price already. |
| `PositionWorth.GainIsTheLossIff` | apps/engine/src/services/exchange-engine.ts:501-506 | It is liquidated where it should be if and only if the two prices are the same to the cent. |
| `Positions.NettingKeepsAveragesBetween` | apps/engine/src/services/exchange-engine.ts:427-498 | Weighted averages stay between the lowest and highest executed price, through adding, netting and rounding. |
| `ExchangeEngineClass.ExchangeEngine.CreatePositionFor` | apps/engine/src/services/exchange-engine.ts:393-511 | The branches of the in-place position change produce the specified account and book the specified PnL. |
| `Rounding.Round2Monotone` | apps/engine/src/services/exchange-engine.ts:329-331 | Rounding to cents never reverses the order of two amounts. |
| `Rounding.ToFixedIsNearest` | apps/engine/src/services/exchange-engine.ts:329-331 | Rounding to a number of places gives the nearest such number and, of two as near, the one further from zero. |
| `Rounding.Round2FixesCents` | apps/engine/src/services/exchange-engine.ts:329-331 | A whole number of cents is left alone. |
| `Rounding.RoundingStaysInBand` | apps/engine/src/services/exchange-engine.ts:329-331 | Rounding cannot leave a band whose ends are widened to their own cents. |
| `EngineSteps.ReachableBooksAreWellFormed` | apps/engine/src/services/exchange-engine.ts:547-1079 | In every reachable state every book is uncrossed, no level is empty, every level's total is the sum of what its orders still want, and every resting order has 0 <= filled < size and sits on the side of its type at a positive price. |
| `EngineBooks.PlaceKeepsWf` | apps/engine/src/services/exchange-engine.ts:1106-1340 | Accepted or refused, placing an order leaves a well-formed, uncrossed store. |
| `EngineBooks.BookAfterWf` | apps/engine/src/services/exchange-engine.ts:734-774 | Resting the remainder of a limit order cannot cross the book, because what is left has no acceptable price to trade at. |
| `EngineBooks.CancelKeepsWf` | apps/engine/src/services/exchange-engine.ts:1355-1419 | A cancel leaves every level's total exact and drops the level with its last order: the store stays well formed and uncrossed. |
| `EngineSteps.StepKeepsWf` | apps/engine/src/services/exchange-engine.ts:1847-1985 | No request, accepted or refused, leaves a malformed or crossed book. |
| `EngineRuns.OpenInterestIsZeroSum` | apps/engine/src/services/exchange-engine.ts:393-511 | In every reachable state and market, total long quantity equals total short quantity over all accounts, and each account holds at most one position per market, each with a positive quantity. |
| `EngineLaws.MatchMovesExposure` | apps/engine/src/services/exchange-engine.ts:663-679 | The makers of a match give up, in signed quantity, exactly what the taker is about to receive. |
| `EngineRuns.CollateralIsDepositsPlusPnl` | apps/engine/src/services/exchange-engine.ts:474-483 | In every reachable state an account's available plus locked is the sum of its deposits and of the PnL booked at its nettings; locking, resting, cancelling, filling and funding never change it. |
| `EngineRuns.StepIsLawful` | apps/engine/src/services/exchange-engine.ts:1847-1985 | Every request, accepted or refused, keeps the three laws at once: net open interest where it was, equity moved by bookings and deposits alone, entry prices within what was printed. |
| `EngineLedger.ExecuteBooksEquity` | apps/engine/src/services/exchange-engine.ts:1267-1270 | Executing one order changes every account's available plus locked by exactly the PnL booked to it. |
| `EngineRuns.EntryPricesStayWithinPrints` | apps/engine/src/services/exchange-engine.ts:351-361 | In every reachable state each open position's average price lies between the lowest and highest price ever printed in its market, those ends widened at most to their own cents. |
| `EngineRuns.EntryPricesOnCentGrid` | apps/engine/src/services/exchange-engine.ts:705-708 | While every limit order sent for a market is priced in whole cents, each open position's average lies between the lowest and the highest print there, with no widening. |
| `EngineRuns.EveryPriceIsALimitPrice` | apps/engine/src/services/exchange-engine.ts:547-817 | Through every run each price level and each print of a market stands at the limit price of some order sent for it; market orders and forced closes add no price. |
| `EngineRuns.FundingIsZeroSum` | apps/engine/src/services/exchange-engine.ts:1775-1805 | In every reachable state a funding dispersal leaves the total margin behind the open positions of every market where it was: longs pay exactly what shorts get. |
| `EngineClose.FullCloseFlattens` | apps/engine/src/services/exchange-engine.ts:1152-1190 | Any order let through without margin, market or limit, that trades exactly the held size and none of it with the account's own orders removes the position, records one closed position, and lowers locked by exactly its margin. |
| `EngineClose.OppositeTradeFlattens` | apps/engine/src/services/exchange-engine.ts:444-483 | One opposite trade of a position's whole size removes it, records it once and frees exactly its margin. |
| `EngineClose.ShortCloseOnlyReduces` | apps/engine/src/services/exchange-engine.ts:444-483 | While others take less of such an order than is held, the position keeps its side with exactly the rest and nothing is closed. |
| `EngineClose.MarginFreeAdmission` | apps/engine/src/services/exchange-engine.ts:1152-1190 | A zero-margin order, or any opposite order of at most twice the held size whatever equity came with it, is let through exactly when it is of that kind, free collateral is not negative and a market order has something to meet; it is then admitted with margin zero. |
| `EngineClose.MarginFreeFills` | apps/engine/src/services/exchange-engine.ts:561-703 | Such an order fills its size or the liquidity at prices it may trade at, whichever is less. |
| `EngineClose.NoOwnOrdersTaken` | apps/engine/src/services/exchange-engine.ts:561-703 | With none of the account's own orders at a price it may trade at, all of that comes from others. |
| `EngineResting.MarginFreeRemainderRests` | apps/engine/src/services/exchange-engine.ts:757-768 | What such a limit order does not fill rests at its price with margin zero. |
| `EngineClose.WholeCloseFlattensIff` | apps/engine/src/services/exchange-engine.ts:1152-1190 | By what is known before: closing exactly what is held, with no own order in the way and free collateral not negative, takes the position off, records it once and unlocks exactly its margin if and only if the market offers that much at prices the order may trade at; with less on offer the position keeps its side with the rest. |
| `EngineClose.MarginFreeOrderFlipsIff` | apps/engine/src/services/exchange-engine.ts:464-473 | Any order let through without margin, market or limit, sent with equity or without, even meeting own orders, turns the position round if and only if others take more of it than is held; what it turns into has no margin, a liquidation price equal to its rounded average, and the old margin stays locked. |
| `EngineClose.UnbackedIsLiquidatable` | apps/engine/src/services/exchange-engine.ts:1571-1644 | A position without margin is liquidated by the first index price no better than its rounded entry price. |
| `EngineClose.MarginFreeOrderNets` | apps/engine/src/services/exchange-engine.ts:427-498 | The whole outcome of such an order: smaller by what others took, gone, or on the other side with the difference, exactly as that is below, at or above what was held. |
| `EngineResting.RestingOrdersFlipIff` | apps/engine/src/services/exchange-engine.ts:663-679 | The same for orders that rest and are hit later, by the book before: a position turns round if and only if what another's order takes of the account's resting orders, as the greedy walk over the sorted queue gives it, is more than it holds; what it turns into is unbacked if and only if the margins of those orders leave nothing behind it, and locked falls by exactly what the nettings release. |
| `EngineResting.RestingWithoutMarginIsUnbacked` | apps/engine/src/services/exchange-engine.ts:663-679 | When the account's orders there rest without margin whatever they turn round is unbacked, and when the first one taken is more than is held locked stays where it was. |
| `EngineResting.MakerAfterPlace` | apps/engine/src/services/exchange-engine.ts:575-679 | An account whose orders are hit ends with exactly the trades the walk over the queue makes with them, one by one, and their sizes add up to what was taken. |
| `EngineClose.TwiceThePositionTurnsRound` | apps/engine/src/services/exchange-engine.ts:1176-1182 | A concrete store: long 40, selling 80 against a bid of 80 without margin is accepted and leaves a short 40 with margin zero and the old 500 still locked. |
| `EngineClose.TwiceThePositionCountsAsReducing` | apps/engine/src/services/exchange-engine.ts:1152-1190 | Against a long 40 selling 80 needs no margin and selling 90 is refused as increasing risk. |
| `EngineResting.RestingCloseTurnsThePositionRound` | apps/engine/src/services/exchange-engine.ts:757-768 | The same as a maker: the order for 80 first rests, then another account buys it; the account is short 40 with no margin and the old 500 still locked. |
| `EngineClose.MatchOnlyAddsToOwn` | apps/engine/src/services/exchange-engine.ts:663-679 | While an order matches, the sender's opposite position can only grow, and by exactly what its own resting orders sold to it. |
| `EngineDepth.TopLevelsAreTheBest` | apps/engine/src/services/exchange-engine.ts:1807-1841 | Depth is the true top of book: the best min(20, n) levels in strict price order with their totals, and no level that is left out is better. |
| `EngineDepth.DepthIsTheTopOfTheBook` | apps/engine/src/services/exchange-engine.ts:1807-1841 | The depth of a market shows its bids as bids and its asks as asks: on each side the best twenty levels or all there are, best first, with their totals, none left out that is better; under the store's update id, and no bid shown at or above an ask. |
| `EngineDepth.OneTop` | apps/engine/src/services/exchange-engine.ts:1813-1832 | A side has exactly one such list. |
| `EngineDepth.TopOfSide` | apps/engine/src/services/exchange-engine.ts:1813-1832 | The loop over the next-best selector, bounded at twenty, yields exactly that list and terminates. |
| `ExchangeEngineClass.ExchangeEngine.AdmitOrder` | apps/engine/src/services/exchange-engine.ts:1122-1265 | All margin, price-bound and leverage rules in the code's order, each with its own refusal, before anything is changed. |
| `ExchangeEngineClass.ExchangeEngine.BoundPrice` | apps/engine/src/services/exchange-engine.ts:1200-1257 | A market order becomes a limit order at the best price widened by its slippage, and is refused on an empty side. |
| `OrderTerms.MarketOrderBound` | apps/engine/src/services/exchange-engine.ts:1218-1253 | The bound of an admitted market order is the lowest ask times one plus its slippage in percent for a buyer, the highest bid times one minus it for a seller. |
| `OrderTerms.MarketOrderFills` | apps/engine/src/services/exchange-engine.ts:1236-1253 | With slippage of nothing or more an admitted market order fills something, all of it between the best offer and its bound. |
| `OrderTerms.UnknownIsRefused` | apps/engine/src/services/exchange-engine.ts:1122-1130 | An unknown market, and then an unknown account, is refused as such. |
| `OrderTerms.MarginedAdmission` | apps/engine/src/services/exchange-engine.ts:1183-1265 | An order with margin that is no closing one is admitted exactly when the free collateral covers the margin, there is a price to trade at, and the size at the worst price is within the market's leverage of the margin; the first that fails is the error. |
| `OrderTerms.MarginlessIsRefused` | apps/engine/src/services/exchange-engine.ts:1152-1164 | Without margin, against nothing held or more than twice what is held, it is refused as needing margin or as increasing risk. |
| `OrderTerms.AdmittedOrderIsCovered` | apps/engine/src/services/exchange-engine.ts:1211-1265 | What an admitted order may come to at its worst price is within the leverage of its margin, and its sender has that margin free. |
| `OrderTerms.OpeningLocksItsMargin` | apps/engine/src/services/exchange-engine.ts:1267-1270 | An order with margin that closes nothing and meets no own order moves exactly its margin from available to locked; what it fills is held on its side at the rounded cost per unit, with its share of the margin behind it, and is liquidated at its loss. |
| `OrderTerms.RemainderRests` | apps/engine/src/services/exchange-engine.ts:734-768 | What a limit order does not fill rests on its own side at its own price, with its share of the margin. |
| `OrderTerms.PlaceThenCancel` | apps/engine/src/services/exchange-engine.ts:1267-1419 | Cancelling an order that met nothing restores every book and every account, up to the part of a cent its margin was rounded by; the accounts are as before if and only if the margin is whole cents. |
| `OrderTerms.FillsAreTaken` | apps/engine/src/services/exchange-engine.ts:547-703 | What a placement reports as filled is the greedy walk over the sorted queue. |
| `ExchangeEngineClass.ExchangeEngine.ExecuteOrder` | apps/engine/src/services/exchange-engine.ts:1267-1312 | Lock, match, settle, rest or cancel, tell: the state, the bookings and every account's events are those of the specified execution. |
| `ExchangeEngineClass.ExchangeEngine.PlaceOrder` | apps/engine/src/services/exchange-engine.ts:1106-1340 | A refused order changes nothing at all; an accepted one is executed whole. |
| `ExchangeEngineClass.ExchangeEngine.SettleTaker` | apps/engine/src/services/exchange-engine.ts:705-726 | The taker gets one position change for all its fills, at their rounded average price. |
| `ExchangeEngineClass.ExchangeEngine.RestOrCancel` | apps/engine/src/services/exchange-engine.ts:734-774 | What did not trade rests on the own side at the own price for a limit order, and is cancelled for a market order. |
| `ExchangeEngineClass.ExchangeEngine.CancelOrder` | apps/engine/src/services/exchange-engine.ts:1355-1475 | The engine's own remaining quantity leaves the level, the order's margin is released, and the reply reports both. |
| `EngineReplies.CancelReleases` | apps/engine/src/services/exchange-engine.ts:1370-1475 | A cancel fails and changes nothing exactly when the account is unknown or no such order rests at the row's price; else the order's own margin goes from locked to available, and the reply and the written update tell what was left of it. |
| `EngineReplies.RepliesPublishTheBook` | apps/engine/src/services/exchange-engine.ts:1312-1328 | Every reply that publishes tells the book of its request's market as the request left it: depth, last price and index price; no other reply publishes. |
| `EngineReplies.AnswersAddUp` | apps/engine/src/services/exchange-engine.ts:776-795 | An order is answered with the sum and the cost of its fills and their mean in cents; the same fills are written, and printed one by one as bought or sold. |
| `EngineReplies.MakersWereResting` | apps/engine/src/services/exchange-engine.ts:573-605 | Each fill is with an order that rested on the side the order faces, at the fill's price, for no more than it still wanted, under that order's id and account. |
| `EngineReplies.LastPriceIsTheLastFill` | apps/engine/src/services/exchange-engine.ts:606-607 | After an order the last price is that of its last fill, or what it was; index prices and other markets stay. |
| `EngineReplies.TickSetsTheIndex` | apps/engine/src/services/exchange-engine.ts:1544-1700 | A tick is for the first of SOL, BTC and ETH with a price, which becomes that market's index price; every fill of the forced closes is written, and printed with the side of the close. |
| `ExchangeEngineClass.ExchangeEngine.LiquidationChecks` | apps/engine/src/services/exchange-engine.ts:1523-1715 | The sweep over accounts in creation order, a refused close leaving everything as it was, merges writer rows, prints and events of every close. |
| `EngineLiquidations.OneTurnOfTheSweep` | apps/engine/src/services/exchange-engine.ts:1571-1644 | An account's turn: spared when it holds nothing there, the price does not liquidate it, its free collateral is negative or nobody offers anything; else one order against all of its position, without margin, is placed and written. |
| `EngineLiquidations.ForcedCloseFlattensIff` | apps/engine/src/services/exchange-engine.ts:1571-1644 | A forced close takes the position off, records it and unlocks its margin if and only if the price liquidates it and the market offers that much: every bid for a long, the asks up to twice the best for a short. |
| `EngineLiquidations.ForcedCloseBound` | apps/engine/src/services/exchange-engine.ts:1578-1592 | The worst price of a forced close is nothing at all for what it sells and twice the best ask for what it buys. |
| `ExchangeEngineClass.ExchangeEngine.DisperseFundingRate` | apps/engine/src/services/exchange-engine.ts:1775-1805 | The loops over accounts and positions change margins and liquidation prices and nothing else. |
| `EngineAccounts.FundingFollowsThePremium` | apps/engine/src/services/exchange-engine.ts:1775-1805 | A dispersal takes from a long, and gives a short, its size at the last price times the premium over the index, changes nothing else of a position but what liquidates it, and that is then its loss of 99% of the margin left. |
| `EngineAccounts.LongsPayIff` | apps/engine/src/services/exchange-engine.ts:1783-1793 | Longs pay and shorts gain if and only if the last price is above the index. |
| `EngineAccounts.DepositsAreFree` | apps/engine/src/services/exchange-engine.ts:1851-1900 | A deposit is free collateral of its account and changes nothing else; asking for a balance opens an empty account and no more. |
| `EngineAccounts.QueriesListTheMarket` | apps/engine/src/services/exchange-engine.ts:1492-1521 | A query changes nothing and lists the position held in the market or none, or every one closed there. |
| `EngineAccounts.InMarketPush` | apps/engine/src/services/exchange-engine.ts:1508-1521 | What was closed later is listed later. |
| `EngineAccounts.FillSplitsMargin` | apps/engine/src/services/exchange-engine.ts:663-688 | A fill puts behind the maker's trade the share of the order's margin by its whole size and leaves with the order the share by what was left of it. |
| `EngineAccounts.FillKeepsMarginIff` | apps/engine/src/services/exchange-engine.ts:663-688 | Before rounding the two add up to the order's margin if and only if it had not traded before or has none. |
| `EngineAccounts.SecondFillLosesMargin` | apps/engine/src/services/exchange-engine.ts:663-688 | An order for 10 with a margin of 100 hit twice for 5: 75 end up behind the position and 25 behind nothing. |
| `ExchangeEngineClass.ExchangeEngine.GetMarketDepth` | apps/engine/src/services/exchange-engine.ts:1807-1841 | The published depth is the specified top of both sides under the current update id. |
| `ExchangeEngineClass.ExchangeEngine.Handle` | apps/engine/src/services/exchange-engine.ts:1847-1985 | Every request type: the new state, the bookings and the whole reply are those of one specified step. |
| `UserEvents.UserEventsForMatch` | apps/engine/src/services/exchange-engine.ts:246-327 | Every account's batch is exactly its share of: new orders, then updates, then both sides of each fill, then its position and its balance. |
| `UserEvents.MergeUserEvents` | apps/engine/src/services/exchange-engine.ts:147-174 | Merging appends account by account; nothing an earlier close said is lost. |
| `EventBatches.BatchesRunInOrder` | apps/engine/src/services/exchange-engine.ts:228-232 | In each account's batch new orders come before updates, updates before fills, and position and balance last. |
| `EventBatches.OrderIsToldFirst` | apps/engine/src/services/exchange-engine.ts:176-191 | The first an account is told of its order is the order as it was let through, with the margin and the worst price it goes in with and its status and filled quantity after the match. |
| `EventBatches.OriginsAreTrue` | apps/engine/src/services/exchange-engine.ts:1286-1300 | An order told as the account's own came with its request; one told as a liquidation came with a price tick. |
| `EventBatches.WrittenIsTold` | apps/engine/src/services/exchange-engine.ts:776-795 | What a reply has written is what it tells: the same order updates in the same order, a fill for each one told to a taker, an inserted order for each one told as a liquidation; a reply that writes nothing tells none of these. |
| `FillSync.FillsAreThePosition` | apps/engine/src/services/exchange-engine.ts:284-316 | After any history the fills an account was told in a market, bought less sold, as taker and as maker, in its own trades and in forced closes, come to exactly what it holds there. |
| `FillSync.StepAddsUp` | apps/engine/src/services/exchange-engine.ts:1847-1985 | Every request moves holdings by the fills it tells and tells no other. |
| `FillSync.PlacementTellsItsFills` | apps/engine/src/services/exchange-engine.ts:284-310 | Of a placement's fills each account is told its own side of each one it took part in and nothing else: the taker on the order's side, the maker on the other, at the fill's price and quantity. |
| `ClientSync.TableIsTheBook` | apps/engine/src/services/exchange-engine.ts:246-327 | After any history in which order ids are issued once and cancels come from the order's account, folding everything an account was told over an empty table gives exactly its resting orders: a row for each and no other, with price, size and filled quantity, partially filled iff something traded; no id rests twice. |
| `ClientSync.DrainedTableIsTheBook` | apps/web/lib/user-feed.tsx:224-241 | End to end, for a snapshot as of any point and any kept stretch of the log: the drained row shows the resting order if and only if it is what the log ends with; always when nothing was dropped and the snapshot is no older than the stretch, and for an older one exactly when the gap is harmless. |
| `ClientSync.EveryLogIsAnEngineLog` | apps/engine/src/services/exchange-engine.ts:246-327 | Every account's log introduces an order once before anything else is said of it, only ever fills it further, and never revives a finished one: the hypothesis under which replaying converges. |
| `ClientSync.StepSyncs` | apps/engine/src/services/exchange-engine.ts:1847-1985 | Every single request keeps all books and all logs in step. |
| `ClientSync.MatchSyncs` | apps/engine/src/services/exchange-engine.ts:690-695 | Across a whole match each maker's table follows its resting order, fill by fill. |
| `ClientSync.StatusTellsWhetherItRests` | apps/engine/src/services/exchange-engine.ts:734-795 | The status told for a taker is resting exactly when its remainder joined the book, and then says whether anything traded. |
| `PositionSync.PositionTableIsTheAccount` | apps/engine/src/services/exchange-engine.ts:205-327 | In every reachable state folding everything an account was told gives, market by market, its position: none where there is none, else its side, quantity and entry price, and its margin and liquidation price too until a funding dispersal; the balance told last is its collateral. |
| `PositionSync.StepTells` | apps/engine/src/services/exchange-engine.ts:1847-1985 | Every request tells every account whose positions or collateral it changed; only funding tells nobody. |
| `RestingOrders.FillMoves` | apps/engine/src/services/exchange-engine.ts:606-661 | On the books one fill is one order out and, when unfinished, the same order back further filled; every other resting order is untouched. |
| `RestingOrders.CancelMoves` | apps/engine/src/services/exchange-engine.ts:1410-1419 | On the books a cancel is exactly one order out. |
| `RestingOrders.AppendMoves` | apps/engine/src/services/exchange-engine.ts:757-768 | On the books resting a remainder is exactly one order in. |
| `UserFeed.TableWorksRowByRow` | apps/web/lib/user-feed-core.ts:215-249 | The list reducer is a per-id reducer: it never doubles a row and never touches another id. |
| `UserFeed.PositionTableWorksMarketByMarket` | apps/web/lib/user-feed-core.ts:265-291 | The positions reducer works market by market and never doubles an entry. |
| `UserFeed.ReplayCatchesUp` | apps/web/lib/user-feed-core.ts:180-249 | While old events are replayed over a newer table, a row that is re-introduced follows its own past and every other row stays as the newer table had it. |
| `UserFeed.StaleUpdateChangesNothing` | apps/web/lib/user-feed-core.ts:180-186 | Replaying an update the table already contains changes nothing. |
| `UserFeed.SnapshotThenDrainConverges` | apps/web/lib/user-feed-core.ts:180-291 | Replaying events i..j over orders as of s and positions as of p gives both tables as of j, whenever s and p lie between i and j. |
| `UserFeed.DrainedTablesShow` | apps/web/lib/user-feed-core.ts:180-291 | What both tables show after any drain, exactly, wherever the two snapshots lie: after the replay's end, within it or before its start. |
| `UserFeed.ReplayOverAnOldRow` | apps/web/lib/user-feed-core.ts:215-249 | A row older than the replay stays as it was until an event introduces the order or fills it no less far, and is right from then on. |
| `UserFeed.OverflowIsHarmlessIff` | apps/web/lib/user-feed.tsx:319-322 | Losing the newest events costs nothing if and only if every order the kept ones introduce stands at their end as in the snapshot, and every position they tell likewise. |
| `UserFeed.LagIsHarmlessIff` | apps/web/lib/user-feed-core.ts:160-180 | A snapshot older than the first event replayed costs nothing if and only if, row by row, the gap left it as it was, the replay renews it, or it came in the gap and the replay sees it go; and every position changed in the gap is told again. |
| `UserFeed.QuietGapIsHarmless` | apps/web/lib/user-feed-core.ts:215-249 | A gap in which nothing was told of orders is harmless to every row. |
| `UserFeedChannelClass.UserFeedChannel.OnOpen` | apps/web/lib/user-feed.tsx:299-310 | Buffering starts with the socket and only for the current connection; for an abandoned or stopped one nothing changes. |
| `UserFeedChannelClass.UserFeedChannel.OnMessage` | apps/web/lib/user-feed.tsx:312-324 | Batches are buffered whole while syncing, up to the limit, and applied at once when live; tables that are the whole log stay so. |
| `UserFeedChannelClass.UserFeedChannel.ResyncAndDrain` | apps/web/lib/user-feed.tsx:214-241 | Each table with its own snapshot, or kept where that request failed: what they show after the drain, exactly, and that they are the whole log if and only if the two points and the kept stretch settle. |
| `UserFeedChannelClass.UserFeedChannel.Teardown` | apps/web/lib/user-feed.tsx:190-206 | Abandoning a connection empties its buffer and leaves the tables alone. |
| `UserFeedChannelClass.UndroppedSettlesIff` | apps/web/lib/user-feed.tsx:214-241 | With no batch dropped a connection settles if and only if a snapshot older than the socket's opening missed nothing the buffer does not make good; so always when both are no older. |
| `UserFeedChannelClass.SettlesIff` | apps/web/lib/user-feed.tsx:214-241 | In general, with batches dropped or not and snapshots of any age, it settles if and only if the log moves no row and no position after the point each is told to: the end of the kept events where they retell it, its snapshot otherwise. |
| `UserFeedChannelClass.OverflowBringsBackAFinishedOrder` | apps/web/lib/user-feed.tsx:319-322 | A connection, opened, filled and resynchronised, that shows an order the log has finished. |
| `UserFeedChannelClass.LaggingSnapshotHidesAnOrder` | apps/web/lib/user-feed.tsx:299-310 | A connection whose snapshot lags behind the opening of the socket and which never shows an open order. |
| `QuoteLadder.SkewIsAShift` | apps/market-maker/src/services/quote-ladder.ts:137-148 | The quoted gap is the same for every inventory, and being long shifts it down. |
| `LadderTerms.BuiltSideStands` | apps/market-maker/src/services/quote-ladder.ts:121-148 | For every anchor and inventory a built side has a rung at each level whose price is positive and nowhere else, counted in cells from its reference snapped away from the market; the reference is half the spread from the anchor and lower by the skew times the inventory's share of its limit. |
| `LadderTerms.LongerQuotesLower` | apps/market-maker/src/services/quote-ladder.ts:126-136 | With a positive anchor, of two ladders built every rung of the one for the larger inventory stands at or below the same rung of the other. |
| `LadderTerms.LimitHoldsTheLadder` | apps/market-maker/src/services/quote-ladder.ts:121-124 | Beyond its limit, either way, the inventory no longer moves the ladder. |
| `LadderTerms.NamedLoads` | apps/market-maker/src/services/quote-ladder.ts:121-124 | An inventory of zero is a share of zero, one at its limit a share of one, either way. |
| `LadderTerms.BuiltRungsAreOnTerms` | apps/market-maker/src/services/quote-ladder.ts:323-361 | Every built rung stands on a cell; its size is what its level and cell are worth at its price, rounded down to increments but one at least; its margin is the fewest whole cents that carry it at the lower of the two leverages; its tolerance the lesser of the price's and 0.45 cells. |
| `LadderTerms.BuiltQuotesAreLetThrough` | apps/market-maker/src/services/quote-ladder.ts:96-110 | The engine never refuses a built quote for its leverage: where it allows what the maker takes for the maximum, it admits the order exactly when the free collateral covers the margin, unless the order closes a position. |
| `QuoteLadder.TouchesNeverMeetIff` | apps/market-maker/src/services/quote-ladder.ts:316-319 | The two touches are strictly apart wherever the references stand if and only if the references are more than twice the tick epsilon, in grid cells, apart. |
| `QuoteLadder.LadderIsUncrossed` | apps/market-maker/src/services/quote-ladder.ts:288-364 | Under that spread every built bid is strictly below every built ask, for every anchor, inventory and skew. |
| `QuoteLadder.LadderIsUncrossedIff` | apps/market-maker/src/services/quote-ladder.ts:288-364 | For an anchor on the grid the built sides are apart for every inventory if and only if the spread is that wide; with less a flat maker bids and asks at one price. |
| `QuoteLadder.SideIsInsideOut` | apps/market-maker/src/services/quote-ladder.ts:323-361 | Every rung of a side sits on its own grid cell, at a positive price, inside out, with a tolerance of at most 0.45 cells. |
| `QuoteLadder.CellsSurviveRounding` | apps/market-maker/src/services/quote-ladder.ts:75-79 | A price on the grid survives tick rounding and formatting. |
| `QuoteLadder.BuildLadder` | apps/market-maker/src/services/quote-ladder.ts:288-364 | The loops build exactly the two specified sides, bids then asks. |
| `QuoteLadder.SizesAreRoundedDown` | apps/market-maker/src/services/quote-ladder.ts:90-94 | A size is rounded down by less than one increment; only one below an increment is raised, to exactly one. |
| `LadderReconcile.ReconcileLadder` | apps/market-maker/src/services/quote-ladder.ts:396-476 | The loops, with splicing and best-so-far, compute exactly the specified difference. |
| `LadderReconcile.ClaimRungs` | apps/market-maker/src/services/quote-ladder.ts:431-458 | Rung by rung, the nearest order left is adopted, cancelled for its size, or passed over. |
| `LadderReconcile.FindNearest` | apps/market-maker/src/services/quote-ladder.ts:431-440 | The first of the closest orders. |
| `LadderReconcile.BySideCounts` | apps/market-maker/src/services/quote-ladder.ts:382-385 | Filtering and sorting a side loses no order and adds none. |
| `LadderReconcile.BySideRunsOutward` | apps/market-maker/src/services/quote-ladder.ts:382-385 | A side is listed from the inside out, bids falling and asks rising. |
| `LadderReconcile.StandsInIff` | apps/market-maker/src/services/quote-ladder.ts:380-458 | An order may stand for a rung exactly when its price is within the tolerance and its size within a quarter. |
| `LadderConvergence.OneReconcileConverges` | apps/market-maker/src/services/quote-ladder.ts:396-476 | For any resting set with unique ids and any ladder, carrying the difference out leaves exactly one order per rung, within tolerance and size drift, no two at one price; no rung is dropped; a second reconcile is empty. |
| `LadderConvergence.NoRungIsDropped` | apps/market-maker/src/services/quote-ladder.ts:472 | The guard against placing onto an adopted price never drops a rung. |
| `LadderConvergence.ClaimedAccounts` | apps/market-maker/src/services/quote-ladder.ts:448-463 | Every resting order ends up adopted, cancelled or left over, and only once. |
| `LadderConvergence.NearIsUnique` | apps/market-maker/src/services/quote-ladder.ts:236-245 | An order is within the tolerance of at most one rung. |
| `LadderConvergence.BuiltLaddersAreLadders` | apps/market-maker/src/services/quote-ladder.ts:288-364 | Whatever the anchor and inventory, what is built is a ladder in the sense the reconcile needs. |
| `LadderConvergence.BuiltLadderConverges` | apps/market-maker/src/services/quote-ladder.ts:396-476 | So one reconcile against the ladder built for any anchor and inventory leaves exactly one fitting order per built rung, whatever was resting, and the next one is empty. |
| `LadderScroll.ScrollCostsItsCells` | apps/market-maker/src/services/quote-ladder.ts:323-361 | With the grid unchanged and no size growth a scrolled side cancels exactly the rungs the new ladder lacks and places exactly the ones the old one lacked, and every other rung adopts the order already there at its price and size; between ladders of one length that is k of each for k cells. Rungs at or below zero, which are left out, are no exception. |
| `LadderScroll.ReconcileCostsItsCells` | apps/market-maker/src/services/quote-ladder.ts:396-476 | One reconcile of a newly built ladder against the resting old one, both sides at once: exactly the rungs the old one lacked are placed and the orders of the rungs the new one lacks cancelled, as many per side as its touch moved cells. |
| `LadderScroll.SameCellSameQuote` | apps/market-maker/src/services/quote-ladder.ts:346-350 | Without size growth a quote is a function of its price: two ladders agree wherever they share a cell. |
| `MakerCycle.CrossesIffMeetsSome` | apps/market-maker/src/services/maker.ts:213-226 | The test against the two extreme new prices finds exactly the orders some new quote would trade with. |
| `MakerCycle.NeverSelfTradesIff` | apps/market-maker/src/services/maker.ts:228-242 | From the moment placements go out no interleaving meets an own order if and only if no crossing order is still live and nothing that timed out would trade when it lands. |
| `MakerCycle.MakerNeverCrossesItself` | apps/market-maker/src/services/maker.ts:135-242 | With an uncrossed ladder, in every interleaving of settlements, failures, time-outs that land later and fills: as long as what timed out is harmless and no crossing order is still live when the placements go out, every own bid stays below every own ask and no placement meets an own order. |
| `MakerCycle.CancelsClearTheWayIff` | apps/market-maker/src/services/maker.ts:152-242 | By what is known as a cycle starts, given that no cancel fails on a live crossing order: no run trades with itself if and only if what timed out is harmless and the list that was read has every live order that crosses. |
| `MakerCycle.NoCycleSelfTradesIff` | apps/market-maker/src/services/maker.ts:152-242 | And with cancels that may fail: if and only if what timed out is harmless and no live order crosses what the cycle will place. |
| `MakerCycle.CancelsClearTheWay` | apps/market-maker/src/services/maker.ts:228-236 | When the list has every live order that crosses and no cancel of one fails, nothing that crosses is live as the placements go out; other failed cancels do no harm. |
| `MakerCycle.FailedCancelSelfTrades` | apps/market-maker/src/services/maker.ts:228-236 | An own ask at or below a new bid whose cancel fails: some run trades with itself. |
| `MakerCycle.UnlistedOrderSelfTrades` | apps/market-maker/src/services/maker.ts:162-165 | The same with a live ask the list does not have, though no cancel fails. |
| `MakerCycle.LatePlacementSelfTrades` | apps/market-maker/src/services/maker.ts:238-242 | The same with an ask whose placement timed out in an earlier cycle and lands in this one. |
| `MakerCycle.BuiltLaddersAreUncrossed` | apps/market-maker/src/services/quote-ladder.ts:316-319 | The ladders the maker builds are uncrossed for every anchor, inventory and skew once the spread exceeds twice the tick epsilon in cells. |
| `MakerCycle.SafeFromPlacingOn` | apps/market-maker/src/services/maker.ts:238-242 | Placements and later cancels in any order keep the maker clear of itself. |
| `CycleConverges.AdoptedNeverCrosses` | apps/market-maker/src/services/maker.ts:205-212 | An order the reconcile adopts never crosses a quote the cycle places, once the sides are a cell apart: only orders it cancels anyway can be in the way. |
| `CycleConverges.SettledCycleConverges` | apps/market-maker/src/services/maker.ts:180-242 | When every request of a cycle succeeds and nobody trades meanwhile, in whatever order they settle, exactly one fitting order per rung is live at the end and the next cycle has nothing to do. |
| `CycleConverges.StaleCyclePullsEverything` | apps/market-maker/src/services/maker.ts:141-165 | A cycle without a fresh anchor whose requests succeed leaves none of the listed orders live and places nothing. |
| `CycleConverges.BuiltLadderSettles` | apps/market-maker/src/services/maker.ts:167-242 | So every settled cycle ends with the ladder the maker built live, for every anchor and inventory, once the spread is wide enough. |
| `MarketFeed.BufferingIsInvisible` | apps/web/lib/market-feed-core.ts:265-297 | With at most 256 frames before the snapshot, a connection ends in the very machine it would be in had the snapshot come first and every frame after it in arrival order. |
| `MarketFeed.BufferingIsInvisibleIff` | apps/web/lib/market-feed-core.ts:278-297 | For every machine and snapshot buffering is invisible in all runs with n early frames if and only if n is at most 256. |
| `MarketFeed.OverflowKeepsDepthIff` | apps/web/lib/market-feed-core.ts:229-297 | For the depth, run by run: the update id shown is the one shown with nothing dropped if and only if no dropped depth frame is newer than the snapshot, the kept and the later frames; with distinct ids the depth too. |
| `MarketFeed.SnapshotThenKeptFrames` | apps/web/lib/market-feed-core.ts:293-297 | With any number of frames: exactly as if only the first 256 had been sent. |
| `MarketFeed.OverflowIsVisible` | apps/web/lib/market-feed-core.ts:278-283 | One frame more and a mark price is never shown. |
| `MarketFeed.ShownIdIsTheMaximum` | apps/web/lib/market-feed-core.ts:240-246 | The update id shown is the greatest of the snapshot's and all depth frames', and never goes down while frames arrive. |
| `MarketFeed.OrderDoesNotMatter` | apps/web/lib/market-feed-core.ts:240-246 | The depth shown does not depend on the order of depth frames with distinct ids. |
| `MarketFeed.NextDepthHeals` | apps/web/lib/market-feed-core.ts:229-233 | A missed depth frame heals with the next newer one. |
| `MarketFeed.TapeIsTheNewestForty` | apps/web/lib/market-feed-core.ts:253-257 | The tape is the forty newest trades, newest first. |
| `MarketFeed.PricesAreTheLastTwo` | apps/web/lib/market-feed-core.ts:247-250 | The two prices shown are the last two traded. |
| `MarketFeed.OnlyWhatTheServerSaid` | apps/web/lib/market-feed-core.ts:265-334 | Through any opens, drops and snapshots, every depth held is one the server sent, tape and buffer stay bounded, and the buffer is empty unless a snapshot is awaited. |
| `MarketFeed.ColdSnapshotIsAFallback` | apps/web/lib/market-feed-core.ts:331-334 | A depth read while the socket was down makes no difference once a socket has come up, answered or not yet; while none is up it is shown and nothing else changes. |
| `MarketFeed.StatusIsTheLastWord` | apps/web/lib/market-feed-core.ts:293-314 | The status is live since the last snapshot, else what the last drop said; a drop keeps the book, the prices and the tape. |
| `DepthFeed.IdsTellDepthsApart` | apps/engine/src/services/exchange-engine.ts:1807-1841 | Along any run update ids never go down, each published depth has a greater one than all before it, and equal ids mean equal depth in every market. |
| `DepthFeed.ShownDepthIsTheBook` | apps/web/lib/market-feed-core.ts:229-297 | End to end: the socket opens in one state of the engine, the snapshot is of a later one, and the market's frames published since the opening all arrive, in any order and number, before the snapshot or after it; unless the buffer dropped one newer than all it kept, the page shows the best twenty bids and asks of the book at the end, or all there are. |
| `Money.AddMoneyIsExact` | apps/web/lib/money.ts:55-65 | For any list of decimal strings, with any white space around them, the result spells the exact rational sum with the places of the widest input. |
| `Money.AddMoneyFailsIff` | apps/web/lib/money.ts:55-57 | There is no result exactly when some input is not a decimal number. |
| `Money.ParseOfFromScaled` | apps/web/lib/money.ts:38-46 | Reading back what was written gives the same integer at the same scale: it denotes value / 10^scale. |
| `Money.ParseReads` | apps/web/lib/money.ts:17-30 | Every spelling of a decimal is read, with its sign, digits and scale. |
| `Money.ParseRejectsIff` | apps/web/lib/money.ts:19-21 | An input is rejected exactly when it spells no decimal. |
| `Money.ScaledValue` | apps/web/lib/money.ts:32-36 | A parsed decimal, scaled, is its value times ten to the scale. |
| `DbComms.ExactlyOnce` | apps/db-writer/src/services/writer.ts:91-124 | Through any deliveries and redeliveries on either path, database failures, and crashes before an acknowledgement lands, the committed replies have distinct correlation ids, these are exactly the processed ones, and each reply's rows stand whole. |
| `DbComms.TablesAreTheFold` | apps/db-writer/src/services/writer.ts:104-124 | The tables are the fold of the backend's placements and the committed replies; a delivery without a commit leaves no trace. |
| `DbComms.RowShowsTheLastCommitted` | apps/db-writer/src/services/writer.ts:54-73 | An order row ends with the status and filled quantity of the last update committed of it and of its account. |
| `DbComms.RowIsAsToldIff` | apps/db-writer/src/services/setup-comms.ts:99-165 | So an order row shows what the engine told if and only if the update committed last says the same as the one told last; replies committed in the engine's order always do. |
| `DbComms.LateRetryReopensAnOrder` | apps/db-writer/src/services/setup-comms.ts:99-165 | A reply whose write failed, claimed again after a later one: both end acknowledged and a finished order's row says partially filled. |
| `DbComms.AcknowledgedMeansApplied` | apps/db-writer/src/services/setup-comms.ts:148-162 | With unique row ids, every acknowledged parseable reply has no rows or stands in the tables whole. |
| `DbComms.CollisionLosesAReply` | apps/db-writer/src/services/setup-comms.ts:153-158 | A reply not yet processed is acknowledged as a duplicate exactly when one of its row ids is taken or repeated. |
| `DbComms.Consumer.HandleMessage` | apps/db-writer/src/services/setup-comms.ts:117-162 | One entry on either path: text that is no JSON throws and stays unacknowledged, the wrong shape is skipped and acknowledged, a reply is written and acknowledged unless it threw, was a newly read duplicate, or the process died in between. |
| `DbComms.Consumer.HandlePendingEntries` | apps/db-writer/src/services/setup-comms.ts:99-165 | Page after page until an empty one; when it neither threw nor died everything claimed is acknowledged, and with a healthy database it throws exactly when an entry claimed is no JSON. |
| `DbComms.Consumer.ReadOneBatch` | apps/db-writer/src/services/setup-comms.ts:219-290 | The batch is worked through in order up to the first entry that throws or is a duplicate; that one ends the batch and stays unacknowledged. |
| `WriterTables.EffectFailsIff` | apps/db-writer/src/services/writer.ts:104-124 | A reply is refused as a duplicate exactly when its correlation id is processed or one of its row ids is taken or repeated. |
| `WriterTables.EffectIsWhole` | apps/db-writer/src/services/writer.ts:104-124 | A committed reply's rows are all there, and no other row is lost or changed but for order status and filled quantity. |
| `WriterTables.EffectIsItsRows` | apps/db-writer/src/services/writer.ts:104-124 | The whole transaction, by what the reply carries in its first entry for each table: it goes through if and only if its key and all its row ids are new; then the tables are what they were, the key, and the rows carried, each order with the last update carried of it and of its account. |
| `DbWriterClass.DbWriter.HandleResponse` | apps/db-writer/src/services/writer.ts:91-124 | All rows of a reply are committed, or none is; a reply without rows never opens a transaction. |
| `DbWriterClass.InsertOrderData` | apps/db-writer/src/services/writer.ts:47-53 | Batches of a hundred insert exactly what inserting row by row would, and fail when it would. |
| `DbWriterClass.InsertFillData` | apps/db-writer/src/services/writer.ts:75-81 | The same for fills. |
| `DbWriterClass.UpdateOrderData` | apps/db-writer/src/services/writer.ts:54-73 | The updates in order, each on the row with that id and account. |
| `FillPages.WalkVisitsEveryFillOnceIff` | apps/backend/src/services/order-service.ts:243-304 | Following nextCursor from the start ends after at most one page more than there are fills, for any limit and newer fills arriving between requests; it returns matching fills in strictly descending (createdAt, id) order, none and no side of one twice; and it returns all of them if and only if at the end of every page the next fill is before the cursor. |
| `FillPages.SplitTransactionLosesAFill` | apps/backend/src/services/fill-view.ts:106-121 | Two fills of one transaction with a page ending between them: the second is on no page. |
| `FillPages.WalkVisitsEveryFillOnce` | apps/backend/src/services/order-service.ts:243-304 | With time stamps of whole milliseconds the walk is a partition for every limit. |
| `FillPages.ListingFromHere` | apps/backend/src/services/order-service.ts:269-282 | After any fill every later table lists exactly the rows the first one had from the first row on that is before that fill's cursor. |
| `FillPages.CursorRoundTrips` | apps/backend/src/services/fill-view.ts:116-131 | A cursor survives encoding and decoding. |
| `FillPages.DescendingIsUnique` | apps/backend/src/services/order-service.ts:279-282 | The order is total: a set of fills has one strictly descending listing. |
| `FillPages.FillViewsFor` | apps/backend/src/services/fill-view.ts:70-103 | There is a view for a side exactly when the account was on it with an order that is still known; each view tells the fill with that side's direction and order; the maker's comes first, and a self-trade gives both. |
| `FillPages.SidesAreDetermined` | apps/backend/src/services/fill-view.ts:70-103 | That description leaves one list. |
| `FillPages.ViewKeysAreUnique` | apps/backend/src/services/fill-view.ts:54-69 | Over any rows with distinct ids, id and role together name one view. |

## Left out

- Floating point: numbers are exact, so drift of IEEE 754 sums and products is not modelled; `${Number(price)}` level keys are the numbers themselves.
- Object identity in the engine: accounts, positions and orders are values held in the engine's maps, so aliasing of a user or position object between two places is not captured; the writes happen in the code's order.
- The long and short matching loops are mirror images and are modelled once, with the side as a parameter; the same holds for the two price selectors and the two sides of a liquidation.
- `updateUnrealisedPnLForAllUsers` and the `pnL` field it writes: a display value nothing else reads.
- Ids and timestamps of fills and prints, replies' error texts, the backup file and the freshness window of `backup_store`: not state the laws speak about. Order ids, minted ids and the clock are parameters.
- Margin backing (locked as the sum of position and order margins): the code does not keep it, and says so beside the partial-netting release; the ledger sum is proved instead.
- Recovery of an engine after a restart: which ids were already handled is delivery state outside these files.
- `toRow` and `toEntry` returning null in the reducers: they do so only for a market the page does not know.
- The REST snapshots of the private channel are each taken to be that table as of some point of the account's log, before or after the socket opened; how the database gets there is the writer's part.
- `groupFills`, frame parsing, backoff, tickets, visibility handling, enum filters, formatters and validation schemas: single-branch facts or I/O.
- `gridSize` picks an octave with a logarithm and `sizeMultiplier` hashes a string: the grid is any positive whole number of price increments, the multiplier any function of side and cell.
- The maker's timers, inventory reads and funding calls, and the taker bot: I/O around `cycle`.
- How `Date` writes and reads an instant of whole milliseconds is a parameter with its round trip as the hypothesis.
- Redis, Postgres, S3, HTTP and WebSocket themselves: a stream delivers any entry any number of times, a transaction commits whole or not at all, any statement may fail.
- Foreign keys and other database refusals appear only as failing statements, which abort the transaction.
