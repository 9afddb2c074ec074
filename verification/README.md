# A verified model of the chain's accounting and chain control

This project models the parts of a Graphene blockchain node where a rounding direction or a missed
case would lose money or fork the chain, and proves what its comments and assertions claim. All rules
are the newest ones: every hard fork counts as passed.

| file | what it models |
|---|---|
| `Rounding.dfy` | prices as pairs of positive amounts, and the two roundings every market rule uses |
| `Ledger.dfy` | account balances, and sums over maps |
| `MarketFees.dfy` | market fees and their split |
| `DeferredFees.dfy` | the creation fees deferred in limit orders, and where they go |
| `OrderBook.dfy` | limit orders in one market: matching, the matching loop, creation and cancelling |
| `Settlement.dfy` | the arithmetic of the settled-debt order, the two settlement funds and collateral bids |
| `MarginCall.dfy` | the amounts of margin calls and force settlements |
| `Bitasset.dfy` | a market-pegged asset as a state machine over positions, orders, funds, bids and supply |
| `ForkSwitch.dfy` | pushing and popping blocks, fork switching and rollback, the block log |
| `PendingBlock.dfy` | pending transactions and block building |
| `WitnessSchedule.dfy` | slots, the shuffled schedule, and the schedule cached on fork items |
| `CreditOffers.dfy` | credit offers, deals and borrower summaries, with expiry |
| `ChainSync.dfy` | the synopsis one node sends and the block ids the other answers with |
| `Budget.dfy` | the maintenance budget of the core asset |

The main results are the `Run` methods, which state what holds after every sequence of operations:
`OrderBook.Market.Run`, `Bitasset.Mpa.Run`, `ForkSwitch.Database.Run`, `PendingBlock.PendingState.Run`,
`CreditOffers.CreditMarket.Run` and `Budget.Core.Run`; and `ChainSync.AnswerStartsNearFork`, which
joins both sides of the sync protocol. In `Bitasset` the invariant has three parts: the supply equals the debt of the positions
plus the individually settled debt (or, after a global settlement, is covered by the fund at the
settlement price); the settled-debt order exists exactly when there is settled debt and sells exactly
the rounded-up worth of that debt, within its fund; and every unit of supply sits in a balance or an
order. Total collateral never changes.

The source's objects that are updated in place are classes here, its database indexes are maps and
sequences, and its loops are loops. Signatures, clocks, feeds and the object state of the chain enter
as parameters.

## Where the code falls short of what it promises

Each of these has a concrete run or input, and a contract that says exactly when the code is right.

- A fork switch that fails at a block restores the head, the object state and the undo history. One
  whose branch leaves the chain below the oldest state that can be undone does not: the chain is cut
  down to that state, exactly when the place where the two branches meet is not on it
  (`ForkSwitch.ChainCutDown`, `ForkSwitch.Database.PushBlock`). As long as the undo history was never
  shortened, that takes an empty one, and nothing changes (`ForkSwitch.Database.AnchoredMeets`).
- After a failed switch the fork database's head is restored exactly unless the pushed tip was built
  on top of the old head, which happens after a block was popped and the fork database kept it. Then
  the branch that is fetched contains the old head itself, popping it moves the fork database's head
  back, and it stays one block behind (`ForkSwitch.HeadLeftBehind`, `ForkSwitch.Database.SwitchFork`).
- After such a switch, a sibling of the head and a pop put the fork database's head on top of the
  chain's. A push then applies the pushed block, not that tip, and erases it when it does not apply,
  even if it is a block of the chain: that is exactly when the fork database loses one. The history
  and the block log survive, but the head can no longer be popped (`ForkSwitch.ChainBlockErased`,
  `ForkSwitch.Database.PushBlock`).
- The block log is not truncated when blocks are popped. A synopsis entry above a peer's head that its
  log or fork database still has makes the peer answer with nothing, or fail; the answer starts at
  the last shared entry exactly when there is no such entry (`ChainSync.StaleEntrySilencesPeer`,
  `ChainSync.AnswerStartsNearFork`). For the same reason a reference point above the head counts as
  on the main chain, and its synopsis can name blocks of another chain
  (`ChainSync.SynopsisMixesChains`, `ChainSync.SynopsisIsOwnChain`).
- A new limit order and a scheduled settlement trade with a position without checking what it is
  worth. The trade keeps the position's ratio exactly when it costs no more per debt than the
  position has, and a partial one can take all the collateral (`MarginCall.TakerFillIsSafe`,
  `MarginCall.PartialTradeDrains`, `Bitasset.RunToDrainedPosition`). The black swan check leaves only
  positions that can pay (`Bitasset.Mpa.CheckForBlackSwan`), so in the margin call loop the guard
  refuses nothing unless there is a force settlement (`Bitasset.Mpa.CallBest`). Whether the chain's
  own order of checks lets a run reach the drained position is open.
- An offer whose deals all expired can have a total balance of zero. Updating only its terms then
  fails the assertion that the total is positive; without expiry no balance assertion can fail
  (`CreditOffers.EmptiedOfferRefusesUpdate`, `CreditOffers.CreditMarket.UpdateOffer`).

## Model

| member | source | states |
|---|---|---|
| `Rounding.MulDown` | libraries/protocol/asset.cpp:38-55 | `asset * price` is the exact product rounded down, bounded on both sides |
| `Rounding.MulUp` | libraries/protocol/asset.cpp:57-78 | `multiply_and_round_up` is the exact product rounded up, bounded on both sides |
| `Rounding.DownIsGreatest` | libraries/protocol/asset.cpp:38-55 | an amount is at most the rounded-down product exactly when it is affordable without rounding |
| `Rounding.UpIsLeast` | libraries/protocol/asset.cpp:57-78 | an amount is at least the rounded-up product exactly when it pays for it without rounding |
| `Rounding.OnlyOneDown` | libraries/protocol/asset.cpp:38-55 | one amount only is the exact product rounded down |
| `Rounding.OnlyOneUp` | libraries/protocol/asset.cpp:57-78 | one amount only is the exact product rounded up |
| `Rounding.WorsePriceGivesNoMore` | libraries/chain/db_market.cpp:1524-1528 | a price asking for more never yields more, rounded either way: the step behind every price comparison in the matching rules |
| `Rounding.Stabilise` | libraries/chain/db_market.cpp:1054-1072 | what is paid back for a rounded-down receipt is at most what was offered, is the least that earns the receipt, and the remainder is worth nothing |
| `Ledger.Adjust` | libraries/chain/db_balance.cpp:34-62 | fails exactly when the balance would become negative; otherwise moves that balance by the delta and no other balance |
| `Ledger.AdjustMovesTotal` | libraries/chain/db_balance.cpp:34-62 | an adjustment moves the total held of its asset by the delta and leaves every other asset alone |
| `MarketFees.MarketFee` | libraries/chain/db_market.cpp:2534-2566 | the fee is never more than the amount traded |
| `MarketFees.MarketFeeIsShare` | libraries/chain/db_market.cpp:2534-2566 | the fee is the maker's or the taker's percentage of the amount, rounded down, up to the asset's maximum; nothing when the asset charges none |
| `MarketFees.Split` | libraries/chain/db_market.cpp:2578-2664 | the network, referrer, registrar and issuer shares add up to the fee exactly |
| `MarketFees.SplitIsShares` | libraries/chain/db_market.cpp:2578-2664 | the network takes its percentage of the fee, the reward its percentage of what is left, the referrer its percentage of the reward, and each exactly under its permissions |
| `MarketFees.FeePots.Deposit` | libraries/chain/db_balance.cpp:107-134 | a deposit adds the amount to one vesting balance and to the total |
| `MarketFees.FeePots.PayReward` | libraries/chain/db_market.cpp:2601-2654 | the shared reward and how it is divided between referrer and registrar |
| `MarketFees.FeePots.PayMarketFees` | libraries/chain/db_market.cpp:2569-2668 | paying the shares one by one deposits exactly the four shares of the fee and nothing is lost |
| `DeferredFees.FillRelease` | libraries/chain/db_market.cpp:1782-1850 | the parts of a deferred fee that a fill releases add up to it in both currencies; only a maker with a discount gets something back |
| `DeferredFees.FillReleaseIsDiscount` | libraries/chain/db_market.cpp:1782-1850 | a maker gets back the discount on what it paid, in the currency it paid in, and the fee pool its part of the core coins |
| `DeferredFees.FailsOnRefund` | libraries/chain/db_market.cpp:1805-1815 | the assertion that core coins were deferred fails exactly when a refund is due on a fee that stands for none |
| `DeferredFees.CancelRelease` | libraries/chain/db_market.cpp:514-600 | the parts a cancellation releases add up to the fee in both currencies; the fee taken is capped by what was deferred |
| `DeferredFees.CancelReleaseIsShare` | libraries/chain/db_market.cpp:514-600 | what a cancellation accumulates is the fee taken, in the currency it was paid in, rounded up |
| `DeferredFees.CancelShare` | libraries/chain/db_market.cpp:543-561 | the rounded-up share of the originally paid fee is positive and fits into it |
| `DeferredFees.ReleaseConserves` | libraries/chain/db_market.cpp:1782-1875 | releasing a fee conserves every asset over deferred fees, pending fees, fee pools, accumulated fees and refunds |
| `DeferredFees.MatchKeepsFees` | libraries/chain/db_market.cpp:1761-1880 | both fills of a match and the removal of the maker conserve every asset and invent no fee |
| `DeferredFees.MatchOwesMaker` | libraries/chain/db_market.cpp:1782-1850 | after a match the maker is owed its discount and nobody else anything, and the taker has no deferred fee left |
| `DeferredFees.CoreIsWorth` | libraries/chain/evaluator.cpp:48-57 | a fee paid in the core asset stands for itself, another for its rounded-down worth |
| `DeferredFees.ConvertibleIsCovered` | libraries/chain/evaluator.cpp:50-57 | a fee in another asset is accepted exactly when the pool holds its rounded-down worth |
| `DeferredFees.DeferringAdds` | libraries/chain/market_evaluator.cpp:71-93 | a new order defers exactly what its account pays, the fee pool giving the core coins |
| `OrderBook.WorseOrderCrossesLess` | libraries/chain/db_market.cpp:889-896 | if a worse order on one side crosses a price, so does the best |
| `OrderBook.InsertAt` | libraries/chain/db_market.cpp:718-738 | a new order goes to one place that keeps price-time priority |
| `OrderBook.MatchOfTwo` | libraries/chain/db_market.cpp:1040-1105 | nobody pays more than it has; the order that decides the size receives its rounded-down worth, pays the least that earns it and is left with dust; the other gets at least the match price; neither trades below its own limit |
| `OrderBook.MatchConserves` | libraries/chain/db_market.cpp:1761-1880 | one match with fees and dust refunds conserves both assets |
| `OrderBook.MatchPays` | libraries/chain/db_market.cpp:1093-1105 | for every account and asset: a match changes the balance by what the taker receives less its market fee, what the maker receives less its own, and the dust refunded to the maker, each to the right account |
| `OrderBook.SweepPays` | libraries/chain/db_market.cpp:889-907 | for every account and asset: the whole loop changes the balance by what its matches pay, and the order is left with what it did not pay |
| `OrderBook.TradesAreFair` | libraries/chain/db_market.cpp:889-907 | over the whole loop each side receives, before market fees, at least the rounded-down worth of what it gives at its own price |
| `OrderBook.TakerGetsItsPrice` | libraries/chain/db_market.cpp:889-907 | all the taker receives is at least the rounded-down worth of all it pays at its own price |
| `OrderBook.SweepConserves` | libraries/chain/db_market.cpp:889-907 | the whole matching loop conserves both assets |
| `OrderBook.SweepLeaves` | libraries/chain/db_market.cpp:889-907 | the loop leaves a live, still sorted rest of the other side, and stops only on a removable order or with nothing crossing |
| `OrderBook.NotAtFront` | libraries/chain/db_market.cpp:730-738 | the early return for an order that is not at the front is sound: it cannot cross anything |
| `OrderBook.Market.MatchAmounts` | libraries/chain/db_market.cpp:1031-1106 | the amounts, both payments and the maker that is left are those of the specification that `MatchPays` pins for every account; the result is never "none filled" |
| `OrderBook.Market.MatchLimit` | libraries/chain/db_market.cpp:1031-1106 | the same with the deferred fees of both orders, released exactly when they traded |
| `OrderBook.Market.MatchLoop` | libraries/chain/db_market.cpp:889-897 | the loop terminates and equals the recursive sweep |
| `OrderBook.Market.ApplyOrder` | libraries/chain/db_market.cpp:718-917 | after applying an order the book is uncrossed and every resting order is live; the book, the balances and the deferred fees are those of the sweep and its trades |
| `OrderBook.Market.CreateOrder` | libraries/chain/market_evaluator.cpp:60-129 | the exact refusals; the exact case in which a creation is undone, changing nothing; otherwise the exact book, balances, deferred fees and market fees, with the book uncrossed and every asset conserved |
| `OrderBook.Market.PayOwed` | libraries/chain/db_market.cpp:1800-1840 | the refunds of a transaction reach their accounts and nothing is lost |
| `OrderBook.Market.CancelOrder` | libraries/chain/db_market.cpp:510-607 | for a cancelled and for an expired order: the amount for sale goes back to the seller and the deferred fee to where it came from, less the cancellation fee on expiry; the rest of the book is untouched |
| `OrderBook.Market.Run` | libraries/chain/db_market.cpp:718-917 | every run of creations, cancels and expirations keeps the book sorted, uncrossed and free of dust, and conserves every asset over balances, orders, market fees, deferred fees, fee pools and pending fees |
| `Settlement.RepricedIsBacked` | libraries/chain/db_update.cpp:203-245 | a repriced settled-debt order sells exactly the rounded-up worth of the debt, within the fund |
| `Settlement.RepricedAt` | libraries/chain/db_update.cpp:203-245 | the order asks for the margin call order price and sells the debt's rounded-up worth exactly when the fund can pay that; else it sells the whole fund |
| `Settlement.WholeFundIsBacked` | libraries/chain/db_market.cpp:376-385 | so does a new one that sells the whole fund for the whole debt |
| `Settlement.PartialFillIsSafe` | libraries/chain/db_market.cpp:1150-1168 | a partial fill charges the fund at least what the order receives, and what is left stays backed at the same price |
| `Settlement.LimitTakesIsSafe` | libraries/chain/db_market.cpp:1109-1221 | a limit order taking the settled-debt order never meets an "unexpected scene"; it is refused exactly when it would receive nothing |
| `Settlement.LimitTakesIsFair` | libraries/chain/db_market.cpp:1128-1168 | a whole fill hands over the amount for sale and no more; a partial one pays the rounded-down worth of what the taker has for the least debt that earns it, and the fund pays its rounded-down pro-rata share, or just that worth when the whole fund is for sale; the exact refusal |
| `Settlement.DebtOrderTakesIsSafe` | libraries/chain/db_market.cpp:1225-1315 | the same with the settled-debt order as the taker, for every crossing limit order |
| `Settlement.DebtOrderTakesIsFair` | libraries/chain/db_market.cpp:1243-1270 | the same with the settled-debt order as the taker: a whole fill pays the debt's rounded-up worth at the limit order's price |
| `Settlement.PoolPayoutIsFair` | libraries/chain/asset_evaluator.cpp:1288-1305 | a pool payout takes the least debt that earns its rounded-down share of the fund, leaves fund per debt no lower, and fund and debt reach zero together |
| `Settlement.FundPayoutKeepsCover` | libraries/chain/asset_evaluator.cpp:1212-1240 | a payout is the rounded-down worth of the least amount that earns it; the global settlement fund is never insufficient and covers the remaining supply after every payout |
| `Settlement.FundOfPositiveSupply` | libraries/chain/db_market.cpp:410-422 | the fund is empty exactly when the supply is |
| `Settlement.LastBidIsBetter` | libraries/chain/db_maint.cpp:850-866 | the last executed bid is at least as well collateralised as the bid that was tested |
| `MarginCall.CalculateBounds` | libraries/chain/db_market.cpp:1543-1554 | the counterparty never pays more than it offered and the margin call fee is not negative |
| `MarginCall.CalculateRounds` | libraries/chain/db_market.cpp:1543-1554 | the counterparty receives the rounded-down worth of its offer and pays the least that earns it, the position pays the rounded-down worth of that at its own price, and nothing else satisfies this |
| `MarginCall.SmallerSettleIsSafe` | libraries/chain/db_market.cpp:1538-1588 | a smaller force settlement, capped and recalculated or not, leaves positive debt and collateral and a ratio that did not fall |
| `MarginCall.LimitGuard` | libraries/chain/db_market.cpp:2259-2292 | the guard of a partial margin call accepts exactly the trades the position can take |
| `MarginCall.WholeDebtGuard` | libraries/chain/db_market.cpp:2299-2335 | the guard of a closing margin call accepts exactly the trades the position can take |
| `MarginCall.TakerFillIsSafe` | libraries/chain/db_market.cpp:1351-1389 | a new limit order against a margin call: the fee is not negative, and the trade is safe exactly when it costs no more per debt than the position has; a whole one exactly when the collateral covers the debt at the price paid |
| `MarginCall.TakerFillAmounts` | libraries/chain/db_market.cpp:1351-1389 | exactly which amounts a new limit order and a margin call trade, rounding included, for a partial and a closing trade |
| `MarginCall.SafeAtOwnRatio` | libraries/chain/db_market.cpp:1892-1920 | a fill keeps the ratio and leaves collateral exactly when it costs no more per debt than the position has |
| `MarginCall.PartialTradeDrains` | libraries/chain/db_market.cpp:1351-1389 | the amounts with which a partial trade takes all the collateral of a position |
| `MarginCall.MarginCallIsSafe` | libraries/chain/db_market.cpp:1428-1632 | every margin call of `match_impl` is a trade the position can take, for every balance, price and ratio |
| `MarginCall.MarginCallAmounts` | libraries/chain/db_market.cpp:1428-1632 | exactly which trade a margin call and a force settlement make: the rounded amounts of a closing trade, capped at the own ratio when the collateral is short, and of a smaller one, capped and recalculated or cancelled |
| `MarginCall.LimitedMarginCall` | libraries/chain/db_market.cpp:1484-1538 | a margin call that a limit keeps from covering its whole debt pays that limit's rounded-up worth, or 1 when it rounds to nothing |
| `MarginCall.CappedFillFits` | libraries/chain/db_market.cpp:1504-1513 | at its own ratio a closing position pays the counterparty something and no more than its collateral |
| `MarginCall.ScheduledSettleIsSafe` | libraries/chain/db_market.cpp:1519-1530 | a scheduled settlement charges no more than offered, and is safe exactly when it costs no more per debt than the position has, in particular whenever the position is worth its debt |
| `MarginCall.ScheduledAmounts` | libraries/chain/db_market.cpp:1455-1530 | exactly which trade a scheduled settlement makes, with the cases that pay nothing |
| `MarginCall.WholeSettleFits` | libraries/chain/db_market.cpp:1501-1517 | settling a whole debt fits exactly when the collateral is worth the debt at the settlement price |
| `MarginCall.FundReceives` | libraries/chain/db_market.cpp:326-333 | the settlement fund receives something and no more than the collateral of the closed position |
| `MarginCall.FundReceivesShare` | libraries/chain/db_market.cpp:326-333 | the fund receives the collateral times the pays ratio, rounded up |
| `MarginCall.GlobalFill` | libraries/chain/db_market.cpp:272-297 | a globally settled position pays at most its collateral and the fund receives something of it |
| `MarginCall.GlobalFillAmounts` | libraries/chain/db_market.cpp:272-297 | the position pays its debt's rounded-up worth if it has that, else all; the fund gets the rounded-up worth at the price without the premium, if margin called, and no more than that |
| `Bitasset.CollateralFee` | libraries/chain/asset_evaluator.cpp:1177-1200 | the collateral fee is never more than the payout, and what is left is the payout at the margin call order price |
| `Bitasset.TakerIsCulled` | libraries/chain/db_market.cpp:1130-1149 | a taker that does not finish the settled-debt order is left with dust at its own price |
| `Bitasset.MakerIsCulled` | libraries/chain/db_market.cpp:1243-1256 | so is a maker that the settled-debt order does not finish against |
| `Bitasset.BidStep` | libraries/chain/db_maint.cpp:850-866 | one executed bid: its share is available, the rest is still covered, and the new position is above the tested ratio |
| `Bitasset.NextBid` | libraries/chain/db_maint.cpp:854-862 | only the last chosen bid reaches what is left to cover |
| `Bitasset.Mpa.FillCall` | libraries/chain/db_market.cpp:1892-1963 | the debt, collateral, fee and supply after a fill, and that collateral moves only to the counterparty |
| `Bitasset.Mpa.FillLimit` | libraries/chain/db_market.cpp:1761-1880 | the order after a fill, when it is removed, and that debt leaves only by what it pays |
| `Bitasset.Mpa.FillSettle` | libraries/chain/db_market.cpp:1986-2036 | the settlement after a fill, exactly what its owner gets, and that collateral is split among owner, market fee and settlement fee without loss |
| `Bitasset.Mpa.CancelSettleOrder` | libraries/chain/db_market.cpp:501-508 | the balance goes back to the owner |
| `Bitasset.Mpa.UpdatePosition` | libraries/chain/market_evaluator.cpp:573-657 | borrowing and repaying move debt and supply together; the exact condition apart from the collateral ratio, the new position and balances |
| `Bitasset.Mpa.MoveFunds` | libraries/chain/transfer_evaluator.cpp:55-60 | a transfer succeeds exactly with the balance and keeps every invariant |
| `Bitasset.Mpa.SupplyNotNegative` | libraries/chain/market_evaluator.cpp:573-600 | a repayment never brings the supply below zero |
| `Bitasset.Mpa.PlaceLimit` | libraries/chain/market_evaluator.cpp:95-129 | an order selling the debt asset is placed exactly when it is not empty and paid for |
| `Bitasset.Mpa.CancelLimit` | libraries/chain/db_market.cpp:510-607 | the debt asset goes back to the seller and the asset stays valid |
| `Bitasset.Mpa.CancelSettlement` | libraries/chain/db_market.cpp:501-508 | cancelling a settlement keeps every invariant |
| `Bitasset.Mpa.SetMode` | libraries/chain/asset_evaluator.cpp:762-783 | the black swan response changes exactly when there is neither settled debt nor a global settlement; nothing else changes |
| `Bitasset.Mpa.CallTakesLimit` | libraries/chain/db_market.cpp:2251-2370 | a margin call against a resting order: the exact guard, the exact position, order and balances after the trade, one side always finished, ratio not lowered, supply and debt fall together |
| `Bitasset.Mpa.LimitTakesCall` | libraries/chain/db_market.cpp:1318-1400 | a new order against a margin call: the exact case in which it fails, the exact position, order and balances after the trade, one side always finished, the exact case in which the ratio is kept |
| `Bitasset.TradePays` | libraries/chain/db_market.cpp:1761-1963 | for every account and asset: such a trade pays the net receipt to the order, what is left of a closed position to its owner, and the refunded dust to the seller, and changes no other balance |
| `Bitasset.RunToDrainedPosition` | libraries/chain/db_market.cpp:1351-1389 | a run to a position of which a partial trade would take all the collateral |
| `Bitasset.Mpa.CallMeetsSettle` | libraries/chain/db_market.cpp:1428-1632 | a margin call against a force settlement: the exact position, settlement and balances, one side always finished, ratio not lowered |
| `Bitasset.Mpa.CarryOut` | libraries/chain/db_market.cpp:1600-1632 | what the trade, the cancellation or the skip of a force settlement leaves: position, settlement, balances and fees, exactly |
| `Bitasset.RedemptionPays` | libraries/chain/db_market.cpp:1892-2036 | for every account and asset: a settlement pays the net collateral to its owner, what is left of a closed position to its owner, and a culled balance back, and changes no other balance |
| `Bitasset.Mpa.ScheduledSettle` | libraries/chain/db_update.cpp:440-470 | a scheduled settlement: the exact case in which it fails, the exact position, settlement and balances, never more than the limit, the exact case in which the ratio is kept |
| `Bitasset.Mpa.IndividuallySettle` | libraries/chain/db_market.cpp:317-397 | debt and collateral move to the pool, what the fund does not receive is fee, the order is created or repriced, the supply is unchanged |
| `Bitasset.Mpa.UpdateFeed` | libraries/chain/db_update.cpp:203-245 | a new feed keeps the settled-debt order backed |
| `Bitasset.Mpa.CheckForBlackSwan` | libraries/chain/db_market.cpp:27-190 | without force settlements it does nothing exactly when every position can pay the squeeze price or a resting order; it settles individually only positions that cannot, until none is left; a global settlement is at the least collateralised position's own price, and only under the responses that settle globally |
| `Bitasset.Mpa.CannotPay` | libraries/chain/db_market.cpp:52-149 | names the least collateralised position when it cannot pay; when it names none, every position can |
| `Bitasset.Mpa.HighestPays` | libraries/chain/db_market.cpp:92-136 | the greatest of the squeeze price and what a margin call pays at each resting order |
| `Bitasset.Mpa.SettleThin` | libraries/chain/db_market.cpp:150-190 | the settlement of a black swan: global, with the exact sums, exactly under the responses that settle globally; else individual, of positions that cannot pay, until every one left can |
| `Bitasset.Mpa.SettleEach` | libraries/chain/db_market.cpp:176-190 | individual settlements go on until every position left can pay, and never touch one that can |
| `Bitasset.Mpa.LeastCollateralised` | libraries/chain/db_market.cpp:52-55 | the position with the least collateral per debt |
| `Bitasset.Mpa.AllCanPay` | libraries/chain/db_market.cpp:128-136 | if the least collateralised position can pay, all can |
| `Bitasset.Mpa.CheckCallOrders` | libraries/chain/db_market.cpp:2056-2409 | the whole loop: it terminates; afterwards no margin call crosses a resting order and none is left beside a force settlement; unless the asset was globally settled, a position that was not margin called and was worth its debt at the squeeze price is as it was, and without margin calls left the settled-debt order crosses nothing |
| `Bitasset.Mpa.CallLeast` | libraries/chain/db_market.cpp:2175-2400 | one round: something is removed, or no margin call is left that can trade |
| `Bitasset.Mpa.CallBest` | libraries/chain/db_market.cpp:2205-2385 | a position that can pay always trades with the best crossing order: the guard does not refuse it |
| `Bitasset.Mpa.BestCanBePaid` | libraries/chain/db_market.cpp:92-147 | a position that can pay the squeeze price or any resting order can pay the best crossing one |
| `Bitasset.Mpa.MatchForceSettlements` | libraries/chain/db_market.cpp:2411-2479 | it covers some debt, or leaves no margin call beside a force settlement and the positions as they were |
| `Bitasset.Mpa.CheckSettledDebtOrder` | libraries/chain/db_market.cpp:2481-2520 | the settled-debt order is gone or crosses no resting order, at an unchanged price |
| `Bitasset.SqueezeIsPaid` | libraries/protocol/asset.cpp:275-300 | a margin call at the margin call order price pays exactly the squeeze price |
| `Bitasset.Mpa.ShrinkPool` | libraries/chain/db_market.cpp:1170-1218 | the pool and its order after a fill: closed with both at zero, or still backed at the old price |
| `Bitasset.Mpa.LimitTakesDebtOrder` | libraries/chain/db_market.cpp:1109-1221 | one of the two orders is always finished, the price is kept, supply falls with the settled debt; a whole fill hands over exactly the amount for sale with the rest of the fund as fee, a partial one the rounded-down worth with the fund's pro-rata share, and the balances are exactly that |
| `Bitasset.Mpa.DebtOrderTakesLimit` | libraries/chain/db_market.cpp:1225-1315 | the same with the settled-debt order as the taker, which pays the debt's rounded-up worth at the limit order's price |
| `Bitasset.Mpa.SettleFromPool` | libraries/chain/asset_evaluator.cpp:1282-1338 | refused exactly when worth nothing; what is paid and received exactly, for every account; the pool gets no thinner |
| `Bitasset.Mpa.SettleFromFund` | libraries/chain/asset_evaluator.cpp:1203-1278 | refused exactly when worth nothing, never because the fund is short; what is paid and received exactly, for every account |
| `Bitasset.Mpa.AssetSettle` | libraries/chain/asset_evaluator.cpp:1126-1390 | the exact condition of settling for collateral, from whichever fund applies and then as a force settlement, and the exact balances, fund and settlement in each case |
| `Bitasset.Mpa.BurnForCollateral` | libraries/chain/asset_evaluator.cpp:1203-1338 | the settled amount leaves the balance and the supply, and the settler gets exactly the payout less market fee and collateral fee |
| `Bitasset.Mpa.OpenSettle` | libraries/chain/asset_evaluator.cpp:1341-1390 | what is left to settle leaves the balance and becomes a force settlement of its owner |
| `Bitasset.Mpa.GloballySettle` | libraries/chain/db_market.cpp:220-313 | every position and the pool end in the fund, which is exactly the pool and the sum of what the positions pay; every owner gets exactly the rest of its collateral; the settlement price is supply against fund; the supply is unchanged |
| `Bitasset.Mpa.CloseAll` | libraries/chain/db_market.cpp:258-297 | the loop over positions: the fund, the fee and the balance of every owner are exactly the sums over the positions before it |
| `Bitasset.ClosingAmounts` | libraries/chain/db_market.cpp:243-297 | what each position pays and the fund gets, rounded up and capped by its collateral: a margin call pays the settlement price and the fund gets the price without the premium, another position pays the latter when there are margin calls and else the settlement price |
| `Bitasset.Mpa.CloseOne` | libraries/chain/db_market.cpp:258-297 | closing one position moves exactly its share to the fund, its premium to the fee and the rest to its owner |
| `Bitasset.Mpa.BidCollateral` | libraries/chain/market_evaluator.cpp:780-860 | the exact condition of a bid, the permission included; it replaces or removes the bid of its account, keeps the best first, and conserves collateral |
| `Bitasset.InsertBidOk` | libraries/chain/db_maint.cpp:825-828 | a bid takes its place by collateral per debt and the bids stay in order |
| `Bitasset.Mpa.CancelBidsAndRevive` | libraries/chain/db_market.cpp:427-452 | every remaining bid, and nothing else, is returned to its bidder in full |
| `Bitasset.Mpa.Revive` | libraries/chain/db_market.cpp:399-425 | the issuer takes over the supply with the fund; the zero-fund assertion never fails |
| `Bitasset.Mpa.FindBids` | libraries/chain/db_maint.cpp:835-847 | the chosen bids are all above the ratio and none of them is superfluous; it stops short of the supply only at a bid below the ratio or at the end of the bids |
| `Bitasset.NotEnough` | libraries/chain/db_maint.cpp:835-847 | if the search stops short of the supply, no prefix of bids above the ratio covers it |
| `Bitasset.Mpa.ExecuteBids` | libraries/chain/db_maint.cpp:850-868 | every chosen bidder gets a position, all but the last with exactly their own debt and rounded-down share; nothing becomes negative, the new debts add up to the supply, the whole fund is handed out, every position is above the ratio |
| `Bitasset.ShareIsTaken` | libraries/chain/db_maint.cpp:850-866 | an executed bid takes its debt, at most the supply, and the rounded-down share of the fund for it |
| `Bitasset.Mpa.ProcessBids` | libraries/chain/db_maint.cpp:807-872 | the asset is revived exactly when there is no supply or some prefix of bids above the ratio covers it; otherwise nothing changes; revived, the fewest such bids become the positions and the others are returned in full; both final assertions hold |
| `Bitasset.Mpa.Run` | libraries/chain/db_market.cpp:198-499 | after every run of all these operations the supply is backed, the settled-debt order is backed, every unit of supply is held, and no collateral was created or lost |
| `ForkSwitch.SameHeadSameHistory` | libraries/chain/db_block.cpp:179-188 | two replayable histories with the same first entry and the same head block are equal |
| `ForkSwitch.AncestorOnBranch` | libraries/chain/fork_database.cpp:128-170 | on a fetched branch, the ancestor at a height is the block of the branch at that height |
| `ForkSwitch.Database.ForkPush` | libraries/chain/fork_database.cpp:36-78 | keeps a linkable block and returns the highest tip |
| `ForkSwitch.Database.PopBlock` | libraries/chain/db_block.cpp:503-519 | undoes exactly the last entry; the exact condition of failing, and the fork database head that moves even then |
| `ForkSwitch.Database.ApplyBlock` | libraries/chain/db_block.cpp:150-156 | a block applies exactly when it follows the head and is accepted; a failure changes nothing |
| `ForkSwitch.Database.FetchBranch` | libraries/chain/fork_database.cpp:128-170 | finds the branches exactly when both links reach the same previous block, which is where it stops; the head closes the first branch exactly when the tip was built on it |
| `ForkSwitch.MeetIsFound` | libraries/chain/fork_database.cpp:128-170 | two branches down to the same block always meet there or above, whatever lies below |
| `ForkSwitch.MeetOnChain` | libraries/chain/fork_database.cpp:128-170 | from a block of the chain, the walk stops on the chain if nothing but the first entry is as old as it |
| `ForkSwitch.Database.PopTo` | libraries/chain/db_block.cpp:138-142 | popping ends at the fork point, with the first entry when the undo history is too short, or one block above the fork point when the fork database lacks that block; the popped transactions are set aside in the order of the chain |
| `ForkSwitch.Database.FailingIsOffChain` | libraries/chain/db_block.cpp:161-168 | the failing block of a branch is never on the old chain |
| `ForkSwitch.Database.Restore` | libraries/chain/db_block.cpp:179-188 | the old branch always applies again and gives back the old history |
| `ForkSwitch.Database.RollBack` | libraries/chain/db_block.cpp:157-190 | a failed switch brings the whole history back from every state, and where the fork database head ends up |
| `ForkSwitch.Database.RestoredHead` | libraries/chain/db_block.cpp:169-177 | the old head is among the popped blocks exactly when the tip was built on it |
| `ForkSwitch.Database.SwitchFork` | libraries/chain/db_block.cpp:129-195 | the exact condition and the effect of switching, failing, missing a branch and running out of undo history; a failed switch removes from the fork database exactly the blocks that cannot be rebuilt; the fork database head is restored exactly unless the tip was built on the old head and the block before that is known |
| `ForkSwitch.Database.AnchoredMeets` | libraries/chain/db_block.cpp:133-142 | if nothing but the first entry is as old as it and something can be undone, every branch that meets the chain meets it at an entry that can be reached |
| `ForkSwitch.Database.TryBranch` | libraries/chain/db_block.cpp:144-195 | after the pops: the new branch is applied exactly when all its blocks apply, or the old history is back |
| `ForkSwitch.RebuiltFails` | libraries/chain/db_block.cpp:144-156 | if a block of a branch cannot be rebuilt, neither can any block above it |
| `ForkSwitch.BrokenAbove` | libraries/chain/db_block.cpp:157-168 | the blocks a failed switch removes are exactly those of the new branch that cannot be rebuilt |
| `ForkSwitch.Database.Commit` | libraries/chain/db_update.cpp:58-59 | a new irreversible block shortens the undo history and keeps the invariants |
| `ForkSwitch.Database.ForkRemove` | libraries/chain/fork_database.cpp:177-192 | removes any id; only losing the head moves the head |
| `ForkSwitch.Database.PushBlock` | libraries/chain/db_block.cpp:113-207 | from every state: the exact condition and the effect of each of the eight outcomes on history, fork database, its head and the transactions set aside; the fork database loses a block of the chain exactly when that block is pushed again under another tip on top of the head |
| `ForkSwitch.Database.Run` | libraries/chain/db_block.cpp:113-207 | after every run of pushes, switches, failed switches, pops and commits, from every state, the history is replayable and the block log names the main chain at every number; without commits the first entry stays and the database stays anchored |
| `ForkSwitch.HeadLeftBehind` | libraries/chain/db_block.cpp:157-190 | the run in which a failed switch leaves the fork database head one block behind |
| `ForkSwitch.ChainBlockErased` | libraries/chain/db_block.cpp:196-207 | the run in which the head block is erased from the fork database and can no longer be popped |
| `ForkSwitch.ChainCutDown` | libraries/chain/db_block.cpp:133-142 | the run in which a push cuts the chain down to its oldest state |
| `PendingBlock.ReplayConcat` | libraries/chain/db_block.cpp:262-285 | replaying a concatenation is replaying its parts in order |
| `PendingBlock.BuildIsSound` | libraries/chain/db_block.cpp:424-466 | the built block is an ordered selection of the pending transactions that replays from the head state and fits the limit |
| `PendingBlock.BuildTakesAll` | libraries/chain/db_block.cpp:424-466 | pending transactions that replay and fit are all taken |
| `PendingBlock.TakenWhenItFits` | libraries/chain/db_block.cpp:424-466 | each pending transaction is taken exactly when it applies after those taken before it and fits with them, with and without its results |
| `PendingBlock.PendingState.PushTransaction` | libraries/chain/db_block.cpp:262-285 | the state is the head state with exactly the pending transactions applied; a failed push changes neither |
| `PendingBlock.PendingState.PushUnknown` | libraries/chain/include/graphene/chain/db_with.hpp:57-82 | re-pushing gives exactly the transactions that are unknown and apply at their turn, with the state in step |
| `PendingBlock.RepushKeepsAll` | libraries/chain/include/graphene/chain/db_with.hpp:57-82 | no transaction is lost or reordered exactly when each is still new at its turn, and then the state is their replay |
| `PendingBlock.PendingState.MoveHead` | libraries/chain/include/graphene/chain/db_with.hpp:52-82 | from every state, also the one block building leaves: on the new head the popped transactions and then the set-aside ones are pushed again, and state and pending list agree |
| `PendingBlock.PendingState.GenerateBlock` | libraries/chain/db_block.cpp:377-460 | the building loop equals its specification: an ordered selection of the pending transactions that replays from the head state and fits the limit |
| `PendingBlock.PendingState.ProduceBlock` | libraries/chain/db_block.cpp:377-477 | building a block and pushing it, whether or not the push succeeds: the block is the one specified, and the pending transactions are applied to the head state again |
| `PendingBlock.PendingState.Run` | libraries/chain/db_block.cpp:262-477 | over every run of pushed transactions, moved heads and produced blocks the state is the head state with exactly the pending transactions applied, and the blocks produced are one for each command, each replaying from the head it was built on |
| `WitnessSchedule.SlotTimes` | libraries/chain/db_witness_schedule.cpp:24-52 | slots are one interval apart, with the maintenance skip and at genesis |
| `WitnessSchedule.SlotRoundTrip` | libraries/chain/db_witness_schedule.cpp:24-60 | a time is in a slot exactly when it lies between that slot and the next; slot and time are inverse |
| `WitnessSchedule.FirstSlot` | libraries/chain/db_witness_schedule.cpp:24-52 | slot 1 is an interval after genesis, or after the slot of the head and those skipped for maintenance |
| `WitnessSchedule.UpdateWitnesses` | libraries/chain/db_block.cpp:223-239 | the fork item caches the schedule of the applied state |
| `WitnessSchedule.CacheAgrees` | libraries/chain/db_block.cpp:212-221 | the cache rejects exactly the timestamps whose live slot is 0 and otherwise names the witness the live schedule names |
| `WitnessSchedule.DistinctSlots` | libraries/chain/db_witness_schedule.cpp:16-22 | slots less than a round apart name different witnesses |
| `WitnessSchedule.EveryWitnessOnce` | libraries/chain/db_witness_schedule.cpp:16-22 | any round of consecutive slots names every witness exactly once |
| `WitnessSchedule.ScheduleGoesOn` | libraries/chain/db_witness_schedule.cpp:16-22 | the schedule starts with the first witness and goes on from slot to slot across blocks |
| `WitnessSchedule.UpdateMissed` | libraries/chain/db_witness_schedule.cpp:62-76 | each witness of a skipped slot is charged exactly one miss, nobody else any |
| `WitnessSchedule.ShuffledIsPermutation` | libraries/chain/db_witness_schedule.cpp:97-114 | the shuffle is a permutation for every seed |
| `WitnessSchedule.PickIsRemainder` | libraries/chain/db_witness_schedule.cpp:99-113 | the distance of each swap is the generator's value modulo the positions that are left |
| `WitnessSchedule.MixValues` | libraries/chain/db_witness_schedule.cpp:99-109 | the values of the generator on two inputs |
| `WitnessSchedule.ShuffleFixes` | libraries/chain/db_witness_schedule.cpp:97-114 | the swaps from a position on leave those before it alone and bring the picked witness to it |
| `WitnessSchedule.Shuffle` | libraries/chain/db_witness_schedule.cpp:97-114 | the in-place shuffle is the sequence of swaps the generator picks |
| `WitnessSchedule.UpdateSchedule` | libraries/chain/db_witness_schedule.cpp:84-117 | once per round the schedule becomes that shuffle of the active set, without repetition |
| `CreditOffers.ReleaseKeepsRatio` | libraries/chain/credit_offer_evaluator.cpp:428-441 | a partial repayment never releases everything and never thins the deal below any price it was above |
| `CreditOffers.AmountsAreRounded` | libraries/chain/credit_offer_evaluator.cpp:364-441 | the fee is the rate of the repayment rounded up, and the release the pro-rata collateral rounded down |
| `CreditOffers.PartsCostNoLess` | libraries/chain/credit_offer_evaluator.cpp:364-371 | fees of the parts total at least the fee of the whole |
| `CreditOffers.AffordableRepayFits` | libraries/chain/db_update.cpp:769-781 | the partial automatic repayment is affordable with its fee, smaller than the debt, and the least that releases its collateral |
| `CreditOffers.AffordableRepayIsBest` | libraries/chain/db_update.cpp:769-781 | no repayment the balance can pay for with its fee releases more than the automatic one |
| `CreditOffers.SummaryIffDeal` | libraries/chain/credit_offer_evaluator.cpp:258-269 | a borrower summary exists exactly when the borrower has a deal in the offer |
| `CreditOffers.SettleIsDefined` | libraries/chain/credit_offer_evaluator.cpp:408-440 | the "Internal error" assertions and the balance assertion of a repayment never fail |
| `CreditOffers.LendAgrees` | libraries/chain/credit_offer_evaluator.cpp:290-333 | accepting keeps offers, deals and summaries in agreement |
| `CreditOffers.SettleAgrees` | libraries/chain/credit_offer_evaluator.cpp:386-444 | repaying, in part or in full, and expiry keep offers, deals and summaries in agreement |
| `CreditOffers.CreditMarket.CreateOffer` | libraries/chain/credit_offer_evaluator.cpp:52-72 | succeeds exactly with a positive, covered balance; assets conserved |
| `CreditOffers.CreditMarket.DeleteOffer` | libraries/chain/credit_offer_evaluator.cpp:74-104 | succeeds exactly when nothing is lent out, and then no deal refers to the offer |
| `CreditOffers.CreditMarket.UpdateOffer` | libraries/chain/credit_offer_evaluator.cpp:106-206 | the exact condition of an update and the new offer and balance; the balance assertions fail exactly when the offer was emptied by expired deals and no funds are moved |
| `CreditOffers.CreditMarket.AcceptOffer` | libraries/chain/credit_offer_evaluator.cpp:210-352 | the exact condition of acceptance, the borrower limit included, and the new offer, deal, summary and balances |
| `CreditOffers.CreditMarket.RepayDeal` | libraries/chain/credit_offer_evaluator.cpp:354-454 | the exact condition of repayment, the new offer, deal and balances; assets conserved |
| `CreditOffers.CreditMarket.ExpireDeal` | libraries/chain/db_update.cpp:748-848 | for every account and asset the exact balances, and the exact offer: fully repaid when the balance covers debt and fee and automatic repayment is on, in part when that is allowed, and the rest seized; the deal is gone |
| `CreditOffers.CreditMarket.RepayAutomatically` | libraries/chain/db_update.cpp:752-800 | which repayment is made for the borrower, and that a full one that cannot be afforded changes nothing |
| `CreditOffers.CreditMarket.Seize` | libraries/chain/db_update.cpp:806-847 | the unpaid debt is written off the offer and the collateral goes to the lender |
| `CreditOffers.CreditMarket.Run` | libraries/chain/credit_offer_evaluator.cpp:52-454 | over every run the books agree, assets are conserved, deals keep the price they were accepted at, and without expiry no balance assertion fails |
| `CreditOffers.EmptiedOfferRefusesUpdate` | libraries/chain/credit_offer_evaluator.cpp:191-195 | the run in which an offer emptied by expiry fails the positive-balance assertion of an update |
| `ChainSync.EntriesInRange` | libraries/app/application.cpp:985-996 | entries grow strictly, stay in range, and end at the high block when nothing follows it |
| `ChainSync.EntriesAreFew` | libraries/app/application.cpp:985-996 | n blocks need at most log2(n + 1) + 1 entries |
| `ChainSync.EntryNearFork` | libraries/app/application.cpp:985-996 | the last entry not above a fork point is at most as far below it as the true end is above it |
| `ChainSync.SynopsisFollowsEntries` | libraries/app/application.cpp:985-996 | the ids are those of our chain at the entry numbers |
| `ChainSync.GetSynopsis` | libraries/app/application.cpp:882-1000 | for every reference point, above the head too: exactly which give a synopsis, an empty one or each error, from which number it starts and over which blocks |
| `ChainSync.BuildSynopsis` | libraries/app/application.cpp:985-996 | the loop equals the specification and never indexes out of range |
| `ChainSync.ViewIsOwnChain` | libraries/app/application.cpp:985-996 | the blocks a synopsis is drawn from are the reference point's own chain exactly when each was built on the one before |
| `ChainSync.OwnChainInLog` | libraries/app/application.cpp:897-919 | for a reference point in the log: always at or below the head, and above it exactly when the blocks above the head are linked down to it |
| `ChainSync.SynopsisIsOwnChain` | libraries/app/application.cpp:882-1000 | above the head, every id is of the reference point's chain exactly when no entry lies between the fork point and the head |
| `ChainSync.SynopsisMixesChains` | libraries/app/application.cpp:897-919 | the log with which a synopsis names a block that is not on the reference point's chain |
| `ChainSync.IdsAreConsecutive` | libraries/app/application.cpp:784-792 | the answer is consecutive main chain ids, as many as asked for or available |
| `ChainSync.FindLastKnown` | libraries/app/application.cpp:765-781 | the backwards search equals its specification |
| `ChainSync.FindLastIsLast` | libraries/app/application.cpp:765-781 | the search goes past the ids it does not share and stops at the last one it shares |
| `ChainSync.GetBlockIds` | libraries/app/application.cpp:752-798 | the ids and the exact number of blocks that remain |
| `ChainSync.RemainingIsExact` | libraries/app/application.cpp:784-797 | what is returned and what remains make up the main chain from the shared block on |
| `ChainSync.FindsLastShared` | libraries/app/application.cpp:765-781 | the search finds the last shared entry exactly when no synopsis entry is stale at the peer |
| `ChainSync.AnswerStartsNearFork` | libraries/app/application.cpp:752-1000 | both sides together: the answer starts at the last shared entry, near the fork, exactly when no entry is stale |
| `ChainSync.StaleEntrySilencesPeer` | libraries/app/application.cpp:736-741 | the chains on which a stale log entry makes the peer answer with nothing |
| `Budget.BudgetIsBounded` | libraries/chain/db_maint.cpp:408-441 | the budget never exceeds the reserve, is positive whenever the reserve is, and leaves at least the complement of the rate |
| `Budget.BudgetIsRate` | libraries/chain/db_maint.cpp:408-441 | the budget is the reserve times the rate, rounded up, up to the reserve |
| `Budget.BudgetIsMonotone` | libraries/chain/db_maint.cpp:408-441 | a longer interval or a larger reserve never releases less |
| `Budget.PayrollIsExact` | libraries/chain/db_maint.cpp:160-180 | the workers together get all they ask for or the whole budget |
| `Budget.PreferredFirst` | libraries/chain/db_maint.cpp:160-180 | a worker gets less than it asks for only when nothing is left for those after it |
| `Budget.RequestIsPay` | libraries/chain/db_maint.cpp:160-172 | a worker asks for its daily pay for the time passed, rounded down |
| `Budget.Core.PayWorkers` | libraries/chain/db_maint.cpp:134-181 | workers are paid in their order until the budget is used up |
| `Budget.Core.ProcessBudget` | libraries/chain/db_maint.cpp:448-545 | fees and unused budget return, witnesses and workers get exactly their parts, no more than the budget is issued, and the supply stays the sum of its parts below the maximum |
| `Budget.Core.PaySigner` | libraries/chain/db_update.cpp:62-75 | a block moves at most one block's pay out of the witness budget |
| `Budget.Core.Run` | libraries/chain/db_maint.cpp:397-545 | over every run the supply equals what circulates and what is set aside, and never passes its maximum |

## Left out

- Rounding.MulDown: the assertion that the result is at most 10^15 is not modelled; amounts are unbounded.
- Rounding.MulUp: the assertion that the result is at most 10^15 is not modelled, except where the source catches it (the settled-debt order and the collateral fee).
- Bitasset.Mpa.LimitTakesCall: refuses a partial trade that takes exactly all the collateral; the source lets it through and leaves debt without collateral, which `MarginCall.PartialTradeDrains` shows.
- Bitasset.Mpa.ScheduledSettle: refuses a partial trade that takes exactly all the collateral, as above.
- Bitasset.Mpa.UpdatePosition: the collateral ratio checks of borrowing are not modelled; they only refuse more.
- Bitasset.Mpa.FillLimit: the deferred creation fee of the order is not carried here; `OrderBook.Market` carries it.
- Bitasset.Mpa.CancelLimit: the deferred creation fee of the order is not carried here; `OrderBook.Market` carries it.
- Bitasset.Mpa.CheckForBlackSwan: one feed stands for both the median and the current feed, and resting orders do not change during the check.
- Bitasset.Mpa.Run: which order or position is matched next is left open, so the results hold for every choice the matching loops and indexes could make.
- ForkSwitch.Database.ForkPush: the fork database keeps every block; its size window with the refusal of too old blocks, and the skip flags, are not modelled. A block is linked when the block before it is in the fork database, also when that one was removed and pushed again.
- ForkSwitch.Database.Commit: keeps the fork database as it is; the source also evicts blocks below its window.
- ForkSwitch.Database.ForkRemove: a head whose previous block is unknown would be reset to nothing; no caller leaves that state.
- ChainSync.SynopsisIsOwnChain: a log whose blocks above the head come from more than one abandoned fork; `ChainSync.ViewIsOwnChain` covers it for the blocks the synopsis is drawn from.
- Bitasset.Mpa.CheckCallOrders: the settlement that expires first is not distinguished, and the feed does not change during the loop.
- PendingBlock.PendingState.GenerateBlock: the number of postponed transactions, which is only logged.
- WitnessSchedule.UpdateSchedule: active sets of 2^32 witnesses or more, which the source's counter cannot index.
- CreditOffers.CreditMarket.AcceptOffer: durations, times and account authorisation are not modelled, nor the automatic disabling of offers, which only makes acceptance fail more often.
- CreditOffers.CreditMarket.UpdateOffer: the checks of the time at which an offer is disabled are not modelled; they only refuse more.
- 64-bit and 128-bit overflow of sums and counters.
- The approximation of `price * ratio` when numerator or denominator exceeds 10^15; prices and ratios multiply exactly.
- Target collateral ratios, so a margin call may always cover the whole debt.
- Take-profit orders created on fill, and linked orders.
- Prediction markets, backing assets changed after creation, and the rules before each hard fork.
- The feed median and the cap on the feed when the response is "no settlement"; feeds are parameters.
- Whitelists, authority checks, signatures, Merkle roots, serialisation and file streams.
- Vesting policies and worker voting; the budget model only counts what is paid.
- API layers, plugins, the wallet, peer-to-peer transport, genesis and configuration.
