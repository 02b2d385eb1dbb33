# A verified model of the META1 chain's market engine and its neighbours

META1 is a Graphene chain.  This project models its on-chain market engine after all hardforks, together with five
smaller state machines, and proves what they keep over every run:

- **Prices** (`Prices.dfy`, `PriceScaling.dfy`, `PriceAccuracy.dfy`): amounts converted down and up at a price, and prices
  scaled by a ratio.  Everything rests on two facts: rounding down one way and rounding up the other way form a Galois
  connection, and a price scaled by a larger ratio is never lower, however much is rounded.
- **Margin-call sizing** (`MarginCall.dfy`): how much debt a margin call covers.  Both searches terminate, no defensive
  check fires but one that the code takes for granted (below), the pair tested is the pair executed, and with an exact
  target the amount lies between two closed forms and is locally minimal, so the Fibonacci search is never entered.
- **The market** (`Ledgers.dfy`, `DeferredFees.dfy`, `LimitMatching.dfy`, `Market.dfy`, `MarginEngine.dfy`,
  `OrderEngine.dfy`, `Redemption.dfy`, `Revival.dfy`, `ForceSettlement.dfy`, `Database.dfy`): one market-issued asset and its backing
  asset.  `Databases.Database` has one method per operation; `Run` submits any sequence of them.  What a trade, a fill, a
  settlement or a refund moves is stated account by account, and a refusal only for its reasons.  In every state the book
  is uncrossed and free of dust, both assets are conserved, debt equals supply while the asset is open, and the fund
  covers the supply once it is settled.  For every feed, no callable position stands beside a bid it could be matched
  with and every callable position is covered, in every state except from a revival that accepted, by rounding, a bid
  for a position not above maintenance to the next change of feed.
- **Liquidity pools** (`LiquidityPool.dfy`): the product of the balances per squared share never falls.
- **Fork switching** (`ForkSwitch.dfy`): the state is always the replay of the path to the head; a switch is all or
  nothing.
- **Smooth allocation** (`Allocation.dfy`, `AllocationProgress.dfy`): the catch-up loop has a closed form, the sell limits
  are the sums of their properties' contributions over every run, and the 32-bit progress arithmetic never overflows.
- **Witness schedule** (`WitnessSchedule.dfy`) and **chain synchronisation** (`Synopsis.dfy`).

`Collections.dfy` holds sums and sorted sequences.

How the original's machinery appears here: `modify`/`create`/`remove` on indices become updates of sequences kept in
index order; a thrown exception leaves the state as it was and is reported by a status or an option; clocks, hashes and
the outcome of applying a block are parameters.  `Status` distinguishes `Rejected` (the operation throws), `Stuck` (the
original would repeat a round that changes nothing) and `Short` (a fill would need more collateral than there is).
`Stuck` is characterized exactly, and impossible when the maintenance collateralization is exact; `Short` is impossible
except after a revival that accepted, by rounding, a bid for a position not above maintenance.  Methods whose loops make
a run of smaller steps return the states in between as a ghost value, and their contracts say what every step does.

Places where the code does not do what it intends, resolved in favour of the code:

- `libraries/chain/market_object.cpp:194` and `:214` say that a sum "should not overflow"; it can for positions near the
  64-bit limit, and then throws.  `MarginCall.GetMaxDebtToCover` says exactly when, for every target: the means taken with
  the upper bound held fixed, or the Fibonacci steps taken whatever the target is, are all too small up to a sum that
  overflows (`MarginCall.BinaryOverflows`, `MarginCall.BinaryExhausts`, `MarginCall.ForwardOverflows`).
  `MarginCall.OverflowBracket` bounds it in closed form, and `MarginCall.SizingCanOverflow` gives an input.
- `libraries/chain/market_object.cpp:117` says that its test "should not be true"; it is, exactly for a callable position
  whose exact ratio is above its target already, which is possible when scaling the feed price rounds
  (`MarginCall.CoversNothingIffNegative`).  The position then covers nothing, and the margin loops repeat a round that
  changes nothing.  `MarginEngine.CheckCallOrders` and `OrderEngine.MatchCalls` say that they do so in exactly this case,
  `MarginEngine.MarginCallsCanSpin` gives a market, and `MarginCall.CallableCoversSomething` a condition on the feed alone
  that excludes it.
- The check of collateral bids rounds, and can accept one for a position that is callable at once; nothing then calls it,
  even beside an order that would buy its collateral (`Revival.RevivalCanStrandBids`).  The margin condition survives a
  revival whenever the positions checked are above maintenance (`Revival.ExecuteBids`), as with exact ratios they are
  (`Revival.ExactChecksSuffice`).
- A reply with limit zero reports no remaining items, whatever the chain holds (`libraries/app/application.cpp:809-816`).

## Model

| member | source | states |
|---|---|---|
| `Prices.DownSpec` | libraries/protocol/asset.cpp:59-76 | multiplying by a price yields the largest whole amount not worth more |
| `Prices.UpSpec` | libraries/protocol/asset.cpp:78-96 | rounding up yields the smallest whole amount not worth less |
| `Prices.DownGeqIffUpLeq` | libraries/protocol/asset.cpp:59-96 | x converts down to at least y exactly if y converts up, the other way, to at most x |
| `Prices.Stabilize` | libraries/protocol/asset.cpp:59-96 | down and back up never raises an amount and is stable |
| `Prices.StabilizeUp` | libraries/protocol/asset.cpp:59-96 | up and back down never lowers an amount and is stable |
| `Prices.RemainderIsWorthless` | libraries/protocol/asset.cpp:59-96 | what a re-rounded payment leaves converts to nothing |
| `Prices.DownAtBetterPrice` | libraries/protocol/asset.cpp:59-76 | a better price never yields less |
| `PriceScaling.Reduce` | libraries/protocol/asset.cpp:107-192 | lowest terms keep the ratio and never grow |
| `PriceScaling.ReducedIsLowest` | libraries/protocol/asset.cpp:107-192 | no common divisor of the reduced terms is left |
| `PriceScaling.Shrink` | libraries/protocol/asset.cpp:107-192 | halving terminates within range and leaves a fraction in range alone |
| `PriceScaling.ScaleWithIsValid` | libraries/protocol/asset.cpp:107-192 | a scaled price is valid and in range, whichever candidate is picked |
| `PriceScaling.ScaleWithKeepsSide` | libraries/protocol/asset.cpp:107-192 | a ratio of at least one never lowers a price, one of at most one never raises it, rounding included |
| `PriceScaling.ScaleIsExact` | libraries/protocol/asset.cpp:107-192 | a representable product is returned exactly |
| `PriceAccuracy.CandidateIsNear` | libraries/protocol/asset.cpp:107-187 | inside the range the candidate picked differs from the exact product by at most one part in 2^17; above it is the largest price |
| `PriceAccuracy.ScaleIsNear` | libraries/protocol/asset.cpp:107-192 | whatever the ratio, a scaled price inside the range differs from the exact product by at most one part in 2^17 |
| `PriceAccuracy.ScaleMonotone` | libraries/protocol/asset.cpp:107-192 | for ratios above one, a larger ratio never gives a lower price, whatever is rounded |
| `MarginCall.MeanFacts` | libraries/chain/market_object.cpp:189-244 | a mean is half the sum of the bounds, rounded up in collateral and down in debt and re-rounded to an executable pair strictly inside the bounds, or it is the upper bound, and that of executable bounds only if they are neighbours; it throws for a sum exactly if the bounds do not fit |
| `MarginCall.BinarySearch` | libraries/chain/market_object.cpp:184-263 | the loop terminates with the result of the specification of the search, and the defensive check of every pair it tests holds |
| `MarginCall.BinaryFromFacts` | libraries/chain/market_object.cpp:184-263 | what the search finds short of everything is good while the next smaller executable amount is not; it finds something whenever the upper end is good or everything |
| `MarginCall.BinaryOverflows` | libraries/chain/market_object.cpp:184-263 | a sum of bounds leaves 64 bits exactly if the means taken with the upper bound held fixed are all too small up to one that does: once the upper bound has moved, no sum can overflow |
| `MarginCall.BinaryExhausts` | libraries/chain/market_object.cpp:184-263 | it keeps its upper bound exactly if the means taken with the upper bound held fixed are all too small, and then ends without a good pair exactly if the bound is neither good nor everything |
| `MarginCall.OverflowBracket` | libraries/chain/market_object.cpp:184-263 | in closed form: it throws if the first sum does not fit, and does not if twice the upper bound fits |
| `MarginCall.ForwardPayStep` | libraries/chain/market_object.cpp:265-302 | a forward step never moves back and, re-rounded, still pays at least the step |
| `MarginCall.ForwardSearch` | libraries/chain/market_object.cpp:265-302 | the Fibonacci loop terminates with the result of its specification |
| `MarginCall.ForwardFromFacts` | libraries/chain/market_object.cpp:265-302 | the forward search returns a good amount or everything, whatever the target |
| `MarginCall.ForwardFindsFirst` | libraries/chain/market_object.cpp:265-302 | the result is the first good pair of the steps, and everything or an error only if none of them is good |
| `MarginCall.StepsAreFibonacci` | libraries/chain/market_object.cpp:265-302 | each step adds the next Fibonacci number in the finer unit and is re-rounded |
| `MarginCall.ForwardOverflows` | libraries/chain/market_object.cpp:265-302 | its sums leave 64 bits exactly if the steps, a sequence that does not depend on the target, end in such a sum and none of them is good |
| `MarginCall.SearchFrom` | libraries/chain/market_object.cpp:159-302 | the branch for strange data is unreachable, and the result is that of the two searches |
| `MarginCall.SearchResultFacts` | libraries/chain/market_object.cpp:159-302 | whatever the target, what the binary search finds short of everything is locally minimal; with a good upper guess the result is at most it, the forward search is never entered, and only the binary search can throw for a sum |
| `MarginCall.GetMaxDebtToCover` | libraries/chain/market_object.cpp:61-304 | nothing exactly for positions above maintenance and for callable ones whose exact ratio is above their target already, everything without a target; otherwise an amount whose execution leaves the position above the feed price times the owner's ratio, or times the maintenance ratio if that is higher, unless it is everything; with an exact target it exceeds numerator / denominator, is at most every guess above that with the rounding fraction added, and the next smaller amount fails; it throws for a sum exactly in a case that can be evaluated beforehand, and otherwise only for a conversion out of range |
| `MarginCall.MaxDebtFacts` | libraries/chain/market_object.cpp:61-304 | the same about its specification; with an exact target the overflow condition involves the binary search alone |
| `MarginCall.ClosedFormDecides` | libraries/chain/market_object.cpp:108-157 | for any target: nothing if the numerator is negative, everything if the denominator is not positive or the quotient covers the debt or costs the whole collateral, the re-rounded quotient if that is good, and the searches otherwise |
| `MarginCall.LowPairIsLargest` | libraries/chain/market_object.cpp:131-136 | the pair searched from is the largest executable one that costs no more than the quotient itself is worth |
| `MarginCall.CoversNothingIffNegative` | libraries/chain/market_object.cpp:110-118 | the test that is there just to be safe holds exactly if the exact ratio is above the target, whatever the match price |
| `MarginCall.CallableIsNotAboveTarget` | libraries/chain/market_object.cpp:82-97 | whatever is rounded, a callable position is not above its target collateralization |
| `MarginCall.CallableMeans` | libraries/chain/market_object.cpp:82-90 | without rounding, callable means that the exact ratio is at most the maintenance ratio of the feed price |
| `MarginCall.MaintenanceIsNear` | libraries/protocol/asset.cpp:290-297 | with rounding the maintenance collateralization is within one part in 2^17 of that |
| `MarginCall.NoSmallerCoverSuffices` | libraries/chain/market_object.cpp:114-129 | no amount up to numerator / denominator lifts the position above the exact target |
| `MarginCall.UpperGuessSuffices` | libraries/chain/market_object.cpp:159-164 | the closed form with the rounding fraction added always does |
| `MarginCall.LowerGuessFails` | libraries/chain/market_object.cpp:124-157 | with an exact target the first guess is never good |
| `MarginCall.UpperGuessIsGood` | libraries/chain/market_object.cpp:159-179 | with an exact target the upper guess is good whenever it leaves part of the position |
| `MarginCall.CallableCoversSomething` | libraries/chain/market_object.cpp:80-128 | with an exact maintenance collateralization a callable position always covers something, at any match price |
| `MarginCall.RoundedFeedCoversNothing` | libraries/chain/market_object.cpp:80-118 | a concrete callable position that is told to cover nothing at every match price |
| `MarginCall.SizingCanOverflow` | libraries/chain/market_object.cpp:186-214 | a concrete position for which the sum that is said not to overflow does |
| `Ledgers.MarketFee` | libraries/chain/db_market.cpp:1199-1231 | the market fee never exceeds the amount |
| `Ledgers.MarketFeeIs` | libraries/chain/db_market.cpp:1199-1231 | it is the largest amount within the percentage and the maximum fee; takers have their own percentage if one is set, else the makers' applies |
| `Ledgers.Ledger.RewardIs` | libraries/chain/db_market.cpp:1233-1302 | the rewarded part of a fee is its percentage, for sellers with a registrar who shares, and nothing for others |
| `Ledgers.Ledger.VestSplits` | libraries/chain/db_market.cpp:1233-1302 | the referrer's percentage of the reward vests for the referrer, the rest for the registrar, all of it for one who is both |
| `Ledgers.Ledger.ReceiveTotal` | libraries/chain/db_market.cpp:1233-1302 | what is received is shared by seller, issuer, registrar and referrer without loss |
| `Ledgers.Ledger.ReceivePays` | libraries/chain/db_market.cpp:1233-1302 | the seller alone is paid, the amount less the fee; the issuer accumulates what is not rewarded |
| `LimitMatching.LimitMatch` | libraries/chain/db_market.cpp:567-632 | at the maker's price nobody overpays, both limits hold, the smaller side pays the least for what it gets, its remainder is worth nothing, and nothing leaves the amount range; no trade happens only if the taker, the smaller side, gets nothing for all it has |
| `LimitMatching.Fill` | libraries/chain/db_market.cpp:320-344 | what is left after a fill is a valid order, never dust if culling is asked for; an order is gone only if used up or culled as dust, and what is culled is refunded |
| `DeferredFees.CancelFeeIsCovered` | libraries/chain/db_market.cpp:224-280 | the cancellation fee, rounded up, is positive and never exceeds the deferred fee paid |
| `DeferredFees.FeesAreConserved` | libraries/chain/db_market.cpp:224-318 | over any run of orders, any number of them at once, created, filled and cancelled, neither core nor the fee asset is lost or made |
| `DeferredFees.StepsFollow` | libraries/chain/db_market.cpp:224-318 | each event of a run takes place or cannot |
| `DeferredFees.UnfilledIsRefunded` | libraries/chain/db_market.cpp:289-312 | whatever happens to other orders meanwhile, an order withdrawn unfilled and uncharged returns exactly its fee to its seller and to the pool that advanced it |
| `DeferredFees.CreatedPays` | libraries/chain/market_evaluator.cpp:240-278 | an order is created exactly if its seller can pay the fee and the pool can advance it; both are charged exactly that |
| `DeferredFees.FilledPays` | libraries/chain/db_market.cpp:320-344 | the first fill pays the whole fee, to the network and the asset's issuer, and refunds nobody |
| `DeferredFees.ChargedIsSplit` | libraries/chain/db_market.cpp:224-318 | a charged withdrawal pays the charge to network and issuer and returns the rest to its seller and to the pool that advanced it, and to no one else |
| `LimitMatching.LedgersAfter` | libraries/chain/db_market.cpp:814-848 | a trade's ledger entries conserve both assets and touch only the two sellers |
| `LimitMatching.TradePays` | libraries/chain/db_market.cpp:814-848 | account by account: in the asset sold the maker is paid the payment less the makers' fee and the taker its refund, in the asset bought the taker is paid what it gets less the takers' fee and the maker its refund |
| `LimitMatching.TradeStepFollows` | libraries/chain/db_market.cpp:567-632 | one trade conserves both assets, keeps the opposite side sorted and free of dust, and removes the taker or the maker |
| `LimitMatching.TradeStepPays` | libraries/chain/db_market.cpp:567-632 | one trade shrinks each order by what it gave, removes it exactly if it is used up or culled as dust, and moves both assets account by account as above |
| `LimitMatching.MatchOpposite` | libraries/chain/db_market.cpp:473-545 | the loop is the fold of single trades from the best price down, and stops only if nothing more can match |
| `LimitMatching.MatchingIsTrades` | libraries/chain/db_market.cpp:473-545 | that fold is a run of such trades, each with the best maker while prices cross and the maker is strictly better than the floor, and ends only when no further one is possible |
| `LimitMatching.MatchingInTwo` | libraries/chain/db_market.cpp:473-545 | stopping at a price and going on later is the same as not stopping |
| `Markets.NoTwoOrdersCross` | libraries/chain/db_market.cpp:397-555 | uncrossed fronts mean that no two resting orders cross |
| `Markets.PositionPlace` | libraries/chain/include/graphene/chain/market_object.hpp:224-229 | positions are kept by rising ratio of collateral to debt, ties by id |
| `Markets.OfferPlace` | libraries/chain/include/graphene/chain/market_object.hpp:265-272 | collateral bids are kept by falling ratio of collateral to debt, ties by id |
| `Markets.MarginOkFromFirst` | libraries/chain/db_market.cpp:1056-1069 | the least collateralized position decides for all of them |
| `Markets.SqueezeIsNear` | libraries/protocol/asset.cpp:284-288 | the squeeze price is the feed price over the squeeze ratio, within one part in 2^17, and exactly if representable |
| `Markets.CoverDebtKeepsCalls` | libraries/chain/db_market.cpp:868-929 | covering debt keeps the positions sorted and valid and lowers debt, supply and collateral by exactly the amounts |
| `Markets.CoverDebtMoves` | libraries/chain/db_market.cpp:868-929 | a covered position is closed and its unused collateral returned to its borrower alone, or it stays, less the two amounts, among the same other positions |
| `MarginEngine.MarginTradeOk` | libraries/chain/db_market.cpp:634-705 | a covered position never gives more collateral than it has, and is no worse off after serving a smaller order |
| `MarginEngine.MarginSizesExact` | libraries/chain/db_market.cpp:634-705 | the position buys all it wants for the least collateral worth it, or the most the order pays for, for which the order gives the least debt |
| `MarginEngine.ReturnedTotal` | libraries/chain/db_market.cpp:58-113 | what is gathered and what is returned make up all the collateral |
| `MarginEngine.ReturnedTo` | libraries/chain/db_market.cpp:58-113 | every borrower gets back the collateral of its own positions less their debt at the settlement price, rounded up |
| `MarginEngine.GloballySettledKeeps` | libraries/chain/db_market.cpp:58-113 | settling conserves both assets and leaves a fund that covers the supply at the settlement price |
| `MarginEngine.GloballySettle` | libraries/chain/db_market.cpp:58-113 | the loop closes every position as specified, and throws exactly if a payment is out of range |
| `MarginEngine.SettlementIsAffordable` | libraries/chain/db_market.cpp:73-98 | at the least collateralized position's own price or better no position is short |
| `MarginEngine.SwanSettlementIsAffordable` | libraries/chain/db_update.cpp:185-272 | in a swan settlement the cap on what a position pays is never needed |
| `MarginEngine.SwanMeans` | libraries/chain/db_update.cpp:185-247 | a swan means that the least collateralized position is covered neither at the squeeze price nor at the best bid |
| `MarginEngine.SwanPriceIsHigher` | libraries/chain/db_update.cpp:248-270 | a swan settles at the higher of the feed price and the price of the least collateralized position |
| `MarginEngine.LiftedIsNotCallable` | libraries/chain/db_market.cpp:1063-1069 | for every feed, a position lifted above its target cannot be called again |
| `MarginEngine.SizeCall` | libraries/chain/db_market.cpp:1092-1098 | a margin call buys the amount computed for the position; it is stuck exactly if the position covers nothing, never with an exact maintenance collateralization |
| `MarginEngine.BidFilledFacts` | libraries/chain/db_market.cpp:814-865 | filling the best bid conserves both assets and keeps the side in order |
| `MarginEngine.BidFilledPays` | libraries/chain/db_market.cpp:814-865 | the bidder alone is paid, the collateral less the makers' fee, and refunded what is culled; the rest of the bid stays first |
| `MarginEngine.MarginRound` | libraries/chain/db_market.cpp:1056-1180 | one round, when there is no swan: the second swan test is never taken, no fill pays more than the collateral, and the bid or the position is removed or the position is lifted above its target; stuck exactly if the position covers nothing, never short |
| `MarginEngine.SettleSwan` | libraries/chain/db_update.cpp:248-270 | a swan settles at the feed price or at the least collateralized position's price |
| `MarginEngine.CheckCallOrders` | libraries/chain/db_market.cpp:981-1185 | the loop is a run of margin calls, each without a swan and with a bid at the squeeze price, and ends in a settlement exactly if the last state is a swan; afterwards no callable position stands beside a bid at the squeeze price or better; it does not terminate exactly if the last state of the run is one in which the first callable position covers nothing, and is refused only where a call throws or, if settling is not allowed, for a swan |
| `MarginEngine.NoRoundWhenSpinning` | libraries/chain/db_market.cpp:1056-1098 | from such a state no margin call leads anywhere |
| `MarginEngine.MarginCallsCanSpin` | libraries/chain/db_market.cpp:1056-1098 | a concrete market that satisfies every invariant, in which publishing a feed leads to such a state |
| `OrderEngine.LeftIsFine` | libraries/chain/db_market.cpp:634-705 | for every feed, a margin trade leaves a position covered or no longer callable |
| `OrderEngine.TakerFilledFacts` | libraries/chain/db_market.cpp:814-865 | filling the new order in a margin trade conserves both assets |
| `OrderEngine.TakerFilledPays` | libraries/chain/db_market.cpp:814-865 | the bidder alone is paid, the collateral less the takers' fee, and refunded what is culled; the bid is gone exactly if it is used up or culled as dust |
| `OrderEngine.CallOnce` | libraries/chain/db_market.cpp:634-705 | one margin call with the new order, of the computed size, at the squeeze price; stuck exactly if the position covers nothing; for every feed, callable positions that are covered stay so, and then it is never short |
| `OrderEngine.MatchCalls` | libraries/chain/db_market.cpp:485-510 | the loop is a run of such calls and stops only when the order is finished or no position is callable; stuck exactly if the last state is one in which the first callable position covers nothing |
| `OrderEngine.NoFillWhenSpinning` | libraries/chain/db_market.cpp:485-510 | from such a state the loop stays where it is |
| `OrderEngine.BehindFrontIsUncrossed` | libraries/chain/db_market.cpp:403-411 | an order behind the front of its side crosses nothing |
| `OrderEngine.ListedMeans` | libraries/chain/db_market.cpp:403-555 | a finished order is listed once, behind all orders as good or better and before all others; dust goes back to its seller alone |
| `OrderEngine.ShortcutIsLimitOnly` | libraries/chain/db_market.cpp:403-411 | returning early for such an order gives exactly the result of attempting every match |
| `OrderEngine.PhasesAreOneMatching` | libraries/chain/db_market.cpp:473-545 | without callable positions the three phases of a new bid amount to plain matching |
| `OrderEngine.MatchAsks` | libraries/chain/db_market.cpp:473-484 | matching a bid with asks down to a price keeps the market consistent |
| `OrderEngine.MatchBetterAsksAndCalls` | libraries/chain/db_market.cpp:452-510 | better asks first, then positions, each phase as specified |
| `OrderEngine.MatchOtherAsks` | libraries/chain/db_market.cpp:538-545 | the remaining asks, until nothing crosses |
| `OrderEngine.ApplyBid` | libraries/chain/db_market.cpp:397-555 | a bid at the front keeps the whole invariant and goes through exactly the specified phases; it is refused only where a margin call throws |
| `OrderEngine.ApplyAsk` | libraries/chain/db_market.cpp:397-555 | an ask at the front keeps the whole invariant and is matched plainly |
| `OrderEngine.ApplyOrder` | libraries/chain/db_market.cpp:397-555 | any new order keeps the invariant; unless it is a bid that meets callable positions the result is exactly plain price-time matching and nothing can throw |
| `Redemption.RedeemKeepsSolvent` | libraries/chain/asset_evaluator.cpp:890-950 | a redemption never overdraws the fund, pays exactly what the payment is worth, and leaves the fund solvent; the holder of everything takes everything |
| `Redemption.RedeemPaysLeast` | libraries/chain/asset_evaluator.cpp:890-950 | a holder of part of the supply gives up the least that is worth what it gets |
| `Redemption.EveryRunStaysSolvent` | libraries/chain/asset_evaluator.cpp:890-950 | any run of redemptions keeps fund * S0 >= supply * F0, and fund and supply run out together |
| `Redemption.AttemptsFollow` | libraries/chain/asset_evaluator.cpp:890-950 | every attempt of a run is one redemption or changes nothing |
| `Revival.AcceptedIsNotCallable` | libraries/protocol/asset.cpp:212-223 | with exact ratios a position that passes the rounded check cannot be margin called |
| `Revival.Accepted1Means` | libraries/chain/db_maint.cpp:804-823 | with amounts small enough to be exact, a bid passes exactly if its collateral and its share of the fund exceed the maintenance ratio of its share of the debt |
| `Revival.TrimmedIsNoWorse` | libraries/chain/db_maint.cpp:829-847 | the trimmed last bid's ratio is no lower than the one checked |
| `Revival.ShareIsCovered` | libraries/chain/db_maint.cpp:829-847 | a bid's share never overdraws the fund, and what is left stays solvent |
| `Revival.FirstPass` | libraries/chain/db_maint.cpp:804-823 | the bids before the stop are accepted and do not yet cover the supply; the one it stops at is refused |
| `Revival.Share` | libraries/chain/db_maint.cpp:829-842 | what one bid takes over of debt and fund |
| `Revival.SecondPass` | libraries/chain/db_maint.cpp:825-847 | created debt is exactly the supply, created collateral exactly fund and bids, each position at least as good as checked; the final assertions hold |
| `Revival.RefundOffers` | libraries/chain/db_market.cpp:139-177 | every remaining bid is refunded |
| `Revival.OffersRefundedTo` | libraries/chain/db_market.cpp:139-177 | every bidder gets back the collateral of its own bids |
| `Revival.CreatedPositionsAreSafe` | libraries/chain/db_maint.cpp:794-848 | a created position is valid, and not callable if the one checked is above maintenance |
| `Revival.ExecuteBids` | libraries/chain/db_market.cpp:139-207 | executing the accepted bids and refunding the rest keeps the whole invariant, with the margin condition if the positions checked are above maintenance |
| `Revival.ExactChecksSuffice` | libraries/chain/db_maint.cpp:804-823 | with an exact maintenance collateralization and unrounded amounts every accepted bid is checked for a position above maintenance |
| `Revival.RevivalCanStrandBids` | libraries/chain/db_maint.cpp:794-848 | a concrete market that satisfies every invariant, whose revival leaves a callable position beside a bid it could be matched with |
| `Revival.ProcessBids` | libraries/chain/db_maint.cpp:794-848 | the asset is revived exactly if some accepted run of best bids covers the supply |
| `Revival.ExecutedMeans` | libraries/chain/db_maint.cpp:825-847 | bid by bid: every accepted bidder alone owes what it asked for, at most the supply, against its collateral and that debt's share of the fund, the last one the rest of both; the other bidders get their collateral back |
| `ForceSettlement.SettleMatchOk` | libraries/chain/db_market.cpp:708-812 | re-rounding never raises the amount settled; a covered position is never asked for too much and its ratio does not fall; an order is left alone only if what the cap allows is worth nothing |
| `ForceSettlement.MatchSettleIs` | libraries/chain/db_market.cpp:708-812 | as much is settled as order, limit and position allow; the position pays what this is worth, rounded up only if it is closed and down otherwise, for the least amount worth the payment; when refunded or left alone |
| `ForceSettlement.CoveredAtFillPrice` | libraries/chain/db_update.cpp:412-428 | every position that is not callable, or callable and covered at the squeeze price, is covered at the settlement price |
| `ForceSettlement.FillPriceIsNear` | libraries/chain/db_update.cpp:412-428 | the settlement price is the feed price over what the offset leaves of it, within one part in 2^17, and exactly if representable |
| `ForceSettlement.SettleFilledFacts` | libraries/chain/db_market.cpp:931-965 | filling and culling a settle order conserves both assets |
| `ForceSettlement.SettleFilledPays` | libraries/chain/db_market.cpp:931-965 | the holder alone is paid, the collateral less the takers' fee, and refunded what is culled; the rest of its order stays first |
| `ForceSettlement.CancelFirstPays` | libraries/chain/db_market.cpp:209-222 | a cancelled settle order is removed and its balance returned to its owner alone |
| `ForceSettlement.MatchFirst` | libraries/chain/db_market.cpp:708-812 | one match as specified; the order is filled, refunded, reduced or left intact and the invariant is kept |
| `ForceSettlement.SettleFirst` | libraries/chain/db_update.cpp:430-479 | the inner loop terminates and never passes the cap |
| `ForceSettlement.VisitAsset` | libraries/chain/db_update.cpp:336-480 | one pass of the loop with the first order of an asset: the order is consumed, the cap is used up, the asset is finished or left; the cached cap and price are those computed anew |
| `ForceSettlement.SettleAllDue` | libraries/chain/db_update.cpp:303-481 | over all assets the loop terminates; each asset makes its own run of specified steps within its own cap and no step touches another asset; supply plus volume is constant; a due order is left only if what is left of the cap is worth nothing |
| `ForceSettlement.SettleDueOrders` | libraries/chain/db_update.cpp:303-481 | the same for one asset |
| `ForceSettlement.CapIsConstant` | libraries/chain/asset_object.cpp:33-45 | the cap is the same whenever it is computed |
| `ForceSettlement.CapIs` | libraries/chain/asset_object.cpp:33-45 | it is the largest amount within the percentage of supply and settled volume |
| `Databases.NewOrderIsNoDust` | libraries/chain/market_evaluator.cpp:280-312 | a new order receives at least one unit at its own price |
| `Databases.OfferedMeans` | libraries/chain/market_evaluator.cpp:280-312 | an order is placed exactly if both amounts are in range and the balance covers it; its amount alone is set aside |
| `Databases.CancelKeepsInv` | libraries/chain/db_market.cpp:224-318 | withdrawing any order keeps the whole invariant |
| `Databases.PositionSetKeeps` | libraries/chain/market_evaluator.cpp:401-487 | a change of position conserves both assets and keeps debt equal to supply |
| `Databases.PositionSetMoves` | libraries/chain/market_evaluator.cpp:401-487 | account by account and position by position: the account's balances, the supply and its first position move by the requested amounts, and nothing else |
| `Databases.PositionAllowedMeans` | libraries/chain/market_evaluator.cpp:489-555 | a called position must be gone; an uncalled one must be above maintenance, or have no more debt and a strictly higher ratio than before |
| `Databases.ChangePosition` | libraries/chain/market_evaluator.cpp:354-487 | refused exactly if not allowed, otherwise both balances, the supply and one position move by the requested amounts |
| `Databases.Revive` | libraries/chain/db_market.cpp:115-137 | the issuer takes over exactly supply and fund, all bids are refunded, and the assertion that an empty supply has an empty fund holds |
| `Databases.RevivedMeans` | libraries/chain/db_market.cpp:115-177 | field by field: one position of the issuer with supply and fund, or none, and every bidder gets its own bids back |
| `Databases.OfferPlacedMoves` | libraries/chain/market_evaluator.cpp:587-614 | account by account and bid by bid: the account's first bid is returned, the new one taken and listed, and nothing else changes |
| `Databases.ShouldReviveMeans` | libraries/chain/asset_evaluator.cpp:1046-1066 | without rounding: there is no supply, or the fund exceeds the maintenance ratio of the supply |
| `Databases.BalanceWithinSupply` | libraries/chain/asset_evaluator.cpp:890-950 | nobody holds more than the supply |
| `Databases.InsertSettlePlace` | libraries/chain/include/graphene/chain/market_object.hpp:243-249 | settle orders queue by date and, for one date, by arrival |
| `Databases.RedeemedPays` | libraries/chain/asset_evaluator.cpp:890-950 | the holder alone gives up the debt and is paid the claim less the takers' fee; supply and fund shrink alike |
| `Databases.Database.constructor` | libraries/chain/asset_evaluator.cpp:141-186 | a market without orders and debt satisfies the invariant |
| `Databases.Database.CreateLimitOrder` | libraries/chain/market_evaluator.cpp:280-312 | the new state is that of plain matching or of the phases of a bid; a fill-or-kill order is never listed; it is refused only if it cannot be placed, a margin call throws, or it is fill-or-kill and would be listed; refusal changes nothing |
| `Databases.Database.CancelLimitOrder` | libraries/chain/market_evaluator.cpp:314-352 | the order is removed and exactly its amount returned |
| `Databases.Database.UpdateCallOrder` | libraries/chain/market_evaluator.cpp:354-555 | the position is changed as requested, margin calls follow, and the result is accepted only if the position is gone, above maintenance or improved; it is refused only if not allowed, if margin calls throw or meet a swan, or if they leave the position in another state |
| `Databases.Database.PublishFeed` | libraries/chain/asset_evaluator.cpp:1020-1073 | revival if the asset is covered again, then margin calls; afterwards the margin condition holds, whatever the new feed; it is refused only if it is no valid feed, the issuer has a bid on the debt it would take over, or a margin call throws |
| `Databases.Database.GloballySettleAsset` | libraries/chain/asset_evaluator.cpp:841-870 | possible exactly under the stated condition, with the specified result |
| `Databases.Database.SettleAsset` | libraries/chain/asset_evaluator.cpp:872-960 | the check that the fund suffices never fails; a redemption is refused only if it would yield nothing |
| `Databases.Database.BidForCollateral` | libraries/chain/market_evaluator.cpp:557-614 | an existing bid is returned and replaced, or withdrawn by a bid for no debt |
| `Databases.Database.ForceSettleDue` | libraries/chain/db_update.cpp:303-481 | the asset's part of a block's force settlements; with exact prices it always completes |
| `Databases.Database.Maintain` | libraries/chain/db_maint.cpp:909-945 | the volume starts again, and bids are processed |
| `Databases.Database.Apply` | libraries/chain/market_evaluator.cpp:280-614 | every operation either has its specified effect or changes nothing, and keeps the invariant |
| `Databases.Database.Run` | libraries/chain/market_evaluator.cpp:280-614 | in every state of every run the book is uncrossed and dust free, both assets are conserved, debt equals supply or the fund is solvent, and, for every feed, the margin condition holds unless a bid accepted for a position not above maintenance has become one since the last change of feed |
| `LiquidityPools.DepositFacts` | libraries/chain/liquidity_pool_evaluator.cpp:117-184 | a deposit takes no more than offered and at least its shares' worth; no internal error |
| `LiquidityPools.DepositIsBest` | libraries/chain/liquidity_pool_evaluator.cpp:161-181 | it takes the least that pays for its shares, and more shares are unaffordable or exceed the maximum |
| `LiquidityPools.DepositExactly` | libraries/chain/liquidity_pool_evaluator.cpp:117-184 | a deposit succeeds exactly with the most shares affordable on both sides and within the maximum supply, for the least amounts that pay for them; the first one only by the owner, for the larger amount |
| `LiquidityPools.WithdrawFacts` | libraries/chain/liquidity_pool_evaluator.cpp:216-268 | a withdrawal takes at most the shares' worth and never empties one side alone; no internal error |
| `LiquidityPools.WithdrawIsBest` | libraries/chain/liquidity_pool_evaluator.cpp:247-265 | it yields the whole part of the shares' worth less exactly the fee |
| `LiquidityPools.WithdrawExactly` | libraries/chain/liquidity_pool_evaluator.cpp:216-268 | a withdrawal succeeds exactly for shares there are, unless it would yield nothing, and with exactly that result |
| `LiquidityPools.ExchangeFacts` | libraries/chain/liquidity_pool_evaluator.cpp:305-366 | a swap never lowers the product of the balances; no internal error |
| `LiquidityPools.ExchangeIsBest` | libraries/chain/liquidity_pool_evaluator.cpp:327-359 | before its fee it pays the most that keeps the product |
| `LiquidityPools.ExchangeExactly` | libraries/chain/liquidity_pool_evaluator.cpp:305-366 | a swap succeeds exactly if the pool is live, something is left of the amount after its market fee, the balance stays in range and the required amount is met, and with exactly that result |
| `LiquidityPools.StepKeepsSound` | libraries/chain/liquidity_pool_evaluator.cpp:117-410 | every operation keeps empty balances and empty supply equivalent, trips no internal check, and does not lower the backing of a share |
| `LiquidityPools.StepMoves` | libraries/chain/liquidity_pool_evaluator.cpp:117-410 | an operation succeeds exactly if its evaluation does and balances stay in range, and moves exactly the evaluated amounts |
| `LiquidityPools.EveryStateIsSound` | libraries/chain/liquidity_pool_evaluator.cpp:172-207 | in every state of every run no internal check can fire |
| `LiquidityPools.StepsFollow` | libraries/chain/liquidity_pool_evaluator.cpp:117-410 | each state of a run follows from the one before by the operation or its refusal |
| `LiquidityPools.BackingNeverFalls` | libraries/chain/liquidity_pool_evaluator.cpp:161-359 | over any run on a live pool balance_a * balance_b / supply^2 never decreases |
| `LiquidityPools.DepositThenWithdraw` | libraries/chain/liquidity_pool_evaluator.cpp:161-265 | depositing and withdrawing the same shares never returns more of either asset |
| `LiquidityPools.SwapThenSwapBack` | libraries/chain/liquidity_pool_evaluator.cpp:327-359 | swapping and swapping back never returns more than was sold |
| `LiquidityPools.IntermediatesFit` | libraries/chain/liquidity_pool_evaluator.cpp:161-359 | all intermediate values, of either side, fit 128 bits |
| `LiquidityPools.LiquidityPool.Apply` | libraries/chain/liquidity_pool_evaluator.cpp:186-410 | the object changes by exactly the evaluated step; burning shares and issuing them directly follow the guards of the share asset |
| `ForkSwitch.FetchBranchFrom` | libraries/chain/fork_database.cpp:148-190 | finds two parent-linked paths with a common parent exactly if there are any, and the shortest ones |
| `ForkSwitch.HistoryIsReplay` | libraries/chain/db_block.cpp:130-215 | the state is the replay of the path |
| `ForkSwitch.HistoryMeans` | libraries/chain/db_block.cpp:130-215 | in a history every block builds on the head before it and the application goes from state to state |
| `ForkSwitch.AppliedIffHistory` | libraries/chain/db_block.cpp:154-167 | a branch applies exactly if there is a history along it, and with the state that ends in |
| `ForkSwitch.BranchRetracesPath` | libraries/chain/db_block.cpp:144-152 | the branch from the head is the path walked backwards, so popping it reaches the common parent |
| `ForkSwitch.Chain.PopBlock` | libraries/chain/db_block.cpp:462-476 | the last saved state is restored |
| `ForkSwitch.Chain.PopTo` | libraries/chain/db_block.cpp:147-152 | popping ends at the fork point with the states before it untouched |
| `ForkSwitch.Chain.ApplyBranch` | libraries/chain/db_block.cpp:154-167 | succeeds exactly if the whole branch applies, with that result |
| `ForkSwitch.Chain.RemoveBlock` | libraries/chain/fork_database.cpp:197-212 | a removed head falls back to its parent |
| `ForkSwitch.Chain.LeaveOldBranch` | libraries/chain/db_block.cpp:147-167 | the old branch is undone and the new one applied as far as it goes |
| `ForkSwitch.Chain.ReturnToOldBranch` | libraries/chain/db_block.cpp:168-197 | after a refused block the old head, state, undo history and fork head are restored |
| `ForkSwitch.Chain.Switch` | libraries/chain/db_block.cpp:141-201 | all or nothing: it succeeds exactly if every block of the new branch applies |
| `ForkSwitch.Chain.Store` | libraries/chain/fork_database.cpp:71-98 | rejected exactly if too old or unlinked; after a new highest block an id is known exactly if it was, or is the new one, and its number plus the size of the fork database is at least the new number |
| `ForkSwitch.Chain.Extend` | libraries/chain/db_block.cpp:203-214 | a block on top of the head is applied, or forgotten without trace in the state |
| `ForkSwitch.Chain.SwitchTo` | libraries/chain/db_block.cpp:141-201 | a higher block on another branch: unreachable, beyond the undo history, refused or switched to, each exactly under its condition |
| `ForkSwitch.Chain.PushBlock` | libraries/chain/db_block.cpp:130-215 | every outcome and the whole state after it is characterized by a condition on the state before: which blocks are still known, which branch is applied on which saved state, and which blocks are forgotten if one is refused; the state stays the replay of the path to the head, and the head falls only if the undo history is too short |
| `ForkSwitch.Chain.PushBlocks` | libraries/chain/db_block.cpp:130-215 | over any sequence of blocks, up to one whose branch cannot be reached, each is pushed as above, the state is the replay of the path from the same first state and the head never falls |
| `ForkSwitch.JoinedStays` | libraries/chain/fork_database.cpp:71-98 | pruning keeps branches joined exactly if they were and no block of them is further below the new head than the size of the fork database |
| `ForkSwitch.NoneJoinedStays` | libraries/chain/fork_database.cpp:71-98 | so a switch is impossible exactly if no such branches existed before pruning |
| `Allocation.NextStart` | libraries/chain/allocation.cpp:9-37 | the next interval start, strictly later and at most one interval away |
| `Allocation.PrecedingStart` | libraries/chain/allocation.cpp:22-41 | the interval start at or before a time |
| `Allocation.NewProperty` | libraries/chain/property_evaluator.cpp:48-88 | a new property's phases share all its intervals; every field as created |
| `Allocation.CatchUp` | libraries/chain/db_smooth_allocation.cpp:81-98 | the catch-up loop equals the closed form of its ticks |
| `Allocation.UpdateProperty` | libraries/chain/db_smooth_allocation.cpp:38-99 | one property's update as specified |
| `Allocation.NewPropertyOnSchedule` | libraries/chain/property_evaluator.cpp:64-81 | a new property is on schedule |
| `Allocation.UpdateKeepsSchedule` | libraries/chain/db_smooth_allocation.cpp:39-99 | an update at any later time keeps it there; maturity fills both counters |
| `Allocation.EveryRunIsOnSchedule` | libraries/chain/db_smooth_allocation.cpp:39-99 | whatever blocks are missed, initial + approval counter = min(total, elapsed intervals), the initial counter filled first |
| `Allocation.ApprovedInTimeIsOnSchedule` | libraries/chain/property_evaluator.cpp:160-194 | the same for every run with an approval before the initial phase ends |
| `Allocation.ApprovedLateIsOnSchedule` | libraries/chain/property_evaluator.cpp:160-194 | a late approval, with the initial counter full, restarts the approval phase at the interval start before it: the counter is the number of whole intervals since, out of those up to the end, and is not full before |
| `Allocation.EndOfProperty` | libraries/chain/db_smooth_allocation.cpp:38-99 | at maturity everything that can be contributed is, and it stays so |
| `Allocation.ProgressInUnit` | libraries/chain/property_object.cpp:12-23 | progress lies in [0, 1] with a positive denominator |
| `AllocationProgress.ProgressFits32Bits` | libraries/chain/property_object.cpp:12-23 | no product or sum formed in 32-bit rational arithmetic overflows, and the result is the progress |
| `Allocation.ContributionError` | libraries/chain/allocation.cpp:96-124 | a contribution is its formula, progress times ten times the value rounded up, and exceeds its exact value by less than one |
| `Allocation.ContributionIgnoresTerms` | libraries/chain/allocation.cpp:96-124 | reducing the fraction does not change the contribution |
| `Allocation.ProgressNeverFalls` | libraries/chain/property_evaluator.cpp:160-194 | approval changes no progress, and updates before expiry never lower it |
| `Allocation.Allocations.CreateLimitation` | libraries/chain/asset_limitation_evaluator.cpp:15-50 | a new limit starts at zero |
| `Allocation.Allocations.CreateProperty` | libraries/chain/property_evaluator.cpp:18-88 | a new property changes no limit |
| `Allocation.Allocations.ApproveProperty` | libraries/chain/property_evaluator.cpp:135-194 | approval changes no limit and approves the one property as specified |
| `Allocation.Allocations.DeleteProperty` | libraries/chain/property_evaluator.cpp:196-230 | subtracting the contribution agrees with recomputing the sum; if the limits were not sums, it wraps around in 64 bits |
| `Allocation.Allocations.UpdateBlock` | libraries/chain/db_smooth_allocation.cpp:10-144 | every property is updated; every limit becomes the sum of contributions, unless one does not fit: then no limit is written if a contribution is too large, and exactly those of the symbols before the first too large sum otherwise |
| `Allocation.Allocations.RecomputeLimits` | libraries/chain/db_smooth_allocation.cpp:102-130 | the same for the recomputation alone, including limits nothing backs |
| `Allocation.SumForWithinValues` | libraries/chain/allocation.cpp:96-124 | no contribution and no sum of them exceeds ten times the values |
| `Allocation.Allocations.Apply` | libraries/chain/property_evaluator.cpp:48-230 | each operation has its specified effect on the properties, and keeps the limits equal to the sums, unless a recomputation stops early |
| `Allocation.Allocations.Run` | libraries/chain/db_smooth_allocation.cpp:10-144 | each state follows from the one before by the operation; after any run the limits are the sums of the contributions unless a recomputation stopped early, which cannot happen while ten times the values fit 64 bits |
| `WitnessSchedules.SlotOfItsTime` | libraries/chain/db_witness_schedule.cpp:44-80 | the slot of a slot's own time is that slot |
| `WitnessSchedules.SlotTimes` | libraries/chain/db_witness_schedule.cpp:44-80 | slot times are the block interval apart, counted from genesis or the last block, later by the skipped slots after maintenance |
| `WitnessSchedules.TimeLiesInItsSlot` | libraries/chain/db_witness_schedule.cpp:44-80 | every time lies in exactly the slot computed for it |
| `WitnessSchedules.ShuffleRearranges` | libraries/chain/db_witness_schedule.cpp:116-135 | the shuffle rearranges and never touches positions it has passed |
| `WitnessSchedules.ShufflePicks` | libraries/chain/db_witness_schedule.cpp:116-135 | position by position, each is exchanged with one picked from those not passed yet |
| `WitnessSchedules.PartnerIsPicked` | libraries/chain/db_witness_schedule.cpp:118-130 | the pick is the remainder of a 64-bit mix of time and position by what is left |
| `WitnessSchedules.MixValues` | libraries/chain/db_witness_schedule.cpp:118-130 | known values of that mix |
| `WitnessSchedules.Shuffle` | libraries/chain/db_witness_schedule.cpp:104-137 | the in-place loop computes that rearrangement |
| `WitnessSchedules.NoWitnessTwicePerRound` | libraries/chain/db_witness_schedule.cpp:36-42 | slots less than a round apart have different producers |
| `WitnessSchedules.EveryWitnessOncePerRound` | libraries/chain/db_witness_schedule.cpp:36-42 | every witness produces in any n consecutive slots |
| `WitnessSchedules.RearrangedStaysDistinct` | libraries/chain/db_witness_schedule.cpp:116-135 | a shuffle of distinct witnesses is distinct |
| `WitnessSchedules.ChargeMissed` | libraries/chain/db_witness_schedule.cpp:82-97 | each silent witness is charged exactly once, and nobody after a full silent round |
| `WitnessSchedules.QuorumIsThreshold` | libraries/chain/db_update.cpp:106-141 | exactly the numbers up to the selected one are confirmed by the threshold share |
| `WitnessSchedules.IrreversibleAdvances` | libraries/chain/db_update.cpp:84-141 | after a block the signer has confirmed the new head and no other confirmation changed, and the irreversible number is the largest that was irreversible or that the threshold share has confirmed; it never exceeds the head |
| `WitnessSchedules.IrreversibleNeverFalls` | libraries/chain/db_update.cpp:106-141 | along every chain, however the active set changes, it never falls, and whatever the threshold share has confirmed after the last block is irreversible |
| `WitnessSchedules.Schedule.constructor` | libraries/chain/db_init.cpp:703-721 | the genesis schedule is valid |
| `WitnessSchedules.Schedule.UpdateSchedule` | libraries/chain/db_witness_schedule.cpp:104-137 | a new round is shuffled exactly at multiples of the number of witnesses |
| `WitnessSchedules.Schedule.ApplyBlock` | libraries/chain/db_block.cpp:582-607 | a block is accepted exactly if its signer owns its slot and undo history is left; the absolute slot becomes the signer's own; head and irreversible number stay within the undo history |
| `Synopses.PositionsIncrease` | libraries/app/application.cpp:1003-1017 | the summary starts at the low block and climbs strictly within the range |
| `Synopses.PositionsReachHigh` | libraries/app/application.cpp:1003-1017 | with nothing after the reference it ends at the high block |
| `Synopses.PositionsAreFew` | libraries/app/application.cpp:1003-1017 | its length n satisfies 2^(n-1) <= span + 1, and span + 1 < 2^n when nothing follows |
| `Synopses.PositionsAreDense` | libraries/app/application.cpp:1003-1017 | every number is at most half the remaining span above a summarised one |
| `Synopses.SummaryAt` | libraries/app/application.cpp:1003-1017 | the entries are the ids of the summarised chain at those positions |
| `Synopses.BranchesDiverge` | libraries/chain/db_block.cpp:91-107 | the fork history ends at the block after the last common one |
| `Synopses.ForkViewFromBranches` | libraries/chain/db_block.cpp:91-107 | main chain and fork history together are the reference block's ancestry |
| `Synopses.Sample` | libraries/app/application.cpp:1003-1017 | the loop takes ids from the main chain up to the fork and from the history above it |
| `Synopses.GetBlockchainSynopsis` | libraries/app/application.cpp:903-1021 | the summary of the main chain, of the chain up to the reference or of the fork it is on; the refusals and when they happen |
| `Synopses.Stretch` | libraries/app/application.cpp:809-813 | the reply is contiguous |
| `Synopses.FindStart` | libraries/app/application.cpp:785-808 | the backwards scan finds the specified start or refuses as specified; it is the zero id if nothing was sent |
| `Synopses.StartIsDecided` | libraries/app/application.cpp:785-808 | it comes from the last entry that is not unknown or known off the chain: the zero id and ids on the chain are the start, a known id above the head is refused, and so is a synopsis without such an entry |
| `Synopses.GetBlockIds` | libraries/app/application.cpp:773-819 | the reply begins with the last shared entry, is contiguous up to the limit, and the remaining count is exact |
| `Synopses.StartIsLastShared` | libraries/app/application.cpp:796-804 | scanning from the end finds the last entry on the responder's chain |
| `Synopses.NothingShared` | libraries/app/application.cpp:796-807 | a synopsis without shared entry is refused |
| `Synopses.NodeOfChain` | libraries/chain/db_block.cpp:130-215 | a valid fork-switching state is a node whose head is the highest block it knows |
| `Synopses.ReplyStartsNearTheFork` | libraries/app/application.cpp:773-1021 | the reply to a synopsis starts no further before the true fork point than half the remaining span; a fork below the range is reported as unreachable |

## Left out

- Pre-hardfork branches and one-time migrations; prediction markets, whose orders skip margin calls.
- Several market-issued assets in one `Databases.Database`: it holds one asset pair.
- ForceSettlement.SettleAllDue: each asset has its own ledgers; a backing asset shared by several of them is not modelled.
- Databases.Database.CreateLimitOrder: the deferred fee is modelled apart from the market, in `DeferredFees`, and the META1
  valuation check is not modelled.
- Databases.Database.CancelLimitOrder: the fee and the refund of the deferred fee are modelled apart, in `DeferredFees`.
- Authorities and whitelists in the evaluators; virtual operations and account statistics.
- Orders asking for more than the maximum share supply are refused; the original accepts them and may throw later.
- From a revival that accepted a bid for a position not above maintenance to the next change of feed (`rough` in
  `Markets.Market`), the margin condition is not claimed, nor that no fill falls short; `Revival.RevivalCanStrandBids`
  shows that the condition can indeed fail.
- Positions that are not callable are not claimed to be covered at the squeeze price: a maintenance ratio below the squeeze
  ratio allows otherwise.
- A margin fill that would leave a position with debt and exactly no collateral is reported as `Short`, like one that
  needs more than there is.
- PriceAccuracy.ScaleMonotone: the closeness comparison of the two candidates in price scaling is that of the exact numbers;
  the 128-bit type it is computed with is not part of this model, and the terms of a rounded product can be too large for
  it.  The lemmas of `PriceScaling` hold whichever candidate is picked; this one, and with it the margin condition for
  feeds whose target collateralization is not exact, needs the closer one.
- Databases.Database.ForceSettleDue: the settlement date of an order is taken as given, the other assets are those of
  `ForceSettlement.SettleAllDue`, and expiry of other objects in the same block is not modelled.
- Liquidity pool creation checks and deletion, which only look at empty pools.
- Fork database entries whose parent was pruned and pushed again, resizing the fork database inside block application,
  and undo states committed while a block is applied.
- The wrap-around of 32-bit times and slot numbers.
- Synopses.GetBlockIds: the block log is taken to hold exactly the main chain; entries left behind by popped blocks are
  not modelled.
- Witness voting, budgets, committee, workers; HTLCs, blinded transfers, proposals; networking, plugins and query APIs.
