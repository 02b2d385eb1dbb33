/**
 Margin calls and global settlement (libraries/chain/db_market.cpp, `check_call_orders`, `match` of a limit order
 with a call order, `globally_settle_asset`; libraries/chain/db_update.cpp, `check_for_blackswan`).
 */
module MarginEngine {
  import opened Prices
  import opened PriceScaling
  import opened PriceAccuracy
  import opened Collections
  import opened Ledgers
  import opened LimitMatching
  import opened MarginCall
  import opened Markets

  /**
   `Rejected`: the operation throws and is undone.  `Short`: it throws because a position lacks the collateral for a
   fill.  `Stuck`: the original would repeat a round that changes nothing.
   */
  datatype Status = Done | Rejected | Short | Stuck

  // ----- one margin trade

  /** The position gives collateral and covers debt. */
  datatype MarginTrade = MarginTrade(gives: nat, covers: nat)

  function MarginSizes(toBuy: nat, forSale: nat, mp: Price): Option<MarginTrade>
    requires mp.Valid()
  {
    if toBuy > forSale then
      var gives := Down(forSale, mp.Inv());
      if gives == 0 then None else Some(MarginTrade(gives, Up(gives, mp)))
    else
      Some(MarginTrade(Payment(toBuy, mp), toBuy))
  }

  /**
   The smaller side decides: the position buys all it wants for the least collateral worth it, or the most that the
   order pays for, for which the order gives the least debt.
   */
  lemma MarginSizesExact(toBuy: nat, forSale: nat, mp: Price, k: nat)
    requires mp.Valid()
    ensures match MarginSizes(toBuy, forSale, mp)
            case None => toBuy > forSale && forSale * mp.base < mp.quote
            case Some(t) =>
              if toBuy <= forSale then t.covers == toBuy && (t.gives <= k <==> toBuy * mp.base <= k * mp.quote)
              else
                && 0 < t.gives && (k <= t.gives <==> k * mp.quote <= forSale * mp.base)
                && (t.covers <= k <==> t.gives * mp.quote <= k * mp.base)
  {
    hide Down, Up;
    if toBuy > forSale {
      var gives := Down(forSale, mp.Inv());
      DownSpec(forSale, k, mp.Inv());
      DownSpec(forSale, 1, mp.Inv());
      UpSpec(gives, k, mp);
    } else {
      UpSpec(toBuy, k, mp.Inv());
    }
  }

  function Left(c: CallOrder, t: MarginTrade): CallOrder
    requires t.gives <= c.collateral && t.covers <= c.debt
  {
    c.(collateral := c.collateral - t.gives, debt := c.debt - t.covers)
  }

  /**
   A margin trade of a covered position never asks for more collateral than there is.  When the limit order is the
   smaller side, what it keeps is worth nothing at the match price and the position ends up no worse off.
   */
  lemma MarginTradeOk(c: CallOrder, toBuy: nat, forSale: nat, mp: Price)
    requires c.Valid() && mp.Valid() && CoveredAt(c, mp.Inv()) && forSale > 0
    requires 0 < toBuy <= c.debt && (toBuy < c.debt ==> Payment(toBuy, mp) < c.collateral)
    ensures match MarginSizes(toBuy, forSale, mp)
            case None => toBuy > forSale && Down(forSale, mp.Inv()) == 0
            case Some(t) =>
              && 0 < t.covers <= toBuy && t.covers <= forSale && t.gives <= c.collateral
              && (t.covers < c.debt ==> t.gives < c.collateral)
              && (toBuy > forSale ==>
                    && t.covers < c.debt
                    && Down(forSale - t.covers, mp.Inv()) == 0
                    && CoveredAt(Left(c, t), mp.Inv())
                    && c.Collateralization().AtMost(Left(c, t).Collateralization()))
              && (toBuy <= forSale ==> t.covers == toBuy)
  {
    hide Down, Up;
    if toBuy > forSale {
      var gives := Down(forSale, mp.Inv());
      if gives > 0 {
        var covers := Up(gives, mp);
        assert mp.Inv().Inv() == mp;
        RemainderIsWorthless(forSale, mp.Inv());
        UpPositive(gives, mp);
        UpSpec(gives, covers, mp);
        // gives * quote <= covers * base  and  debt * base < quote * collateral
        LeftStaysCovered(c.collateral, c.debt, gives, covers, mp.base, mp.quote);
      }
    } else if toBuy == c.debt {
      UpSpec(c.debt, c.collateral, mp.Inv());
    }
  }

  lemma LeftStaysCovered(coll: nat, debt: nat, gives: nat, covers: nat, base: nat, quote: nat)
    requires base > 0 && quote > 0 && debt > 0 && covers < debt
    requires gives * quote <= covers * base && debt * base < quote * coll
    ensures gives < coll
    ensures (debt - covers) * base < quote * (coll - gives)
    ensures coll * (debt - covers) <= (coll - gives) * debt
  {
  }

  // ----- global settlement

  /** What the settlement fund collects: the debt at the settlement price rounded up, at most the collateral. */
  function Gathered(calls: seq<CallOrder>, price: Price): nat
    requires price.base > 0
  {
    if calls == [] then 0
    else Min(Up(calls[0].debt, price), calls[0].collateral) + Gathered(calls[1..], price)
  }

  /** The collateral returned to the borrowers. */
  function Returned(coll: Ledger, calls: seq<CallOrder>, price: Price): Ledger
    requires price.base > 0
    decreases |calls|
  {
    if calls == [] then coll
    else
      var c := calls[0];
      Returned(coll.Credit(c.borrower, c.collateral - Min(Up(c.debt, price), c.collateral)), calls[1..], price)
  }

  /** The settled market: every position closed, the fund holding what they paid, the price being supply over fund. */
  function GloballySettled(m: Market, price: Price): Market
    requires price.base > 0
  {
    var fund := Gathered(m.calls, price);
    m.(calls := [], coll := Returned(m.coll, m.calls, price), settled := Some(Price(m.supply, fund)), fund := fund)
  }

  /** What one position gets back, if it is this borrower's. */
  function BackTo(borrower: nat, price: Price): CallOrder -> nat {
    (c: CallOrder) => if c.borrower == borrower &&
        price.base > 0 then c.collateral - Min(Up(c.debt, price), c.collateral)
                      else 0
  }

  /** Every borrower gets back the collateral of its own positions less their debt at the settlement price. */
  lemma {:induction false} ReturnedTo(coll: Ledger, calls: seq<CallOrder>, price: Price, borrower: nat)
    requires price.base > 0
    ensures Returned(coll, calls, price).Balance(borrower) ==
              coll.Balance(borrower) + Sum(calls, BackTo(borrower, price))
    decreases |calls|
  {
    hide Up;
    if calls != [] {
      var c := calls[0];
      var back := c.collateral - Min(Up(c.debt, price), c.collateral);
      coll.CreditPays(c.borrower, back);
      ReturnedTo(coll.Credit(c.borrower, back), calls[1..], price, borrower);
    }
  }

  predicate Payable(calls: seq<CallOrder>, price: Price)
    requires price.base > 0
  {
    calls == [] || (Up(calls[0].debt, price) <= MAX_SHARE_SUPPLY && Payable(calls[1..], price))
  }

  lemma {:induction false} PayableIff(calls: seq<CallOrder>, price: Price)
    requires price.base > 0
    ensures Payable(calls, price) <==> forall i | 0 <= i < |calls| :: Up(calls[i].debt, price) <= MAX_SHARE_SUPPLY
  {
    hide Up;
    if calls != [] {
      PayableIff(calls[1..], price);
      if Payable(calls, price) {
        forall i | 0 <= i < |calls|
          ensures Up(calls[i].debt, price) <= MAX_SHARE_SUPPLY
        {
          assert i == 0 || calls[i] == calls[1..][i - 1];
        }
      } else if Up(calls[0].debt, price) <= MAX_SHARE_SUPPLY {
        var i :| 0 <= i < |calls[1..]| && Up(calls[1..][i].debt, price) > MAX_SHARE_SUPPLY;
        assert calls[i + 1] == calls[1..][i];
      }
    }
  }

  lemma {:induction false} ReturnedTotal(coll: Ledger, calls: seq<CallOrder>, price: Price)
    requires price.base > 0
    ensures Returned(coll, calls, price).Total() + Gathered(calls, price) == coll.Total() + Sum(calls, CollateralOf)
    ensures Returned(coll, calls, price).rule == coll.rule
    decreases |calls|
  {
    hide Up;
    if calls != [] {
      var c := calls[0];
      var back := c.collateral - Min(Up(c.debt, price), c.collateral);
      coll.CreditTotal(c.borrower, back);
      ReturnedTotal(coll.Credit(c.borrower, back), calls[1..], price);
    }
  }

  /** Settling conserves both assets, and the fund is worth exactly the supply at the settlement price. */
  lemma GloballySettledKeeps(m0: Market, par: Params, price: Price)
    requires Shape(m0, par) && Conserved(m0, par) && Phase(m0) && m0.settled.None? && m0.supply > 0 && price.base > 0
    ensures var m := GloballySettled(m0, price);
            Shape(m, par) && Conserved(m, par) && Phase(m)
  {
    hide Price.Less, Down, Up, Resting, OffersOk;
    ReturnedTotal(m0.coll, m0.calls, price);
  }

  /** Covering all the debt closes the position. */
  lemma PositionClosed(m: Market, pays: nat)
    requires m.calls != [] && pays <= m.calls[0].collateral && m.calls[0].debt <= m.supply
    ensures var c := m.calls[0];
            CoverDebt(m, pays, c.debt) ==
            m.(calls := m.calls[1..], supply := m.supply - c.debt,
               coll := m.coll.Credit(c.borrower, c.collateral - pays))
  {
  }

  method GloballySettle(m0: Market, par: Params, price: Price) returns (m: Market, ok: bool)
    requires Shape(m0, par) && Conserved(m0, par) && Phase(m0) && m0.settled.None?
    requires m0.supply > 0 && price.base > 0
    ensures ok <==> forall i | 0 <= i < |m0.calls| :: Up(m0.calls[i].debt, price) <= MAX_SHARE_SUPPLY
    ensures ok ==> m == GloballySettled(m0, price) && Shape(m, par) && Conserved(m, par) && Phase(m)
  {
    GloballySettledKeeps(m0, par, price);
    PayableIff(m0.calls, price);
    hide Up, CoverDebt, Shape, Conserved;
    m, ok := m0, true;
    var gathered := 0;
    while m.calls != []
      invariant m == m0.(calls := m.calls, coll := m.coll, supply := m.supply)
      invariant Sum(m.calls, DebtOf) == m.supply
      invariant gathered + Gathered(m.calls, price) == Gathered(m0.calls, price)
      invariant Returned(m.coll, m.calls, price) == Returned(m0.coll, m0.calls, price)
      invariant Payable(m.calls, price) == Payable(m0.calls, price)
      decreases |m.calls|
    {
      var c := m.calls[0];
      if Up(c.debt, price) > MAX_SHARE_SUPPLY {
        ok := false;
        return;
      }
      var pays := Min(Up(c.debt, price), c.collateral);
      SumBounds(m.calls, 0, DebtOf);
      PositionClosed(m, pays);
      m := CoverDebt(m, pays, c.debt);
      gathered := gathered + pays;
    }
    m := m.(settled := Some(Price(m0.supply, gathered)), fund := gathered, supply := m0.supply);
  }

  /** At a price no worse for the least collateralized position than its own, no position is short of collateral. */
  lemma SettlementIsAffordable(calls: seq<CallOrder>, price: Price, i: nat)
    requires CallsOk(calls) && i < |calls| && price.Valid()
    requires Price(calls[0].debt, calls[0].collateral).AtMost(price)
    ensures Up(calls[i].debt, price) <= calls[i].collateral
  {
    hide Up, Price.Less;
    LeastIsFirst(calls, i);
    InvOrder(calls[0].Collateralization(), calls[i].Collateralization());
    var p, q := Price(calls[i].debt, calls[i].collateral), Price(calls[0].debt, calls[0].collateral);
    AtMostTransitive(p, q, price);
    AffordableAt(calls[i], price);
  }

  lemma AffordableAt(c: CallOrder, price: Price)
    requires price.Valid() && Price(c.debt, c.collateral).AtMost(price)
    ensures Up(c.debt, price) <= c.collateral
  {
    hide Up;
    UpSpec(c.debt, c.collateral, price);
  }

  // ----- black swan

  /** The best price (debt / collateral) the least collateralized position can hope for. */
  function Highest(m: Market, feed: Feed): Price
    requires feed.Valid()
  {
    var squeeze := SqueezePrice(feed);
    if m.bids != [] && !m.bids[0].price.Less(squeeze) then m.bids[0].price else squeeze
  }

  predicate IsSwan(m: Market, feed: Feed)
    requires feed.Valid()
  {
    m.calls != [] && !CoveredAt(m.calls[0], Highest(m, feed))
  }

  /** A swan: the least collateralized position is covered neither at the squeeze price nor at the best bid. */
  lemma SwanMeans(m: Market, par: Params, feed: Feed)
    requires Shape(m, par) && feed.Valid()
    ensures IsSwan(m, feed) <==>
              && m.calls != [] && !CoveredAt(m.calls[0], SqueezePrice(feed))
              && (m.bids == [] || !CoveredAt(m.calls[0], m.bids[0].price))
  {
    hide Price.Less, Scale, Down;
    SqueezeFacts(feed);
    if m.calls != [] && m.bids != [] {
      var c, b, squeeze := Price(m.calls[0].debt, m.calls[0].collateral), m.bids[0].price, SqueezePrice(feed);
      LessIsAtMost(b, squeeze);
      if c.Less(squeeze) && !b.Less(squeeze) {
        LessTransitive(c, squeeze, b);
      }
      if c.Less(b) && b.Less(squeeze) {
        LessTransitive(c, b, squeeze);
      }
    }
  }

  /** The feed price if the least collateralized position can afford it, otherwise that position's own price. */
  function SwanPrice(m: Market, feed: Feed): Price
    requires m.calls != []
  {
    var least := Price(m.calls[0].debt, m.calls[0].collateral);
    if least.AtMost(feed.price.Inv()) then feed.price.Inv() else least
  }

  /** It is the higher of the two, as debt over collateral. */
  lemma SwanPriceIsHigher(m: Market, par: Params, feed: Feed)
    requires Shape(m, par) && feed.Valid() && m.calls != []
    ensures var p, own, fed := SwanPrice(m, feed), Price(m.calls[0].debt, m.calls[0].collateral), feed.price.Inv();
            (p == own || p == fed) && own.AtMost(p) && fed.AtMost(p) && (own.AtMost(fed) ==> p == fed)
  {
    hide Price.Less;
    var own, fed := Price(m.calls[0].debt, m.calls[0].collateral), feed.price.Inv();
    LessIsAtMost(fed, own);
    NotLessSelf(own);
    NotLessSelf(fed);
  }

  /** In a swan settlement the cap on what a position pays is never needed and nothing overflows. */
  lemma SwanSettlementIsAffordable(m: Market, par: Params, feed: Feed, i: nat)
    requires Shape(m, par) && feed.Valid() && i < |m.calls|
    ensures Up(m.calls[i].debt, SwanPrice(m, feed)) <= m.calls[i].collateral
  {
    hide Up, Price.Less;
    NotLessSelf(Price(m.calls[0].debt, m.calls[0].collateral));
    SettlementIsAffordable(m.calls, SwanPrice(m, feed), i);
  }

  /** A position lifted above its target can no longer be called. */
  lemma LiftedIsNotCallable(c: CallOrder, left: CallOrder, feed: Feed)
    requires feed.Valid() && c.Valid() && c.target.Some? && left.Valid()
    requires TargetCollateralization(c, feed).Less(left.Collateralization())
    ensures !Callable(left, feed)
  {
    hide Scale, Price.Less;
    TargetAboveMaintenance(c, feed);
    ScaleFacts(feed.price, feed.mcr, COLLATERAL_RATIO_DENOM);
    ScaleFacts(feed.price, TargetRatio(c.target.value, feed.mcr), COLLATERAL_RATIO_DENOM);
    LessTransitive(feed.MaintenanceCollateralization(), TargetCollateralization(c, feed), left.Collateralization());
  }

  // ----- check_call_orders

  /** What a margin call leaves untouched. */
  predicate OnlyMarginCalls(m: Market, m0: Market) {
    && m == m0.(bids := m.bids, calls := m.calls, debt := m.debt, coll := m.coll, supply := m.supply,
                settled := m.settled, fund := m.fund)
    && TailOf(m.bids, m0.bids)
  }

  /** The position can be called but is told to cover nothing, at any price: calling it would repeat forever. */
  predicate Spins(c: CallOrder, feed: Feed)
    requires c.Valid() && feed.Valid()
  {
    Callable(c, feed) && c.target.Some? && CoversNothing(c, feed)
  }

  lemma SpinsIffNothing(c: CallOrder, mp: Price, feed: Feed)
    requires c.Valid() && mp.Valid() && feed.Valid() && Callable(c, feed)
    ensures Spins(c, feed) <==> MaxDebtToCover(c, mp, feed) == Ok(0)
    ensures Spins(c, feed) ==> !MaintenanceIsExact(feed)
  {
    hide Price.Less, Down, Up, Scale, ScalesExactly, Callable, CoversNothing, MaxDebtToCover, RightSize, SumsOverflow,
         ConversionsFit, SumsFit, TargetCollateralization;
    MaxDebtFacts(c, mp, feed);
    if MaintenanceIsExact(feed) && c.target.Some? {
      CallableCoversSomething(c, feed);
    }
  }

  /**
   How much the least collateralized position should buy from the best bid.  It is stuck exactly if the position covers
   nothing at any price.
   */
  method SizeCall(m: Market, par: Params, mp: Price) returns (toBuy: nat, status: Status)
    requires Shape(m, par) && m.feed.Some? && m.calls != [] && m.calls[0].Valid() && m.feed.value.Valid()
    requires Callable(m.calls[0], m.feed.value) && mp.Valid()
    ensures match MaxDebtToCover(m.calls[0], mp, m.feed.value)
            case Err(_) => status == Rejected
            case Ok(amount) => if amount == 0 then status == Stuck else status == Done && toBuy == amount
    ensures status.Stuck? <==> Spins(m.calls[0], m.feed.value)
    ensures status.Done? ==> RightSize(m.calls[0], mp, m.feed.value, toBuy)
    ensures status.Stuck? ==> !MaintenanceIsExact(m.feed.value)
    ensures status.Rejected? ==> !ConversionsFit(m.calls[0], mp) || SumsOverflow(m.calls[0], mp, m.feed.value)
  {
    hide Price.Less, Down, Up, Scale, Shape, Callable, MaxDebtToCover, RightSize, CoversNothing, SumsOverflow, SumsFit,
         Spins, MaintenanceIsExact;
    var c, feed := m.calls[0], m.feed.value;
    SpinsIffNothing(c, mp, feed);
    var r := GetMaxDebtToCover(c, mp, feed);
    if r.Err? {
      match r.error {
        case AmountOverflow => return 0, Rejected;
        case AdditionOverflow => return 0, Rejected;
      }
    }
    toBuy := r.value;
    status := if toBuy == 0 then Stuck else Done;
  }

  /** `fill_limit_order` on the best bid, as a maker: it pays debt and gets collateral. */
  function BidFilled(m: Market, pays: nat, gets: nat): Market
    requires m.bids != [] && m.bids[0].Valid() && pays <= m.bids[0].forSale && m.coll.rule.Valid()
  {
    var b := m.bids[0];
    var f := Fill(b, pays, true);
    m.(bids := if f.left.Some? then m.bids[0 := f.left.value] else m.bids[1..],
       coll := m.coll.Receive(b.seller, gets, true), debt := m.debt.Credit(b.seller, f.refund))
  }

  /**
   The bidder is paid collateral less the makers' fee; what is left of the bid stays first, or is returned if dust.
   */
  lemma BidFilledPays(m0: Market, pays: nat, gets: nat)
    requires m0.bids != [] && m0.bids[0].Valid() && pays <= m0.bids[0].forSale && m0.coll.rule.Valid()
    ensures var m, b := BidFilled(m0, pays, gets), m0.bids[0];
            var rest := b.forSale - pays;
            var out := rest == 0 || Down(rest, b.price) == 0;
            && m.bids == (if out then m0.bids[1..] else [b.(forSale := rest)] + m0.bids[1..])
            && Credited(m0.coll, m.coll, b.seller, gets - MarketFee(m0.coll.rule, gets, true))
            && Credited(m0.debt, m.debt, b.seller, if out then rest else 0)
  {
    hide Down, Price.Less, MarketFee, Ledger.Vest, Ledger.Reward;
    var b := m0.bids[0];
    var f := Fill(b, pays, true);
    m0.coll.ReceivePays(b.seller, gets, true);
    m0.debt.CreditPays(b.seller, f.refund);
    assert f.left.Some? ==> m0.bids[0 := f.left.value] == [f.left.value] + m0.bids[1..];
  }

  lemma BidFilledFacts(m0: Market, pays: nat, gets: nat)
    requires Resting(m0.bids) && m0.bids != [] && pays <= m0.bids[0].forSale
    requires m0.coll.rule.Valid()
    ensures var m := BidFilled(m0, pays, gets);
            && m == m0.(bids := m.bids, coll := m.coll, debt := m.debt)
            && Resting(m.bids) && TailOf(m.bids, m0.bids)
            && m.debt.rule == m0.debt.rule && m.coll.rule == m0.coll.rule
            && m.debt.Total() + Sum(m.bids, ForSale) == m0.debt.Total() + Sum(m0.bids, ForSale) - pays
            && m.coll.Total() == m0.coll.Total() + gets
            && (Down(m0.bids[0].forSale - pays, m0.bids[0].price) == 0 ==> |m.bids| < |m0.bids|)
  {
    hide Down, Up, Price.Less;
    var b := m0.bids[0];
    var f := Fill(b, pays, true);
    RestingAfterFill(m0.bids, f.left);
    SumFront(m0.bids, f.left);
    m0.coll.ReceiveTotal(b.seller, gets, true);
    m0.debt.CreditTotal(b.seller, f.refund);
  }

  /** The three ways a round makes progress: it removes the bid, removes the position or lifts it above its target. */
  predicate Progress(m: Market, m0: Market)
    requires m0.calls != [] && m0.feed.Some? && m0.feed.value.Valid()
  {
    var c := m0.calls[0];
    || |m.bids| < |m0.bids|
    || m.calls == m0.calls[1..]
    || (c.target.Some? &&
        exists left | left in m.calls ::
          left.id == c.id && left.debt < c.debt &&
              TargetCollateralization(c, m0.feed.value).Less(left.Collateralization()))
  }

  /**
   `m` is what one margin call makes of `m0`: the least collateralized position, which is callable, buys `toBuy` or all
   the best bid offers, at the bid's price.
   */
  ghost predicate RoundAt(m0: Market, m: Market, toBuy: nat) {
    && m0.calls != [] && m0.bids != [] && m0.bids[0].Valid() && m0.feed.Some? && m0.feed.value.Valid() &&
       m0.coll.rule.Valid()
    && var c, b := m0.calls[0], m0.bids[0];
       && c.Valid() && Callable(c, m0.feed.value) && MaxDebtToCover(c, b.price.Inv(), m0.feed.value) == Ok(toBuy)
       && RightSize(c, b.price.Inv(), m0.feed.value, toBuy)
       && match MarginSizes(toBuy, b.forSale, b.price.Inv())
          case None => false
          case Some(t) =>
            && t.gives <= c.collateral && t.covers <= c.debt && t.covers <= m0.supply && t.covers <= b.forSale
            && m == BidFilled(CoverDebt(m0, t.gives, t.covers), t.covers, t.gives)
  }

  /** One round of `check_call_orders`: the least collateralized position against the best bid, at the bid's price. */
  method MarginRound(m0: Market, par: Params) returns (m: Market, status: Status, ghost toBuy: nat)
    requires Shape(m0, par) && Conserved(m0, par) && Phase(m0) && m0.settled.None? && m0.feed.Some?
    requires m0.calls != [] && m0.bids != [] && Callable(m0.calls[0], m0.feed.value)
    requires CoveredAt(m0.calls[0], m0.bids[0].price)
    requires m0.calls[0].Valid() && m0.bids[0].Valid() && m0.feed.value.Valid()
    ensures status.Stuck? <==> Spins(m0.calls[0], m0.feed.value)
    ensures !status.Done? ==> m == m0
    ensures status.Done? ==> Shape(m, par) && Conserved(m, par) && Phase(m) && m.settled.None? && OnlyMarginCalls(m, m0)
    ensures status.Done? ==> RoundAt(m0, m, toBuy) && m.supply < m0.supply && Progress(m, m0)
    ensures status.Rejected? ==> MaxDebtToCover(m0.calls[0], m0.bids[0].price.Inv(), m0.feed.value).Err?
    ensures !status.Short? && (status.Stuck? ==> !MaintenanceIsExact(m0.feed.value))
  {
    hide Price.Less, Down, Up, Scale, Resting, CallsOk, OffersOk, CoverDebt, MarginSizes, Sum, MaxDebtToCover, Spins,
         SumsOverflow, ConversionsFit, RightSize, Shape, Conserved, Phase, Progress, BidFilled, OnlyMarginCalls;
    m := m0;
    var c, b := m.calls[0], m.bids[0];
    var mp := b.price.Inv();
    assert mp.Inv() == b.price;
    FrontsValid(m, par);
    // the second swan test: the position can afford the match price
    CoveredAffords(c, b.price);
    assert Down(c.debt, mp.Inv()) <= c.collateral;
    var amount;
    amount, status := SizeCall(m, par, mp);
    toBuy := amount;
    if !status.Done? {
      return;
    }
    RightSizeBounds(c, mp, m.feed.value, amount);
    MarginTradeOk(c, amount, b.forSale, mp);
    var t := MarginSizes(amount, b.forSale, mp).value;
    CallBounds(m, par, 0);
    RoundKeeps(m0, par, t);
    m := CoverDebt(m, t.gives, t.covers);
    m := BidFilled(m, t.covers, t.gives);
    RoundProgress(m, m0, amount, t, mp);
  }

  lemma RightSizeBounds(c: CallOrder, mp: Price, feed: Feed, toBuy: nat)
    requires mp.Valid() && feed.Valid() && RightSize(c, mp, feed, toBuy)
    ensures 0 < toBuy <= c.debt && (toBuy < c.debt ==> Payment(toBuy, mp) < c.collateral)
  {
  }

  lemma RoundKeeps(m0: Market, par: Params, t: MarginTrade)
    requires Shape(m0, par) && Conserved(m0, par) && Phase(m0) && m0.settled.None? && m0.calls != [] && m0.bids != []
    requires t.gives <= m0.calls[0].collateral && t.covers <= m0.calls[0].debt && 0 < t.covers <= m0.bids[0].forSale
    requires t.covers <= m0.supply && (t.covers < m0.calls[0].debt ==> t.gives < m0.calls[0].collateral)
    ensures m0.bids[0].Valid() && m0.coll.rule.Valid()
    ensures var n := CoverDebt(m0, t.gives, t.covers);
            n == m0.(calls := n.calls, supply := m0.supply - t.covers, coll := n.coll) && n.coll.rule == m0.coll.rule
    ensures var m := BidFilled(CoverDebt(m0, t.gives, t.covers), t.covers, t.gives);
            && Shape(m, par) && Conserved(m, par) && Phase(m) && m.settled.None? && OnlyMarginCalls(m, m0)
            && m.supply < m0.supply && m.calls == CoverDebt(m0, t.gives, t.covers).calls
            && (Down(m0.bids[0].forSale - t.covers, m0.bids[0].price) == 0 ==> |m.bids| < |m0.bids|)
  {
    hide Price.Less, Down, Resting, CallsOk, OffersOk, CoverDebt, BidFilled, Sum;
    FrontsValid(m0, par);
    CoverDebtKeepsCalls(m0, t.gives, t.covers);
    var n := CoverDebt(m0, t.gives, t.covers);
    BidFilledFacts(n, t.covers, t.gives);
    UncrossedTail(BidFilled(n, t.covers, t.gives), m0, par);
  }

  lemma SpinsOnlyCallable(m: Market)
    ensures SpinsAt(m) ==> ReachesSqueeze(m) && m.calls != [] && Callable(m.calls[0], m.feed.value)
  {
  }

  lemma FrontsValid(m: Market, par: Params)
    requires Shape(m, par) && m.calls != [] && m.bids != []
    ensures m.calls[0].Valid() && m.bids[0].Valid() && Down(m.bids[0].forSale, m.bids[0].price) > 0
  {
  }

  lemma RoundProgress(m: Market, m0: Market, toBuy: nat, t: MarginTrade, mp: Price)
    requires m0.calls != [] && m0.bids != [] && m0.feed.Some? && m0.feed.value.Valid() && mp.Valid()
    requires t.gives <= m0.calls[0].collateral && t.covers <= m0.calls[0].debt && t.covers <= m0.supply
    requires m.calls == CoverDebt(m0, t.gives, t.covers).calls && (toBuy > m0.bids[0].forSale ==> |m.bids| < |m0.bids|)
    requires RightSize(m0.calls[0], mp, m0.feed.value, toBuy) && Some(t) == MarginSizes(toBuy, m0.bids[0].forSale, mp)
    ensures Progress(m, m0)
  {
    hide Price.Less, Down, Up, Scale;
    var c := m0.calls[0];
    if toBuy <= m0.bids[0].forSale && toBuy < c.debt {
      var left := Left(c, t);
      MemberAfterInsert(m0.calls[1..], left, CallKey, CallId, left);
      assert left in m.calls;
    }
  }

  lemma CoveredAffords(c: CallOrder, p: Price)
    requires c.Valid() && p.Valid() && CoveredAt(c, p)
    ensures Down(c.debt, p) <= c.collateral
  {
    hide Down;
    DownSpec(c.debt, c.collateral + 1, p);
    assert (c.collateral + 1) * p.base == c.collateral * p.base + p.base;
  }

  lemma UncrossedTail(m: Market, m0: Market, par: Params)
    requires Uncrossed(m0) && Resting(m0.bids) && Resting(m0.asks) && TailOf(m.bids, m0.bids) && m.asks == m0.asks
    ensures Uncrossed(m)
  {
    hide Price.Less, Down;
    if m.bids != [] && m.asks != [] {
      var k := |m0.bids| - |m.bids|;
      FrontIsBest(m0.bids, k);
      var b, b0, a := m.bids[0].price, m0.bids[0].price, m.asks[0].price;
      InvOrder(b, b0);
      LessTransitive(a, b0.Inv(), b.Inv());
    }
  }

  /** A swan: settle at the feed price, or at the price of the least collateralized position if that is lower. */
  method SettleSwan(m0: Market, par: Params, feed: Feed) returns (m: Market)
    requires Shape(m0, par) && Conserved(m0, par) && Phase(m0) && m0.settled.None? && m0.feed == Some(feed) &&
             IsSwan(m0, feed)
    ensures Shape(m, par) && Conserved(m, par) && Phase(m)
    ensures Ended(m0, m) && OnlyMarginCalls(m, m0) && m.settled.Some?
  {
    hide Price.Less, Down, Up, Scale, Resting, OffersOk;
    SumBounds(m0.calls, 0, DebtOf);
    forall i | 0 <= i < |m0.calls|
      ensures Up(m0.calls[i].debt, SwanPrice(m0, feed)) <= MAX_SHARE_SUPPLY
    {
      SwanSettlementIsAffordable(m0, par, feed, i);
    }
    var ok;
    m, ok := GloballySettle(m0, par, SwanPrice(m0, feed));
  }

  /**
   Step `i` of a run of margin calls: there is no swan, the best bid reaches the squeeze price, and one call is made.
   */
  ghost predicate RoundFrom(rounds: seq<Market>, i: nat)
    requires i + 1 < |rounds|
  {
    Called(rounds[i], rounds[i + 1])
  }

  ghost predicate Called(m0: Market, m: Market) {
    exists toBuy: nat :: RoundAt(m0, m, toBuy) && !IsSwan(m0, m0.feed.value) && ReachesSqueeze(m0)
  }

  predicate ReachesSqueeze(m: Market)
    requires m.feed.Some? && m.feed.value.Valid()
  {
    m.bids != [] && !m.bids[0].price.Less(SqueezePrice(m.feed.value))
  }

  ghost predicate Rounds(rounds: seq<Market>, m0: Market) {
    rounds != [] && rounds[0] == m0 && forall i | 0 <= i < |rounds| - 1 :: RoundFrom(rounds, i)
  }

  lemma RoundsStart(m0: Market)
    ensures Rounds([m0], m0)
  {
  }

  lemma RoundsAppend(rounds: seq<Market>, m0: Market, m: Market, toBuy: nat)
    requires Rounds(rounds, m0)
    requires var last := rounds[|rounds| - 1];
             RoundAt(last, m, toBuy) && !IsSwan(last, last.feed.value) && ReachesSqueeze(last)
    ensures Rounds(rounds + [m], m0)
  {
    hide RoundAt, IsSwan, ReachesSqueeze;
    assert Called(rounds[|rounds| - 1], m);
    hide Called;
    var t := rounds + [m];
    forall i | 0 <= i < |t| - 1
      ensures RoundFrom(t, i)
    {
      if i < |rounds| - 1 {
        assert RoundFrom(rounds, i);
      }
    }
  }

  /** The next margin call would repeat forever: the first callable position is told to cover nothing. */
  predicate SpinsAt(m: Market) {
    && m.feed.Some? && m.feed.value.Valid() && m.settled.None?
    && m.calls != [] && m.calls[0].Valid() && m.bids != [] && m.bids[0].Valid()
    && !IsSwan(m, m.feed.value) && ReachesSqueeze(m) && Spins(m.calls[0], m.feed.value)
  }

  /** From such a market no margin call leads anywhere. */
  lemma NoRoundWhenSpinning(rounds: seq<Market>, m0: Market)
    requires Rounds(rounds, m0) && SpinsAt(m0)
    ensures rounds == [m0]
  {
    hide RoundAt, SpinsAt;
    if |rounds| > 1 {
      assert RoundFrom(rounds, 0);
      NotCalledWhenSpinning(m0, rounds[1]);
    }
  }

  lemma NotCalledWhenSpinning(m0: Market, m: Market)
    requires SpinsAt(m0)
    ensures !Called(m0, m)
  {
    hide Price.Less, Down, Scale, CoversNothing, MaxDebtToCover, IsSwan, ReachesSqueeze, Callable, BidFilled,
         CoverDebt, MarginSizes, NextSmallerFails, WithinClosedForms;
    SpinsIffNothing(m0.calls[0], m0.bids[0].price.Inv(), m0.feed.value);
  }

  /** The next margin call throws: how much the first callable position should buy cannot be computed in 64 bits. */
  predicate CallThrows(m: Market) {
    && m.feed.Some? && m.feed.value.Valid() && m.calls != [] && m.calls[0].Valid() && m.bids != [] && m.bids[0].Valid()
    && !IsSwan(m, m.feed.value) && ReachesSqueeze(m) && Callable(m.calls[0], m.feed.value)
    && MaxDebtToCover(m.calls[0], m.bids[0].price.Inv(), m.feed.value).Err?
  }

  /** How a run of margin calls ends: in a settlement exactly if the last state is a swan. */
  ghost predicate Ended(last: Market, m: Market)
    requires last.feed.Some? && last.feed.value.Valid()
  {
    if IsSwan(last, last.feed.value) then
      last.calls != [] && SwanPrice(last, last.feed.value).base > 0 &&
          m == GloballySettled(last, SwanPrice(last, last.feed.value))
    else m == last && MarginOk(last)
  }

  /** A whole run of margin calls from `m0` to `m`. */
  ghost predicate RunOf(rounds: seq<Market>, m0: Market, m: Market)
    requires m0.feed.Some? && m0.feed.value.Valid()
  {
    Rounds(rounds, m0) && rounds[|rounds| - 1].feed == m0.feed && Ended(rounds[|rounds| - 1], m)
  }

  /** What checking for margin calls makes of a market; nothing if it is settled or has no feed. */
  ghost predicate MarginRun(m0: Market, m: Market) {
    if m0.settled.Some? || m0.feed.None? then m == m0
    else m0.feed.value.Valid() && exists rounds: seq<Market> :: RunOf(rounds, m0, m)
  }

  /**
   Margin calls until no bid is good enough, no position is callable or the asset is settled.  `enableSwan` says
   whether settling is allowed; when it is not, a swan rejects the operation.  `rounds` are the states in between.
   */
  method CheckCallOrders(m0: Market, par: Params, enableSwan: bool)
      returns (m: Market, called: bool, status: Status, ghost rounds: seq<Market>)
    requires Shape(m0, par) && Conserved(m0, par) && Phase(m0)
    ensures m0.settled.Some? || m0.feed.None? ==> m == m0 && status.Done? && !called
    ensures m0.settled.None? && m0.feed.Some? ==>
              Rounds(rounds, m0) && (status.Stuck? <==> SpinsAt(rounds[|rounds| - 1]))
    ensures status.Done? && m0.settled.None? && m0.feed.Some? ==> RunOf(rounds, m0, m) && called == (|rounds| > 1)
    // it is refused only where a call throws, or for a swan if settling is not allowed
    ensures status.Rejected? ==>
              && m0.feed.Some? && rounds != []
              && var last := rounds[|rounds| - 1];
                 CallThrows(last) || (!enableSwan && last.feed == m0.feed && m0.feed.value.Valid() &&
                                      IsSwan(last, m0.feed.value))
    ensures status.Done? ==> Shape(m, par) && Conserved(m, par) && Phase(m) && MarginOk(m) && OnlyMarginCalls(m, m0)
    ensures status.Done? && !called ==> m == m0 || m.settled.Some?
    ensures status.Done? && !enableSwan ==> m.settled == m0.settled && m.fund == m0.fund
    ensures !status.Short? && (status.Stuck? ==>
                                 m0.feed.Some? && m0.feed.value.Valid() && !MaintenanceIsExact(m0.feed.value))
  {
    hide Price.Less, Down, Up, Scale, RoundAt, RoundFrom, Resting, OffersOk, CallsOk, Sum, GloballySettled, SwanPrice,
         Progress, Spins, MaxDebtToCover;
    m, called, status, rounds := m0, false, Done, [m0];
    if m.settled.Some? || m.feed.None? {
      return;
    }
    var feed := m.feed.value;
    RoundsStart(m0);
    while true
      invariant status.Done? && Shape(m, par) && Conserved(m, par) && Phase(m) && m.settled.None? &&
                OnlyMarginCalls(m, m0)
      invariant !called ==> m == m0
      invariant Rounds(rounds, m0) && rounds[|rounds| - 1] == m && called == (|rounds| > 1)
      decreases m.supply
    {
      if IsSwan(m, feed) {
        if !enableSwan {
          status := Rejected;
          return;
        }
        m := SettleSwan(m, par, feed);
        return;
      }
      if !ReachesSqueeze(m) || m.calls == [] || !Callable(m.calls[0], feed) {
        MarginOkFromFirst(m, par);
        SpinsOnlyCallable(m);
        return;
      }
      called := true;
      FrontsValid(m, par);
      ghost var before := m;
      ghost var toBuy;
      m, status, toBuy := MarginRound(m, par);
      if !status.Done? {
        return;
      }
      RoundsAppend(rounds, m0, m, toBuy);
      rounds := rounds + [m];
      TailTransitive(m.bids, before.bids, m0.bids);
    }
  }

  // ----- a market in which margin calls repeat forever

  /**
   The position that `RoundedFeedCoversNothing` shows to cover nothing, another one with the rest of the debt, and all
   of the debt for sale.  There is no feed yet.
   */
  function SpinningMarket(): Market {
    var supply := MAX_SHARE_SUPPLY;
    var debt := 8_991_008_991_008_991_008;
    Market([Limit(2, 2, supply, Price(supply, 1))], [],
           [CallOrder(0, 0, 1, debt, Some(1001)), CallOrder(1, 1, 1, supply - debt, None)], [], [],
           Ledger(map[], 0, map[], FeeRule(false, 0, None, 0, 0, map[])),
           Ledger(map[], 0, map[], FeeRule(false, 0, None, 0, 0, map[])),
           supply, None, None, 0, 0, 3, false)
  }

  /** A feed at the price of that bid. */
  const SpinningFeed: Feed := Feed(Price(1, MAX_SHARE_SUPPLY), 1001, 1100)

  const SpinningParams: Params := Params(MAX_SHARE_SUPPLY, 2, 0, 0, 0)

  lemma SpinningShape()
    ensures Shape(SpinningMarket(), SpinningParams)
  {
    hide Scale;
  }

  lemma TwoPositionsAndABid(m: Market, par: Params, a: CallOrder, b: CallOrder, o: Limit)
    requires m.calls == [a, b] && m.bids == [o] && m.asks == [] && m.settles == [] && m.offers == [] && m.fund == 0
    requires m.debt.Total() == 0 && m.coll.Total() == 0 && m.settled.None?
    requires m.supply == o.forSale == a.debt + b.debt && par.total == a.collateral + b.collateral
    ensures Conserved(m, par) && Phase(m)
  {
    SumTwo(a, b, DebtOf);
    SumTwo(a, b, CollateralOf);
    SumOne(o, ForSale);
  }

  lemma SpinningConserved()
    ensures Conserved(SpinningMarket(), SpinningParams) && Phase(SpinningMarket())
  {
    hide Conserved, Phase, Ledger.Total;
    var m := SpinningMarket();
    EmptyLedger(m.debt);
    EmptyLedger(m.coll);
    TwoPositionsAndABid(m, SpinningParams, m.calls[0], m.calls[1], m.bids[0]);
  }

  lemma SpinningMarketIsConsistent()
    ensures Inv(SpinningMarket(), SpinningParams)
  {
    SpinningShape();
    SpinningConserved();
    hide Shape, Conserved, Phase;
  }

  /**
   Every invariant holds, and yet after this feed is published the first margin call covers nothing: the original would
   not terminate.
   */
  lemma MarginCallsCanSpin(rounds: seq<Market>)
    ensures var m := SpinningMarket();
            var fed := m.(feed := Some(SpinningFeed));
            Inv(m, SpinningParams) && SpinsAt(fed) && (Rounds(rounds, fed) ==> rounds == [fed])
  {
    hide Scale, MaxDebtToCover, Callable, CoversNothing, Inv, Rounds, Down;
    var fed := SpinningMarket().(feed := Some(SpinningFeed));
    var bid := fed.bids[0].price;
    SpinningMarketIsConsistent();
    RoundedFeedCoversNothing(bid.Inv());
    SqueezeFacts(SpinningFeed);
    SpinsIffNothing(fed.calls[0], bid.Inv(), SpinningFeed);
    if Rounds(rounds, fed) {
      NoRoundWhenSpinning(rounds, fed);
    }
  }
}
