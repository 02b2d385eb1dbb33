/**
 A new limit order meets the book (libraries/chain/db_market.cpp, `apply_order` and `match` of a limit order with a
 call order).
 */
module OrderEngine {
  import opened Prices
  import opened PriceScaling
  import opened Collections
  import opened Ledgers
  import opened LimitMatching
  import opened MarginCall
  import opened Markets
  import opened MarginEngine

  /** Every callable position is covered at the squeeze price. */
  predicate CallablesCovered(calls: seq<CallOrder>, feed: Feed)
    requires feed.Valid()
  {
    forall i | 0 <= i < |calls| && Callable(calls[i], feed) :: CoveredAt(calls[i], SqueezePrice(feed))
  }

  predicate NoneCallable(calls: seq<CallOrder>, feed: Feed)
    requires feed.Valid()
  {
    forall i | 0 <= i < |calls| :: !Callable(calls[i], feed)
  }

  /**
   `m` is consistent once `held` more of the market-issued asset and `heldColl` more of the backing asset are counted.
   */
  ghost predicate ConservedWith(m: Market, par: Params, held: nat, heldColl: nat) {
    DebtHeld(m) + held == m.supply && CollHeld(m) + heldColl == par.total
  }

  lemma SizesInRange(toBuy: nat, forSale: nat, mp: Price)
    requires mp.Valid() && toBuy > 0 && forSale > 0
    ensures match MarginSizes(toBuy, forSale, mp)
            case None => toBuy > forSale && Down(forSale, mp.Inv()) == 0
            case Some(t) => 0 < t.covers <= toBuy && t.covers <= forSale &&
                            (toBuy > forSale ==> Down(forSale - t.covers, mp.Inv()) == 0)
  {
    hide Down, Up;
    if toBuy > forSale {
      var gives := Down(forSale, mp.Inv());
      assert mp.Inv().Inv() == mp;
      if gives > 0 {
        RemainderIsWorthless(forSale, mp.Inv());
        UpPositive(gives, mp);
      }
    }
  }

  /** The position left by a margin trade is covered or no longer callable. */
  lemma LeftIsFine(c: CallOrder, feed: Feed, toBuy: nat, forSale: nat, t: MarginTrade)
    requires c.Valid() && feed.Valid() && CoveredAt(c, SqueezePrice(feed))
    requires 0 < toBuy <= c.debt && forSale > 0
    requires SqueezePrice(feed).Valid()
    requires toBuy < c.debt ==>
               c.target.Some? &&
               Good(c, TargetCollateralization(c, feed), Payment(toBuy, SqueezePrice(feed).Inv()), toBuy)
    requires MarginSizes(toBuy, forSale, SqueezePrice(feed).Inv()) == Some(t)
    ensures t.gives <= c.collateral && (t.covers < c.debt ==> t.gives < c.collateral)
    ensures t.covers < c.debt ==>
              Left(c, t).Valid() && (Callable(Left(c, t), feed) ==> CoveredAt(Left(c, t), SqueezePrice(feed)))
  {
    hide Down, Up, Price.Less, Scale;
    var mp := SqueezePrice(feed).Inv();
    assert mp.Inv() == SqueezePrice(feed);
    MarginTradeOk(c, toBuy, forSale, mp);
    if t.covers < c.debt && toBuy <= forSale {
      LiftedIsNotCallable(c, Left(c, t), feed);
    }
  }

  lemma CoverKeepsCovered(m: Market, t: MarginTrade, feed: Feed)
    requires m.calls != [] && t.gives <= m.calls[0].collateral && t.covers <= m.calls[0].debt && t.covers <= m.supply
    requires feed.Valid() && CallablesCovered(m.calls, feed)
    requires t.covers < m.calls[0].debt && Callable(Left(m.calls[0], t), feed) ==>
               CoveredAt(Left(m.calls[0], t), SqueezePrice(feed))
    ensures CallablesCovered(CoverDebt(m, t.gives, t.covers).calls, feed)
  {
    hide Price.Less, Scale;
    var n := CoverDebt(m, t.gives, t.covers).calls;
    forall i | 0 <= i < |n| && Callable(n[i], feed)
      ensures CoveredAt(n[i], SqueezePrice(feed))
    {
      CoverDebtMembers(m, t.gives, t.covers, n[i]);
    }
  }

  // ----- the new bid against callable positions

  /** A new bid held aside while the market is matched against it. */
  datatype Held = Held(taker: Limit, gone: bool, finished: bool, m: Market)

  /** `fill_limit_order` on the taker of a margin trade. */
  function TakerFilled(order: Limit, m: Market, t: MarginTrade, cull: bool): Held
    requires order.Valid() && t.covers <= order.forSale && m.coll.rule.Valid()
  {
    var f := Fill(order, t.covers, cull);
    Held(if f.left.Some? then f.left.value else order, f.left.None?, f.left.None?,
         m.(coll := m.coll.Receive(order.seller, t.gives, false), debt := m.debt.Credit(order.seller, f.refund)))
  }

  lemma TakerFilledFacts(order: Limit, m0: Market, t: MarginTrade, cull: bool)
    requires order.Valid() && t.covers <= order.forSale && m0.coll.rule.Valid()
    requires cull ==> Down(order.forSale - t.covers, order.price) == 0
    ensures var h := TakerFilled(order, m0, t, cull);
            && h.taker == order.(forSale := h.taker.forSale) && h.taker.Valid()
            && h.m == m0.(debt := h.m.debt, coll := h.m.coll)
            && h.m.debt.rule == m0.debt.rule && h.m.coll.rule == m0.coll.rule
            && h.m.debt.Total() + (if h.gone then 0 else h.taker.forSale) == m0.debt.Total() + order.forSale - t.covers
            && h.m.coll.Total() == m0.coll.Total() + t.gives
            && (cull ==> h.gone)
  {
    hide Down;
    var f := Fill(order, t.covers, cull);
    m0.coll.ReceiveTotal(order.seller, t.gives, false);
    m0.debt.CreditTotal(order.seller, f.refund);
  }

  /**
   The bidder is paid collateral less the takers' fee; what is left of the bid is kept, or returned if it is culled.
   */
  lemma TakerFilledPays(order: Limit, m0: Market, t: MarginTrade, cull: bool)
    requires order.Valid() && t.covers <= order.forSale && m0.coll.rule.Valid()
    ensures var h, rest := TakerFilled(order, m0, t, cull), order.forSale - t.covers;
            && h.gone == h.finished == (rest == 0 || (cull && Down(rest, order.price) == 0))
            && (!h.gone ==> h.taker == order.(forSale := rest))
            && Credited(m0.coll, h.m.coll, order.seller, t.gives - MarketFee(m0.coll.rule, t.gives, false))
            && Credited(m0.debt, h.m.debt, order.seller, if h.gone then rest else 0)
  {
    hide Down, Price.Less, MarketFee, Ledger.Vest, Ledger.Reward;
    m0.coll.ReceivePays(order.seller, t.gives, false);
    m0.debt.CreditPays(order.seller, Fill(order, t.covers, cull).refund);
  }

  /**
   One margin call with the new bid: the least collateralized position, which is callable, buys `toBuy` or all the bid
   has left, at the squeeze price.  A bid too small to get anything is finished.
   */
  ghost predicate CallFilledAt(h0: Held, h: Held, toBuy: nat) {
    && h0.m.calls != [] && h0.taker.Valid() && h0.m.feed.Some? && h0.m.feed.value.Valid() && h0.m.coll.rule.Valid()
    && !h0.finished && SqueezePrice(h0.m.feed.value).Valid()
    && var c, feed := h0.m.calls[0], h0.m.feed.value;
       var mp := SqueezePrice(feed).Inv();
       && c.Valid() && Callable(c, feed) && MaxDebtToCover(c, mp, feed) == Ok(toBuy) && RightSize(c, mp, feed, toBuy)
       && match MarginSizes(toBuy, h0.taker.forSale, mp)
          case None => h == h0.(finished := true)
          case Some(t) =>
            && t.gives <= c.collateral && t.covers <= c.debt && t.covers <= h0.m.supply && t.covers <= h0.taker.forSale
            && h == TakerFilled(h0.taker, CoverDebt(h0.m, t.gives, t.covers), t, toBuy > h0.taker.forSale)
  }

  ghost predicate CallFilled(h0: Held, h: Held) {
    exists toBuy: nat :: CallFilledAt(h0, h, toBuy)
  }

  ghost predicate CallFillFrom(steps: seq<Held>, i: nat)
    requires i + 1 < |steps|
  {
    CallFilled(steps[i], steps[i + 1])
  }

  /** A run of margin calls with the new bid. */
  ghost predicate CallFills(steps: seq<Held>, h0: Held, h: Held) {
    steps != [] && steps[0] == h0 && steps[|steps| - 1] == h &&
        forall i | 0 <= i < |steps| - 1 :: CallFillFrom(steps, i)
  }

  lemma CallFillsStart(h: Held)
    ensures CallFills([h], h, h)
  {
  }

  lemma CallFillsAppend(steps: seq<Held>, h0: Held, h1: Held, h2: Held, toBuy: nat)
    requires CallFills(steps, h0, h1) && CallFilledAt(h1, h2, toBuy)
    ensures CallFills(steps + [h2], h0, h2)
  {
    hide CallFilledAt;
    assert CallFilled(h1, h2);
    hide CallFilled;
    var t := steps + [h2];
    forall i | 0 <= i < |t| - 1
      ensures CallFillFrom(t, i)
    {
      if i < |steps| - 1 {
        assert CallFillFrom(steps, i);
      }
    }
  }

  /** The market is consistent with the bid held aside. */
  ghost predicate HeldOk(h: Held, par: Params) {
    && h.taker.Valid() && Shape(h.m, par) && Phase(h.m) && h.m.settled.None? && h.m.feed.Some?
    && ConservedWith(h.m, par, if h.gone then 0 else h.taker.forSale, 0)
    && SqueezePrice(h.m.feed.value).AtMost(h.taker.price)
    && (h.gone ==> h.finished) && (h.finished ==> h.gone || h.taker.Dust())
  }

  predicate OnlyCalls(h: Held, h0: Held) {
    && h.taker == h0.taker.(forSale := h.taker.forSale)
    && h.m == h0.m.(calls := h.m.calls, debt := h.m.debt, coll := h.m.coll, supply := h.m.supply)
  }

  /** The next margin call with the bid would repeat forever: the position is told to cover nothing. */
  predicate SpinsWith(h: Held) {
    && !h.finished && h.m.calls != [] && h.m.calls[0].Valid() && h.m.feed.Some? && h.m.feed.value.Valid()
    && SqueezePrice(h.m.feed.value).Valid() && Spins(h.m.calls[0], h.m.feed.value)
  }

  /** The next margin call with the bid throws: how much the first callable position should buy cannot be computed. */
  predicate SizingThrows(h: Held) {
    && !h.finished && h.m.calls != [] && h.m.calls[0].Valid() && h.m.feed.Some? && h.m.feed.value.Valid()
    && SqueezePrice(h.m.feed.value).Valid() && Callable(h.m.calls[0], h.m.feed.value)
    && MaxDebtToCover(h.m.calls[0], SqueezePrice(h.m.feed.value).Inv(), h.m.feed.value).Err?
  }

  /** One margin call with the new bid. */
  method CallOnce(h0: Held, par: Params) returns (h: Held, status: Status, ghost toBuy: nat)
    requires HeldOk(h0, par) && !h0.finished && h0.m.calls != [] && Callable(h0.m.calls[0], h0.m.feed.value)
    ensures status.Stuck? <==> SpinsWith(h0)
    ensures !status.Done? ==> h == h0
    ensures status.Done? ==> HeldOk(h, par) && OnlyCalls(h, h0) && (h.finished || h.m.supply < h0.m.supply)
    ensures status.Done? ==> CallFilledAt(h0, h, toBuy)
    ensures status.Rejected? ==> SizingThrows(h0)
    ensures CallablesCovered(h0.m.calls, h0.m.feed.value) ==>
              !status.Short? && (status.Done? ==> CallablesCovered(h.m.calls, h.m.feed.value))
    ensures status.Stuck? ==> !MaintenanceIsExact(h0.m.feed.value)
  {
    hide Price.Less, Down, Up, Scale, Resting, CallsOk, OffersOk, CoverDebt, MarginSizes, Sum, TakerFilled,
         MaxDebtToCover, Spins, SumsOverflow, ConversionsFit, NextSmallerFails, WithinClosedForms;
    var taker, m := h0.taker, h0.m;
    var feed := m.feed.value;
    FirstCallFacts(m, par);
    SqueezeFacts(feed);
    var mp := SqueezePrice(feed).Inv();
    assert mp.Inv() == SqueezePrice(feed);
    ghost var covered := CallablesCovered(m.calls, feed);
    h := h0;
    var amount;
    amount, status := SizeCall(m, par, mp);
    toBuy := amount;
    if !status.Done? {
      return;
    }
    SizesInRange(amount, taker.forSale, mp);
    match MarginSizes(amount, taker.forSale, mp) {
      case None =>
        TakerIsDust(taker, taker.forSale, feed);
        h := h0.(finished := true);
      case Some(t) =>
        if covered {
          LeftIsFine(m.calls[0], feed, amount, taker.forSale, t);
        }
        if t.gives > m.calls[0].collateral || (t.covers < m.calls[0].debt && t.gives == m.calls[0].collateral) {
          status := Short;
          return;
        }
        if covered {
          CoverKeepsCovered(m, t, feed);
        }
        CoverDebtKeepsCalls(m, t.gives, t.covers);
        var n := CoverDebt(m, t.gives, t.covers);
        TakerIsDust(taker, taker.forSale - t.covers, feed);
        TakerFilledFacts(taker, n, t, amount > taker.forSale);
        h := TakerFilled(taker, n, t, amount > taker.forSale);
        TakerDone(taker, n, t, amount > taker.forSale);
    }
  }

  lemma TakerDone(order: Limit, m: Market, t: MarginTrade, cull: bool)
    requires order.Valid() && t.covers <= order.forSale && m.coll.rule.Valid()
    ensures TakerFilled(order, m, t, cull).finished == TakerFilled(order, m, t, cull).gone
  {
  }

  /**
   The new bid, already good enough for the squeeze price, against callable positions from the least collateralized up.
   `steps` are the states in between.
   */
  method MatchCalls(h0: Held, par: Params) returns (h: Held, status: Status, ghost steps: seq<Held>)
    requires HeldOk(h0, par) && !h0.finished
    ensures status.Done? ==> HeldOk(h, par) && OnlyCalls(h, h0)
    ensures status.Done? && !h.finished ==> NoneCallable(h.m.calls, h.m.feed.value)
    ensures h0.m.calls == [] || !Callable(h0.m.calls[0], h0.m.feed.value) ==>
              status.Done? && h == h0 && steps == [h0]
    ensures CallablesCovered(h0.m.calls, h0.m.feed.value) ==>
              !status.Short? && (status.Done? ==> CallablesCovered(h.m.calls, h.m.feed.value))
    ensures status.Stuck? ==> !MaintenanceIsExact(h0.m.feed.value)
    ensures CallFills(steps, h0, h) && (status.Stuck? <==> SpinsWith(h)) && (status.Rejected? ==> SizingThrows(h))
  {
    hide Price.Less, Scale, Resting, CallsOk, OffersOk, Sum, MaxDebtToCover, CoversNothing, CallFills, CallFilledAt,
         Shape, Phase, ConservedWith, CallablesCovered;
    h, status, steps := h0, Done, [h0];
    CallFillsStart(h0);
    HeldFacts(h0, par);
    var feed := h0.m.feed.value;
    while !h.finished && h.m.calls != [] && Callable(h.m.calls[0], feed)
      invariant status.Done? && HeldOk(h, par) && OnlyCalls(h, h0)
      invariant CallablesCovered(h0.m.calls, feed) ==> CallablesCovered(h.m.calls, feed)
      invariant CallFills(steps, h0, h)
      invariant steps != [h0] || h != h0 ==> h0.m.calls != [] && Callable(h0.m.calls[0], feed)
      decreases !h.finished, h.m.supply
    {
      ghost var before := h;
      ghost var toBuy;
      h, status, toBuy := CallOnce(h, par);
      if !status.Done? {
        return;
      }
      CallFillsAppend(steps, h0, before, h, toBuy);
      steps := steps + [h];
    }
    if !h.finished {
      NoneCallableFromFirst(h.m, par, feed);
    }
  }

  /** A bid cannot be matched from such a state: the loop stays in it. */
  lemma NoFillWhenSpinning(steps: seq<Held>, h0: Held, h: Held)
    requires CallFills(steps, h0, h) && SpinsWith(h0)
    ensures steps == [h0]
  {
    hide CallFilledAt, SpinsWith;
    if |steps| > 1 {
      assert CallFillFrom(steps, 0);
      NotFilledWhenSpinning(h0, steps[1]);
    }
  }

  lemma NotFilledWhenSpinning(h0: Held, h: Held)
    requires SpinsWith(h0)
    ensures !CallFilled(h0, h)
  {
    hide Price.Less, Down, Scale, CoversNothing, MaxDebtToCover, Callable, CoverDebt, MarginSizes, TakerFilled,
         NextSmallerFails, WithinClosedForms;
    SpinsIffNothing(h0.m.calls[0], SqueezePrice(h0.m.feed.value).Inv(), h0.m.feed.value);
  }

  lemma HeldFacts(h: Held, par: Params)
    requires HeldOk(h, par)
    ensures h.m.feed.value.Valid()
  {
  }

  lemma FirstCallFacts(m: Market, par: Params)
    requires Shape(m, par) && Phase(m) && m.settled.None? && m.calls != []
    ensures m.calls[0].Valid() && m.calls[0].debt <= m.supply
  {
  }

  /** What is worth nothing at the squeeze price is worth nothing at the price of an order that good. */
  lemma TakerIsDust(taker: Limit, amount: nat, feed: Feed)
    requires taker.Valid() && feed.Valid() && SqueezePrice(feed).Valid() && SqueezePrice(feed).AtMost(taker.price)
    ensures Down(amount, SqueezePrice(feed)) == 0 ==> Down(amount, taker.price) == 0
  {
    hide Down, Price.Less;
    DownAtBetterPrice(amount, taker.price, SqueezePrice(feed));
  }

  lemma NoneCallableFromFirst(m: Market, par: Params, feed: Feed)
    requires Shape(m, par) && feed.Valid() && (m.calls == [] || !Callable(m.calls[0], feed))
    ensures NoneCallable(m.calls, feed)
  {
    hide Price.Less, Scale, Down;
    forall i | 0 <= i < |m.calls|
      ensures !Callable(m.calls[i], feed)
    {
      LeastIsFirst(m.calls, i);
      if Callable(m.calls[i], feed) {
        CallableIsDownwardClosed(m.calls[0], m.calls[i], feed);
      }
    }
  }

  // ----- the book around a new order

  lemma RestingInsert(o: Limit, s: seq<Limit>)
    requires o.Valid() && !o.Dust() && Resting(s)
    ensures Resting(Insert(s, o, LimitKey, LimitId))
    ensures Sum(Insert(s, o, LimitKey, LimitId), ForSale) == Sum(s, ForSale) + o.forSale
  {
    hide Price.Less, Down;
    InsertKeepsSorted(s, o, LimitKey, LimitId);
    SumInsert(s, o, LimitKey, LimitId, ForSale);
    var t := Insert(s, o, LimitKey, LimitId);
    forall i | 0 <= i < |t|
      ensures t[i].Valid() && !t[i].Dust()
    {
      MemberAfterInsert(s, o, LimitKey, LimitId, t[i]);
      assert t[i] in t;
    }
  }

  /** Where an order stands once it has been matched: nowhere, or in its place on its side. */
  function Listed(side: seq<Limit>, taker: Limit, gone: bool): seq<Limit>
    requires taker.price.base > 0
  {
    if gone || taker.Dust() then side else Insert(side, taker, LimitKey, LimitId)
  }

  /** What is too small to get anything goes back to its seller. */
  function Refunded(ledger: Ledger, taker: Limit, gone: bool): Ledger
    requires taker.price.base > 0
  {
    if !gone && taker.Dust() then ledger.Credit(taker.seller, taker.forSale) else ledger
  }

  lemma ListedFacts(side: seq<Limit>, ledger: Ledger, taker: Limit, gone: bool)
    requires taker.Valid() && Resting(side)
    ensures Resting(Listed(side, taker, gone)) && Refunded(ledger, taker, gone).rule == ledger.rule
    ensures Refunded(ledger, taker, gone).Total() + Sum(Listed(side, taker, gone), ForSale) ==
            ledger.Total() + Sum(side, ForSale) + (if gone then 0 else taker.forSale)
    ensures |Listed(side, taker, gone)| == |side| + (if gone || taker.Dust() then 0 else 1)
    ensures (side == [] || Before(taker, side[0], LimitKey, LimitId)) && !gone && !taker.Dust() ==>
              Listed(side, taker, gone) == [taker] + side
  {
    hide Price.Less, Down, Resting;
    if !gone {
      if taker.Dust() {
        ledger.CreditTotal(taker.seller, taker.forSale);
      } else {
        RestingInsert(taker, side);
        InsertKeepsElements(side, taker, LimitKey, LimitId);
      }
    }
  }

  /** A finished order is listed once, behind those as good or better; dust goes back to its seller and no one else. */
  lemma ListedMeans(side: seq<Limit>, ledger: Ledger, taker: Limit, gone: bool) returns (k: nat)
    requires taker.Valid()
    ensures var t, out := Listed(side, taker, gone), gone || Down(taker.forSale, taker.price) == 0;
            && Credited(ledger, Refunded(ledger, taker, gone), taker.seller, if !gone && out then taker.forSale else 0)
            && (out ==> t == side)
            && (!out ==>
                  && k <= |side| && t == side[..k] + [taker] + side[k..]
                  && (k < |side| ==> side[k].price.Less(taker.price) ||
                                     (side[k].price.AtMost(taker.price) && taker.id < side[k].id))
                  && forall i | 0 <= i < k ::
                       taker.price.AtMost(side[i].price) &&
                       (side[i].price.AtMost(taker.price) ==> side[i].id <= taker.id))
  {
    hide Price.Less, Down, Insert;
    ledger.CreditPays(taker.seller, taker.forSale);
    k := InsertPlace(side, taker, LimitKey, LimitId);
    if k < |side| {
      InvOrder(side[k].price, taker.price);
    }
    forall i | 0 <= i < k
      ensures LimitKey(taker).Less(LimitKey(side[i])) <==> side[i].price.Less(taker.price)
      ensures LimitKey(taker).AtMost(LimitKey(side[i])) <==> side[i].price.AtMost(taker.price)
    {
      InvOrder(side[i].price, taker.price);
    }
  }

  lemma CrossesSymmetric(a: Price, b: Price)
    ensures Crosses(a, b) <==> Crosses(b, a)
  {
  }

  /** Shrinking either side keeps the fronts apart. */
  lemma StillUncrossed(own: seq<Limit>, opp: seq<Limit>, opp0: seq<Limit>)
    requires Resting(opp0) && Resting(own) && TailOf(opp, opp0)
    requires own == [] || opp0 == [] || !Crosses(own[0].price, opp0[0].price)
    ensures own == [] || opp == [] || !Crosses(own[0].price, opp[0].price)
  {
    hide Price.Less, Down;
    if own != [] && opp != [] {
      FrontIsBest(opp0, |opp0| - |opp|);
      LessTransitive(opp[0].price, opp0[0].price, own[0].price.Inv());
    }
  }

  /** Orders behind the front cannot cross if the front does not, so an order not at the front need not be matched. */
  lemma BehindFrontIsUncrossed(o: Limit, own: seq<Limit>, opp: seq<Limit>, j: nat)
    requires o.Valid() && Resting(own) && Resting(opp) && own != [] && j < |opp|
    requires !Before(o, own[0], LimitKey, LimitId)
    requires !Crosses(own[0].price, opp[0].price)
    ensures !Crosses(o.price, opp[j].price)
  {
    hide Price.Less, Down;
    FrontIsBest(opp, j);
    LessIsAtMost(LimitKey(o), LimitKey(own[0]));
    LessTransitive(opp[j].price, opp[0].price, own[0].price.Inv());
    LessTransitive(opp[j].price, own[0].price.Inv(), o.price.Inv());
  }

  lemma BidsBelowTail(m: Market, m0: Market, p: Price)
    requires Resting(m0.bids) && TailOf(m.bids, m0.bids) && p.Valid() && BidsBelow(m0, p)
    ensures BidsBelow(m, p)
  {
    hide Price.Less, Down;
    if m.bids != [] {
      FrontIsBest(m0.bids, |m0.bids| - |m.bids|);
      LessTransitive(m.bids[0].price, m0.bids[0].price, p);
    }
  }

  lemma UncrossedAfterBid(m: Market, m0: Market, par: Params, taker: Limit, placed: bool)
    requires Shape(m0, par) && Resting(m.bids) && Resting(m.asks) && TailOf(m.asks, m0.asks)
    requires m.bids == if placed then [taker] + m0.bids else m0.bids
    requires placed ==> m.asks == [] || !Crosses(taker.price, m.asks[0].price)
    ensures Uncrossed(m)
  {
    if !placed {
      StillUncrossed(m0.bids, m.asks, m0.asks);
    }
  }

  lemma UncrossedAfterAsk(m: Market, m0: Market, par: Params, taker: Limit, placed: bool)
    requires Shape(m0, par) && Resting(m.bids) && Resting(m.asks) && TailOf(m.bids, m0.bids)
    requires m.asks == if placed then [taker] + m0.asks else m0.asks
    requires placed ==> m.bids == [] || !Crosses(taker.price, m.bids[0].price)
    ensures Uncrossed(m)
  {
    if m.bids != [] && m.asks != [] {
      CrossesSymmetric(m.bids[0].price, m.asks[0].price);
    }
    if !placed {
      if m0.bids != [] && m0.asks != [] {
        CrossesSymmetric(m0.bids[0].price, m0.asks[0].price);
      }
      StillUncrossed(m0.asks, m.bids, m0.bids);
    }
  }

  /** After a new bid: what is callable is covered, and no callable position is left beside a bid good enough for it. */
  lemma MarginOkAfterBid(m: Market, m0: Market, par: Params, taker: Limit, placed: bool)
    requires Shape(m0, par) && Shape(m, par) && m.feed == m0.feed && m.settled == m0.settled && MarginOk(m0)
    requires m.bids == if placed then [taker] + m0.bids else m0.bids
    requires m.feed.Some? && m.settled.None? ==>
               && CallablesCovered(m.calls, m.feed.value)
               && (m.calls == m0.calls || (m0.calls != [] && Callable(m0.calls[0], m0.feed.value)))
               && (placed && SqueezePrice(m.feed.value).AtMost(taker.price) ==> NoneCallable(m.calls, m.feed.value))
    ensures MarginOk(m)
  {
  }

  lemma CoveredFromMarginOk(m: Market, feed: Feed)
    requires m.feed == Some(feed) && feed.Valid() && m.settled.None? && MarginOk(m)
    ensures CallablesCovered(m.calls, feed)
  {
  }

  // ----- a new bid

  function StartBid(order: Limit, m: Market): Book { Book(order, false, false, m.asks, m.debt, m.coll) }

  /** The market after the bid's trades with resting asks. */
  function AsksMatched(b: Book, m: Market): Held {
    Held(b.taker, b.gone, b.finished, m.(asks := b.opp, debt := b.sold, coll := b.bought))
  }

  /** The market once the bid is listed, refunded or gone. */
  function BidRested(h: Held): Market
    requires h.taker.price.base > 0
  {
    h.m.(bids := Listed(h.m.bids, h.taker, h.gone), debt := Refunded(h.m.debt, h.taker, h.gone))
  }

  predicate MeetsCalls(order: Limit, m: Market) {
    m.feed.Some? && m.feed.value.Valid() && m.settled.None? && SqueezePrice(m.feed.value).AtMost(order.price)
  }

  /**
   What a new bid does: if it reaches the squeeze price it first trades with the asks better than that, then with
   callable positions until none is left, and last with the remaining asks; then it is listed.
   */
  ghost predicate BidApplied(order: Limit, m0: Market, m: Market, steps: seq<Held>, last: Held) {
    && StartBid(order, m0).Ready() && steps != []
    && steps[0] == (if MeetsCalls(order, m0)
                    then AsksMatched(Matching(StartBid(order, m0), Some(SqueezePrice(m0.feed.value).Inv())), m0)
                    else Held(order, false, false, m0))
    && CallFills(steps, steps[0], steps[|steps| - 1])
    && Continued(order, m0, steps[|steps| - 1], |steps| == 1, last)
    && last.taker.price.base > 0 && m == BidRested(last)
  }

  /** A new bid trades with better asks and callable positions as above, until a margin call throws. */
  ghost predicate BidRefused(order: Limit, m0: Market, steps: seq<Held>) {
    && MeetsCalls(order, m0) && StartBid(order, m0).Ready() && steps != []
    && steps[0] == AsksMatched(Matching(StartBid(order, m0), Some(SqueezePrice(m0.feed.value).Inv())), m0)
    && CallFills(steps, steps[0], steps[|steps| - 1]) && SizingThrows(steps[|steps| - 1])
  }

  /** From the state after margin calls to the one after all trades. */
  ghost predicate Continued(order: Limit, m0: Market, called: Held, noCalls: bool, last: Held) {
    && (if MeetsCalls(order, m0) && !called.finished then NoneCallable(called.m.calls, m0.feed.value)
        else noCalls || (MeetsCalls(order, m0) && called.finished))
    && (if called.finished then last == called
        else
          && StartBid(called.taker, called.m).Ready()
          && last == AsksMatched(Matching(StartBid(called.taker, called.m), None), called.m))
  }

  /** Nothing but asks, positions and ledgers changes while the bid is held aside. */
  ghost predicate Aside(h: Held, m0: Market, par: Params, order: Limit) {
    && h.taker == order.(forSale := h.taker.forSale) && h.taker.Valid()
    && Shape(h.m, par) && Phase(h.m) && ConservedWith(h.m, par, if h.gone then 0 else h.taker.forSale, 0)
    && h.m == m0.(asks := h.m.asks, calls := h.m.calls, debt := h.m.debt, coll := h.m.coll, supply := h.m.supply)
    && TailOf(h.m.asks, m0.asks)
    && (h.gone ==> h.finished) && (h.finished ==> h.gone || h.taker.Dust())
  }

  /** What margin calling has achieved by then. */
  predicate MarginAside(h: Held, m0: Market, par: Params)
    requires h.m.feed == m0.feed && (m0.feed.Some? ==> m0.feed.value.Valid())
  {
    BidsChecked(m0) && m0.feed.Some? && h.m.settled.None? ==>
      && CallablesCovered(h.m.calls, h.m.feed.value)
      && (h.m.calls == m0.calls || (m0.calls != [] && Callable(m0.calls[0], m0.feed.value)))
      && (!h.finished && SqueezePrice(h.m.feed.value).AtMost(h.taker.price) ==> NoneCallable(h.m.calls, h.m.feed.value))
  }

  /** The taker against resting asks. */
  method MatchAsks(order: Limit, m0: Market, par: Params, floor: Option<Price>) returns (h: Held)
    requires order.Valid() && Shape(m0, par) && Phase(m0) && ConservedWith(m0, par, order.forSale, 0)
    ensures StartBid(order, m0).Ready() && h == AsksMatched(Matching(StartBid(order, m0), floor), m0)
    ensures Aside(h, m0, par, order) && h.m.calls == m0.calls && h.m.supply == m0.supply
    ensures !h.finished && floor.None? ==> h.m.asks == [] || !Crosses(h.taker.price, h.m.asks[0].price)
  {
    hide Price.Less, Down, Up, Scale, Resting, CallsOk, OffersOk, Sum, Matching;
    var b := MatchOpposite(StartBid(order, m0), floor);
    h := AsksMatched(b, m0);
    UncrossedAfterBid(h.m, m0, par, h.taker, false);
  }

  /** A bid good enough for the squeeze price: first better asks, then callable positions. */
  method MatchBetterAsksAndCalls(order: Limit, m0: Market, par: Params)
    returns (h: Held, status: Status, ghost steps: seq<Held>)
    requires order.Valid() && Shape(m0, par) && Phase(m0) && ConservedWith(m0, par, order.forSale, 0)
    requires BidsChecked(m0) ==> MarginOk(m0)
    ensures status.Done? ==> Aside(h, m0, par, order) && MarginAside(h, m0, par)
    ensures BidsChecked(m0) ==> !status.Short?
    ensures status.Stuck? ==> m0.feed.Some? && m0.feed.value.Valid() && !MaintenanceIsExact(m0.feed.value)
    ensures StartBid(order, m0).Ready() && steps != []
    ensures steps[0] == if MeetsCalls(order, m0)
                        then AsksMatched(Matching(StartBid(order, m0), Some(SqueezePrice(m0.feed.value).Inv())), m0)
                        else Held(order, false, false, m0)
    ensures CallFills(steps, steps[0], h)
    ensures status.Rejected? ==> MeetsCalls(order, m0) && SizingThrows(h)
    ensures status.Done? ==>
              if MeetsCalls(order, m0) && !h.finished then NoneCallable(h.m.calls, m0.feed.value)
              else |steps| == 1 || (MeetsCalls(order, m0) && h.finished)
    ensures NoCallables(m0) ==> status.Done? && steps == [h]
  {
    hide Price.Less, Down, Up, Scale, Resting, CallsOk, OffersOk, Sum, Shape, MarginOk, Phase, ConservedWith,
         Matching, CallFills, CallablesCovered;
    h, status := Held(order, false, false, m0), Done;
    steps := [h];
    CallFillsStart(h);
    BidIsReady(order, m0, par);
    if BidsChecked(m0) && m0.feed.Some? && m0.settled.None? {
      CoveredFromMarginOk(m0, m0.feed.value);
    }
    if !MeetsCalls(order, m0) {
      return;
    }
    var feed := m0.feed.value;
    SqueezeFacts(feed);
    h := MatchAsks(order, m0, par, Some(SqueezePrice(feed).Inv()));
    steps := [h];
    CallFillsStart(h);
    if !h.finished {
      ghost var first := h;
      h, status, steps := MatchCalls(h, par);
      FillsStartHere(steps, first, h);
    }
  }

  lemma FillsStartHere(steps: seq<Held>, h0: Held, h: Held)
    requires CallFills(steps, h0, h)
    ensures steps != [] && steps[0] == h0
  {
  }

  /** No position can be called, so a new order only meets other limit orders. */
  predicate NoCallables(m: Market)
    requires m.feed.Some? ==> m.feed.value.Valid()
  {
    m.feed.None? || m.settled.Some? || m.calls == [] || !Callable(m.calls[0], m.feed.value)
  }

  lemma BidIsReady(order: Limit, m: Market, par: Params)
    requires order.Valid() && Shape(m, par)
    ensures StartBid(order, m).Ready() && (m.feed.Some? ==> m.feed.value.Valid())
  {
  }

  /** The remaining asks, once margin calls are done. */
  method MatchOtherAsks(order: Limit, m0: Market, par: Params, h1: Held) returns (h: Held)
    requires Shape(m0, par) && Aside(h1, m0, par, order) && !h1.gone && !h1.finished && MarginAside(h1, m0, par)
    ensures StartBid(h1.taker, h1.m).Ready() && h == AsksMatched(Matching(StartBid(h1.taker, h1.m), None), h1.m)
    ensures Aside(h, m0, par, order) && MarginAside(h, m0, par)
    ensures !h.finished ==> h.m.asks == [] || !Crosses(h.taker.price, h.m.asks[0].price)
  {
    hide Price.Less, Down, Up, Scale, Resting, CallsOk, OffersOk, Sum, Shape, Phase, ConservedWith, CallablesCovered,
         NoneCallable, Matching;
    h := MatchAsks(h1.taker, h1.m, par, None);
    TailTransitive(h.m.asks, h1.m.asks, m0.asks);
  }

  /** A new bid that is first on its side. */
  method ApplyBid(order: Limit, m0: Market, par: Params)
      returns (m: Market, filled: bool, status: Status, ghost steps: seq<Held>, ghost last: Held)
    requires order.Valid() && Shape(m0, par) && Phase(m0) && ConservedWith(m0, par, order.forSale, 0)
    requires BidsChecked(m0) ==> MarginOk(m0)
    requires m0.bids == [] || Before(order, m0.bids[0], LimitKey, LimitId)
    ensures status.Done? ==> Inv(m, par)
    ensures status.Done? ==>
      m == m0.(bids := m.bids, asks := m.asks, calls := m.calls, debt := m.debt, coll := m.coll, supply := m.supply)
    ensures status.Done? ==> BidApplied(order, m0, m, steps, last) && filled == (|m.bids| == |m0.bids|)
    ensures status.Rejected? ==> BidRefused(order, m0, steps)
    ensures NoCallables(m0) ==> status.Done? && |steps| == 1
    ensures BidsChecked(m0) ==> !status.Short?
    ensures status.Stuck? ==> m0.feed.Some? && m0.feed.value.Valid() && !MaintenanceIsExact(m0.feed.value)
  {
    hide Price.Less, Down, Up, Scale, Resting, CallsOk, OffersOk, Sum, Inv, Shape, MarginOk, Phase, Matching, CallFills,
         CallablesCovered, NoneCallable, BidRested, MarginAside, ConservedWith;
    ShapeFacts(m0, par);
    filled := false;
    var h;
    h, status, steps := MatchBetterAsksAndCalls(order, m0, par);
    m, last := m0, h;
    FillsEndHere(steps, h);
    if !status.Done? {
      return;
    }
    if !h.finished {
      h := MatchOtherAsks(order, m0, par, h);
    }
    last := h;
    filled := h.gone || h.taker.Dust();
    BidRestedKeeps(h, m0, par, order);
    m := BidRested(h);
  }

  lemma BidRestedKeeps(h: Held, m0: Market, par: Params, order: Limit)
    requires Shape(m0, par) && Aside(h, m0, par, order) && MarginAside(h, m0, par)
    requires BidsChecked(m0) ==> MarginOk(m0)
    requires m0.bids == [] || Before(order, m0.bids[0], LimitKey, LimitId)
    requires !h.finished ==> h.m.asks == [] || !Crosses(h.taker.price, h.m.asks[0].price)
    ensures Inv(BidRested(h), par)
    ensures var m := BidRested(h);
            && m == m0.(bids := m.bids, asks := m.asks, calls := m.calls, debt := m.debt, coll := m.coll,
                        supply := m.supply)
            && (h.gone || h.taker.Dust()) == (|m.bids| == |m0.bids|)
  {
    hide Price.Less, Down, Up, Scale, Resting, CallsOk, OffersOk, Sum, Inv, Shape, MarginOk, Phase, CallablesCovered,
         NoneCallable;
    ShapeFacts(h.m, par);
    ListedFacts(h.m.bids, h.m.debt, h.taker, h.gone);
    BidPlaced(BidRested(h), h.m, m0, par, h.taker, h.gone || h.taker.Dust());
  }

  lemma FillsEndHere(steps: seq<Held>, h: Held)
    requires steps != [] && CallFills(steps, steps[0], h)
    ensures steps[|steps| - 1] == h
  {
  }

  lemma ShapeFacts(m: Market, par: Params)
    requires Shape(m, par)
    ensures Resting(m.bids) && Resting(m.asks) && (m.feed.Some? ==> m.feed.value.Valid()) && m.debt.rule.Valid()
  {
  }

  lemma BidPlaced(m: Market, before: Market, m0: Market, par: Params, taker: Limit, filled: bool)
    requires Shape(m0, par) && Shape(before, par) && Phase(before) && TailOf(before.asks, m0.asks)
    requires before == m0.(asks := before.asks, calls := before.calls, debt := before.debt, coll := before.coll,
                           supply := before.supply)
    requires m == before.(bids := m.bids, debt := m.debt) && m.debt.rule == before.debt.rule
    requires m.bids == if filled then m0.bids else [taker] + m0.bids
    requires Resting(m.bids) && Conserved(m, par)
    requires !filled ==> m.asks == [] || !Crosses(taker.price, m.asks[0].price)
    requires BidsChecked(m0) ==> MarginOk(m0)
    requires MarginAside(Held(taker, filled, filled, m), m0, par)
    ensures Inv(m, par)
  {
    hide Price.Less, Down, Scale, CallsOk, OffersOk, Sum, MarginOk;
    UncrossedAfterBid(m, m0, par, taker, !filled);
    if BidsChecked(m0) {
      MarginOkAfterBid(m, m0, par, taker, !filled);
    }
  }

  // ----- a new ask

  function StartAsk(order: Limit, m: Market): Book { Book(order, false, false, m.bids, m.coll, m.debt) }

  /** The market after the ask's trades, with the ask listed, refunded or gone. */
  function AskRested(b: Book, m: Market): Market
    requires b.taker.price.base > 0
  {
    m.(bids := b.opp, debt := b.bought, asks := Listed(m.asks, b.taker, b.gone),
       coll := Refunded(b.sold, b.taker, b.gone))
  }

  /** A new ask that is first on its side. */
  method ApplyAsk(order: Limit, m0: Market, par: Params) returns (m: Market, filled: bool)
    requires order.Valid() && Shape(m0, par) && Phase(m0) && ConservedWith(m0, par, 0, order.forSale)
    requires BidsChecked(m0) ==> MarginOk(m0)
    requires m0.asks == [] || Before(order, m0.asks[0], LimitKey, LimitId)
    ensures Inv(m, par)
    ensures m == m0.(bids := m.bids, asks := m.asks, debt := m.debt, coll := m.coll)
    ensures StartAsk(order, m0).Ready()
    ensures var b := Matching(StartAsk(order, m0), None);
            b.taker.price.base > 0 && m == AskRested(b, m0) && filled == (|m.asks| == |m0.asks|)
  {
    hide Price.Less, Down, Up, Scale, Resting, CallsOk, OffersOk, Sum, Matching;
    var b := MatchOpposite(StartAsk(order, m0), None);
    ListedFacts(m0.asks, b.sold, b.taker, b.gone);
    m := AskRested(b, m0);
    filled := b.gone || b.taker.Dust();
    UncrossedAfterAsk(m, m0, par, b.taker, !filled);
    if BidsChecked(m0) {
      MarginOkWithFewerBids(m, m0, par);
    }
  }

  lemma MarginOkWithFewerBids(m: Market, m0: Market, par: Params)
    requires Shape(m0, par) && m.feed == m0.feed && m.settled == m0.settled && MarginOk(m0)
    requires m.calls == m0.calls && TailOf(m.bids, m0.bids)
    ensures MarginOk(m)
  {
    hide Price.Less, Down, Scale;
    if m.feed.Some? && m.settled.None? {
      var squeeze := SqueezePrice(m.feed.value);
      SqueezeFacts(m.feed.value);
      if BidsBelow(m0, squeeze) {
        BidsBelowTail(m, m0, squeeze);
      }
    }
  }

  // ----- any new order

  /** Plain price-time priority matching: the order meets the whole opposite side, then is listed. */
  function LimitOnly(order: Limit, isBid: bool, m: Market): Market
    requires order.Valid() && StartBid(order, m).Ready() && StartAsk(order, m).Ready()
  {
    MatchingKeepsPrice(StartBid(order, m), None);
    MatchingKeepsPrice(StartAsk(order, m), None);
    if isBid then BidRested(AsksMatched(Matching(StartBid(order, m), None), m))
    else AskRested(Matching(StartAsk(order, m), None), m)
  }

  /** Without margin calls the three phases of a new bid amount to plain matching. */
  lemma PhasesAreOneMatching(order: Limit, m0: Market, m: Market, steps: seq<Held>, last: Held)
    requires order.Valid() && StartBid(order, m0).Ready() && StartAsk(order, m0).Ready()
    requires BidApplied(order, m0, m, steps, last) && |steps| == 1
    ensures m == LimitOnly(order, true, m0)
  {
    hide Price.Less, Down, Resting, Scale, TradeStep, CallFills, BidRested, NoneCallable;
    if MeetsCalls(order, m0) {
      MatchingInTwo(StartBid(order, m0), Some(SqueezePrice(m0.feed.value).Inv()));
    }
  }

  predicate AtFront(order: Limit, side: seq<Limit>) {
    side == [] || Before(order, side[0], LimitKey, LimitId)
  }

  /**
   The shortcut for an order behind the front of its side is sound: attempting every match would trade nothing and list
   it in the same place.
   */
  lemma ShortcutIsLimitOnly(order: Limit, isBid: bool, m: Market, par: Params)
    requires order.Valid() && !order.Dust() && Shape(m, par) && !AtFront(order, if isBid then m.bids else m.asks)
    ensures StartBid(order, m).Ready() && StartAsk(order, m).Ready()
    ensures LimitOnly(order, isBid, m) == if isBid then m.(bids := Insert(m.bids, order, LimitKey, LimitId))
                                          else m.(asks := Insert(m.asks, order, LimitKey, LimitId))
  {
    hide Price.Less, Down, Scale, TradeStep, Insert;
    if isBid && m.asks != [] {
      BehindFrontIsUncrossed(order, m.bids, m.asks, 0);
    } else if !isBid && m.bids != [] {
      CrossesSymmetric(m.bids[0].price, m.asks[0].price);
      BehindFrontIsUncrossed(order, m.asks, m.bids, 0);
    }
  }

  /** A new order that is not first on its side is only listed. */
  lemma ListedBehindFront(m0: Market, par: Params, order: Limit, isBid: bool, m: Market)
    requires order.Valid() && !order.Dust() && Shape(m0, par) && Phase(m0)
    requires ConservedWith(m0, par, if isBid then order.forSale else 0, if isBid then 0 else order.forSale)
    requires BidsChecked(m0) ==> MarginOk(m0)
    requires isBid ==> m0.bids != [] && !Before(order, m0.bids[0], LimitKey, LimitId)
    requires !isBid ==> m0.asks != [] && !Before(order, m0.asks[0], LimitKey, LimitId)
    requires m == if isBid then m0.(bids := Insert(m0.bids, order, LimitKey, LimitId))
                  else m0.(asks := Insert(m0.asks, order, LimitKey, LimitId))
    ensures Inv(m, par)
  {
    hide Price.Less, Down, Scale;
    RestingInsert(order, if isBid then m0.bids else m0.asks);
  }

  /**
   `apply_order`: match the new order if it is first on its side, list it otherwise.  Unless it is a bid that meets
   callable positions, the result is exactly that of plain matching.
   */
  method ApplyOrder(order: Limit, isBid: bool, m0: Market, par: Params)
      returns (m: Market, filled: bool, status: Status, ghost steps: seq<Held>, ghost last: Held)
    requires order.Valid() && !order.Dust() && Shape(m0, par) && Phase(m0)
    requires ConservedWith(m0, par, if isBid then order.forSale else 0, if isBid then 0 else order.forSale)
    requires BidsChecked(m0) ==> MarginOk(m0)
    ensures status.Done? ==> Inv(m, par)
    ensures status.Done? ==>
      m == m0.(bids := m.bids, asks := m.asks, calls := m.calls, debt := m.debt, coll := m.coll, supply := m.supply)
    ensures StartBid(order, m0).Ready() && StartAsk(order, m0).Ready()
    ensures MeetsLimitsOnly(order, isBid, m0) ==> status.Done? && m == LimitOnly(order, isBid, m0)
    ensures !MeetsLimitsOnly(order, isBid, m0) && status.Done? ==> BidApplied(order, m0, m, steps, last)
    ensures status.Rejected? ==> BidRefused(order, m0, steps)
    ensures status.Done? ==> filled == (if isBid then |m.bids| == |m0.bids| else |m.asks| == |m0.asks|)
    ensures BidsChecked(m0) ==> !status.Short?
    ensures status.Stuck? ==> m0.feed.Some? && m0.feed.value.Valid() && !MaintenanceIsExact(m0.feed.value)
  {
    hide Price.Less, Down, Scale, Resting, CallsOk, OffersOk, Sum, Inv, Shape, Phase, MarginOk, ConservedWith,
         Matching, BidApplied, BidRefused, LimitOnly, Insert;
    steps, last := [], Held(order, false, false, m0);
    OrderIsReady(order, m0, par);
    var own := if isBid then m0.bids else m0.asks;
    if !AtFront(order, own) {
      var side := Insert(own, order, LimitKey, LimitId);
      m := if isBid then m0.(bids := side) else m0.(asks := side);
      filled, status := false, Done;
      InsertKeepsElements(own, order, LimitKey, LimitId);
      ListedBehindFront(m0, par, order, isBid, m);
      ShortcutIsLimitOnly(order, isBid, m0, par);
    } else if isBid {
      m, filled, status, steps, last := ApplyBid(order, m0, par);
      if NoCallables(m0) {
        PhasesAreOneMatching(order, m0, m, steps, last);
      }
    } else {
      m, filled := ApplyAsk(order, m0, par);
      status := Done;
      AskIsLimitOnly(order, m0, m);
    }
  }

  /** Every order but a bid at the front of its side while a position is callable. */
  predicate MeetsLimitsOnly(order: Limit, isBid: bool, m: Market)
    requires m.feed.Some? ==> m.feed.value.Valid()
  {
    !isBid || NoCallables(m) || !AtFront(order, m.bids)
  }

  lemma OrderIsReady(order: Limit, m: Market, par: Params)
    requires order.Valid() && Shape(m, par)
    ensures StartBid(order, m).Ready() && StartAsk(order, m).Ready() && (m.feed.Some? ==> m.feed.value.Valid())
  {
  }

  lemma AskIsLimitOnly(order: Limit, m0: Market, m: Market)
    requires order.Valid() && StartBid(order, m0).Ready() && StartAsk(order, m0).Ready()
    requires Matching(StartAsk(order, m0), None).taker.price.base > 0 &&
             m == AskRested(Matching(StartAsk(order, m0), None), m0)
    ensures m == LimitOnly(order, false, m0)
  {
    hide Matching;
  }
}
