/**
 Force settlement of due settle orders (libraries/chain/db_update.cpp, second half of `clear_expired_orders`;
 libraries/chain/db_market.cpp, `match` of a call order with a settle order, `fill_settle_order`;
 libraries/chain/asset_object.cpp, `max_force_settlement_volume`).
 */
module ForceSettlement {
  import opened Prices
  import opened PriceScaling
  import opened Collections
  import opened Ledgers
  import opened LimitMatching
  import opened MarginCall
  import opened Markets
  import opened MarginEngine
  import opened OrderEngine
  import PriceAccuracy

  /** The most that may be force settled between two maintenance intervals. */
  function Cap(percent: nat, supply: nat, forceSettled: nat): nat {
    if percent == 0 then 0
    else if percent == HUNDRED_PERCENT then supply + forceSettled
    else (supply + forceSettled) * percent / HUNDRED_PERCENT
  }

  /** The cap is the largest amount within the percentage of the supply and what was settled already. */
  lemma CapIs(percent: nat, supply: nat, forceSettled: nat, amount: nat)
    requires percent <= HUNDRED_PERCENT
    ensures amount <= Cap(percent, supply, forceSettled) <==>
              amount * HUNDRED_PERCENT <= (supply + forceSettled) * percent
  {
    if percent != 0 && percent != HUNDRED_PERCENT {
      QuotientGeq((supply + forceSettled) * percent, HUNDRED_PERCENT, amount);
    } else if percent == 0 {
      assert (supply + forceSettled) * percent == 0;
    }
  }

  /** The feed price less the settlement offset, in debt / collateral. */
  function FillPrice(feed: Feed, par: Params): Price
    requires feed.Valid() && par.settleOffset < HUNDRED_PERCENT
  {
    Scale(feed.price.Inv(), HUNDRED_PERCENT, HUNDRED_PERCENT - par.settleOffset)
  }

  /** What one match does: fill (and perhaps cull) the settle order, refund it, or nothing. */
  datatype Match = FillBoth(t: MarginTrade, cull: bool) | Refund | Nothing

  function MatchSettle(balance: nat, maxSettlement: nat, debt: nat, p: Price): Match
    requires p.Valid()
  {
    var receives := Min(Min(balance, maxSettlement), debt);
    var pays := Down(receives, p);
    if pays == 0 then
      if receives == debt then FillBoth(MarginTrade(1, receives), false)
      else if receives == balance then Refund
      else Nothing
    else if receives == debt then FillBoth(MarginTrade(Up(receives, p), receives), false)
    else
      var again := Up(pays, p.Inv());
      FillBoth(MarginTrade(pays, again), receives == balance && again != balance)
  }

  /**
   Re-rounding never raises the amount settled.  A covered position is never asked for more collateral than it has, and
   its collateral ratio does not fall.
   */
  lemma SettleMatchOk(c: CallOrder, balance: nat, maxSettlement: nat, p: Price)
    requires c.Valid() && p.Valid() && balance > 0 && maxSettlement > 0
    ensures match MatchSettle(balance, maxSettlement, c.debt, p)
            case Refund => Down(balance, p) == 0 && balance < c.debt && balance <= maxSettlement
            case Nothing => Down(maxSettlement, p) == 0 && maxSettlement < balance && maxSettlement < c.debt
            case FillBoth(t, cull) =>
              && 0 < t.covers <= balance && t.covers <= maxSettlement && t.covers <= c.debt && 0 < t.gives
              && (cull ==> t.covers < balance && Down(balance - t.covers, p) == 0)
              && (CoveredAt(c, p) ==>
                    && t.gives <= c.collateral
                    && (t.covers < c.debt ==>
                          t.gives < c.collateral && c.Collateralization().AtMost(Left(c, t).Collateralization())))
  {
    hide Down, Up;
    var receives := Min(Min(balance, maxSettlement), c.debt);
    var pays := Down(receives, p);
    if pays == 0 {
    } else if receives == c.debt {
      UpSpec(c.debt, c.collateral, p);
      UpPositive(c.debt, p);
    } else {
      var again := Up(pays, p.Inv());
      RemainderIsWorthless(receives, p);
      UpSpec(pays, again, p.Inv());
      UpPositive(pays, p.Inv());
      if CoveredAt(c, p) {
        LeftStaysCovered(c.collateral, c.debt, pays, again, p.quote, p.base);
      }
    }
  }

  /**
   What one match settles: as much as order, limit and position allow; the position pays the collateral this is worth,
   rounded up only if it closes the position and down otherwise, when the amount settled shrinks to the least that is
   worth the payment.  If it is worth nothing, a position is closed for one unit, an order is refunded, and else nothing
   is done.
   */
  lemma MatchSettleIs(balance: nat, maxSettlement: nat, debt: nat, p: Price, k: nat)
    requires p.Valid()
    ensures var most := Min(Min(balance, maxSettlement), debt);
            match MatchSettle(balance, maxSettlement, debt, p)
            case FillBoth(t, cull) =>
              && (most * p.quote < p.base ==> most == debt && t == MarginTrade(1, most) && !cull)
              && (most * p.quote >= p.base && most == debt ==>
                    t.covers == debt && !cull && (t.gives <= k <==> debt * p.quote <= k * p.base))
              && (most * p.quote >= p.base && most < debt ==>
                    && (k <= t.gives <==> k * p.base <= most * p.quote)
                    && (t.covers <= k <==> t.gives * p.base <= k * p.quote)
                    && (cull <==> most == balance && t.covers != balance))
            case Refund => most * p.quote < p.base && most == balance < debt
            case Nothing => most * p.quote < p.base && most < debt && most < balance
  {
    hide Down, Up;
    var most := Min(Min(balance, maxSettlement), debt);
    DownSpec(most, 1, p);
    DownSpec(most, k, p);
    UpSpec(most, k, p);
    UpSpec(Down(most, p), k, p.Inv());
  }

  lemma FillPriceFacts(feed: Feed, par: Params)
    requires feed.Valid() && par.settleOffset < HUNDRED_PERCENT
    ensures FillPrice(feed, par).Valid() && feed.price.Inv().AtMost(FillPrice(feed, par))
  {
    ScaleFacts(feed.price.Inv(), HUNDRED_PERCENT, HUNDRED_PERCENT - par.settleOffset);
  }

  /**
   The fill price is the feed price over what the offset leaves of it, up to one part in 2^17, exactly if
   representable.
   */
  lemma FillPriceIsNear(feed: Feed, par: Params)
    requires feed.Valid() && par.settleOffset < HUNDRED_PERCENT
    requires PriceAccuracy.InRange(feed.price.Inv(), HUNDRED_PERCENT, HUNDRED_PERCENT - par.settleOffset)
    ensures var s, left := FillPrice(feed, par), HUNDRED_PERCENT - par.settleOffset;
            var exact := (feed.price.quote * HUNDRED_PERCENT) * s.quote;
            var scaled := s.base * (feed.price.base * left);
            && exact * 131_071 <= scaled * 131_072 <= exact * 131_073
            && (ScalesExactly(feed.price.Inv(), HUNDRED_PERCENT, left) ==> scaled == exact)
  {
    hide Scale, ScalesExactly;
    PriceAccuracy.ScaleIsNear(feed.price.Inv(), HUNDRED_PERCENT, HUNDRED_PERCENT - par.settleOffset);
    ScaleFacts(feed.price.Inv(), HUNDRED_PERCENT, HUNDRED_PERCENT - par.settleOffset);
  }

  /**
   Above maintenance means above the feed price; callable means covered at the squeeze price, which is lower still.
   */
  lemma CoveredAtFillPrice(c: CallOrder, feed: Feed, par: Params)
    requires c.Valid() && feed.Valid() && par.settleOffset < HUNDRED_PERCENT
    requires Callable(c, feed) ==> CoveredAt(c, SqueezePrice(feed))
    ensures CoveredAt(c, FillPrice(feed, par))
  {
    hide Price.Less, Scale;
    FillPriceFacts(feed, par);
    var inDebt := Price(c.debt, c.collateral);
    if Callable(c, feed) {
      SqueezeFacts(feed);
      LessTransitive(inDebt, SqueezePrice(feed), feed.price.Inv());
    } else {
      ScaleFacts(feed.price, feed.mcr, COLLATERAL_RATIO_DENOM);
      LessTransitive(feed.price, feed.MaintenanceCollateralization(), c.Collateralization());
      InvOrder(feed.price, c.Collateralization());
    }
    LessTransitive(inDebt, feed.price.Inv(), FillPrice(feed, par));
  }

  /** `cancel_settle_order` on the first settle order. */
  function CancelFirst(m: Market): Market
    requires m.settles != []
  {
    var s := m.settles[0];
    m.(settles := m.settles[1..], debt := m.debt.Credit(s.owner, s.balance))
  }

  /** Its owner alone gets its balance back. */
  lemma CancelFirstPays(m: Market)
    requires m.settles != []
    ensures var n, s := CancelFirst(m), m.settles[0];
            n == m.(settles := m.settles[1..], debt := n.debt) && Credited(m.debt, n.debt, s.owner, s.balance)
  {
    m.debt.CreditPays(m.settles[0].owner, m.settles[0].balance);
  }

  lemma CancelFirstKeeps(m: Market, par: Params)
    requires Inv(m, par) && m.settles != []
    ensures Inv(CancelFirst(m), par)
  {
    hide Price.Less, Down, Scale, Resting, CallsOk, OffersOk;
    m.debt.CreditTotal(m.settles[0].owner, m.settles[0].balance);
  }

  /** `fill_settle_order` on the first settle order, followed by culling what is left of it if asked. */
  function SettleFilled(m: Market, t: MarginTrade, cull: bool): Market
    requires m.settles != [] && t.covers <= m.settles[0].balance && m.coll.rule.Valid()
  {
    var s := m.settles[0];
    var left := s.balance - t.covers;
    m.(coll := m.coll.Receive(s.owner, t.gives, false),
       settles := if left == 0 || cull then m.settles[1..] else m.settles[0 := s.(balance := left)],
       debt := if left > 0 && cull then m.debt.Credit(s.owner, left) else m.debt)
  }

  /** The holder is paid collateral less the takers' fee; what is left of its order stays, or is returned if culled. */
  lemma SettleFilledPays(m0: Market, t: MarginTrade, cull: bool)
    requires m0.settles != [] && t.covers <= m0.settles[0].balance && m0.coll.rule.Valid()
    ensures var m, s := SettleFilled(m0, t, cull), m0.settles[0];
            var left := s.balance - t.covers;
            && m.settles == (if left == 0 || cull then m0.settles[1..]
                             else [SettleOrder(s.id, s.owner, left, s.date)] + m0.settles[1..])
            && Credited(m0.coll, m.coll, s.owner, t.gives - MarketFee(m0.coll.rule, t.gives, false))
            && Credited(m0.debt, m.debt, s.owner, if cull then left else 0)
  {
    hide MarketFee, Ledger.Vest, Ledger.Reward;
    var s := m0.settles[0];
    m0.coll.ReceivePays(s.owner, t.gives, false);
    m0.debt.CreditPays(s.owner, s.balance - t.covers);
  }

  lemma SettleFilledFacts(m0: Market, t: MarginTrade, cull: bool)
    requires m0.settles != [] && t.covers <= m0.settles[0].balance && m0.coll.rule.Valid()
    ensures var m := SettleFilled(m0, t, cull);
            && m == m0.(settles := m.settles, debt := m.debt, coll := m.coll)
            && m.debt.rule == m0.debt.rule && m.coll.rule == m0.coll.rule
            && m.coll.Total() == m0.coll.Total() + t.gives
            && m.debt.Total() + Sum(m.settles, SettleBalance) ==
                 m0.debt.Total() + Sum(m0.settles, SettleBalance) - t.covers
  {
    var s := m0.settles[0];
    m0.coll.ReceiveTotal(s.owner, t.gives, false);
    m0.debt.CreditTotal(s.owner, s.balance - t.covers);
    var left := s.(balance := s.balance - t.covers);
    assert m0.settles[0 := left][1..] == m0.settles[1..];
  }

  /** What one match of the first settle order does, settling `settled` and removing the order or not. */
  predicate SettleStep(m0: Market, par: Params, maxSettlement: nat, m: Market, settled: nat, removed: bool)
    requires m0.feed.Some? && m0.feed.value.Valid() && par.settleOffset < HUNDRED_PERCENT
    requires m0.calls != [] && m0.settles != [] && m0.coll.rule.Valid()
  {
    FillPriceFacts(m0.feed.value, par);
    var c, s := m0.calls[0], m0.settles[0];
    match MatchSettle(s.balance, maxSettlement, c.debt, FillPrice(m0.feed.value, par))
    case Refund => m == CancelFirst(m0) && settled == 0 && removed
    case Nothing => m == m0 && settled == 0 && !removed
    case FillBoth(t, cull) =>
      && t.gives <= c.collateral && t.covers <= c.debt && t.covers <= m0.supply && t.covers <= s.balance
      && m == SettleFilled(CoverDebt(m0, t.gives, t.covers), t, cull)
      && settled == t.covers && removed == (t.covers == s.balance || cull)
  }

  /** The first settle order against the least collateralized position. */
  method MatchFirst(m0: Market, par: Params, p: Price, maxSettlement: nat)
    returns (m: Market, settled: nat, removed: bool, status: Status)
    requires Inv(m0, par) && m0.settled.None? && m0.feed.Some? && m0.settles != [] && m0.settles[0].balance > 0
    requires par.settleOffset < HUNDRED_PERCENT && maxSettlement > 0
    requires m0.feed.value.Valid() && p == FillPrice(m0.feed.value, par)
    ensures !status.Stuck? && (BidsChecked(m0) ==> !status.Short? && !status.Rejected?)
    ensures m0.calls != [] && m0.coll.rule.Valid() && m0.feed.value.Valid()
    ensures status.Done? ==> SettleStep(m0, par, maxSettlement, m, settled, removed)
    ensures status.Done? ==> Inv(m, par) && settled <= maxSettlement && m.supply + settled == m0.supply
    ensures status.Done? && settled == 0 && !removed ==>
              m == m0 && Down(maxSettlement, FillPrice(m0.feed.value, par)) == 0
    ensures status.Done? ==>
      m == m0.(settles := m.settles, calls := m.calls, debt := m.debt, coll := m.coll, supply := m.supply)
    // the order is filled, refunded, reduced or left alone; the others are not touched
    ensures status.Done? && removed ==> m.settles == m0.settles[1..]
    ensures status.Done? && !removed ==>
      settled < m0.settles[0].balance &&
      m.settles == m0.settles[0 := m0.settles[0].(balance := m0.settles[0].balance - settled)]
  {
    hide Price.Less, Down, Up, Scale, Resting, CallsOk, OffersOk, Sum, MatchSettle, CoverDebt, SettleFilled,
         BidsChecked;
    m, settled, removed, status := m0, 0, false, Done;
    var feed := m.feed.value;
    FillPriceFacts(feed, par);
    // a settle order exists, so there is supply, so there is debt
    FirstPositionExists(m, par);
    var c, s := m.calls[0], m.settles[0];
    if BidsChecked(m) {
      CoveredAtFillPrice(c, feed, par);
    }
    SettleMatchOk(c, s.balance, maxSettlement, p);
    match MatchSettle(s.balance, maxSettlement, c.debt, p) {
      case Refund =>
        CancelFirstKeeps(m, par);
        m, removed := CancelFirst(m), true;
      case Nothing =>
        assert m.settles[0 := s.(balance := s.balance - 0)] == m.settles;
      case FillBoth(t, cull) =>
        if t.gives > c.collateral || (t.covers < c.debt && t.gives == c.collateral) {
          status := Short;
          return;
        }
        SettleFillKeeps(m0, par, t, cull);
        m := SettleFilled(CoverDebt(m, t.gives, t.covers), t, cull);
        settled, removed := t.covers, t.covers == s.balance || cull;
    }
  }

  lemma SettleFillKeeps(m0: Market, par: Params, t: MarginTrade, cull: bool)
    requires Inv(m0, par) && m0.settled.None? && m0.feed.Some? && m0.calls != [] && m0.settles != []
    requires t.gives <= m0.calls[0].collateral && t.covers <= m0.calls[0].debt && t.covers <= m0.supply
    requires 0 < t.covers <= m0.settles[0].balance && (t.covers < m0.calls[0].debt ==> t.gives < m0.calls[0].collateral)
    requires BidsChecked(m0) && t.covers < m0.calls[0].debt ==>
               m0.calls[0].Collateralization().AtMost(Left(m0.calls[0], t).Collateralization())
    ensures m0.coll.rule.Valid() && CoverDebt(m0, t.gives, t.covers).settles == m0.settles
    ensures CoverDebt(m0, t.gives, t.covers).coll.rule == m0.coll.rule
    ensures var m := SettleFilled(CoverDebt(m0, t.gives, t.covers), t, cull);
            && Inv(m, par) && m.supply + t.covers == m0.supply
            && m == m0.(settles := m.settles, calls := m.calls, debt := m.debt, coll := m.coll, supply := m.supply)
            && m.settles == (if t.covers == m0.settles[0].balance || cull then m0.settles[1..]
                             else m0.settles[0 := m0.settles[0].(balance := m0.settles[0].balance - t.covers)])
  {
    hide Price.Less, Down, Up, Scale, Resting, CallsOk, OffersOk, Sum, CoverDebt;
    CoverDebtKeepsCalls(m0, t.gives, t.covers);
    var covering := CoverDebt(m0, t.gives, t.covers);
    SettleFilledFacts(covering, t, cull);
    if BidsChecked(m0) {
      MarginOkAfterCover(SettleFilled(covering, t, cull), m0, par, t);
    }
  }

  lemma FirstPositionExists(m: Market, par: Params)
    requires Inv(m, par) && m.settled.None? && m.settles != [] && m.settles[0].balance > 0
    ensures m.calls != [] && m.calls[0].Valid() && m.calls[0].debt <= m.supply
  {
  }

  lemma MarginOkAfterCover(m: Market, m0: Market, par: Params, t: MarginTrade)
    requires Inv(m0, par) && m0.settled.None? && m0.feed.Some? && m0.calls != []
    requires t.gives <= m0.calls[0].collateral && t.covers <= m0.calls[0].debt && t.covers <= m0.supply
    requires t.covers < m0.calls[0].debt ==>
               t.gives < m0.calls[0].collateral &&
               m0.calls[0].Collateralization().AtMost(Left(m0.calls[0], t).Collateralization())
    requires m.calls == CoverDebt(m0, t.gives, t.covers).calls
    requires m.bids == m0.bids && m.feed == m0.feed && m.settled == m0.settled
    ensures BidsChecked(m0) ==> MarginOk(m)
  {
    hide Price.Less, Down, Scale, Resting, OffersOk;
    if BidsChecked(m0) {
      var feed := m.feed.value;
      SqueezeFacts(feed);
      forall i | 0 <= i < |m.calls| && Callable(m.calls[i], feed)
        ensures BidsBelow(m, SqueezePrice(feed)) && CoveredAt(m.calls[i], SqueezePrice(feed))
      {
        CoverDebtMembers(m0, t.gives, t.covers, m.calls[i]);
        if m.calls[i] in m0.calls[1..] {
          var k :| 0 <= k < |m0.calls[1..]| && m0.calls[1..][k] == m.calls[i];
          assert m0.calls[k + 1] == m.calls[i];
        } else {
          CallableIsDownwardClosed(m0.calls[0], m.calls[i], feed);
          CoveredIsUpwardClosed(m0.calls[0], m.calls[i], SqueezePrice(feed));
        }
      }
    }
  }

  /** What is left of the cap buys no collateral. */
  predicate CapUsedUp(m: Market, par: Params, cap: nat) {
    || m.forceSettled >= cap
    || (&& m.feed.Some? && m.feed.value.Valid() && par.settleOffset < HUNDRED_PERCENT &&
        FillPrice(m.feed.value, par).base > 0
        && Down(cap - m.forceSettled, FillPrice(m.feed.value, par)) == 0)
  }

  /**
   One step of a block's force settlements: the first order is refunded if the asset is settled or has no price, or if
   the order is empty; otherwise, if it is due and the cap is not reached, it is matched once.
   */
  predicate DueStep(m: Market, n: Market, par: Params, now: nat, cap: nat) {
    && m.settles != []
    && if m.settled.Some? then n == CancelFirst(m)
       else
         && m.settles[0].date <= now
         && if m.feed.None? || par.settleOffset >= HUNDRED_PERCENT then n == CancelFirst(m)
            else
              && m.forceSettled < cap
              && if m.settles[0].balance == 0 then n == CancelFirst(m)
                 else
                   && m.feed.value.Valid() && m.calls != [] && m.coll.rule.Valid() && n.forceSettled >= m.forceSettled
                   && SettleStep(m, par, cap - m.forceSettled, n.(forceSettled := m.forceSettled),
                                 n.forceSettled - m.forceSettled, |n.settles| < |m.settles|)
  }

  ghost predicate DueStepFrom(run: seq<Market>, i: nat, par: Params, now: nat, cap: nat)
    requires i + 1 < |run|
  {
    DueStep(run[i], run[i + 1], par, now, cap)
  }

  /** A run of such steps that ends in `m`. */
  ghost predicate DueRun(run: seq<Market>, m: Market, par: Params, now: nat, cap: nat) {
    run != [] && run[|run| - 1] == m && forall i | 0 <= i < |run| - 1 :: DueStepFrom(run, i, par, now, cap)
  }

  lemma DueRunAppend(run: seq<Market>, m: Market, n: Market, par: Params, now: nat, cap: nat)
    requires DueRun(run, m, par, now, cap) && DueStep(m, n, par, now, cap)
    ensures DueRun(run + [n], n, par, now, cap) && (run + [n])[0] == run[0]
  {
    hide DueStep;
    var t := run + [n];
    forall i | 0 <= i < |t| - 1
      ensures DueStepFrom(t, i, par, now, cap)
    {
      if i < |run| - 1 {
        assert DueStepFrom(run, i, par, now, cap);
      }
    }
  }

  /** Settle the first order until it is gone, the cap is reached or nothing more can be settled. */
  method SettleFirst(m0: Market, par: Params, p: Price, now: nat, cap: nat, ghost run0: seq<Market>)
      returns (m: Market, stopped: bool, status: Status, ghost run: seq<Market>)
    requires Inv(m0, par) && m0.settled.None? && m0.feed.Some? && m0.settles != [] && m0.settles[0].date <= now
    requires par.settleOffset < HUNDRED_PERCENT && m0.forceSettled < cap
    requires m0.feed.value.Valid() && p == FillPrice(m0.feed.value, par)
    requires DueRun(run0, m0, par, now, cap)
    ensures !status.Stuck? && (BidsChecked(m0) ==> status.Done?)
    ensures status.Done? ==>
              Inv(m, par) && m.supply + m.forceSettled == m0.supply + m0.forceSettled && m.forceSettled <= cap
    ensures status.Done? ==>
      m == m0.(settles := m.settles, calls := m.calls, debt := m.debt, coll := m.coll, supply := m.supply,
               forceSettled := m.forceSettled)
    ensures status.Done? && stopped ==> |m.settles| == |m0.settles| && CapUsedUp(m, par, cap)
    ensures status.Done? && |m.settles| == |m0.settles| ==> stopped || m.forceSettled == cap
    ensures status.Done? ==> |m.settles| <= |m0.settles|
    ensures status.Done? ==> DueRun(run, m, par, now, cap) && run[0] == run0[0]
  {
    hide Price.Less, Down, Up, Scale, Shape, Conserved, Phase, MarginOk, Inv, DueRun, SettleStep, CapUsedUp;
    m, stopped, status, run := m0, false, Done, run0;
    var removed := false;
    FrontFacts(m0, par);
    DueRunStart(run0, m0, par, now, cap);
    while m.forceSettled < cap && !removed && !stopped
      invariant status.Done? && Inv(m, par) && m.forceSettled <= cap
      invariant m == m0.(settles := m.settles, calls := m.calls, debt := m.debt, coll := m.coll, supply := m.supply,
                         forceSettled := m.forceSettled)
      invariant m.supply + m.forceSettled == m0.supply + m0.forceSettled
      invariant if removed then |m.settles| + 1 == |m0.settles|
                else |m.settles| == |m0.settles| && m.settles[0].date == m0.settles[0].date
      invariant stopped ==> !removed && CapUsedUp(m, par, cap)
      invariant run != [] && run[0] == run0[0] && DueRun(run, m, par, now, cap)
      decreases !removed && !stopped, cap - m.forceSettled
    {
      if m.settles[0].balance == 0 {
        CancelFirstKeeps(m, par);
        DueRunAppend(run, m, CancelFirst(m), par, now, cap);
        m, removed := CancelFirst(m), true;
        run := run + [m];
        break;
      }
      ghost var before := m;
      var n, settled;
      n, settled, removed, status := MatchFirst(m, par, p, cap - m.forceSettled);
      if !status.Done? {
        return;
      }
      stopped := settled == 0 && !removed;
      InvIgnoresVolume(n, par, n.forceSettled + settled);
      m := n.(forceSettled := n.forceSettled + settled);
      assert m.(forceSettled := before.forceSettled) == n;
      assert DueStep(before, m, par, now, cap);
      DueRunAppend(run, before, m, par, now, cap);
      run := run + [m];
      if stopped {
        NothingFits(m, par, cap);
      }
    }
  }

  lemma NothingFits(m: Market, par: Params, cap: nat)
    requires m.feed.Some? && m.feed.value.Valid() && par.settleOffset < HUNDRED_PERCENT && m.forceSettled < cap
    requires FillPrice(m.feed.value, par).base > 0 ==> Down(cap - m.forceSettled, FillPrice(m.feed.value, par)) == 0
    ensures CapUsedUp(m, par, cap)
  {
    hide Down;
    FillPriceFacts(m.feed.value, par);
  }

  lemma DueRunStart(run: seq<Market>, m: Market, par: Params, now: nat, cap: nat)
    requires DueRun(run, m, par, now, cap)
    ensures run != []
  {
  }

  lemma FrontFacts(m: Market, par: Params)
    requires Inv(m, par)
    ensures m.feed.Some? ==> m.feed.value.Valid()
  {
  }

  lemma InvIgnoresVolume(m: Market, par: Params, volume: nat)
    requires Inv(m, par)
    ensures Inv(m.(forceSettled := volume), par)
  {
  }

  // ----- one block's force settlements of all assets

  /** An asset on its way from `m0` to `m`: a run of settlement steps within its cap, its other fields untouched. */
  ghost predicate Settling(m0: Market, m: Market, par: Params, now: nat, run: seq<Market>) {
    var cap := Cap(par.settleVolume, m0.supply, m0.forceSettled);
    && Inv(m, par) && DueRun(run, m, par, now, cap) && run[0] == m0
    && m == m0.(settles := m.settles, calls := m.calls, debt := m.debt, coll := m.coll, supply := m.supply,
                forceSettled := m.forceSettled)
    && m.supply + m.forceSettled == m0.supply + m0.forceSettled
    && m.forceSettled <= Max(m0.forceSettled, cap)
    && |m.settles| <= |m0.settles|
  }

  /** No order of the asset is left that is due, unless what is left of the cap is worth nothing. */
  predicate NothingDue(m0: Market, m: Market, par: Params, now: nat) {
    || m.settles == []
    || (m.settled.None? && m.settles[0].date > now)
    || (&& m.settled.None? && m.feed.Some? && par.settleOffset < HUNDRED_PERCENT
        && CapUsedUp(m, par, Cap(par.settleVolume, m0.supply, m0.forceSettled)))
  }

  /** The asset is finished for this block although an order is left: nothing more can be settled. */
  predicate Finished(m0: Market, m: Market, par: Params) {
    && m.settles != [] && m.settled.None? && m.feed.Some? && par.settleOffset < HUNDRED_PERCENT
    && CapUsedUp(m, par, Cap(par.settleVolume, m0.supply, m0.forceSettled))
  }

  /** What one pass through the loop keeps from one order to the next of the same asset. */
  datatype Cached = Cached(cap: Option<nat>, price: Option<Price>)

  ghost predicate CacheOk(c: Cached, m0: Market, par: Params) {
    && (c.cap.Some? ==> c.cap.value == Cap(par.settleVolume, m0.supply, m0.forceSettled))
    && (c.price.Some? ==> m0.feed.Some? && m0.feed.value.Valid() && par.settleOffset < HUNDRED_PERCENT &&
                          c.price.value == FillPrice(m0.feed.value, par))
  }

  /** One pass with the first order of an asset: consume it, match it as far as possible, or leave the asset. */
  method VisitAsset(ghost m0: Market, m1: Market, par: Params, now: nat, finished0: bool, cache0: Cached,
                    ghost run0: seq<Market>)
      returns (m: Market, finished: bool, leave: bool, cache: Cached, status: Status, ghost run: seq<Market>)
    requires Settling(m0, m1, par, now, run0) && m1.settles != [] && CacheOk(cache0, m0, par)
    requires finished0 ==> Finished(m0, m1, par)
    ensures !status.Stuck? && (BidsChecked(m0) ==> status.Done?)
    ensures status.Done? ==> Settling(m0, m, par, now, run) && CacheOk(cache, m0, par)
    ensures status.Done? && leave ==> m == m1 && NothingDue(m0, m, par, now)
    ensures status.Done? && !leave ==>
              && |m.settles| <= |m1.settles|
              && (|m.settles| == |m1.settles| ==>
                    || (finished && !finished0)
                    || (m1.forceSettled < Cap(par.settleVolume, m0.supply, m0.forceSettled) <= m.forceSettled &&
                        finished == finished0))
    ensures status.Done? && finished ==> Finished(m0, m, par)
  {
    hide Price.Less, Down, Up, Scale, Inv, Shape, Conserved, Phase, MarginOk, Cap, SettleStep, DueRun;
    m, finished, leave, cache, status, run := m1, finished0, false, cache0, Done, run0;
    ParamsInRange(m1, par);
    FrontFacts(m1, par);
    CapIsConstant(par.settleVolume, m1.supply, m1.forceSettled, m0.supply, m0.forceSettled);
    ghost var capNow := Cap(par.settleVolume, m0.supply, m0.forceSettled);
    if m.settled.Some? {
      CancelFirstKeeps(m, par);
      DueRunAppend(run, m, CancelFirst(m), par, now, capNow);
      m := CancelFirst(m);
      run := run + [m];
      return;
    }
    if m.settles[0].date > now {
      leave := true;
      return;
    }
    if m.feed.None? || par.settleOffset == HUNDRED_PERCENT {
      CancelFirstKeeps(m, par);
      DueRunAppend(run, m, CancelFirst(m), par, now, capNow);
      m := CancelFirst(m);
      run := run + [m];
      return;
    }
    if cache.cap.None? {
      cache := cache.(cap := Some(Cap(par.settleVolume, m.supply, m.forceSettled)));
    }
    if m.forceSettled >= cache.cap.value || finished {
      leave := true;
      return;
    }
    if cache.price.None? {
      cache := cache.(price := Some(FillPrice(m.feed.value, par)));
    }
    m, finished, status, run := SettleFirst(m, par, cache.price.value, now, cache.cap.value, run);
  }

  /** The first asset from the `k`-th on that has settle orders; the number of assets if there is none. */
  function NextWithOrders(ms: seq<Market>, k: nat): (i: nat)
    requires k <= |ms|
    ensures k <= i <= |ms| && (i < |ms| ==> ms[i].settles != [])
    ensures forall j | k <= j < i :: ms[j].settles == []
    decreases |ms| - k
  {
    if k == |ms| || ms[k].settles != [] then k else NextWithOrders(ms, k + 1)
  }

  ghost predicate AllInv(ms: seq<Market>, pars: seq<Params>) {
    |ms| == |pars| && forall k | 0 <= k < |ms| :: Inv(ms[k], pars[k])
  }

  /** Every asset is on its way by itself: no asset's steps touch another asset's market. */
  ghost predicate AllSettling(ms0: seq<Market>, ms: seq<Market>, pars: seq<Params>, now: nat, runs: seq<seq<Market>>) {
    && |ms| == |runs| == |ms0| == |pars|
    && forall k | 0 <= k < |ms| :: Settling(ms0[k], ms[k], pars[k], now, runs[k])
  }

  /**
   One block's force settlements at time `now`, over all assets.  The loop terminates: a pass consumes an order, uses up
   the cap, finishes the asset or moves to the next one.  Each asset makes its own run of steps within its own cap,
   which is the same number whenever it is computed because supply plus volume is constant; a due order is left only
   when the cap is used up.  `runs` are the states of each asset in between.
   */
  method SettleAllDue(ms0: seq<Market>, pars: seq<Params>, now: nat)
      returns (ms: seq<Market>, status: Status, ghost runs: seq<seq<Market>>)
    requires AllInv(ms0, pars)
    ensures !status.Stuck? && ((forall k | 0 <= k < |ms0| :: BidsChecked(ms0[k])) ==> status.Done?)
    ensures status.Done? ==> AllSettling(ms0, ms, pars, now, runs)
    ensures status.Done? ==> forall k | 0 <= k < |ms0| :: NothingDue(ms0[k], ms[k], pars[k], now)
  {
    hide Settling, CapUsedUp, Inv, CacheOk, BidsChecked, Cap;
    ms, status, runs := ms0, Done, seq(|ms0|, k requires 0 <= k < |ms0| => [ms0[k]]);
    forall k | 0 <= k < |ms0|
      ensures Settling(ms0[k], ms[k], pars[k], now, runs[k])
    {
      SettlingStarts(ms0[k], pars[k], now);
    }
    var current := 0;
    var finished := false;
    var cache := Cached(None, None);
    CacheStarts(ms0, pars, 0);
    while true
      invariant status.Done? && current <= |ms| && AllSettling(ms0, ms, pars, now, runs)
      invariant forall k | 0 <= k < current :: NothingDue(ms0[k], ms[k], pars[k], now)
      invariant forall k | current < k < |ms| :: ms[k] == ms0[k]
      invariant current < |ms| ==> CacheOk(cache, ms0[current], pars[current])
      invariant finished ==>
                  current < |ms| && ms[current].settles != [] && Finished(ms0[current], ms[current], pars[current])
      decreases |ms| - current, if current < |ms| then |ms[current].settles| else 0, !finished,
                current < |ms| && ms[current].forceSettled <
                    Cap(pars[current].settleVolume, ms0[current].supply, ms0[current].forceSettled)
    {
      var k := NextWithOrders(ms, current);
      if k > current {
        // the current asset has no order left
        current, cache := k, Cached(None, None);
        CacheStarts(ms0, pars, k);
      }
      if k == |ms| {
        break;
      }
      var m, leave;
      ghost var run;
      m, finished, leave, cache, status, run := VisitAsset(ms0[k], ms[k], pars[k], now, finished, cache, runs[k]);
      if !status.Done? {
        return;
      }
      ms, runs := ms[k := m], runs[k := run];
      if leave {
        current, finished, cache := k + 1, false, Cached(None, None);
        CacheStarts(ms0, pars, k + 1);
      }
    }
  }

  lemma SettlingStarts(m: Market, par: Params, now: nat)
    requires Inv(m, par)
    ensures Settling(m, m, par, now, [m])
  {
    hide Inv;
  }

  lemma CacheStarts(ms: seq<Market>, pars: seq<Params>, k: nat)
    requires |ms| == |pars|
    ensures k < |ms| ==> CacheOk(Cached(None, None), ms[k], pars[k])
  {
  }

  /** One block's force settlements when there is one asset. */
  method SettleDueOrders(m0: Market, par: Params, now: nat) returns (m: Market, status: Status, ghost run: seq<Market>)
    requires Inv(m0, par)
    ensures !status.Stuck? && (BidsChecked(m0) ==> status.Done?)
    ensures status.Done? ==> Settling(m0, m, par, now, run) && NothingDue(m0, m, par, now)
  {
    hide Settling, NothingDue, Inv, BidsChecked;
    m, run := m0, [m0];
    var ms;
    ghost var runs;
    ms, status, runs := SettleAllDue([m0], [par], now);
    if status.Done? {
      m, run := ms[0], runs[0];
    }
  }

  lemma ParamsInRange(m: Market, par: Params)
    requires Inv(m, par)
    ensures par.settleOffset <= HUNDRED_PERCENT
  {
  }

  lemma CapIsConstant(percent: nat, supply: nat, settled: nat, supply0: nat, settled0: nat)
    requires supply + settled == supply0 + settled0
    ensures Cap(percent, supply, settled) == Cap(percent, supply0, settled0)
  {
  }
}
