/**
 The state of one market-issued asset and its backing asset: the two sides of their limit order book, debt
 positions, force-settlement orders, collateral bids, the two ledgers, the supply and the settlement fund
 (libraries/chain/include/graphene/chain/market_object.hpp, libraries/chain/db_market.cpp).
 */
module Markets {
  import opened Prices
  import opened PriceScaling
  import PriceAccuracy
  import opened Collections
  import opened Ledgers
  import opened LimitMatching
  import opened MarginCall

  datatype SettleOrder = SettleOrder(id: nat, owner: nat, balance: nat, date: nat)

  /** A bid of extra collateral for taking over debt of a settled asset. */
  datatype Offer = Offer(id: nat, bidder: nat, collateral: nat, debt: nat)

  /** Constants of the asset pair: `total` is the supply of the backing asset. */
  datatype Params = Params(maxSupply: nat, total: nat, issuer: nat, settleOffset: nat, settleVolume: nat) {
    predicate Valid() {
      maxSupply <= MAX_SHARE_SUPPLY && total <= MAX_SHARE_SUPPLY &&
      settleOffset <= HUNDRED_PERCENT && settleVolume <= HUNDRED_PERCENT
    }
  }

  /**
   `bids` sell the market-issued asset for collateral, `asks` sell collateral for it.  After a global settlement
   `settled` is the settlement price: supply then over fund then.  `rough` is bookkeeping: since the last change of feed
   a bid has become a position that a rounded check accepted although it was at or below maintenance.
   */
  datatype Market = Market(
    bids: seq<Limit>, asks: seq<Limit>, calls: seq<CallOrder>, settles: seq<SettleOrder>, offers: seq<Offer>,
    debt: Ledger, coll: Ledger, supply: nat, feed: Option<Feed>, settled: Option<Price>, fund: nat,
    forceSettled: nat, nextId: nat, rough: bool)

  function CallKey(c: CallOrder): Price { c.Collateralization() }
  function CallId(c: CallOrder): nat { c.id }
  function DebtOf(c: CallOrder): nat { c.debt }
  function CollateralOf(c: CallOrder): nat { c.collateral }
  function OfferKey(o: Offer): Price { Price(o.debt, o.collateral) }
  function OfferId(o: Offer): nat { o.id }
  function OfferCollateral(o: Offer): nat { o.collateral }
  function SettleBalance(s: SettleOrder): nat { s.balance }

  /** Where every unit of the market-issued asset is. */
  ghost function DebtHeld(m: Market): nat {
    m.debt.Total() + Sum(m.bids, ForSale) + Sum(m.settles, SettleBalance)
  }

  /** Where every unit of the backing asset is. */
  ghost function CollHeld(m: Market): nat {
    m.coll.Total() + Sum(m.asks, ForSale) + Sum(m.calls, CollateralOf) + Sum(m.offers, OfferCollateral) + m.fund
  }

  predicate Uncrossed(m: Market) {
    m.bids == [] || m.asks == [] || !Crosses(m.bids[0].price, m.asks[0].price)
  }

  predicate CallsOk(calls: seq<CallOrder>) {
    Sorted(calls, CallKey) && forall i | 0 <= i < |calls| :: calls[i].Valid()
  }

  predicate OffersOk(offers: seq<Offer>) {
    Sorted(offers, OfferKey) && forall i | 0 <= i < |offers| :: offers[i].collateral > 0 && offers[i].debt > 0
  }

  /** The maximum short squeeze price, in debt / collateral. */
  function SqueezePrice(feed: Feed): Price
    requires feed.Valid()
  {
    Scale(feed.price.Inv(), COLLATERAL_RATIO_DENOM, feed.mssr)
  }

  /** The position's collateral buys back its debt at price `p` (debt / collateral) with something to spare. */
  predicate CoveredAt(c: CallOrder, p: Price) {
    Price(c.debt, c.collateral).Less(p)
  }

  predicate BidsBelow(m: Market, p: Price) {
    m.bids == [] || m.bids[0].price.Less(p)
  }

  /** No callable position coexists with a bid it could be matched with, and every callable one is covered. */
  predicate MarginOk(m: Market)
    requires m.feed.Some? ==> m.feed.value.Valid()
  {
    m.feed.Some? && m.settled.None? ==>
      forall i | 0 <= i < |m.calls| && Callable(m.calls[i], m.feed.value) ::
        BidsBelow(m, SqueezePrice(m.feed.value)) && CoveredAt(m.calls[i], SqueezePrice(m.feed.value))
  }

  /** The maintenance collateralization is representable; a property of the feed alone. */
  predicate MaintenanceIsExact(feed: Feed)
    requires feed.Valid()
  {
    ScalesExactly(feed.price, feed.mcr, COLLATERAL_RATIO_DENOM)
  }

  predicate Shape(m: Market, par: Params) {
    && par.Valid()
    && Resting(m.bids) && Resting(m.asks) && Uncrossed(m)
    && CallsOk(m.calls) && OffersOk(m.offers)
    && m.debt.rule.Valid() && m.coll.rule.Valid()
    && (m.feed.Some? ==> m.feed.value.Valid())
    && m.supply <= par.maxSupply
  }

  ghost predicate Conserved(m: Market, par: Params) {
    DebtHeld(m) == m.supply && CollHeld(m) == par.total
  }

  /** Open: the supply is the debt.  Settled: no positions, and the fund covers the supply at the settlement price. */
  predicate Phase(m: Market) {
    if m.settled.None? then
      Sum(m.calls, DebtOf) == m.supply && m.fund == 0 && m.offers == []
    else
      var p := m.settled.value;
      m.calls == [] && p.base > 0 && m.fund * p.base >= m.supply * p.quote && (m.supply == 0 ==> m.fund == 0)
  }

  /** Since the last change of feed every bid that has become a position was checked to be above maintenance. */
  predicate BidsChecked(m: Market) { !m.rough }

  /** What holds between any two operations. */
  ghost predicate Inv(m: Market, par: Params) {
    && Shape(m, par) && Conserved(m, par) && Phase(m)
    && (BidsChecked(m) ==> MarginOk(m))
  }

  // ----- consequences of the order of the index views

  lemma FrontIsBest(s: seq<Limit>, i: nat)
    requires Resting(s) && i < |s|
    ensures s[i].price.AtMost(s[0].price)
  {
  }

  lemma NotLessSelf(p: Price)
    ensures !p.Less(p)
  {
  }

  /** Uncrossed fronts mean that no two resting orders cross. */
  lemma NoTwoOrdersCross(m: Market, par: Params, i: nat, j: nat)
    requires Shape(m, par) && i < |m.bids| && j < |m.asks|
    ensures !Crosses(m.bids[i].price, m.asks[j].price)
  {
    hide Price.Less, Down;
    FrontIsBest(m.bids, i);
    FrontIsBest(m.asks, j);
    var b, a := m.bids[0].price, m.asks[0].price;
    // a < ~b, asks[j] <= a and ~b <= ~bids[i]
    InvOrder(m.bids[i].price, b);
    LessTransitive(m.asks[j].price, a, b.Inv());
    LessTransitive(m.asks[j].price, b.Inv(), m.bids[i].price.Inv());
  }

  lemma LeastIsFirst(calls: seq<CallOrder>, i: nat)
    requires CallsOk(calls) && i < |calls|
    ensures calls[0].Collateralization().AtMost(calls[i].Collateralization())
  {
  }

  /** Where a position goes: behind all with a lower ratio of collateral to debt, or the same and no higher id. */
  lemma PositionPlace(calls: seq<CallOrder>, c: CallOrder) returns (k: nat)
    ensures k <= |calls| && Insert(calls, c, CallKey, CallId) == calls[..k] + [c] + calls[k..]
    ensures k < |calls| ==>
              var x := calls[k];
              c.collateral * x.debt < x.collateral * c.debt ||
              (c.collateral * x.debt == x.collateral * c.debt && c.id < x.id)
    ensures forall i | 0 <= i < k ::
              var x := calls[i];
              x.collateral * c.debt <= c.collateral * x.debt &&
              (x.collateral * c.debt == c.collateral * x.debt ==> x.id <= c.id)
  {
    k := InsertPlace(calls, c, CallKey, CallId);
  }

  /**
   Where a collateral bid goes: behind all that ask for less debt per collateral, or for the same with no higher id.
   */
  lemma OfferPlace(offers: seq<Offer>, o: Offer) returns (k: nat)
    ensures k <= |offers| && Insert(offers, o, OfferKey, OfferId) == offers[..k] + [o] + offers[k..]
    ensures k < |offers| ==>
              var x := offers[k];
              o.debt * x.collateral < x.debt * o.collateral ||
              (o.debt * x.collateral == x.debt * o.collateral && o.id < x.id)
    ensures forall i | 0 <= i < k ::
              var x := offers[i];
              x.debt * o.collateral <= o.debt * x.collateral &&
              (x.debt * o.collateral == o.debt * x.collateral ==> x.id <= o.id)
  {
    k := InsertPlace(offers, o, OfferKey, OfferId);
  }

  lemma CallableIsDownwardClosed(a: CallOrder, b: CallOrder, feed: Feed)
    requires feed.Valid() && a.Valid() && b.Valid()
    requires a.Collateralization().AtMost(b.Collateralization()) && Callable(b, feed)
    ensures Callable(a, feed)
  {
    hide Price.Less, Scale;
    ScaleFacts(feed.price, feed.mcr, COLLATERAL_RATIO_DENOM);
    AtMostTransitive(a.Collateralization(), b.Collateralization(), feed.MaintenanceCollateralization());
  }

  lemma CoveredIsUpwardClosed(a: CallOrder, b: CallOrder, p: Price)
    requires a.Valid() && b.Valid() && p.Valid()
    requires a.Collateralization().AtMost(b.Collateralization()) && CoveredAt(a, p)
    ensures CoveredAt(b, p)
  {
  }

  /** The state of the least collateralized position decides for all. */
  lemma MarginOkFromFirst(m: Market, par: Params)
    requires Shape(m, par)
    requires m.feed.Some? && m.settled.None? && m.calls != [] && Callable(m.calls[0], m.feed.value) ==>
               BidsBelow(m, SqueezePrice(m.feed.value)) && CoveredAt(m.calls[0], SqueezePrice(m.feed.value))
    ensures MarginOk(m)
  {
    hide Price.Less, Scale, Down;
    if m.feed.Some? && m.settled.None? {
      var feed := m.feed.value;
      SqueezeFacts(feed);
      forall i | 0 <= i < |m.calls| && Callable(m.calls[i], feed)
        ensures BidsBelow(m, SqueezePrice(feed)) && CoveredAt(m.calls[i], SqueezePrice(feed))
      {
        LeastIsFirst(m.calls, i);
        CallableIsDownwardClosed(m.calls[0], m.calls[i], feed);
        CoveredIsUpwardClosed(m.calls[0], m.calls[i], SqueezePrice(feed));
      }
    }
  }

  lemma SqueezeFacts(feed: Feed)
    requires feed.Valid()
    ensures SqueezePrice(feed).Valid()
    ensures SqueezePrice(feed).base <= MAX_SHARE_SUPPLY && SqueezePrice(feed).quote <= MAX_SHARE_SUPPLY
    ensures SqueezePrice(feed).AtMost(feed.price.Inv())
  {
    ScaleFacts(feed.price.Inv(), COLLATERAL_RATIO_DENOM, feed.mssr);
  }

  /**
   The squeeze price is the feed price over the squeeze ratio, up to one part in 2^17, and exactly if representable.
   */
  lemma SqueezeIsNear(feed: Feed)
    requires feed.Valid() && PriceAccuracy.InRange(feed.price.Inv(), COLLATERAL_RATIO_DENOM, feed.mssr)
    ensures var s := SqueezePrice(feed);
            var exact := (feed.price.quote * COLLATERAL_RATIO_DENOM) * s.quote;
            var scaled := s.base * (feed.price.base * feed.mssr);
            && exact * 131_071 <= scaled * 131_072 <= exact * 131_073
            && (ScalesExactly(feed.price.Inv(), COLLATERAL_RATIO_DENOM, feed.mssr) ==> scaled == exact)
  {
    hide Scale, ScalesExactly;
    PriceAccuracy.ScaleIsNear(feed.price.Inv(), COLLATERAL_RATIO_DENOM, feed.mssr);
    ScaleFacts(feed.price.Inv(), COLLATERAL_RATIO_DENOM, feed.mssr);
  }

  /** Positions are bounded by the supply of the two assets. */
  lemma CallBounds(m: Market, par: Params, i: nat)
    requires Conserved(m, par) && i < |m.calls|
    ensures m.calls[i].collateral <= par.total
    ensures m.settled.None? && Phase(m) ==> m.calls[i].debt <= m.supply
  {
    SumBounds(m.calls, i, CollateralOf);
    SumBounds(m.calls, i, DebtOf);
  }

  // ----- covering debt

  /** `fill_call_order` on the least collateralized position. */
  function CoverDebt(m: Market, pays: nat, receives: nat): Market
    requires m.calls != [] && pays <= m.calls[0].collateral && receives <= m.calls[0].debt && receives <= m.supply
  {
    var c := m.calls[0];
    var left := c.(collateral := c.collateral - pays, debt := c.debt - receives);
    if left.debt == 0 then
      m.(calls := m.calls[1..], supply := m.supply - receives, coll := m.coll.Credit(c.borrower, left.collateral))
    else
      m.(calls := Insert(m.calls[1..], left, CallKey, CallId), supply := m.supply - receives)
  }

  lemma AddPosition(calls: seq<CallOrder>, c: CallOrder)
    requires CallsOk(calls) && c.Valid()
    ensures CallsOk(Insert(calls, c, CallKey, CallId))
    ensures Sum(Insert(calls, c, CallKey, CallId), DebtOf) == Sum(calls, DebtOf) + c.debt
    ensures Sum(Insert(calls, c, CallKey, CallId), CollateralOf) == Sum(calls, CollateralOf) + c.collateral
  {
    hide Price.Less;
    InsertKeepsSorted(calls, c, CallKey, CallId);
    SumInsert(calls, c, CallKey, CallId, DebtOf);
    SumInsert(calls, c, CallKey, CallId, CollateralOf);
    var t := Insert(calls, c, CallKey, CallId);
    forall i | 0 <= i < |t| ensures t[i].Valid() {
      MemberAfterInsert(calls, c, CallKey, CallId, t[i]);
      assert t[i] in t;
    }
  }

  lemma WithoutFirst(calls: seq<CallOrder>)
    requires CallsOk(calls) && calls != []
    ensures CallsOk(calls[1..]) && calls[0].Valid()
    ensures Sum(calls, DebtOf) == calls[0].debt + Sum(calls[1..], DebtOf)
    ensures Sum(calls, CollateralOf) == calls[0].collateral + Sum(calls[1..], CollateralOf)
  {
    hide Price.Less;
  }

  lemma CoverDebtKeepsCalls(m: Market, pays: nat, receives: nat)
    requires m.calls != [] && pays <= m.calls[0].collateral && receives <= m.calls[0].debt && receives <= m.supply
    requires CallsOk(m.calls)
    requires receives < m.calls[0].debt ==> pays < m.calls[0].collateral
    ensures var n := CoverDebt(m, pays, receives);
            && n == m.(calls := n.calls, supply := m.supply - receives, coll := n.coll)
            && CallsOk(n.calls)
            && Sum(n.calls, DebtOf) == Sum(m.calls, DebtOf) - receives
            && n.coll.Total() + Sum(n.calls, CollateralOf) == m.coll.Total() + Sum(m.calls, CollateralOf) - pays
            && n.coll.rule == m.coll.rule
            && (receives == m.calls[0].debt ==> n.calls == m.calls[1..])
  {
    hide CallsOk, Sum, Insert;
    var c := m.calls[0];
    var left := c.(collateral := c.collateral - pays, debt := c.debt - receives);
    WithoutFirst(m.calls);
    if left.debt == 0 {
      m.coll.CreditTotal(c.borrower, left.collateral);
    } else {
      AddPosition(m.calls[1..], left);
    }
  }

  /**
   A covered position is closed, and what it does not pay returned to its borrower; or it is what is left of it, with
   its place among the others, and no balance changes.
   */
  lemma CoverDebtMoves(m: Market, pays: nat, receives: nat)
    requires m.calls != [] && pays <= m.calls[0].collateral && receives <= m.calls[0].debt && receives <= m.supply
    ensures var n, c := CoverDebt(m, pays, receives), m.calls[0];
            && n.supply + receives == m.supply
            && (receives == c.debt ==>
                  n.calls == m.calls[1..] && Credited(m.coll, n.coll, c.borrower, c.collateral - pays))
            && (receives < c.debt ==>
                  && n.coll == m.coll
                  && multiset(n.calls) ==
                       multiset(m.calls[1..]) +
                       multiset{CallOrder(c.id, c.borrower, c.collateral - pays, c.debt - receives, c.target)})
  {
    hide Insert;
    var c := m.calls[0];
    var left := CallOrder(c.id, c.borrower, c.collateral - pays, c.debt - receives, c.target);
    if left.debt == 0 {
      m.coll.CreditPays(c.borrower, left.collateral);
    } else {
      InsertKeepsElements(m.calls[1..], left, CallKey, CallId);
    }
  }

  /** Every position left after covering is an old one or the one covered. */
  lemma CoverDebtMembers(m: Market, pays: nat, receives: nat, x: CallOrder)
    requires m.calls != [] && pays <= m.calls[0].collateral && receives <= m.calls[0].debt && receives <= m.supply
    requires x in CoverDebt(m, pays, receives).calls
    ensures x in m.calls[1..] ||
            (receives < m.calls[0].debt &&
             x == m.calls[0].(collateral := m.calls[0].collateral - pays, debt := m.calls[0].debt - receives))
  {
    var c := m.calls[0];
    var left := c.(collateral := c.collateral - pays, debt := c.debt - receives);
    if left.debt != 0 {
      MemberAfterInsert(m.calls[1..], left, CallKey, CallId, x);
    }
  }
}
