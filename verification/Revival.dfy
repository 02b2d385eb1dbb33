/**
 Reviving a settled asset from collateral bids (libraries/chain/db_maint.cpp, `process_bids`;
 libraries/chain/db_market.cpp, `execute_bid`, `_cancel_bids_and_revive_mpa`; `price::call_price` in
 libraries/protocol/asset.cpp).
 */
module Revival {
  import opened Prices
  import opened PriceScaling
  import opened Collections
  import opened Ledgers
  import opened LimitMatching
  import opened MarginCall
  import opened Markets
  import opened Redemption

  // ----- which bids pass

  function Squash(f: Fraction): (r: Fraction)
    requires f.Positive()
    ensures r.Positive() && r.Fits() && (f.Fits() ==> r == f)
    decreases f.num + f.den
  {
    if f.Fits() then f
    else
      var h := Reduce(PriceScaling.Fraction(f.num / 2 + 1, f.den / 2 + 1));
      Squash(h)
  }

  /** `~price::call_price`: debt over collateral, scaled by the maintenance ratio. */
  function CallPrice(debt: nat, collateral: nat, mcr: nat): Price
    requires debt > 0 && collateral > 0 && mcr > 0
  {
    var f := Squash(Reduce(PriceScaling.Fraction(debt * mcr, collateral * COLLATERAL_RATIO_DENOM)));
    Price(f.num, f.den)
  }

  /** The position would be above maintenance. */
  predicate Accepted(debt: nat, collateral: nat, feed: Feed)
    requires debt > 0 && collateral > 0 && feed.Valid()
  {
    CallPrice(debt, collateral, feed.mcr).Less(feed.price.Inv())
  }

  lemma AcceptedInProducts(debt: nat, collateral: nat, feed: Feed)
    requires debt > 0 && collateral > 0 && feed.Valid()
    requires debt * 32000 <= MAX_SHARE_SUPPLY && collateral * 1000 <= MAX_SHARE_SUPPLY
    ensures Accepted(debt, collateral, feed) <==>
              (debt * feed.mcr) * feed.price.base < feed.price.quote * (collateral * COLLATERAL_RATIO_DENOM)
  {
    MulLeq(feed.mcr, 32000, debt);
    var f := Reduce(PriceScaling.Fraction(debt * feed.mcr, collateral * COLLATERAL_RATIO_DENOM));
    ExactAcceptance(f, debt * feed.mcr, collateral * COLLATERAL_RATIO_DENOM, feed.price);
  }

  /** Amounts small enough for every ratio of them to be exact. */
  predicate HasRoom(c: CallOrder) {
    c.debt * 32000 <= MAX_SHARE_SUPPLY && c.collateral * 1000 <= MAX_SHARE_SUPPLY
  }

  /** With amounts and feed small enough to be exact, an accepted position cannot be margin called. */
  lemma AcceptedIsNotCallable(c: CallOrder, feed: Feed)
    requires c.Valid() && feed.Valid() && MaintenanceIsExact(feed) && Accepted(c.debt, c.collateral, feed)
    requires HasRoom(c)
    ensures !Callable(c, feed)
  {
    hide Scale, Accepted, ScalesExactly, Price.Less;
    AcceptedInProducts(c.debt, c.collateral, feed);
    AtMostExactScale(feed.price, feed.mcr, c.collateral, c.debt);
    Swap(feed.mcr, c.debt, feed.price.base);
    Swap(c.collateral, feed.price.quote, COLLATERAL_RATIO_DENOM);
  }

  lemma ExactAcceptance(f: Fraction, num: nat, den: nat, fp: Price)
    requires f.Positive() && num > 0 && den > 0 && fp.Valid()
    requires f.num * den == num * f.den
    ensures f.num * fp.base < fp.quote * f.den <==> num * fp.base < fp.quote * den
  {
    Cancel(f.num * fp.base, fp.quote * f.den, den);
    Cancel(num * fp.base, fp.quote * den, f.den);
    Swap(f.num, fp.base, den);
    Swap(num, fp.base, f.den);
    Swap(fp.quote, f.den, den);
  }

  // ----- how much each bid takes over

  function Wanted(o: Offer, supply: nat): (w: nat)
    ensures w <= o.debt && w <= supply && (w == o.debt || w == supply)
  {
    Min(o.debt, supply)
  }

  /** What the first `k` bids would take over together. */
  function Covered(offers: seq<Offer>, k: nat, supply: nat): nat
    requires k <= |offers|
  {
    if k == 0 then 0 else Covered(offers, k - 1, supply) + Wanted(offers[k - 1], supply)
  }

  /** The position the first pass checks for a bid. */
  function Checked1(o: Offer, supply: nat, price: Price): CallOrder
    requires price.base > 0
  {
    CallOrder(o.id, o.bidder, Down(Wanted(o, supply), price) + o.collateral, Wanted(o, supply), None)
  }

  /**
   The trimmed last bid gets the whole remaining fund for the remaining debt: its position is at least as well
   collateralized as the one that was checked.
   */
  lemma TrimmedIsNoWorse(wanted: nat, extra: nat, toCover: nat, remaining: nat, price: Price)
    requires price.base > 0 && 0 < toCover <= wanted && remaining * price.base >= toCover * price.quote
    ensures Price(Down(wanted, price) + extra, wanted).AtMost(Price(remaining + extra, toCover))
  {
  }

  /** A share of the fund for part of the supply never overdraws it. */
  lemma ShareIsCovered(debt: nat, toCover: nat, remaining: nat, price: Price)
    requires price.base > 0 && debt <= toCover && remaining * price.base >= toCover * price.quote
    ensures Down(debt, price) <= remaining
    ensures (remaining - Down(debt, price)) * price.base >= (toCover - debt) * price.quote
  {
  }

  // ----- processing the bids

  /** `execute_bid`: the bid becomes a debt position. */
  function Position(o: Offer, id: nat, debt: nat, fromFund: nat): CallOrder {
    CallOrder(id, o.bidder, o.collateral + fromFund, debt, None)
  }

  /** The first pass: how many bids, from the best, are accepted before the supply is covered. */
  method FirstPass(offers: seq<Offer>, supply: nat, price: Price, feed: Feed) returns (n: nat)
    requires OffersOk(offers) && price.base > 0 && feed.Valid()
    ensures n <= |offers|
    ensures forall k | 0 <= k < n :: Covered(offers, k, supply) < supply
    ensures forall k | 0 <= k < n :: Accepted1(offers[k], supply, price, feed)
    ensures n < |offers| && Covered(offers, n, supply) < supply ==> !Accepted1(offers[n], supply, price, feed)
  {
    hide Price.Less, Down, Accepted1, OffersOk;
    n := 0;
    var covered := 0;
    while covered < supply && n < |offers|
      invariant n <= |offers| && covered == Covered(offers, n, supply)
      invariant forall k | 0 <= k < n :: Covered(offers, k, supply) < supply
      invariant forall k | 0 <= k < n :: Accepted1(offers[k], supply, price, feed)
    {
      if !Accepted1(offers[n], supply, price, feed) {
        break;
      }
      covered := covered + Wanted(offers[n], supply);
      n := n + 1;
    }
  }

  predicate Accepted1(o: Offer, supply: nat, price: Price, feed: Feed)
    requires price.base > 0 && feed.Valid()
  {
    supply > 0 && o.debt > 0 && o.collateral > 0 &&
    Accepted(Wanted(o, supply), Checked1(o, supply, price).collateral, feed)
  }

  /**
   With amounts small enough to be exact: bid and its share of the fund are above maintenance for its share of the
   debt.
   */
  lemma Accepted1Means(o: Offer, supply: nat, price: Price, feed: Feed)
    requires price.base > 0 && feed.Valid() && supply > 0 && o.debt > 0 && o.collateral > 0
    requires HasRoom(Checked1(o, supply, price))
    ensures var debt := Min(o.debt, supply);
            Accepted1(o, supply, price, feed) <==>
              (debt * feed.mcr) * feed.price.base <
                feed.price.quote * ((Down(debt, price) + o.collateral) * COLLATERAL_RATIO_DENOM)
  {
    hide Down, Accepted;
    AcceptedInProducts(Wanted(o, supply), Checked1(o, supply, price).collateral, feed);
  }

  /** The positions created so far: all debt is taken over, every ratio is at least the one checked. */
  predicate Positions(calls: seq<CallOrder>, offers: seq<Offer>, supply: nat, price: Price)
    requires price.base > 0
  {
    && |calls| <= |offers|
    && forall k | 0 <= k < |calls| ::
         && calls[k].borrower == offers[k].bidder && calls[k].target.None?
         && calls[k].debt > 0 && calls[k].collateral > 0
         && Checked1(offers[k], supply, price).Collateralization().AtMost(calls[k].Collateralization())
  }

  /** What one accepted bid takes over of the remaining debt and fund. */
  method Share(o: Offer, supply: nat, toCover: nat, remaining: nat, price: Price) returns (debt: nat, fromFund: nat)
    requires o.debt > 0 && price.base > 0 && 0 < toCover <= supply && Solvent(toCover, remaining, price)
    ensures debt == Min(Wanted(o, supply), toCover) && 0 < debt && fromFund <= remaining
    ensures Wanted(o, supply) < toCover ==> fromFund == Down(Wanted(o, supply), price)
    ensures Solvent(toCover - debt, remaining - fromFund, price)
    ensures Checked1(o, supply, price).Collateralization().AtMost(Price(o.collateral + fromFund, debt))
  {
    hide Price.Less, Down;
    debt, fromFund := Wanted(o, supply), Down(Wanted(o, supply), price);
    NotLessSelf(Price(fromFund + o.collateral, debt));
    if debt >= toCover {
      TrimmedIsNoWorse(debt, o.collateral, toCover, remaining, price);
      debt, fromFund := toCover, remaining;
    } else {
      ShareIsCovered(debt, toCover, remaining, price);
    }
  }

  /** Every bid but the last gets the debt it wants and that debt's share of the fund; ids are consecutive. */
  predicate Shares(calls: seq<CallOrder>, offers: seq<Offer>, supply: nat, price: Price, firstId: nat)
    requires price.base > 0 && |calls| <= |offers|
  {
    && (forall k | 0 <= k < |calls| :: calls[k].id == firstId + k)
    && forall k | 0 <= k < |calls| && k < |offers| - 1 ::
         calls[k] == Position(offers[k], firstId + k, Wanted(offers[k], supply), Down(Wanted(offers[k], supply), price))
  }

  /**
   The second pass over the accepted bids.  The fund is never overdrawn; fund and debt run out exactly together, at the
   last bid, which gets whatever is left of both.
   */
  method SecondPass(offers: seq<Offer>, supply: nat, fund: nat, price: Price, firstId: nat)
    returns (calls: seq<CallOrder>)
    requires forall k | 0 <= k < |offers| :: offers[k].debt > 0 && offers[k].collateral > 0
    requires price.base > 0 && Solvent(supply, fund, price)
    requires forall k | 0 <= k < |offers| :: Covered(offers, k, supply) < supply
    requires Covered(offers, |offers|, supply) >= supply
    ensures Positions(calls, offers, supply, price) && |calls| == |offers| &&
            Shares(calls, offers, supply, price, firstId)
    ensures Sum(calls, DebtOf) == supply
    ensures Sum(calls, CollateralOf) == fund + Sum(offers, OfferCollateral)
  {
    hide Price.Less, Down, Solvent, Positions, Sum;
    calls := [];
    NoPositions(offers, supply, price);
    var toCover: nat, remaining: nat := supply, fund;
    var k := 0;
    while k < |offers|
      invariant k <= |offers| && |calls| == k && Positions(calls, offers, supply, price)
      invariant Shares(calls, offers, supply, price, firstId)
      invariant toCover == if Covered(offers, k, supply) <= supply then supply - Covered(offers, k, supply) else 0
      invariant Solvent(toCover, remaining, price)
      invariant Sum(calls, DebtOf) + toCover == supply
      invariant Sum(calls, CollateralOf) + remaining + Sum(offers[k..], OfferCollateral) ==
                  fund + Sum(offers, OfferCollateral)
    {
      var o := offers[k];
      var debt, fromFund := Share(o, supply, toCover, remaining, price);
      toCover, remaining := toCover - debt, remaining - fromFund;
      var c := Position(o, firstId + k, debt, fromFund);
      assert k < |offers| - 1 ==> Covered(offers, k + 1, supply) < supply;
      AppendPosition(calls, c, offers, supply, price);
      SumTail(offers, k);
      calls := calls + [c];
      k := k + 1;
    }
    NothingLeft(remaining, price);
    SumTail(offers, k);
    assert toCover == 0 && remaining == 0;
  }

  lemma NoPositions(offers: seq<Offer>, supply: nat, price: Price)
    requires price.base > 0
    ensures Positions([], offers, supply, price)
    ensures Sum<CallOrder>([], DebtOf) == 0 && Sum<CallOrder>([], CollateralOf) == 0
    ensures offers[0..] == offers
  {
  }

  lemma AppendPosition(calls: seq<CallOrder>, c: CallOrder, offers: seq<Offer>, supply: nat, price: Price)
    requires price.base > 0 && Positions(calls, offers, supply, price) && |calls| < |offers|
    requires c.borrower == offers[|calls|].bidder && c.target.None? && c.debt > 0 && c.collateral > 0
    requires Checked1(offers[|calls|], supply, price).Collateralization().AtMost(c.Collateralization())
    ensures Positions(calls + [c], offers, supply, price)
    ensures Sum(calls + [c], DebtOf) == Sum(calls, DebtOf) + c.debt
    ensures Sum(calls + [c], CollateralOf) == Sum(calls, CollateralOf) + c.collateral
  {
    hide Price.Less, Down;
    SumConcat(calls, [c], DebtOf);
    SumConcat(calls, [c], CollateralOf);
  }

  lemma SumTail(offers: seq<Offer>, k: nat)
    requires k <= |offers|
    ensures k < |offers| ==>
              Sum(offers[k..], OfferCollateral) == offers[k].collateral + Sum(offers[k + 1..], OfferCollateral)
    ensures k == |offers| ==> Sum(offers[k..], OfferCollateral) == 0
  {
  }

  lemma NothingLeft(remaining: nat, price: Price)
    ensures Solvent(0, remaining, price) ==> remaining == 0
  {
  }

  // ----- reviving the asset

  lemma {:induction false} CoveredPrefix(offers: seq<Offer>, n: nat, k: nat, supply: nat)
    requires k <= n <= |offers|
    ensures Covered(offers[..n], k, supply) == Covered(offers, k, supply)
  {
    if k > 0 {
      CoveredPrefix(offers, n, k - 1, supply);
    }
  }

  function InsertAll(s: seq<CallOrder>, calls: seq<CallOrder>): seq<CallOrder>
    decreases |calls|
  {
    if calls == [] then s else InsertAll(Insert(s, calls[0], CallKey, CallId), calls[1..])
  }

  lemma {:induction false} InsertAllElements(s: seq<CallOrder>, calls: seq<CallOrder>)
    ensures multiset(InsertAll(s, calls)) == multiset(s) + multiset(calls)
    decreases |calls|
  {
    if calls != [] {
      InsertKeepsElements(s, calls[0], CallKey, CallId);
      InsertAllElements(Insert(s, calls[0], CallKey, CallId), calls[1..]);
      assert calls == [calls[0]] + calls[1..];
    }
  }

  lemma {:induction false} InsertAllKeeps(s: seq<CallOrder>, calls: seq<CallOrder>)
    requires CallsOk(s) && forall i | 0 <= i < |calls| :: calls[i].Valid()
    ensures CallsOk(InsertAll(s, calls))
    ensures Sum(InsertAll(s, calls), DebtOf) == Sum(s, DebtOf) + Sum(calls, DebtOf)
    ensures Sum(InsertAll(s, calls), CollateralOf) == Sum(s, CollateralOf) + Sum(calls, CollateralOf)
    ensures forall x | x in InsertAll(s, calls) :: x in s || x in calls
    decreases |calls|
  {
    hide CallsOk;
    if calls != [] {
      var c := calls[0];
      var t := Insert(s, c, CallKey, CallId);
      AddPosition(s, c);
      forall x | x in t ensures x == c || x in s {
        MemberAfterInsert(s, c, CallKey, CallId, x);
      }
      InsertAllKeeps(t, calls[1..]);
    }
  }

  /** What the ledger is after refunding all of these bids. */
  function OffersRefunded(coll: Ledger, offers: seq<Offer>): Ledger
    decreases |offers|
  {
    if offers == [] then coll else OffersRefunded(coll.Credit(offers[0].bidder, offers[0].collateral), offers[1..])
  }

  /** The collateral of a bid, if it is this bidder's. */
  function BidBy(bidder: nat): Offer -> nat {
    (o: Offer) => if o.bidder == bidder then o.collateral else 0
  }

  /** Every bidder gets back the collateral of its own bids. */
  lemma {:induction false} OffersRefundedTo(coll: Ledger, offers: seq<Offer>, bidder: nat)
    ensures OffersRefunded(coll, offers).Balance(bidder) == coll.Balance(bidder) + Sum(offers, BidBy(bidder))
    decreases |offers|
  {
    if offers != [] {
      coll.CreditPays(offers[0].bidder, offers[0].collateral);
      OffersRefundedTo(coll.Credit(offers[0].bidder, offers[0].collateral), offers[1..], bidder);
    }
  }

  /** `cancel_bid` for each remaining bid. */
  method RefundOffers(offers: seq<Offer>, coll0: Ledger) returns (coll: Ledger)
    ensures coll == OffersRefunded(coll0, offers)
    ensures coll.rule == coll0.rule
    ensures coll.Total() == coll0.Total() + Sum(offers, OfferCollateral)
  {
    coll := coll0;
    var rest := offers;
    while rest != []
      invariant coll.rule == coll0.rule && OffersRefunded(coll, rest) == OffersRefunded(coll0, offers)
      invariant coll.Total() + Sum(rest, OfferCollateral) == coll0.Total() + Sum(offers, OfferCollateral)
      decreases |rest|
    {
      coll.CreditTotal(rest[0].bidder, rest[0].collateral);
      coll := coll.Credit(rest[0].bidder, rest[0].collateral);
      rest := rest[1..];
    }
  }

  /** Every position created from an accepted bid is valid, and not callable if the one that was checked is not. */
  lemma CreatedPositionsAreSafe(calls: seq<CallOrder>, offers: seq<Offer>, m: Market, par: Params, i: nat)
    requires Shape(m, par) && Conserved(m, par) && Phase(m) && m.settled.Some? && m.feed.Some?
    requires offers <= m.offers && i < |calls| && Positions(calls, offers, m.supply, m.settled.value)
    requires Accepted1(offers[i], m.supply, m.settled.value, m.feed.value)
    requires Sum(calls, DebtOf) == m.supply && Sum(calls, CollateralOf) == m.fund + Sum(offers, OfferCollateral)
    requires Sum(offers, OfferCollateral) <= Sum(m.offers, OfferCollateral)
    ensures calls[i].Valid()
    ensures !Callable(Checked1(offers[i], m.supply, m.settled.value), m.feed.value) ==>
              !Callable(calls[i], m.feed.value)
  {
    hide Price.Less, Down, Scale, Accepted;
    SumBounds(calls, i, DebtOf);
    SumBounds(calls, i, CollateralOf);
    SumBounds(m.offers, i, OfferCollateral);
    var price, feed := m.settled.value, m.feed.value;
    var c := Checked1(offers[i], m.supply, price);
    ShareIsCovered(c.debt, m.supply, m.fund, price);
    if Callable(calls[i], feed) {
      CallableIsDownwardClosed(c, calls[i], feed);
    }
  }

  /** Some run of bids from the best is accepted and takes over the whole supply. */
  predicate BidsCover(offers: seq<Offer>, supply: nat, price: Price, feed: Feed)
    requires price.base > 0 && feed.Valid()
  {
    exists n | 0 <= n <= |offers| ::
      Covered(offers, n, supply) >= supply && forall k | 0 <= k < n :: Accepted1(offers[k], supply, price, feed)
  }

  lemma {:induction false} CoveredMonotone(offers: seq<Offer>, k: nat, n: nat, supply: nat)
    requires k <= n <= |offers|
    ensures Covered(offers, k, supply) <= Covered(offers, n, supply)
  {
    if k < n {
      CoveredMonotone(offers, k, n - 1, supply);
    }
  }

  /** The accepted bids became positions and share the fund; the others are refunded; the asset is open again. */
  ghost predicate BidsExecuted(m0: Market, m: Market, created: seq<CallOrder>) {
    && m0.settled.Some? && m0.settled.value.base > 0 && |created| <= |m0.offers|
    && var n, price := |created|, m0.settled.value;
       && Positions(created, m0.offers[..n], m0.supply, price) &&
          Shares(created, m0.offers[..n], m0.supply, price, m0.nextId)
       && Sum(created, DebtOf) == m0.supply
       && Sum(created, CollateralOf) == m0.fund + Sum(m0.offers[..n], OfferCollateral)
       && m == m0.(calls := InsertAll([], created), offers := [], coll := OffersRefunded(m0.coll, m0.offers[n..]),
                   settled := None, fund := 0, nextId := m0.nextId + n, rough := m0.rough || !AboveMaintenance(m0, n))
  }

  /**
   Bid by bid: every accepted bidder alone owes what it asked for, at most the supply, against its own collateral and
   that debt's share of the fund; the last one gets the rest of both.  The other bidders get their collateral back.
   */
  lemma ExecutedMeans(m0: Market, m: Market, created: seq<CallOrder>, k: nat, account: nat)
    requires BidsExecuted(m0, m, created)
    ensures |created| <= |m0.offers| && m0.settled.Some? && m0.settled.value.base > 0
    ensures multiset(m.calls) == multiset(created) && m.supply == m0.supply && m.fund == 0 && m.settled.None?
    ensures m.coll.Balance(account) == m0.coll.Balance(account) + Sum(m0.offers[|created|..], BidBy(account))
    ensures Sum(created, DebtOf) == m0.supply
    ensures Sum(created, CollateralOf) == m0.fund + Sum(m0.offers[..|created|], OfferCollateral)
    ensures k < |created| ==>
              var c, o := created[k], m0.offers[k];
              && c.id == m0.nextId + k && c.borrower == o.bidder && c.target.None? && c.debt > 0 && c.collateral > 0
              && (k < |created| - 1 ==>
                    c.debt == Min(o.debt, m0.supply) && c.collateral == o.collateral + Down(c.debt, m0.settled.value))
  {
    hide Down, Price.Less, InsertAll, OffersRefunded;
    OffersRefundedTo(m0.coll, m0.offers[|created|..], account);
    InsertAllElements([], created);
    if k < |created| {
      assert m0.offers[..|created|][k] == m0.offers[k];
    }
  }

  /** The positions that the first `n` bids are checked for are above maintenance, as the rounded check intends. */
  predicate AboveMaintenance(m: Market, n: nat)
    requires m.settled.Some? && m.settled.value.base > 0 && n <= |m.offers|
  {
    && m.feed.Some? && m.feed.value.Valid()
    && forall k | 0 <= k < n :: !Callable(Checked1(m.offers[k], m.supply, m.settled.value), m.feed.value)
  }

  /** With an exact maintenance collateralization and amounts that are not rounded, the check does what it intends. */
  lemma ExactChecksSuffice(m: Market, n: nat)
    requires m.settled.Some? && m.settled.value.base > 0 && n <= |m.offers| && m.feed.Some? && m.feed.value.Valid()
    requires MaintenanceIsExact(m.feed.value)
    requires forall k | 0 <= k < n :: Accepted1(m.offers[k], m.supply, m.settled.value, m.feed.value)
    requires forall k | 0 <= k < n :: HasRoom(Checked1(m.offers[k], m.supply, m.settled.value))
    ensures AboveMaintenance(m, n)
  {
    hide Accepted, Scale, Price.Less, Callable, MaintenanceIsExact;
    forall k | 0 <= k < n
      ensures !Callable(Checked1(m.offers[k], m.supply, m.settled.value), m.feed.value)
    {
      AcceptedIsNotCallable(Checked1(m.offers[k], m.supply, m.settled.value), m.feed.value);
    }
  }

  /** `process_bids`: revive the asset exactly if the bids take over the whole supply above maintenance. */
  method ProcessBids(m0: Market, par: Params) returns (m: Market, revived: bool, ghost created: seq<CallOrder>)
    requires Inv(m0, par)
    ensures Inv(m, par)
    ensures m0.settled.Some? ==> m0.settled.value.base > 0
    ensures m0.feed.Some? ==> m0.feed.value.Valid()
    ensures revived <==>
              m0.settled.Some? && m0.feed.Some? && BidsCover(m0.offers, m0.supply, m0.settled.value, m0.feed.value)
    ensures !revived ==> m == m0
    ensures revived ==> BidsExecuted(m0, m, created)
  {
    hide Price.Less, Down, Scale, Resting, CallsOk, Solvent, Positions, Accepted1, Sum, BidsExecuted;
    m, revived, created := m0, false, [];
    if m.settled.None? || m.feed.None? {
      return;
    }
    var price, feed := m.settled.value, m.feed.value;
    var n := FirstPass(m.offers, m.supply, price, feed);
    if Covered(m.offers, n, m.supply) < m.supply {
      NotCovered(m.offers, n, m.supply, price, feed);
      return;
    }
    var calls;
    m, calls := ExecuteBids(m0, par, n);
    revived, created := true, calls;
  }

  /** The second half of `process_bids`, once the first `n` bids are known to cover the supply. */
  method ExecuteBids(m0: Market, par: Params, n: nat) returns (m: Market, calls: seq<CallOrder>)
    requires Inv(m0, par) && m0.settled.Some? && m0.feed.Some? && n <= |m0.offers|
    requires m0.settled.value.base > 0 && m0.feed.value.Valid()
    requires forall k | 0 <= k < n :: Covered(m0.offers, k, m0.supply) < m0.supply
    requires forall k | 0 <= k < n :: Accepted1(m0.offers[k], m0.supply, m0.settled.value, m0.feed.value)
    requires Covered(m0.offers, n, m0.supply) >= m0.supply
    ensures Inv(m, par) && BidsExecuted(m0, m, calls)
  {
    hide Price.Less, Down, Scale, Resting, CallsOk, Solvent, Positions, Shares, Accepted1, Sum, InsertAll,
         OffersRefunded;
    var price, feed := m0.settled.value, m0.feed.value;
    var accepted, rest := m0.offers[..n], m0.offers[n..];
    forall k | 0 <= k <= n ensures Covered(accepted, k, m0.supply) == Covered(m0.offers, k, m0.supply) {
      CoveredPrefix(m0.offers, n, k, m0.supply);
    }
    SettledIsSolvent(m0);
    calls := SecondPass(accepted, m0.supply, m0.fund, price, m0.nextId);
    assert m0.offers == accepted + rest;
    SumConcat(accepted, rest, OfferCollateral);
    forall i | 0 <= i < |calls|
      ensures calls[i].Valid()
      ensures AboveMaintenance(m0, n) ==> !Callable(calls[i], feed)
    {
      CreatedPositionsAreSafe(calls, accepted, m0, par, i);
    }
    var coll := RefundOffers(rest, m0.coll);
    NoCalls();
    InsertAllKeeps([], calls);
    m := m0.(calls := InsertAll([], calls), offers := [], coll := coll, settled := None, fund := 0,
             nextId := m0.nextId + n,
             rough := m0.rough || !AboveMaintenance(m0, n));
    RevivedInv(m, m0, par, calls);
  }

  lemma NotCovered(offers: seq<Offer>, n: nat, supply: nat, price: Price, feed: Feed)
    requires n <= |offers| && price.base > 0 && feed.Valid() && Covered(offers, n, supply) < supply
    requires n < |offers| ==> !Accepted1(offers[n], supply, price, feed)
    ensures !BidsCover(offers, supply, price, feed)
  {
    hide Accepted1, Covered;
    forall k | 0 <= k <= |offers| && forall j | 0 <= j < k :: Accepted1(offers[j], supply, price, feed)
      ensures Covered(offers, k, supply) < supply
    {
      assert k <= n;
      CoveredMonotone(offers, k, n, supply);
    }
  }

  lemma NoCalls()
    ensures CallsOk([]) && Sum<CallOrder>([], DebtOf) == 0 && Sum<CallOrder>([], CollateralOf) == 0
  {
  }

  lemma SettledIsSolvent(m: Market)
    requires m.settled.Some? && Phase(m)
    ensures Solvent(m.supply, m.fund, m.settled.value)
  {
  }

  lemma RevivedInv(m: Market, m0: Market, par: Params, created: seq<CallOrder>)
    requires Inv(m0, par) && m0.settled.Some? && m0.feed.Some?
    requires m == m0.(calls := m.calls, offers := [], coll := m.coll, settled := None, fund := 0, nextId := m.nextId,
                      rough := m.rough)
    requires CallsOk(m.calls) && m.coll.rule == m0.coll.rule
    requires Sum(m.calls, DebtOf) == m0.supply
    requires m.coll.Total() + Sum(m.calls, CollateralOf) == m0.coll.Total() + m0.fund + Sum(m0.offers, OfferCollateral)
    requires forall x | x in m.calls :: x in created
    requires BidsChecked(m) ==> forall i | 0 <= i < |created| :: !Callable(created[i], m0.feed.value)
    ensures Inv(m, par)
  {
    hide Price.Less, Down, Scale, Resting, CallsOk;
    assert Sum(m0.calls, CollateralOf) == 0;
    if BidsChecked(m) {
      forall i | 0 <= i < |m.calls|
        ensures !Callable(m.calls[i], m.feed.value)
      {
        assert m.calls[i] in created;
      }
    }
  }

  // ----- a revival that leaves a callable position beside a bid it could be matched with

  const StrandedFeed: Feed := Feed(Price(1, 2), 2000, 1100)

  const StrandedParams: Params := Params(MAX_SHARE_SUPPLY, MAX_SHARE_SUPPLY - 1, 0, 0, 0)

  /**
   A settled asset with a fund of one unit, one collateral bid for all of the debt, and one order to buy collateral.
   */
  function StrandedMarket(): Market {
    var supply, rule := MAX_SHARE_SUPPLY, FeeRule(false, 0, None, 0, 0, map[]);
    Market([Limit(1, 4, 2, Price(2, 1))], [], [], [], [Offer(0, 2, supply - 2, supply)],
           Ledger(map[3 := supply - 2], 0, map[], rule), Ledger(map[], 0, map[], rule),
           supply, Some(StrandedFeed), Some(Price(supply, 1)), 1, 0, 2, false)
  }

  lemma StrandedTerms()
    ensures Gcd(18_000_000_000_000_000_000_000, 8_999_999_999_999_999_999_000) == 1000
    ensures Gcd(9_000_000_000_000_000_001, 4_500_000_000_000_000_000) == 1
    ensures Gcd(4_500_000_000_000_000_001, 2_250_000_000_000_000_001) == 1
  {
    assert Gcd(2000, 1000) == 1000;
    assert Gcd(8_999_999_999_999_999_999_000, 2000) == 1000;
    assert Gcd(4_500_000_000_000_000_000, 1) == 1;
    assert Gcd(2_250_000_000_000_000_001, 2_250_000_000_000_000_000) == 1;
  }

  /** The exact ratio is just above two; each halving adds one to both terms, which takes it just below. */
  lemma StrandedCallPrice()
    ensures CallPrice(MAX_SHARE_SUPPLY, MAX_SHARE_SUPPLY - 1, 2000) ==
              Price(4_500_000_000_000_000_001, 2_250_000_000_000_000_001)
  {
    hide Gcd;
    StrandedTerms();
    var f := PriceScaling.Fraction(18_000_000_000_000_000_000, 8_999_999_999_999_999_999);
    assert Reduce(PriceScaling.Fraction(18_000_000_000_000_000_000_000, 8_999_999_999_999_999_999_000)) == f;
    var g := PriceScaling.Fraction(9_000_000_000_000_000_001, 4_500_000_000_000_000_000);
    assert Reduce(g) == g;
    var h := PriceScaling.Fraction(4_500_000_000_000_000_001, 2_250_000_000_000_000_001);
    assert Reduce(h) == h;
    assert Squash(f) == Squash(g) == Squash(h) == h;
  }

  lemma StrandedPosition(c: CallOrder)
    requires c.collateral == MAX_SHARE_SUPPLY - 1 && c.debt == MAX_SHARE_SUPPLY
    ensures StrandedFeed.Valid() && MaintenanceIsExact(StrandedFeed) && Callable(c, StrandedFeed)
    ensures Accepted(c.debt, c.collateral, StrandedFeed)
  {
    hide Scale, CallPrice;
    StrandedCallPrice();
    assert Gcd(2000, 2000) == 2000;
    assert MaintenanceIsExact(StrandedFeed);
    AtMostExactScale(StrandedFeed.price, 2000, c.collateral, c.debt);
  }

  lemma StrandedShape()
    ensures Shape(StrandedMarket(), StrandedParams)
  {
    hide Scale;
  }

  lemma OneOrderAndAnOffer(m: Market, par: Params, o: Limit, b: Offer)
    requires m.bids == [o] && m.offers == [b] && m.asks == [] && m.calls == [] && m.settles == []
    requires m.debt.Total() + o.forSale == m.supply && m.coll.Total() + b.collateral + m.fund == par.total
    requires m.settled == Some(Price(m.supply, m.fund)) && m.supply > 0
    ensures Conserved(m, par) && Phase(m)
  {
    SumOne(o, ForSale);
    SumOne(b, OfferCollateral);
  }

  lemma OneHolder(l: Ledger, account: nat, x: nat)
    requires l.bal == map[account := x] && l.vested == map[] && l.fees == 0
    ensures l.Total() == x
  {
    SumMapUpdate(map[], account, x);
  }

  lemma StrandedConserved()
    ensures Conserved(StrandedMarket(), StrandedParams) && Phase(StrandedMarket())
  {
    hide Conserved, Phase, Ledger.Total;
    var m := StrandedMarket();
    OneHolder(m.debt, 3, MAX_SHARE_SUPPLY - 2);
    EmptyLedger(m.coll);
    OneOrderAndAnOffer(m, StrandedParams, m.bids[0], m.offers[0]);
  }

  lemma StrandedIsConsistent()
    ensures Inv(StrandedMarket(), StrandedParams)
  {
    StrandedShape();
    StrandedConserved();
    hide Shape, Conserved, Phase;
  }

  /**
   `call_price` rounds, so a bid can pass whose position is callable at once; then nothing calls the position although a
   resting order would buy its collateral at the squeeze price.
   */
  lemma RevivalCanStrandBids(m: Market, created: seq<CallOrder>)
    ensures StrandedFeed.Valid() && MaintenanceIsExact(StrandedFeed)
    ensures var m0 := StrandedMarket();
            && BidsCover(m0.offers, m0.supply, m0.settled.value, StrandedFeed)
            && (BidsExecuted(m0, m, created) ==> !AboveMaintenance(m0, |created|) && !MarginOk(m))
    ensures Inv(StrandedMarket(), StrandedParams)
  {
    hide Scale, CallPrice, Accepted, Callable, Inv, MaintenanceIsExact;
    var m0 := StrandedMarket();
    StrandedIsConsistent();
    var checked := Checked1(m0.offers[0], m0.supply, m0.settled.value);
    StrandedPosition(checked);
    assert Covered(m0.offers, 1, m0.supply) == Covered(m0.offers, 0, m0.supply) + m0.supply;
    assert Accepted1(m0.offers[0], m0.supply, m0.settled.value, StrandedFeed);
    if BidsExecuted(m0, m, created) {
      StrandedOutcome(m, created);
    }
  }

  lemma StrandedOutcome(m: Market, created: seq<CallOrder>)
    requires BidsExecuted(StrandedMarket(), m, created)
    ensures StrandedFeed.Valid() && !AboveMaintenance(StrandedMarket(), |created|) && !MarginOk(m)
  {
    hide Scale, Callable;
    var m0 := StrandedMarket();
    assert created != [];
    assert m0.offers[..1] == m0.offers;
    SumOne(created[0], DebtOf);
    SumOne(created[0], CollateralOf);
    SumOne(m0.offers[0], OfferCollateral);
    assert created == [created[0]];
    StrandedPosition(created[0]);
    StrandedPosition(Checked1(m0.offers[0], m0.supply, m0.settled.value));
    assert InsertAll([], created) == InsertAll([created[0]], []) == created;
    SqueezeFacts(StrandedFeed);
  }
}
