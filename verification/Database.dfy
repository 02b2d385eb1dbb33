/**
 The operations on one market-issued asset and its backing asset (libraries/chain/market_evaluator.cpp,
 libraries/chain/asset_evaluator.cpp, libraries/chain/db_maint.cpp), and the invariant they keep over every run.
 An operation that throws leaves the state as it was.
 */
module Databases {
  import opened Prices
  import opened PriceScaling
  import opened Collections
  import opened Ledgers
  import opened LimitMatching
  import opened MarginCall
  import opened Markets
  import opened MarginEngine
  import opened OrderEngine
  import opened Redemption
  import opened Revival
  import opened ForceSettlement

  datatype Operation =
    | LimitCreate(seller: nat, isBid: bool, sell: nat, receive: nat, fillOrKill: bool)
    | LimitCancel(isBid: bool, index: nat)
    | CallUpdate(account: nat, deltaDebt: int, deltaCollateral: int, target: Option<nat>)
    | PublishFeed(feed: Option<Feed>)
    | GlobalSettle(price: Price)
    | AssetSettle(account: nat, amount: nat, date: nat)
    | BidCollateral(account: nat, collateral: nat, debt: nat)
    | ForceSettle(now: nat)
    | Maintenance

  // ----- limit orders

  lemma NewOrderIsNoDust(o: Limit)
    requires o.Valid() && o.forSale == o.price.base
    ensures o.ToReceive() == o.price.quote && !o.Dust()
  {
    QuotientGeq(o.forSale * o.price.quote, o.price.base, o.price.quote);
    QuotientGeq(o.forSale * o.price.quote, o.price.base, o.price.quote + 1);
    assert o.price.base * (o.price.quote + 1) == o.price.base * o.price.quote + o.price.base;
  }

  lemma RestingRemoveAt(s: seq<Limit>, i: nat)
    requires Resting(s) && i < |s|
    ensures Resting(RemoveAt(s, i))
    ensures RemoveAt(s, i) != [] ==> RemoveAt(s, i)[0].price.AtMost(s[0].price)
  {
  }

  /** Withdrawing an order keeps the whole invariant. */
  lemma CancelKeepsInv(m0: Market, par: Params, isBid: bool, i: nat, m: Market)
    requires Inv(m0, par) && i < |if isBid then m0.bids else m0.asks|
    requires isBid ==> m == m0.(bids := RemoveAt(m0.bids, i),
                                debt := m0.debt.Credit(m0.bids[i].seller, m0.bids[i].forSale))
    requires !isBid ==>
               m == m0.(asks := RemoveAt(m0.asks, i), coll := m0.coll.Credit(m0.asks[i].seller, m0.asks[i].forSale))
    ensures Inv(m, par)
  {
    hide Price.Less, Down, Scale, CallsOk, OffersOk, RemoveAt;
    var own := if isBid then m0.bids else m0.asks;
    RestingRemoveAt(own, i);
    SumRemoveAt(own, i, ForSale);
    (if isBid then m0.debt else m0.coll).CreditTotal(own[i].seller, own[i].forSale);
    if m.bids != [] && m.asks != [] {
      StillApart(m0, m, par);
    }
    if BidsChecked(m0) {
      BidsBelowFront(m0, m, par);
    }
  }

  lemma StillApart(m0: Market, m: Market, par: Params)
    requires Shape(m0, par) && m0.bids != [] && m0.asks != [] && m.bids != [] && m.asks != []
    requires m.bids[0].Valid() && m.asks[0].Valid()
    requires m.bids == m0.bids || m.bids[0].price.AtMost(m0.bids[0].price)
    requires m.asks == m0.asks || m.asks[0].price.AtMost(m0.asks[0].price)
    ensures Uncrossed(m)
  {
    hide Price.Less, Down;
    var b, b0, a, a0 := m.bids[0].price, m0.bids[0].price, m.asks[0].price, m0.asks[0].price;
    NotLessSelf(b0);
    NotLessSelf(a0);
    InvOrder(b, b0);
    LessTransitive(a, a0, b0.Inv());
    LessTransitive(a, b0.Inv(), b.Inv());
  }

  lemma BidsBelowFront(m0: Market, m: Market, par: Params)
    requires Shape(m0, par) && MarginOk(m0) && m.feed == m0.feed && m.settled == m0.settled && m.calls == m0.calls
    requires m.bids == m0.bids || (m0.bids != [] &&
                                   (m.bids != [] ==> m.bids[0].Valid() && m.bids[0].price.AtMost(m0.bids[0].price)))
    ensures MarginOk(m)
  {
    hide Price.Less, Down, Scale;
    if m.feed.Some? {
      SqueezeFacts(m.feed.value);
      if m.bids != [] && m.bids != m0.bids && BidsBelow(m0, SqueezePrice(m.feed.value)) {
        LessTransitive(m.bids[0].price, m0.bids[0].price, SqueezePrice(m.feed.value));
      }
    }
  }

  // ----- new limit orders

  predicate Placeable(m: Market, seller: nat, isBid: bool, sell: nat, receive: nat) {
    0 < sell <= MAX_SHARE_SUPPLY && 0 < receive <= MAX_SHARE_SUPPLY &&
        (if isBid then m.debt else m.coll).Balance(seller) >= sell
  }

  function NewOrder(m: Market, seller: nat, sell: nat, receive: nat): Limit {
    Limit(m.nextId, seller, sell, Price(sell, receive))
  }

  /** The market with the amount for sale taken from the seller's balance. */
  function Offered(m: Market, seller: nat, isBid: bool, sell: nat): Market
    requires (if isBid then m.debt else m.coll).Balance(seller) >= sell
  {
    if isBid then m.(debt := m.debt.Debit(seller, sell), nextId := m.nextId + 1)
    else m.(coll := m.coll.Debit(seller, sell), nextId := m.nextId + 1)
  }

  /**
   A new order is placed on a balance that covers it, at the ratio of the two amounts, and that amount is set aside.
   */
  lemma OfferedMeans(m: Market, seller: nat, isBid: bool, sell: nat, receive: nat)
    ensures Placeable(m, seller, isBid, sell, receive) <==>
              && 0 < sell <= MAX_SHARE_SUPPLY && 0 < receive <= MAX_SHARE_SUPPLY
              && sell <= if isBid then m.debt.Balance(seller) else m.coll.Balance(seller)
    ensures Placeable(m, seller, isBid, sell, receive) ==>
            var o, n := NewOrder(m, seller, sell, receive), Offered(m, seller, isBid, sell);
            && o.id == m.nextId && o.seller == seller && o.forSale == o.price.base == sell && o.price.quote == receive
            && n == m.(debt := n.debt, coll := n.coll, nextId := m.nextId + 1)
            && (if isBid then n.coll == m.coll && Credited(n.debt, m.debt, seller, sell)
                else n.debt == m.debt && Credited(n.coll, m.coll, seller, sell))
  {
    if Placeable(m, seller, isBid, sell, receive) {
      (if isBid then m.debt else m.coll).DebitTakes(seller, sell);
    }
  }

  ghost predicate CallsMet(order: Limit, m: Market, n: Market) {
    exists steps: seq<Held>, last: Held :: BidApplied(order, m, n, steps, last)
  }

  /** What creating a limit order does: plain matching, unless the order is a bid that meets callable positions. */
  ghost predicate OrderCreated(m: Market, n: Market, seller: nat, isBid: bool, sell: nat, receive: nat) {
    && Placeable(m, seller, isBid, sell, receive) && (m.feed.Some? ==> m.feed.value.Valid())
    && var order, held := NewOrder(m, seller, sell, receive), Offered(m, seller, isBid, sell);
       && StartBid(order, held).Ready() && StartAsk(order, held).Ready()
       && if MeetsLimitsOnly(order, isBid, held) then n == LimitOnly(order, isBid, held) else CallsMet(order, held, n)
  }

  /** A margin call that the order causes throws. */
  ghost predicate CallsThrow(order: Limit, m: Market) {
    exists steps: seq<Held> :: BidRefused(order, m, steps)
  }

  /** The order would be created, but not be filled at once. */
  ghost predicate CreatedUnfilled(m: Market, seller: nat, isBid: bool, sell: nat, receive: nat) {
    exists n: Market :: OrderCreated(m, n, seller, isBid, sell, receive) &&
                        |if isBid then n.bids else n.asks| != |if isBid then m.bids else m.asks|
  }

  /** The only reasons to refuse a new order. */
  ghost predicate OrderRefused(m: Market, seller: nat, isBid: bool, sell: nat, receive: nat, fillOrKill: bool) {
    || !Placeable(m, seller, isBid, sell, receive)
    || (isBid && CallsThrow(NewOrder(m, seller, sell, receive), Offered(m, seller, isBid, sell)))
    || (fillOrKill && CreatedUnfilled(m, seller, isBid, sell, receive))
  }

  predicate MeetsOnlyLimits(m: Market, seller: nat, isBid: bool, sell: nat, receive: nat) {
    && Placeable(m, seller, isBid, sell, receive) && (m.feed.Some? ==> m.feed.value.Valid())
    && MeetsLimitsOnly(NewOrder(m, seller, sell, receive), isBid, Offered(m, seller, isBid, sell))
  }

  lemma OfferedKeeps(m: Market, par: Params, seller: nat, isBid: bool, sell: nat, receive: nat)
    requires Inv(m, par) && Placeable(m, seller, isBid, sell, receive)
    ensures var n := Offered(m, seller, isBid, sell);
            && Shape(n, par) && Phase(n) && (BidsChecked(n) ==> MarginOk(n)) && BidsChecked(n) == BidsChecked(m)
            && ConservedWith(n, par, if isBid then sell else 0, if isBid then 0 else sell)
  {
    hide Price.Less, Down, Scale, Resting, CallsOk, OffersOk, Sum, Callable;
    (if isBid then m.debt else m.coll).DebitTotal(seller, sell);
  }

  // ----- debt positions

  /** Where the account's position is; the number of positions if it has none. */
  function FirstPosition(calls: seq<CallOrder>, account: nat): (i: nat)
    ensures i <= |calls| && (i < |calls| ==> calls[i].borrower == account)
    ensures forall j | 0 <= j < i :: calls[j].borrower != account
  {
    if calls == [] || calls[0].borrower == account then 0 else 1 + FirstPosition(calls[1..], account)
  }

  method FindPosition(calls: seq<CallOrder>, account: nat) returns (i: nat)
    ensures i == FirstPosition(calls, account)
  {
    i := 0;
    while i < |calls| && calls[i].borrower != account
      invariant i <= |calls| && FirstPosition(calls, account) == i + FirstPosition(calls[i..], account)
    {
      assert calls[i..][1..] == calls[i + 1..];
      i := i + 1;
    }
  }

  lemma RemovePosition(calls: seq<CallOrder>, i: nat)
    requires CallsOk(calls) && i < |calls|
    ensures CallsOk(RemoveAt(calls, i))
    ensures Sum(calls, DebtOf) == Sum(RemoveAt(calls, i), DebtOf) + calls[i].debt
    ensures Sum(calls, CollateralOf) == Sum(RemoveAt(calls, i), CollateralOf) + calls[i].collateral
    ensures forall x | x in RemoveAt(calls, i) :: x in calls
  {
    hide Price.Less;
    SumRemoveAt(calls, i, DebtOf);
    SumRemoveAt(calls, i, CollateralOf);
    SortedRemoveAt(calls, i, CallKey);
  }

  /** Both balances of the account after a change of position; `None` if one is too small. */
  function Adjusted(l: Ledger, account: nat, delta: int): Option<Ledger> {
    if delta >= 0 then Some(l.Credit(account, delta))
    else if l.Balance(account) >= -delta then Some(l.Debit(account, -delta))
    else None
  }

  /** The balance changes by `delta` exactly if it does not get negative, and no other balance does. */
  lemma AdjustedMeans(l: Ledger, account: nat, delta: int)
    ensures Adjusted(l, account, delta).Some? <==> l.Balance(account) + delta >= 0
    ensures Adjusted(l, account, delta).Some? ==>
              forall a :: Adjusted(l, account, delta).value.Balance(a) == l.Balance(a) + if a == account then delta
                                                                                         else 0
  {
    if delta >= 0 {
      l.CreditPays(account, delta);
    } else if l.Balance(account) >= -delta {
      l.DebitTakes(account, -delta);
    }
  }

  lemma AdjustedTotal(l: Ledger, account: nat, delta: int)
    requires Adjusted(l, account, delta).Some?
    ensures Adjusted(l, account, delta).value.Total() == l.Total() + delta
    ensures Adjusted(l, account, delta).value.rule == l.rule
  {
    if delta >= 0 {
      l.CreditTotal(account, delta);
    } else {
      l.DebitTotal(account, -delta);
    }
  }

  /** The state after the balances, the supply and the positions changed by the same amounts. */
  lemma PositionChanged(m: Market, m0: Market, par: Params, deltaDebt: int, deltaColl: int)
    requires Shape(m0, par) && Conserved(m0, par) && Phase(m0) && m0.settled.None?
    requires m == m0.(calls := m.calls, debt := m.debt, coll := m.coll, supply := m.supply, nextId := m.nextId)
    requires m.debt.rule == m0.debt.rule && m.coll.rule == m0.coll.rule && CallsOk(m.calls)
    requires m.supply == m0.supply + deltaDebt && m.supply <= par.maxSupply
    requires m.debt.Total() == m0.debt.Total() + deltaDebt && m.coll.Total() == m0.coll.Total() - deltaColl
    requires Sum(m.calls, DebtOf) == Sum(m0.calls, DebtOf) + deltaDebt
    requires Sum(m.calls, CollateralOf) == Sum(m0.calls, CollateralOf) + deltaColl
    ensures Shape(m, par) && Conserved(m, par) && Phase(m)
  {
  }

  lemma FewerPositions(m: Market, m0: Market, par: Params)
    requires Shape(m0, par) && MarginOk(m0) && m.feed == m0.feed && m.settled == m0.settled && m.bids == m0.bids
    requires forall x | x in m.calls :: x in m0.calls
    ensures MarginOk(m)
  {
    hide Price.Less, Scale;
    if m.feed.Some? && m.settled.None? {
      forall i | 0 <= i < |m.calls| && Callable(m.calls[i], m.feed.value)
        ensures BidsBelow(m, SqueezePrice(m.feed.value)) && CoveredAt(m.calls[i], SqueezePrice(m.feed.value))
      {
        assert m.calls[i] in m0.calls;
        var k :| 0 <= k < |m0.calls| && m0.calls[k] == m.calls[i];
      }
    }
  }

  datatype Change = Refused | Closed(n: Market) | Changed(n: Market, c: CallOrder, before: Option<CallOrder>)

  /** The account's position before the change, if any. */
  function PositionOf(m: Market, account: nat): Option<CallOrder> {
    var i := FirstPosition(m.calls, account);
    if i < |m.calls| then Some(m.calls[i]) else None
  }

  function NewDebt(m: Market, account: nat, delta: int): int {
    delta + (if PositionOf(m, account).Some? then PositionOf(m, account).value.debt else 0)
  }

  function NewCollateral(m: Market, account: nat, delta: int): int {
    delta + (if PositionOf(m, account).Some? then PositionOf(m, account).value.collateral else 0)
  }

  /** The change closes the position. */
  predicate Closes(m: Market, account: nat, deltaDebt: int) {
    PositionOf(m, account).Some? && NewDebt(m, account, deltaDebt) == 0
  }

  /** When the change itself is refused: everything but what margin calls add. */
  predicate ChangeAllowed(m: Market, par: Params, account: nat, deltaDebt: int, deltaColl: int, target: Option<nat>) {
    && m.settled.None? && m.feed.Some? && 0 <= m.supply + deltaDebt <= par.maxSupply
    && (target.Some? ==> target.value <= 65535) && (deltaDebt != 0 || deltaColl != 0)
    && Adjusted(m.debt, account, deltaDebt).Some? && Adjusted(m.coll, account, -deltaColl).Some?
    && var debt, coll := NewDebt(m, account, deltaDebt), NewCollateral(m, account, deltaColl);
       if Closes(m, account, deltaDebt) then coll == 0 else 0 < coll <= MAX_SHARE_SUPPLY && 0 < debt <= MAX_SHARE_SUPPLY
  }

  /** The position after the change. */
  function ChangedPosition(m: Market, account: nat, deltaDebt: int, deltaColl: int, target: Option<nat>): CallOrder
    requires NewDebt(m, account, deltaDebt) >= 0 && NewCollateral(m, account, deltaColl) >= 0
  {
    CallOrder(if PositionOf(m, account).Some? then PositionOf(m, account).value.id else m.nextId, account,
              NewCollateral(m, account, deltaColl), NewDebt(m, account, deltaDebt), target)
  }

  /** The market after the change: both balances, the supply and the one position move by the requested amounts. */
  function PositionSet(m: Market, par: Params, account: nat, deltaDebt: int, deltaColl: int,
                       target: Option<nat>): Market
    requires ChangeAllowed(m, par, account, deltaDebt, deltaColl, target)
  {
    var i := FirstPosition(m.calls, account);
    var rest := if i < |m.calls| then RemoveAt(m.calls, i) else m.calls;
    var c := ChangedPosition(m, account, deltaDebt, deltaColl, target);
    m.(debt := Adjusted(m.debt, account, deltaDebt).value, coll := Adjusted(m.coll, account, -deltaColl).value,
       supply := m.supply + deltaDebt, nextId := m.nextId + 1,
       calls := if Closes(m, account, deltaDebt) then rest else Insert(rest, c, CallKey, CallId))
  }

  /**
   Field by field: the account's balances and the supply move by the requested amounts, its first position is replaced
   by one that has moved by them, or removed if no debt is left, and the others stay.
   */
  lemma PositionSetMoves(m: Market, par: Params, account: nat, deltaDebt: int, deltaColl: int, target: Option<nat>)
    returns (i: nat)
    requires ChangeAllowed(m, par, account, deltaDebt, deltaColl, target)
    ensures i <= |m.calls| && (i < |m.calls| ==> m.calls[i].borrower == account)
    ensures forall j | 0 <= j < i :: m.calls[j].borrower != account
    ensures var n, had := PositionSet(m, par, account, deltaDebt, deltaColl, target), i < |m.calls|;
            var removed := if had then multiset{m.calls[i]} else multiset{};
            var coll := deltaColl + if had then m.calls[i].collateral else 0;
            var debt := deltaDebt + if had then m.calls[i].debt else 0;
            && n.supply == m.supply + deltaDebt <= par.maxSupply && coll >= 0 && debt >= 0
            && (forall a :: n.debt.Balance(a) == m.debt.Balance(a) + if a == account then deltaDebt else 0)
            && (forall a :: n.coll.Balance(a) == m.coll.Balance(a) - if a == account then deltaColl else 0)
            && (debt == 0 ==> had && coll == 0 && multiset(n.calls) + removed == multiset(m.calls))
            && (debt > 0 ==>
                  && coll > 0
                  && multiset(n.calls) + removed ==
                     multiset(m.calls) +
                     multiset{CallOrder(if had then m.calls[i].id else m.nextId, account, coll, debt, target)})
  {
    hide Adjusted, Insert, FirstPosition, RemoveAt;
    i := FirstPosition(m.calls, account);
    AdjustedMeans(m.debt, account, deltaDebt);
    AdjustedMeans(m.coll, account, -deltaColl);
    var rest := m.calls;
    if i < |m.calls| {
      rest := RemoveAt(m.calls, i);
      RemoveAtElements(m.calls, i);
    }
    if !Closes(m, account, deltaDebt) {
      InsertKeepsElements(rest, ChangedPosition(m, account, deltaDebt, deltaColl, target), CallKey, CallId);
    }
  }

  /** The change itself, before margin calls are checked. */
  method ChangePosition(m: Market, par: Params, account: nat, deltaDebt: int, deltaColl: int, target: Option<nat>)
    returns (change: Change)
    requires Inv(m, par)
    ensures change.Refused? <==> !ChangeAllowed(m, par, account, deltaDebt, deltaColl, target)
    ensures !change.Refused? ==> change.n == PositionSet(m, par, account, deltaDebt, deltaColl, target)
    ensures !change.Refused? ==> (change.Closed? <==> Closes(m, account, deltaDebt))
    ensures !change.Refused? ==> m.settled.None? && m.feed.Some? && m.feed.value.Valid()
    ensures !change.Refused? ==> change.n.settled == m.settled && change.n.feed == m.feed
    ensures change.Closed? ==> Inv(change.n, par)
    ensures change.Changed? ==> Shape(change.n, par) && Conserved(change.n, par) && Phase(change.n)
    ensures change.Changed? ==>
      && change.c == ChangedPosition(m, account, deltaDebt, deltaColl, target) && change.c in change.n.calls
      && change.before == PositionOf(m, account)
  {
    hide Inv, Shape, Conserved, Phase, RemoveAt, Insert, FirstPosition, Adjusted, CallsOk, Resting;
    ShapeOf(m, par);
    ShapeFacts(m, par);
    change := Refused;
    if m.settled.Some? || m.feed.None? || m.supply + deltaDebt < 0 || m.supply + deltaDebt > par.maxSupply ||
       (target.Some? && target.value > 65535) || (deltaDebt == 0 && deltaColl == 0) {
      return;
    }
    var debt, coll := Adjusted(m.debt, account, deltaDebt), Adjusted(m.coll, account, -deltaColl);
    if debt.None? || coll.None? {
      return;
    }
    var i := FindPosition(m.calls, account);
    var before := if i < |m.calls| then Some(m.calls[i]) else None;
    var newColl := deltaColl + (if before.Some? then before.value.collateral else 0);
    var newDebt := deltaDebt + (if before.Some? then before.value.debt else 0);
    var rest := if before.Some? then RemoveAt(m.calls, i) else m.calls;
    var n := m.(debt := debt.value, coll := coll.value, supply := m.supply + deltaDebt, nextId := m.nextId + 1);
    if before.Some? && newDebt == 0 {
      if newColl == 0 {
        PositionSetKeeps(m, par, account, deltaDebt, deltaColl, target);
        change := Closed(n.(calls := rest));
      }
      return;
    }
    if newColl <= 0 || newDebt <= 0 || newColl > MAX_SHARE_SUPPLY || newDebt > MAX_SHARE_SUPPLY {
      return;
    }
    PositionSetKeeps(m, par, account, deltaDebt, deltaColl, target);
    var c := CallOrder(if before.Some? then before.value.id else m.nextId, account, newColl, newDebt, target);
    change := Changed(n.(calls := Insert(rest, c, CallKey, CallId)), c, before);
  }

  /** The change conserves both assets and keeps the debt equal to the supply. */
  lemma PositionSetKeeps(m: Market, par: Params, account: nat, deltaDebt: int, deltaColl: int, target: Option<nat>)
    requires Inv(m, par) && ChangeAllowed(m, par, account, deltaDebt, deltaColl, target)
    ensures var n := PositionSet(m, par, account, deltaDebt, deltaColl, target);
            && Shape(n, par) && Conserved(n, par) && Phase(n)
            && (if Closes(m, account, deltaDebt) then Inv(n, par)
                else ChangedPosition(m, account, deltaDebt, deltaColl, target) in n.calls)
  {
    hide Price.Less, Down, Scale, Resting, CallsOk, OffersOk, Sum, Shape, Conserved, MarginOk, RemoveAt, Insert,
         FirstPosition;
    AdjustedTotal(m.debt, account, deltaDebt);
    AdjustedTotal(m.coll, account, -deltaColl);
    ShapeOf(m, par);
    var i := FirstPosition(m.calls, account);
    var rest := m.calls;
    if i < |m.calls| {
      RemovePosition(m.calls, i);
      rest := RemoveAt(m.calls, i);
    }
    var n := PositionSet(m, par, account, deltaDebt, deltaColl, target);
    if Closes(m, account, deltaDebt) {
      PositionChanged(n, m, par, deltaDebt, deltaColl);
      if BidsChecked(m) {
        FewerPositions(n, m, par);
      }
    } else {
      var c := ChangedPosition(m, account, deltaDebt, deltaColl, target);
      AddPosition(rest, c);
      MemberAfterInsert(rest, c, CallKey, CallId, c);
      PositionChanged(n, m, par, deltaDebt, deltaColl);
    }
  }

  // ----- settle orders and collateral bids

  function InsertSettle(s: seq<SettleOrder>, x: SettleOrder): seq<SettleOrder> {
    if s == [] || x.date < s[0].date then [x] + s else [s[0]] + InsertSettle(s[1..], x)
  }

  lemma {:induction false} SumInsertSettle(s: seq<SettleOrder>, x: SettleOrder)
    ensures Sum(InsertSettle(s, x), SettleBalance) == Sum(s, SettleBalance) + x.balance
  {
    if s == [] || x.date < s[0].date {
      SumConcat([x], s, SettleBalance);
    } else {
      SumInsertSettle(s[1..], x);
      SumConcat([s[0]], InsertSettle(s[1..], x), SettleBalance);
    }
  }

  /** Settle orders queue by date, and in the order of their arrival among those of one date. */
  lemma {:induction false} InsertSettlePlace(s: seq<SettleOrder>, x: SettleOrder) returns (k: nat)
    ensures k <= |s| && InsertSettle(s, x) == s[..k] + [x] + s[k..]
    ensures (k < |s| ==> x.date < s[k].date) && forall i | 0 <= i < k :: s[i].date <= x.date
  {
    if s == [] || x.date < s[0].date {
      k := 0;
    } else {
      k := InsertSettlePlace(s[1..], x);
      k := k + 1;
    }
  }

  function FirstOffer(offers: seq<Offer>, account: nat): (i: nat)
    ensures i <= |offers| && (i < |offers| ==> offers[i].bidder == account)
    ensures forall j | 0 <= j < i :: offers[j].bidder != account
  {
    if offers == [] || offers[0].bidder == account then 0 else 1 + FirstOffer(offers[1..], account)
  }

  /** A bid may be placed on a settled asset; a bid for no debt withdraws an existing one. */
  predicate OfferAllowed(m: Market, account: nat, collateral: nat, debt: nat) {
    && m.settled.Some? && (debt > 0 ==> collateral > 0) && m.coll.Balance(account) >= collateral
    && (debt > 0 || FirstOffer(m.offers, account) < |m.offers|)
  }

  /** An existing bid is returned and, unless the new one asks for no debt, the new one is listed. */
  function OfferPlaced(m: Market, account: nat, collateral: nat, debt: nat): Market
    requires OfferAllowed(m, account, collateral, debt)
  {
    var i := FirstOffer(m.offers, account);
    var n := if i == |m.offers| then m
             else m.(offers := RemoveAt(m.offers, i), coll := m.coll.Credit(account, m.offers[i].collateral));
    if debt == 0 then n
    else
      var o := Offer(n.nextId, account, collateral, debt);
      n.(offers := Insert(n.offers, o, OfferKey, OfferId), coll := n.coll.Debit(account, collateral),
         nextId := n.nextId + 1)
  }

  /**
   Field by field: the account's first bid is removed and its collateral returned; unless the new one asks for no
   debt, it is listed and its collateral taken; no other bid or balance changes.
   */
  lemma OfferPlacedMoves(m: Market, account: nat, collateral: nat, debt: nat) returns (i: nat)
    requires OfferAllowed(m, account, collateral, debt)
    ensures i <= |m.offers| && (i < |m.offers| ==> m.offers[i].bidder == account)
    ensures forall j | 0 <= j < i :: m.offers[j].bidder != account
    ensures var n := OfferPlaced(m, account, collateral, debt);
            var had, lists := i < |m.offers|, debt > 0;
            var back, given := if had then m.offers[i].collateral else 0, if lists then collateral else 0;
            var removed := if had then multiset{m.offers[i]} else multiset{};
            var added := if lists then multiset{Offer(m.nextId, account, collateral, debt)} else multiset{};
            && n == m.(offers := n.offers, coll := n.coll, nextId := n.nextId)
            && (forall a :: n.coll.Balance(a) == m.coll.Balance(a) + if a == account then back - given else 0)
            && multiset(n.offers) + removed == multiset(m.offers) + added
  {
    hide Insert, FirstOffer, RemoveAt;
    i := FirstOffer(m.offers, account);
    var n := m;
    if i < |m.offers| {
      n := m.(offers := RemoveAt(m.offers, i), coll := m.coll.Credit(account, m.offers[i].collateral));
      m.coll.CreditPays(account, m.offers[i].collateral);
      RemoveAtElements(m.offers, i);
    }
    if debt > 0 {
      n.coll.DebitTakes(account, collateral);
      InsertKeepsElements(n.offers, Offer(n.nextId, account, collateral, debt), OfferKey, OfferId);
    }
  }

  method FindOffer(offers: seq<Offer>, account: nat) returns (i: nat)
    ensures i == FirstOffer(offers, account)
  {
    i := 0;
    while i < |offers| && offers[i].bidder != account
      invariant i <= |offers| && FirstOffer(offers, account) == i + FirstOffer(offers[i..], account)
    {
      assert offers[i..][1..] == offers[i + 1..];
      i := i + 1;
    }
  }

  lemma OffersRemoveAt(s: seq<Offer>, i: nat)
    requires OffersOk(s) && i < |s|
    ensures OffersOk(RemoveAt(s, i))
    ensures Sum(s, OfferCollateral) == Sum(RemoveAt(s, i), OfferCollateral) + s[i].collateral
  {
    hide Price.Less;
    SumRemoveAt(s, i, OfferCollateral);
    SortedRemoveAt(s, i, OfferKey);
  }

  lemma OffersInsert(s: seq<Offer>, o: Offer)
    requires OffersOk(s) && o.collateral > 0 && o.debt > 0
    ensures OffersOk(Insert(s, o, OfferKey, OfferId))
    ensures Sum(Insert(s, o, OfferKey, OfferId), OfferCollateral) == Sum(s, OfferCollateral) + o.collateral
  {
    hide Price.Less;
    InsertKeepsSorted(s, o, OfferKey, OfferId);
    SumInsert(s, o, OfferKey, OfferId, OfferCollateral);
    var t := Insert(s, o, OfferKey, OfferId);
    forall i | 0 <= i < |t| ensures t[i].collateral > 0 && t[i].debt > 0 {
      MemberAfterInsert(s, o, OfferKey, OfferId, t[i]);
      assert t[i] in t;
    }
  }

  lemma OfferKeepsInv(m: Market, par: Params, account: nat, collateral: nat, debt: nat)
    requires Inv(m, par) && OfferAllowed(m, account, collateral, debt)
    ensures Inv(OfferPlaced(m, account, collateral, debt), par)
  {
    hide Price.Less, Down, Scale, Resting, CallsOk, OffersOk, Sum, Callable, RemoveAt, Insert;
    var i := FirstOffer(m.offers, account);
    var n := m;
    if i < |m.offers| {
      OffersRemoveAt(m.offers, i);
      m.coll.CreditTotal(account, m.offers[i].collateral);
      n := m.(offers := RemoveAt(m.offers, i), coll := m.coll.Credit(account, m.offers[i].collateral));
    }
    if debt > 0 {
      n.coll.DebitTotal(account, collateral);
      OffersInsert(n.offers, Offer(n.nextId, account, collateral, debt));
    }
  }

  // ----- what each operation does when it is not refused

  /** A run of margin calls, of which there are some or none. */
  ghost predicate CalledRun(m0: Market, m: Market, called: bool)
    requires m0.feed.Some? && m0.feed.value.Valid()
  {
    exists rounds: seq<Market> :: RunOf(rounds, m0, m) && called == (|rounds| > 1)
  }

  /** Margin calls after a change of position cannot go on: one throws, or there is a swan. */
  ghost predicate RunThrows(m0: Market, enableSwan: bool) {
    exists rounds: seq<Market> :: Rounds(rounds, m0) && RunEndsBadly(rounds[|rounds| - 1], enableSwan)
  }

  predicate RunEndsBadly(last: Market, enableSwan: bool) {
    CallThrows(last) || (!enableSwan && last.feed.Some? && last.feed.value.Valid() && IsSwan(last, last.feed.value))
  }

  /** Margin calls leave the position in a state that is not accepted. */
  ghost predicate LeavesUnsafe(m0: Market, c: CallOrder, before: Option<CallOrder>) {
    && m0.feed.Some? && m0.feed.value.Valid()
    && exists n: Market, called: bool ::
         && CalledRun(m0, n, called) && n.feed == m0.feed && !PositionAllowed(n, c, called, before)
  }

  /** The only reasons to refuse a change of position. */
  ghost predicate UpdateRefused(m: Market, par: Params, account: nat, deltaDebt: int, deltaColl: int,
                                target: Option<nat>) {
    ChangeAllowed(m, par, account, deltaDebt, deltaColl, target) ==>
      && !Closes(m, account, deltaDebt)
      && var moved := PositionSet(m, par, account, deltaDebt, deltaColl, target);
         || RunThrows(moved, false)
         || LeavesUnsafe(moved, ChangedPosition(m, account, deltaDebt, deltaColl, target), PositionOf(m, account))
  }

  /**
   The only reasons to refuse a feed: it is no feed, the issuer has bid on what it would take over, or a call throws.
   */
  ghost predicate FeedRefused(m: Market, par: Params, feed: Option<Feed>) {
    if feed.Some? && !feed.value.Valid() then true
    else
      && feed != m.feed
      && var fed := m.(feed := feed, rough := false);
         if fed.settled.Some? && feed.Some? && ShouldRevive(fed, feed.value) then
           || (m.supply > 0 && exists i | 0 <= i < |m.offers| :: m.offers[i].bidder == par.issuer)
           || RunThrows(Revived(fed, par), true)
         else RunThrows(fed, true)
  }

  /** The change, then margin calls; without one exactly the requested amounts moved. */
  ghost predicate PositionUpdated(m: Market, n: Market, par: Params, account: nat, deltaDebt: int, deltaColl: int,
                                  target: Option<nat>, called: bool)
  {
    && ChangeAllowed(m, par, account, deltaDebt, deltaColl, target) && (n.feed.Some? ==> n.feed.value.Valid())
    && var moved := PositionSet(m, par, account, deltaDebt, deltaColl, target);
       && (!called ==> n == moved)
       && (!Closes(m, account, deltaDebt) ==>
             && moved.feed.Some? && moved.feed.value.Valid() && CalledRun(moved, n, called)
             && PositionAllowed(n, ChangedPosition(m, account, deltaDebt, deltaColl, target), called,
                                PositionOf(m, account)))
  }

  /** A new feed revives a settled asset if it is covered again; margin calls follow. */
  ghost predicate FeedPublished(m: Market, n: Market, par: Params, feed: Option<Feed>) {
    && (feed.Some? ==> feed.value.Valid())
    && if feed == m.feed then n == m
       else
         var fed := m.(feed := feed, rough := false);
         if fed.settled.Some? && feed.Some? && ShouldRevive(fed, feed.value) then MarginRun(Revived(fed, par), n)
         else MarginRun(fed, n)
  }

  /** A global settlement is possible: there is debt, and the least collateralized position can pay. */
  predicate SettlementAllowed(m: Market, price: Price) {
    && m.settled.None? && m.supply > 0 && m.calls != [] && price.base > 0
    && Down(m.calls[0].debt, price) <= m.calls[0].collateral
    && forall i | 0 <= i < |m.calls| :: Up(m.calls[i].debt, price) <= MAX_SHARE_SUPPLY
  }

  /** A holder redeems from the fund of a settled asset, or queues for settlement. */
  predicate AssetSettled(m: Market, n: Market, account: nat, amount: nat, date: nat) {
    && m.debt.Balance(account) >= amount
    && if m.settled.None? then m.feed.Some? && n == Queued(m, SettleOrder(m.nextId, account, amount, date))
       else
         && m.settled.value.base > 0 && m.coll.rule.Valid()
         && match Redeem(m.supply, m.fund, m.settled.value, amount)
            case None => false
            case Some(c) =>
              && c.pays <= m.debt.Balance(account) && c.pays <= m.supply && c.gets <= m.fund
              && n == Redeemed(m, account, c)
  }

  /** Due orders are settled one match after another up to the cap; supply and settled volume keep their sum. */
  ghost predicate DueSettled(m: Market, n: Market, par: Params, now: nat) {
    (exists run: seq<Market> :: Settling(m, n, par, now, run)) && NothingDue(m, n, par, now)
  }

  /** The settled volume starts again; a settled asset is revived exactly if its bids cover it. */
  ghost predicate Maintained(m: Market, n: Market) {
    && (m.settled.Some? ==> m.settled.value.base > 0) && (m.feed.Some? ==> m.feed.value.Valid())
    && var m0 := m.(forceSettled := 0);
       if m.settled.Some? && m.feed.Some? && BidsCover(m.offers, m.supply, m.settled.value, m.feed.value)
       then exists created: seq<CallOrder> :: BidsExecuted(m0, n, created)
       else n == m0
  }

  predicate Cancelled(m: Market, n: Market, isBid: bool, index: nat) {
    && index < |if isBid then m.bids else m.asks|
    && var o := (if isBid then m.bids else m.asks)[index];
       n == if isBid then m.(bids := RemoveAt(m.bids, index), debt := m.debt.Credit(o.seller, o.forSale))
            else m.(asks := RemoveAt(m.asks, index), coll := m.coll.Credit(o.seller, o.forSale))
  }

  /** The effect of an operation that is not refused. */
  ghost predicate Transition(op: Operation, m: Market, n: Market, par: Params) {
    match op
    case LimitCreate(seller, isBid, sell, receive, fillOrKill) =>
      && OrderCreated(m, n, seller, isBid, sell, receive)
      && (fillOrKill ==> |if isBid then n.bids else n.asks| == |if isBid then m.bids else m.asks|)
    case LimitCancel(isBid, index) => Cancelled(m, n, isBid, index)
    case CallUpdate(account, deltaDebt, deltaColl, target) =>
      exists called: bool :: PositionUpdated(m, n, par, account, deltaDebt, deltaColl, target, called)
    case PublishFeed(feed) => FeedPublished(m, n, par, feed)
    case GlobalSettle(price) => SettlementAllowed(m, price) && n == GloballySettled(m, price)
    case AssetSettle(account, amount, date) => AssetSettled(m, n, account, amount, date)
    case BidCollateral(account, collateral, debt) =>
      OfferAllowed(m, account, collateral, debt) && n == OfferPlaced(m, account, collateral, debt)
    case ForceSettle(now) => DueSettled(m, n, par, now)
    case Maintenance => Maintained(m, n)
  }

  // ----- the database

  class Database {
    const par: Params
    var m: Market

    ghost predicate Valid()
      reads this
    {
      Inv(m, par)
    }

    /** A new market: no orders, no debt, all of the backing asset in account balances. */
    constructor (par: Params, debt: Ledger, coll: Ledger)
      requires par.Valid() && debt.rule.Valid() && coll.rule.Valid()
      requires debt.Total() == 0 && coll.Total() == par.total
      ensures Valid() && this.par == par
    {
      this.par := par;
      m := Market([], [], [], [], [], debt, coll, 0, None, None, 0, 0, 0, false);
    }

    /** Refused if it cannot be placed, or must be filled at once and is not, or if a margin call it causes fails. */
    method CreateLimitOrder(seller: nat, isBid: bool, sell: nat, receive: nat, fillOrKill: bool)
      returns (status: Status)
      requires Valid()
      modifies this
      ensures Valid()
      ensures !status.Done? ==> m == old(m)
      ensures old(BidsChecked(m)) ==> !status.Short?
      ensures status.Stuck? ==> old(m.feed.Some? && m.feed.value.Valid() && !MaintenanceIsExact(m.feed.value))
      ensures !Placeable(old(m), seller, isBid, sell, receive) ==> status.Rejected?
      ensures status.Rejected? ==> OrderRefused(old(m), seller, isBid, sell, receive, fillOrKill)
      ensures status.Done? ==> Transition(LimitCreate(seller, isBid, sell, receive, fillOrKill), old(m), m, par)
      ensures !fillOrKill && MeetsOnlyLimits(old(m), seller, isBid, sell, receive) ==> status.Done?
    {
      hide Inv, Shape, Phase, ConservedWith, MarginOk, LimitOnly, BidApplied, BidRefused, Matching;
      if !Placeable(m, seller, isBid, sell, receive) {
        return Rejected;
      }
      var order := NewOrder(m, seller, sell, receive);
      NewOrderIsNoDust(order);
      OfferedKeeps(m, par, seller, isBid, sell, receive);
      var held := Offered(m, seller, isBid, sell);
      ghost var steps, last;
      var n, filled;
      n, filled, status, steps, last := ApplyOrder(order, isBid, held, par);
      if status.Rejected? {
        assert CallsThrow(order, held);
      }
      if status.Done? {
        OrderIsReady(order, held, par);
        assert OrderCreated(m, n, seller, isBid, sell, receive);
        if fillOrKill && !filled {
          return Rejected;
        }
        m := n;
      }
    }

    /** An order withdrawn by its owner, or expired. */
    method CancelLimitOrder(isBid: bool, index: nat) returns (status: Status)
      requires Valid()
      modifies this
      ensures Valid()
      ensures status.Done? <==> index < |old(if isBid then m.bids else m.asks)|
      ensures !status.Done? ==> status.Rejected? && m == old(m)
      ensures status.Done? ==> Cancelled(old(m), m, isBid, index)
    {
      var own := if isBid then m.bids else m.asks;
      if index >= |own| {
        return Rejected;
      }
      ghost var m0 := m;
      var o := own[index];
      m := if isBid then m.(bids := RemoveAt(m.bids, index), debt := m.debt.Credit(o.seller, o.forSale))
           else m.(asks := RemoveAt(m.asks, index), coll := m.coll.Credit(o.seller, o.forSale));
      CancelKeepsInv(m0, par, isBid, index, m);
      status := Done;
    }

    /** Borrow, repay, add or withdraw collateral. */
    method UpdateCallOrder(account: nat, deltaDebt: int, deltaColl: int, target: Option<nat>)
      returns (status: Status, called: bool)
      requires Valid()
      modifies this
      ensures Valid()
      ensures status.Done? ==> PositionUpdated(old(m), m, par, account, deltaDebt, deltaColl, target, called)
      ensures !ChangeAllowed(old(m), par, account, deltaDebt, deltaColl, target) ==> status.Rejected?
      ensures status.Rejected? ==> UpdateRefused(old(m), par, account, deltaDebt, deltaColl, target)
      ensures (&& ChangeAllowed(old(m), par, account, deltaDebt, deltaColl, target)
               && Closes(old(m), account, deltaDebt)) ==> status.Done?
      ensures !status.Done? ==> m == old(m)
      ensures !status.Short? && (status.Stuck? ==>
                                   old(m.feed.Some? && m.feed.value.Valid() && !MaintenanceIsExact(m.feed.value)))
      ensures status.Done? ==> old(m.settled).None? && m.settled.None?
    {
      hide Price.Less, Down, Scale, Resting, CallsOk, OffersOk, Sum, Shape, Conserved, Phase, MarginOk, RunOf,
           ChangeAllowed, PositionSet, ChangedPosition;
      called := false;
      var change := ChangePosition(m, par, account, deltaDebt, deltaColl, target);
      match change {
        case Refused =>
          status := Rejected;
        case Closed(n) =>
          m, status := n, Done;
        case Changed(n0, c, before) =>
          var n;
          ghost var rounds;
          n, called, status, rounds := CheckCallOrders(n0, par, false);
          assert status.Rejected? ==> RunThrows(n0, false);
          if status.Done? {
            assert CalledRun(n0, n, called);
            ShapeFacts(n, par);
            if !PositionAllowed(n, c, called, before) {
              return Rejected, false;
            }
            m := n;
          }
      }
    }

    /** A new median feed: revive a settled asset if it is covered again, then margin calls. */
    method PublishFeed(feed: Option<Feed>) returns (status: Status)
      requires Valid()
      modifies this
      ensures Valid()
      ensures !status.Done? ==> m == old(m)
      ensures status.Done? ==> FeedPublished(old(m), m, par, feed)
      ensures feed.Some? && !feed.value.Valid() ==> status.Rejected?
      ensures status.Rejected? ==> FeedRefused(old(m), par, feed)
      ensures feed.Some? && feed.value.Valid() && MaintenanceIsExact(feed.value) ==> !status.Stuck?
      ensures status.Done? ==> m.feed == feed && !status.Short?
      // after a changed feed the margin condition holds for every feed, exact or not
      ensures status.Done? && feed != old(m.feed) ==> MarginOk(m)
    {
      hide Price.Less, Down, Scale, Resting, CallsOk, OffersOk, Sum, Shape, MarginOk, RunOf, Revived, OnlyMarginCalls;
      if feed.Some? && !feed.value.Valid() {
        return Rejected;
      }
      if feed == m.feed {
        return Done;
      }
      var n := m.(feed := feed, rough := false);
      FeedChanged(n, m, par);
      if n.settled.Some? && feed.Some? && ShouldRevive(n, feed.value) {
        if n.supply > 0 {
          var k := FindOffer(n.offers, par.issuer);
          if k < |n.offers| {
            return Rejected;
          }
        }
        n := Revive(n, par);
      }
      var called;
      ghost var rounds;
      ghost var before := n;
      ShapeFacts(before, par);
      n, called, status, rounds := CheckCallOrders(n, par, true);
      assert status.Rejected? ==> RunThrows(before, true);
      if status.Done? {
        assert MarginRun(before, n);
        FeedIsKept(before, n);
        m := n;
      }
    }

    method GloballySettleAsset(price: Price) returns (status: Status)
      requires Valid()
      modifies this
      ensures Valid()
      ensures !status.Done? ==> status.Rejected? && m == old(m)
      ensures status.Done? <==> SettlementAllowed(old(m), price)
      ensures status.Done? ==> m == GloballySettled(old(m), price)
    {
      hide Price.Less, Down, Up, Scale, Resting, CallsOk, OffersOk, Sum;
      if m.settled.Some? || m.supply == 0 || m.calls == [] || price.base == 0 {
        return Rejected;
      }
      if Down(m.calls[0].debt, price) > m.calls[0].collateral {
        return Rejected;
      }
      var n, ok := GloballySettle(m, par, price);
      if !ok {
        return Rejected;
      }
      m := n;
      status := Done;
    }

    /** Redeem from the settlement fund, or queue a force settlement. */
    method SettleAsset(account: nat, amount: nat, date: nat) returns (status: Status)
      requires Valid()
      modifies this
      ensures Valid()
      ensures !status.Done? ==> status.Rejected? && m == old(m)
      ensures status.Done? ==> AssetSettled(old(m), m, account, amount, date)
      ensures old(m.settled.None?) ==> (status.Done? <==> old(m.debt.Balance(account) >= amount && m.feed.Some?))
      // the check that the fund suffices never fails: a redemption is refused only if it would yield nothing
      ensures old(m.settled.Some? && m.debt.Balance(account) >= amount) ==>
        (status.Rejected? <==> old(m.fund) == 0 || (amount < old(m.supply) && Down(amount, old(m.settled.value)) == 0))
    {
      hide Down, Up, Inv, Redeem, Solvent;
      SettledPrice(m, par);
      if m.debt.Balance(account) < amount {
        return Rejected;
      }
      if m.settled.None? {
        if m.feed.None? {
          return Rejected;
        }
        var s := SettleOrder(m.nextId, account, amount, date);
        QueueKeepsInv(m, par, s);
        m := Queued(m, s);
        return Done;
      }
      BalanceWithinSupply(m, par, account);
      RedeemKeepsSolvent(m.supply, m.fund, m.settled.value, amount);
      match Redeem(m.supply, m.fund, m.settled.value, amount) {
        case None =>
          status := Rejected;
        case Some(c) =>
          RedeemKeepsInv(m, par, account, c);
          m := Redeemed(m, account, c);
          status := Done;
      }
    }

    /** Offer collateral for taking over debt of a settled asset; an existing bid is replaced. */
    method BidForCollateral(account: nat, collateral: nat, debt: nat) returns (status: Status)
      requires Valid()
      modifies this
      ensures Valid()
      ensures !status.Done? ==> status.Rejected? && m == old(m)
      ensures status.Done? <==> OfferAllowed(old(m), account, collateral, debt)
      ensures status.Done? ==> m == OfferPlaced(old(m), account, collateral, debt)
    {
      hide Inv, Insert, RemoveAt;
      if m.settled.None? || (debt > 0 && collateral == 0) || m.coll.Balance(account) < collateral {
        return Rejected;
      }
      var i := FindOffer(m.offers, account);
      if i == |m.offers| && debt == 0 {
        return Rejected;
      }
      OfferKeepsInv(m, par, account, collateral, debt);
      var n := m;
      if i < |m.offers| {
        n := n.(offers := RemoveAt(m.offers, i), coll := m.coll.Credit(account, m.offers[i].collateral));
      }
      if debt > 0 {
        var o := Offer(n.nextId, account, collateral, debt);
        n := n.(offers := Insert(n.offers, o, OfferKey, OfferId), coll := n.coll.Debit(account, collateral),
                nextId := n.nextId + 1);
      }
      m := n;
      status := Done;
    }

    method ForceSettleDue(now: nat) returns (status: Status)
      requires Valid()
      modifies this
      ensures Valid()
      ensures !status.Done? ==> m == old(m)
      ensures old(BidsChecked(m)) ==> status.Done?
      ensures status.Done? ==> DueSettled(old(m), m, par, now)
    {
      hide Inv, Settling, NothingDue;
      var n;
      ghost var run;
      n, status, run := SettleDueOrders(m, par, now);
      if status.Done? {
        SettlingKeeps(m, n, par, now, run);
        m := n;
      }
    }

    /** The maintenance step: the settlement volume starts again and bids may revive the asset. */
    method Maintain()
      requires Valid()
      modifies this
      ensures Valid()
      ensures Maintained(old(m), m)
    {
      hide Inv, BidsCover, BidsExecuted;
      InvIgnoresVolume(m, par, 0);
      var revived;
      ghost var created;
      m, revived, created := ProcessBids(m.(forceSettled := 0), par);
    }

    method Apply(op: Operation) returns (status: Status)
      requires Valid()
      modifies this
      ensures Valid()
      ensures if status.Done? then Transition(op, old(m), m, par) else m == old(m)
    {
      hide Inv, OrderCreated, Cancelled, PositionUpdated, FeedPublished, SettlementAllowed, AssetSettled, DueSettled,
           Maintained, OfferAllowed, GloballySettled, OfferPlaced;
      match op {
        case LimitCreate(seller, isBid, sell, receive, fok) => status :=
            CreateLimitOrder(seller, isBid, sell, receive, fok);
        case LimitCancel(isBid, index) => status := CancelLimitOrder(isBid, index);
        case CallUpdate(account, dd, dc, target) =>
          var called;
          status, called := UpdateCallOrder(account, dd, dc, target);
        case PublishFeed(feed) => status := PublishFeed(feed);
        case GlobalSettle(price) => status := GloballySettleAsset(price);
        case AssetSettle(account, amount, date) => status := SettleAsset(account, amount, date);
        case BidCollateral(account, collateral, debt) => status := BidForCollateral(account, collateral, debt);
        case ForceSettle(now) => status := ForceSettleDue(now);
        case Maintenance =>
          Maintain();
          status := Done;
      }
    }

    /**
     Whatever is submitted, in whatever order: `states` are the states between the operations; each follows from the one
     before by the effect of the operation, or by its being refused, and the invariant holds in all of them.
     */
    method Run(ops: seq<Operation>) returns (ghost states: seq<Market>)
      requires Valid()
      modifies this
      ensures Valid()
      ensures |states| == |ops| + 1 && states[0] == old(m) && states[|ops|] == m
      ensures forall i | 0 <= i <= |ops| :: Inv(states[i], par)
      ensures forall i | 0 <= i < |ops| :: Stepped(ops[i], states, i, par)
    {
      hide Inv, Transition;
      states := [m];
      for i := 0 to |ops|
        invariant Valid() && |states| == i + 1 && states[0] == old(m) && states[i] == m
        invariant forall k | 0 <= k <= i :: Inv(states[k], par)
        invariant forall k | 0 <= k < i :: Stepped(ops[k], states, k, par)
      {
        var status := Apply(ops[i]);
        ghost var before := states;
        states := states + [m];
        forall k | 0 <= k <= i
          ensures Stepped(ops[k], states, k, par)
        {
          if k < i {
            assert Stepped(ops[k], before, k, par);
          }
        }
      }
    }
  }

  /** Step `i` of a run is the effect of `op`, or nothing. */
  ghost predicate Stepped(op: Operation, states: seq<Market>, i: nat, par: Params)
    requires i + 1 < |states|
  {
    states[i + 1] == states[i] || Transition(op, states[i], states[i + 1], par)
  }

  lemma SettlingKeeps(m: Market, n: Market, par: Params, now: nat, run: seq<Market>)
    requires Settling(m, n, par, now, run)
    ensures Inv(n, par)
  {
    hide Inv;
  }

  lemma FeedIsKept(m: Market, n: Market)
    requires OnlyMarginCalls(n, m)
    ensures n.feed == m.feed
  {
  }

  lemma SettledPrice(m: Market, par: Params)
    requires Inv(m, par)
    ensures m.settled.Some? ==> m.settled.value.base > 0 && Solvent(m.supply, m.fund, m.settled.value)
  {
  }

  function Queued(m: Market, s: SettleOrder): Market
    requires s.balance <= m.debt.Balance(s.owner)
  {
    m.(settles := InsertSettle(m.settles, s), debt := m.debt.Debit(s.owner, s.balance), nextId := m.nextId + 1)
  }

  lemma QueueKeepsInv(m: Market, par: Params, s: SettleOrder)
    requires Inv(m, par) && s.balance <= m.debt.Balance(s.owner)
    ensures Inv(Queued(m, s), par)
  {
    hide Price.Less, Down, Scale, Resting, CallsOk, OffersOk;
    SumInsertSettle(m.settles, s);
    m.debt.DebitTotal(s.owner, s.balance);
  }

  /** Nobody holds more than the supply. */
  lemma BalanceWithinSupply(m: Market, par: Params, account: nat)
    requires Inv(m, par)
    ensures m.debt.Balance(account) <= m.supply
  {
    m.debt.DebitTotal(account, 0);
  }

  function Redeemed(m: Market, account: nat, c: Claim): Market
    requires c.pays <= m.debt.Balance(account) && c.pays <= m.supply && c.gets <= m.fund && m.coll.rule.Valid()
  {
    m.(debt := m.debt.Debit(account, c.pays), coll := m.coll.Receive(account, c.gets, false),
       supply := m.supply - c.pays, fund := m.fund - c.gets)
  }

  /** The holder gives up the debt it pays and is paid the claim less the takers' fee; supply and fund shrink alike. */
  lemma RedeemedPays(m: Market, account: nat, c: Claim)
    requires c.pays <= m.debt.Balance(account) && c.pays <= m.supply && c.gets <= m.fund && m.coll.rule.Valid()
    ensures var n := Redeemed(m, account, c);
            && Credited(n.debt, m.debt, account, c.pays) && n.supply + c.pays == m.supply && n.fund + c.gets == m.fund
            && Credited(m.coll, n.coll, account, c.gets - MarketFee(m.coll.rule, c.gets, false))
  {
    hide MarketFee, Ledger.Vest, Ledger.Reward;
    m.debt.DebitTakes(account, c.pays);
    m.coll.ReceivePays(account, c.gets, false);
  }

  lemma RedeemKeepsInv(m: Market, par: Params, account: nat, c: Claim)
    requires Inv(m, par) && m.settled.Some?
    requires c.pays <= m.debt.Balance(account) && c.pays <= m.supply && c.gets <= m.fund
    requires Solvent(m.supply - c.pays, m.fund - c.gets, m.settled.value)
    ensures m.coll.rule.Valid() && Inv(Redeemed(m, account, c), par)
  {
    hide Price.Less, Down, Scale, Resting, CallsOk, OffersOk, Callable;
    m.debt.DebitTotal(account, c.pays);
    m.coll.ReceiveTotal(account, c.gets, false);
  }

  lemma ShapeOf(m: Market, par: Params)
    requires Inv(m, par)
    ensures Shape(m, par) && Conserved(m, par) && Phase(m) && CallsOk(m.calls)
  {
  }

  lemma FeedChanged(n: Market, m: Market, par: Params)
    requires Inv(m, par) && n == m.(feed := n.feed, rough := n.rough) && (n.feed.Some? ==> n.feed.value.Valid())
    ensures Shape(n, par) && Conserved(n, par) && Phase(n)
  {
  }

  /**
   After margin calls: a called position must be gone; an uncalled one must be above maintenance, or its owner must have
   raised its ratio without borrowing more.
   */
  predicate PositionAllowed(n: Market, c: CallOrder, called: bool, before: Option<CallOrder>)
    requires n.feed.Some? ==> n.feed.value.Valid()
  {
    if called then !exists i | 0 <= i < |n.calls| :: n.calls[i].id == c.id
    else
      (n.feed.Some? && !Callable(c, n.feed.value)) ||
      (before.Some? && c.debt <= before.value.debt && before.value.Collateralization().Less(c.Collateralization()))
  }

  /** The terms in which the owner's remedy is judged. */
  lemma PositionAllowedMeans(n: Market, c: CallOrder, called: bool, before: Option<CallOrder>)
    requires n.feed.Some? ==> n.feed.value.Valid()
    ensures PositionAllowed(n, c, called, before) <==>
              if called then forall x | x in n.calls :: x.id != c.id
              else
                || (n.feed.Some? && n.feed.value.MaintenanceCollateralization().Less(Price(c.collateral, c.debt)))
                || (before.Some? && c.debt <= before.value.debt &&
                    before.value.collateral * c.debt < c.collateral * before.value.debt)
  {
    hide Scale;
    assert (forall x | x in n.calls :: x.id != c.id) <==> !exists i | 0 <= i < |n.calls| :: n.calls[i].id == c.id;
  }

  /** Without rounding: no supply, or a fund above the maintenance ratio of the feed price. */
  lemma ShouldReviveMeans(m: Market, feed: Feed)
    requires feed.Valid() && MaintenanceIsExact(feed)
    ensures ShouldRevive(m, feed) <==>
              || m.supply == 0
              || m.fund * (feed.price.quote * COLLATERAL_RATIO_DENOM) > (feed.price.base * feed.mcr) * m.supply
  {
    hide Scale, ScalesExactly;
    if m.supply > 0 {
      AtMostExactScale(feed.price, feed.mcr, m.fund, m.supply);
    }
  }

  /** No supply is left, or the fund alone would make a position above maintenance. */
  predicate ShouldRevive(m: Market, feed: Feed)
    requires feed.Valid()
  {
    m.supply == 0 || feed.MaintenanceCollateralization().Less(Price(m.fund, m.supply))
  }

  /** The revived market: the issuer takes over the supply and the fund; all bids are refunded. */
  function Revived(m: Market, par: Params): Market {
    m.(offers := [], coll := OffersRefunded(m.coll, m.offers), settled := None, fund := 0, nextId := m.nextId + 1,
       calls := if m.supply == 0 then m.calls else [CallOrder(m.nextId, par.issuer, m.fund, m.supply, None)])
  }

  /** The issuer alone owes the supply against the fund, every bidder gets its own bids back, and nothing else moves. */
  lemma RevivedMeans(m: Market, par: Params, account: nat)
    ensures var n := Revived(m, par);
            && n.settled.None? && n.fund == 0 && n.offers == [] && n.supply == m.supply && n.debt == m.debt
            && n.coll.Balance(account) == m.coll.Balance(account) + Sum(m.offers, BidBy(account))
            && (m.supply > 0 ==>
                  && |n.calls| == 1
                  && var c := n.calls[0];
                     c.borrower == par.issuer && c.collateral == m.fund && c.debt == m.supply && c.target.None?)
            && (m.supply == 0 ==> n.calls == m.calls)
  {
    OffersRefundedTo(m.coll, m.offers, account);
  }

  /** `revive_bitasset` */
  method Revive(m0: Market, par: Params) returns (m: Market)
    requires Shape(m0, par) && Conserved(m0, par) && Phase(m0) && m0.settled.Some? && m0.feed.Some?
    requires ShouldRevive(m0, m0.feed.value)
    ensures m == Revived(m0, par) && m.feed == m0.feed && m.settled.None?
    ensures Shape(m, par) && Conserved(m, par) && Phase(m)
  {
    hide Price.Less, Down, Scale, Resting, CallsOk, OffersOk, Sum;
    var coll := RefundOffers(m0.offers, m0.coll);
    m := m0.(offers := [], coll := coll, settled := None, fund := 0, nextId := m0.nextId + 1);
    NoCalls();
    NoOffers();
    if m0.supply > 0 {
      FundIsPositive(m0);
      var c := CallOrder(m0.nextId, par.issuer, m0.fund, m0.supply, None);
      OneCall(c);
      m := m.(calls := [c]);
    }
  }

  lemma NoOffers()
    ensures OffersOk([]) && Sum<Offer>([], OfferCollateral) == 0
  {
  }

  lemma OneCall(c: CallOrder)
    requires c.Valid()
    ensures CallsOk([c]) && Sum([c], DebtOf) == c.debt && Sum([c], CollateralOf) == c.collateral
  {
    SumOne(c, DebtOf);
    SumOne(c, CollateralOf);
  }

  lemma FundIsPositive(m: Market)
    requires m.feed.Some? && m.feed.value.Valid() && m.supply > 0 && ShouldRevive(m, m.feed.value)
    ensures m.fund > 0
  {
    hide Scale;
    ScaleFacts(m.feed.value.price, m.feed.value.mcr, COLLATERAL_RATIO_DENOM);
    var mc := m.feed.value.MaintenanceCollateralization();
    assert mc.base * m.supply < m.fund * mc.quote;
  }
}
