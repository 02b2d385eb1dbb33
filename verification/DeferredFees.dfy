/**
 The deferred fee of a limit order (libraries/chain/market_evaluator.cpp, `convert_fee`, `pay_fee`;
 libraries/chain/db_market.cpp, `cancel_limit_order`, `fill_limit_order`).

 The creation fee is held with the order.  It is paid on the first fill; a cancellation pays part of it and refunds the
 rest.  If it was paid in another asset, the fee pool of that asset advanced the core amount and gets it back.
 */
module DeferredFees {
  import opened Prices
  import opened Collections
  import opened Ledgers

  /** The core amount held, and the amount paid in the other asset; zero if the fee was paid in core. */
  datatype Deferred = Deferred(core: nat, paid: nat)

  /** What a cancellation charges: the core fee capped by what is held, and its share of the paid amount rounded up. */
  function CancelFee(d: Deferred, fee: nat): Deferred {
    var core := Min(fee, d.core);
    Deferred(core, if core == 0 || d.paid == 0 then 0 else Up(core, Price(d.core, d.paid)))
  }

  /** The charge in the asset is positive, never more than was paid, and less than one unit above the exact share. */
  lemma CancelFeeIsCovered(d: Deferred, fee: nat)
    ensures var c := CancelFee(d, fee);
            && c.core <= d.core && c.paid <= d.paid
            && (c.core > 0 && d.paid > 0 ==>
                  c.paid > 0 && c.core * d.paid <= c.paid * d.core < c.core * d.paid + d.core)
            && (c.core == d.core > 0 ==> c.paid == d.paid)
  {
    hide Up;
    var c := CancelFee(d, fee);
    if c.core > 0 && d.paid > 0 {
      var p := Price(d.core, d.paid);
      UpSpec(c.core, c.paid, p);
      UpSpec(c.core, d.paid, p);
      MulLeq(c.core, d.core, d.paid);
      UpPositiveShare(c.core, c.paid, p);
      if c.core == d.core {
        Prices.Cancel(d.paid, c.paid, d.core);
      }
    }
  }

  lemma UpPositiveShare(x: nat, y: nat, p: Price)
    requires p.Valid() && x > 0 && y == Up(x, p)
    ensures y > 0 && y * p.base < x * p.quote + p.base
  {
    hide Up;
    MulLeq(1, x, p.quote);
    UpSpec(x, y, p);
    if y > 0 {
      UpSpec(x, y - 1, p);
      assert (y - 1) * p.base == y * p.base - p.base;
    }
  }

  datatype Order = Order(seller: nat, held: Deferred)

  function HeldCore(orders: map<nat, Order>): map<nat, nat> { map id | id in orders :: orders[id].held.core }
  function HeldPaid(orders: map<nat, Order>): map<nat, nat> { map id | id in orders :: orders[id].held.paid }

  /**
   The accounts' balances in core and in one other asset, that asset's fee pool and accumulated fees, the core fees paid
   to the network, and the orders with the fees they hold.
   */
  datatype State = State(core: map<nat, nat>, asset: map<nat, nat>, pool: nat, accumulated: nat, network: nat,
                         orders: map<nat, Order>, nextId: nat)
  {
    predicate Valid() { forall id | id in orders :: id < nextId }
    ghost function Core(): nat { SumMap(core) + pool + network + SumMap(HeldCore(orders)) }
    ghost function Asset(): nat { SumMap(asset) + accumulated + SumMap(HeldPaid(orders)) }
  }

  function Debited(m: map<nat, nat>, account: nat, x: nat): map<nat, nat>
    requires x <= Lookup(m, account)
  {
    m[account := Lookup(m, account) - x]
  }

  datatype Event =
    | Create(seller: nat, core: nat, paid: nat)     // a new order whose seller pays this fee
    | Fill(id: nat, gone: bool)                     // the first fill pays the whole fee; it may use up the order
    | Withdraw(id: nat, charged: bool, fee: nat)    // withdrawn by its owner, or expired or culled and charged

  /** The new order's fee leaves the seller, and the pool if it is not paid in core. */
  function Created(s: State, seller: nat, core: nat, paid: nat): Option<State> {
    var t := s.(orders := s.orders[s.nextId := Order(seller, Deferred(core, paid))], nextId := s.nextId + 1);
    if paid == 0 then
      if Lookup(s.core, seller) < core then None else Some(t.(core := Debited(s.core, seller, core)))
    else if Lookup(s.asset, seller) < paid || s.pool < core then None
    else Some(t.(asset := Debited(s.asset, seller, paid), pool := s.pool - core))
  }

  /** The fee is paid, and what is left of the order holds none. */
  function Filled(s: State, id: nat, gone: bool): State
    requires id in s.orders
  {
    var o := s.orders[id];
    s.(network := s.network + o.held.core, accumulated := s.accumulated + o.held.paid,
       orders := if gone then s.orders - {id} else s.orders[id := o.(held := Deferred(0, 0))])
  }

  /** The charge is paid and the rest goes back where the fee came from. */
  function Withdrawn(s: State, id: nat, c: Deferred): State
    requires id in s.orders && c.core <= s.orders[id].held.core && c.paid <= s.orders[id].held.paid
  {
    var o := s.orders[id];
    var d := o.held;
    var kept := s.(network := s.network + c.core, accumulated := s.accumulated + c.paid, orders := s.orders - {id});
    if d.paid == 0 then kept.(core := Plus(s.core, o.seller, d.core - c.core))
    else kept.(asset := Plus(s.asset, o.seller, d.paid - c.paid), pool := s.pool + (d.core - c.core))
  }

  /** The seller pays the fee in one asset; in the other its pool advances the core amount. */
  lemma CreatedPays(s: State, seller: nat, core: nat, paid: nat, account: nat)
    ensures Step(s, Create(seller, core, paid)) == Created(s, seller, core, paid)
    ensures Created(s, seller, core, paid).Some? <==>
              if paid == 0 then core <= Lookup(s.core, seller) else paid <= Lookup(s.asset, seller) && core <= s.pool
    ensures Created(s, seller, core, paid).Some? ==>
              var t := Created(s, seller, core, paid).value;
              var fromCore := if paid == 0 then core else 0;
              && Lookup(t.core, account) + (if account == seller then fromCore else 0) == Lookup(s.core, account)
              && Lookup(t.asset, account) + (if account == seller then paid else 0) == Lookup(s.asset, account)
              && t.pool + (core - fromCore) == s.pool && t.network == s.network && t.accumulated == s.accumulated
              && t.orders == s.orders[s.nextId := Order(seller, Deferred(core, paid))] && t.nextId == s.nextId + 1
  {
  }

  /** The network keeps the whole core fee and the asset's issuer what was paid in it; nobody is refunded. */
  lemma FilledPays(s: State, id: nat, gone: bool)
    ensures Step(s, Fill(id, gone)).Some? <==> id in s.orders
    ensures id in s.orders ==>
            var t, d := Step(s, Fill(id, gone)).value, s.orders[id].held;
            && t.network == s.network + d.core && t.accumulated == s.accumulated + d.paid
            && t.core == s.core && t.asset == s.asset && t.pool == s.pool && t.nextId == s.nextId
            && (gone ==> id !in t.orders)
            && (!gone ==> id in t.orders && t.orders[id] == Order(s.orders[id].seller, Deferred(0, 0)))
            && forall k | k != id :: k in t.orders <==> k in s.orders && t.orders[k] == s.orders[k]
  {
  }

  /**
   A charged withdrawal pays the charge: the core part, at most what is held, to the network, and its share of the paid
   amount to the asset's issuer.  The rest goes back to the seller and to the pool that advanced it, and to no one else.
   */
  lemma ChargedIsSplit(s: State, id: nat, fee: nat, account: nat)
    ensures Step(s, Withdraw(id, true, fee)).Some? <==> id in s.orders
    ensures id in s.orders ==>
            var o := s.orders[id];
            var c, d, t := CancelFee(o.held, fee), o.held, Step(s, Withdraw(id, true, fee)).value;
            && c.core <= d.core && c.paid <= d.paid && c.core == Min(fee, d.core)
            && t.network == s.network + c.core && t.accumulated == s.accumulated + c.paid
            && t.orders == s.orders - {id} && t.nextId == s.nextId
            && var back, own := d.paid == 0, account == o.seller;
               && Lookup(t.core, account) == Lookup(s.core, account) + (if back && own then d.core - c.core else 0)
               && Lookup(t.asset, account) == Lookup(s.asset, account) + (if !back && own then d.paid - c.paid else 0)
               && t.pool == s.pool + if back then 0 else d.core - c.core
  {
    hide Up;
    if id in s.orders {
      CancelFeeIsCovered(s.orders[id].held, fee);
    }
  }

  /** `None` when the event cannot happen: the seller or the pool cannot afford the fee, or there is no such order. */
  function Step(s: State, e: Event): Option<State> {
    match e
    case Create(seller, core, paid) => Created(s, seller, core, paid)
    case Fill(id, gone) => if id in s.orders then Some(Filled(s, id, gone)) else None
    case Withdraw(id, charged, fee) =>
      if id !in s.orders then None
      else
        CancelFeeIsCovered(s.orders[id].held, fee);
        Some(Withdrawn(s, id, if charged then CancelFee(s.orders[id].held, fee) else Deferred(0, 0)))
  }

  /** Events that cannot happen change nothing. */
  function Steps(s: State, events: seq<Event>): State
    decreases |events|
  {
    if events == [] then s
    else
      match Step(s, events[0])
      case None => Steps(s, events[1..])
      case Some(t) => Steps(t, events[1..])
  }

  function HeldBy(orders: map<nat, Order>, id: nat): Deferred {
    if id in orders then orders[id].held else Deferred(0, 0)
  }

  /** One order more, less or changed moves the sum of what is held by its own fee. */
  lemma CoreAfter(orders: map<nat, Order>, id: nat, o: Order)
    ensures SumMap(HeldCore(orders[id := o])) == SumMap(HeldCore(orders)) - HeldBy(orders, id).core + o.held.core
    ensures SumMap(HeldCore(orders - {id})) == SumMap(HeldCore(orders)) - HeldBy(orders, id).core
  {
    hide SumMap;
    assert HeldCore(orders[id := o]) == HeldCore(orders)[id := o.held.core];
    SumMapUpdate(HeldCore(orders), id, o.held.core);
    if id in orders {
      SumMapRemove(HeldCore(orders), id);
      assert HeldCore(orders - {id}) == HeldCore(orders) - {id};
    } else {
      assert orders - {id} == orders;
    }
  }

  lemma PaidAfter(orders: map<nat, Order>, id: nat, o: Order)
    ensures SumMap(HeldPaid(orders[id := o])) == SumMap(HeldPaid(orders)) - HeldBy(orders, id).paid + o.held.paid
    ensures SumMap(HeldPaid(orders - {id})) == SumMap(HeldPaid(orders)) - HeldBy(orders, id).paid
  {
    hide SumMap;
    assert HeldPaid(orders[id := o]) == HeldPaid(orders)[id := o.held.paid];
    SumMapUpdate(HeldPaid(orders), id, o.held.paid);
    if id in orders {
      SumMapRemove(HeldPaid(orders), id);
      assert HeldPaid(orders - {id}) == HeldPaid(orders) - {id};
    } else {
      assert orders - {id} == orders;
    }
  }

  lemma CreatedConserves(s: State, seller: nat, core: nat, paid: nat)
    requires s.Valid() && Created(s, seller, core, paid).Some?
    ensures var t := Created(s, seller, core, paid).value;
            t.Valid() && t.Core() == s.Core() && t.Asset() == s.Asset()
  {
    hide SumMap, HeldCore, HeldPaid;
    CoreAfter(s.orders, s.nextId, Order(seller, Deferred(core, paid)));
    PaidAfter(s.orders, s.nextId, Order(seller, Deferred(core, paid)));
    if paid == 0 {
      SumMapUpdate(s.core, seller, Lookup(s.core, seller) - core);
    } else {
      SumMapUpdate(s.asset, seller, Lookup(s.asset, seller) - paid);
    }
  }

  lemma FilledConserves(s: State, id: nat, gone: bool)
    requires s.Valid() && id in s.orders
    ensures var t := Filled(s, id, gone);
            t.Valid() && t.Core() == s.Core() && t.Asset() == s.Asset()
  {
    hide SumMap, HeldCore, HeldPaid;
    CoreAfter(s.orders, id, s.orders[id].(held := Deferred(0, 0)));
    PaidAfter(s.orders, id, s.orders[id].(held := Deferred(0, 0)));
  }

  lemma WithdrawnConserves(s: State, id: nat, c: Deferred)
    requires s.Valid() && id in s.orders && c.core <= s.orders[id].held.core && c.paid <= s.orders[id].held.paid
    ensures var t := Withdrawn(s, id, c);
            t.Valid() && t.Core() == s.Core() && t.Asset() == s.Asset()
  {
    hide SumMap, HeldCore, HeldPaid, Plus;
    var o := s.orders[id];
    CoreAfter(s.orders, id, o);
    PaidAfter(s.orders, id, o);
    PlusTotal(s.core, o.seller, o.held.core - c.core);
    PlusTotal(s.asset, o.seller, o.held.paid - c.paid);
  }

  lemma StepConserves(s: State, e: Event)
    requires s.Valid() && Step(s, e).Some?
    ensures var t := Step(s, e).value;
            t.Valid() && t.Core() == s.Core() && t.Asset() == s.Asset()
  {
    hide CancelFee, Created, Filled, Withdrawn, State.Core, State.Asset, State.Valid;
    match e
    case Create(seller, core, paid) => CreatedConserves(s, seller, core, paid);
    case Fill(id, gone) => FilledConserves(s, id, gone);
    case Withdraw(id, charged, fee) =>
      CancelFeeIsCovered(s.orders[id].held, fee);
      WithdrawnConserves(s, id, if charged then CancelFee(s.orders[id].held, fee) else Deferred(0, 0));
  }

  /** Neither asset is lost or made in any run of any number of orders at once, whatever the fees are. */
  lemma {:induction false} FeesAreConserved(s: State, events: seq<Event>)
    requires s.Valid()
    ensures Steps(s, events).Core() == s.Core() && Steps(s, events).Asset() == s.Asset()
    decreases |events|
  {
    hide Step, State.Core, State.Asset;
    if events != [] {
      match Step(s, events[0]) {
        case None => FeesAreConserved(s, events[1..]);
        case Some(t) =>
          StepConserves(s, events[0]);
          FeesAreConserved(t, events[1..]);
      }
    }
  }

  /** From `s` to `t` the event took place, or could not. */
  predicate Happened(s: State, e: Event, t: State) {
    match Step(s, e) case None => t == s case Some(u) => t == u
  }

  /** The states between the events, each of which follows from the one before by its event. */
  lemma {:induction false} StepsFollow(s: State, events: seq<Event>) returns (states: seq<State>)
    ensures |states| == |events| + 1 && states[0] == s && states[|events|] == Steps(s, events)
    ensures forall i | 0 <= i < |events| :: Happened(states[i], events[i], states[i + 1])
    decreases |events|
  {
    hide Step;
    if events == [] {
      return [s];
    }
    var t := match Step(s, events[0]) case None => s case Some(u) => u;
    var rest := StepsFollow(t, events[1..]);
    states := [s] + rest;
    forall i | 0 <= i < |events|
      ensures Happened(states[i], events[i], states[i + 1])
    {
      if i > 0 {
        var j := i - 1;
        assert Happened(rest[j], events[1..][j], rest[j + 1]);
      }
    }
  }

  /** The order is not touched by these events. */
  predicate LeavesAlone(events: seq<Event>, id: nat) {
    forall i | 0 <= i < |events| :: !events[i].Create? ==> events[i].id != id
  }

  lemma {:induction false} HeldMeanwhile(s: State, events: seq<Event>, id: nat)
    requires s.Valid() && id in s.orders && LeavesAlone(events, id)
    ensures id in Steps(s, events).orders && Steps(s, events).orders[id] == s.orders[id]
    decreases |events|
  {
    hide State.Core, State.Asset, CancelFee;
    if events != [] {
      var rest := events[1..];
      assert forall i | 0 <= i < |rest| :: rest[i] == events[i + 1];
      match Step(s, events[0]) {
        case None => HeldMeanwhile(s, rest, id);
        case Some(t) =>
          StepConserves(s, events[0]);
          HeldMeanwhile(t, rest, id);
      }
    }
  }

  /**
   Whatever happens to other orders meanwhile, an order withdrawn unfilled and uncharged gives back exactly the fee it
   was created with: to its seller, and to the pool what the pool advanced.
   */
  lemma UnfilledIsRefunded(s: State, seller: nat, core: nat, paid: nat, events: seq<Event>, fee: nat)
    requires s.Valid() && Created(s, seller, core, paid).Some? && LeavesAlone(events, s.nextId)
    ensures var t := Steps(Created(s, seller, core, paid).value, events);
            var gone := t.(orders := t.orders - {s.nextId});
            Step(t, Withdraw(s.nextId, false, fee)) ==
              Some(if paid == 0 then gone.(core := Plus(t.core, seller, core))
                   else gone.(asset := Plus(t.asset, seller, paid), pool := t.pool + core))
  {
    StepConserves(s, Create(seller, core, paid));
    HeldMeanwhile(Created(s, seller, core, paid).value, events, s.nextId);
  }
}
