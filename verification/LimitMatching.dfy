/**
 Limit order against limit order (libraries/chain/db_market.cpp, `match`, `fill_limit_order`,
 `maybe_cull_small_order` and the limit-order loops of `apply_order`).
 */
module LimitMatching {
  import opened Prices
  import opened Collections
  import opened Ledgers

  datatype Limit = Limit(id: nat, seller: nat, forSale: nat, price: Price) {
    /** `price.base` is the amount first offered, so nothing an order can receive leaves the amount range. */
    predicate Valid() {
      price.Valid() && 0 < forSale <= price.base <= MAX_SHARE_SUPPLY && price.quote <= MAX_SHARE_SUPPLY
    }
    function ToReceive(): nat requires price.base > 0 { Down(forSale, price) }
    predicate Dust() requires price.base > 0 { ToReceive() == 0 }
  }

  /** The by-price index lists the best price first. */
  function LimitKey(o: Limit): Price { o.price.Inv() }
  function LimitId(o: Limit): nat { o.id }
  function ForSale(o: Limit): nat { o.forSale }

  /** One side of a market at rest. */
  predicate Resting(s: seq<Limit>) {
    && Sorted(s, LimitKey)
    && forall i | 0 <= i < |s| :: s[i].Valid() && !s[i].Dust()
  }

  predicate Crosses(taker: Price, maker: Price) { taker.Inv().AtMost(maker) }

  /** What the taker pays and gets; `None` when it would get nothing for all it has. */
  datatype Trade = Trade(pays: nat, gets: nat)

  function TradeSizes(takerForSale: nat, makerForSale: nat, mp: Price): Option<Trade>
    requires mp.Valid()
  {
    if takerForSale <= Down(makerForSale, mp) then
      var gets := Down(takerForSale, mp.Inv());
      if gets == 0 then None else Some(Trade(Up(gets, mp), gets))
    else
      var pays := Down(makerForSale, mp);
      Some(Trade(pays, Up(pays, mp.Inv())))
  }

  lemma InvOrder(p: Price, q: Price)
    ensures p.AtMost(q) <==> q.Inv().AtMost(p.Inv())
    ensures p.Less(q) <==> q.Inv().Less(p.Inv())
  {
  }

  lemma DownWithinOffer(o: Limit)
    requires o.Valid()
    ensures o.ToReceive() <= MAX_SHARE_SUPPLY
  {
    hide Down;
    DownSpec(o.forSale, o.price.quote + 1, o.price);
    MulLeq(o.forSale, o.price.base, o.price.quote);
    MulLess(o.price.quote, o.price.quote + 1, o.price.base);
  }

  /**
   Limit against limit at the maker's price.  Neither side overpays, no conversion leaves the amount range, both
   limit prices are honoured, and the smaller order pays the least amount that buys what it gets; what it keeps is
   worth nothing at its own price, so at least one of the two orders is always removed.
   */
  lemma LimitMatch(taker: Limit, maker: Limit)
    requires taker.Valid() && maker.Valid() && !maker.Dust() && Crosses(taker.price, maker.price)
    ensures maker.ToReceive() <= MAX_SHARE_SUPPLY
    ensures var t := TradeSizes(taker.forSale, maker.forSale, maker.price);
            match t
            case None => taker.Dust() && taker.forSale <= maker.ToReceive() &&
                Down(taker.forSale, maker.price.Inv()) == 0
            case Some(Trade(pays, gets)) =>
              && 0 < pays <= taker.forSale && 0 < gets <= maker.forSale
              && Down(pays, taker.price) <= gets && Down(gets, maker.price) <= pays
              && (taker.forSale <= maker.ToReceive() ==>
                    && gets == Down(taker.forSale, maker.price.Inv()) == Down(pays, maker.price.Inv())
                    && (forall p: nat | Down(p, maker.price.Inv()) >= gets :: p >= pays)
                    && Down(taker.forSale - pays, taker.price) == 0)
              && (taker.forSale > maker.ToReceive() ==>
                    && pays == maker.ToReceive() == Down(gets, maker.price)
                    && (forall g: nat | Down(g, maker.price) >= pays :: g >= gets)
                    && pays < taker.forSale
                    && Down(maker.forSale - gets, maker.price) == 0)
  {
    hide Down, Up, Price.Less;
    var mp := maker.price;
    var inv := mp.Inv();
    DownWithinOffer(maker);
    InvOrder(taker.price.Inv(), mp);
    assert mp.Inv().Inv() == mp && taker.price.Inv().Inv() == taker.price;
    if taker.forSale <= Down(maker.forSale, mp) {
      var gets := Down(taker.forSale, inv);
      DownAtBetterPrice(taker.forSale, taker.price, inv);
      if gets > 0 {
        var pays := Up(gets, mp);
        RemainderIsWorthless(taker.forSale, inv);
        Stabilize(taker.forSale, inv);
        DownAtBetterPrice(taker.forSale - pays, taker.price, inv);
        DownAtBetterPrice(pays, taker.price, inv);
        UpPositive(gets, mp);
        // gets <= Down(Down(makerForSale)) <= makerForSale
        DownMonotone(taker.forSale, Down(maker.forSale, mp), inv);
        RoundTripDown(maker.forSale, mp);
        DownAtMostUp(gets, mp);
        forall p: nat | Down(p, inv) >= gets ensures p >= pays {
          DownGeqIffUpLeq(p, gets, inv);
        }
      }
    } else {
      var pays := Down(maker.forSale, mp);
      var gets := Up(pays, inv);
      RemainderIsWorthless(maker.forSale, mp);
      Stabilize(maker.forSale, mp);
      UpPositive(pays, inv);
      DownAtMostUp(pays, inv);
      DownAtBetterPrice(pays, taker.price, inv);
      forall g: nat | Down(g, mp) >= pays ensures g >= gets {
        DownGeqIffUpLeq(g, pays, mp);
      }
    }
  }

  lemma UpPositive(x: nat, p: Price)
    requires p.Valid() && x > 0
    ensures Up(x, p) > 0
  {
  }

  lemma DownAtMostUp(x: nat, p: Price)
    requires p.Valid()
    ensures Down(x, p) <= Up(x, p)
  {
  }

  /** Converting down and down again never gains. */
  lemma RoundTripDown(x: nat, p: Price)
    requires p.Valid()
    ensures Down(Down(x, p), p.Inv()) <= x
  {
  }

  // ----- filling an order

  datatype Filled = Filled(left: Option<Limit>, refund: nat)

  /** What `fill_limit_order` leaves of an order, and what it refunds when the rest is culled. */
  function Fill(o: Limit, pays: nat, cull: bool): (f: Filled)
    requires o.Valid() && pays <= o.forSale
    ensures f.left.Some? ==> f.left.value == o.(forSale := o.forSale - pays) && f.left.value.Valid() && f.refund == 0
    ensures f.left.None? ==> f.refund == o.forSale - pays
    ensures cull && f.left.Some? ==> !f.left.value.Dust()
    ensures f.left.None? ==> pays == o.forSale || (cull && Down(o.forSale - pays, o.price) == 0)
  {
    if pays == o.forSale then Filled(None, 0)
    else
      var rest := o.(forSale := o.forSale - pays);
      if cull && rest.Dust() then Filled(None, rest.forSale) else Filled(Some(rest), 0)
  }

  /** Orders still in the book are the tail of the original ones, the first possibly smaller. */
  predicate TailOf(s: seq<Limit>, t: seq<Limit>) {
    |s| <= |t| &&
    forall i | 0 <= i < |s| :: s[i].price == t[|t| - |s| + i].price && s[i].seller == t[|t| - |s| + i].seller
  }

  predicate IsSeller(account: nat, s: seq<Limit>) {
    exists i | 0 <= i < |s| :: s[i].seller == account
  }

  /** Removing or shrinking the front order keeps a side at rest. */
  lemma RestingAfterFill(s: seq<Limit>, left: Option<Limit>)
    requires Resting(s) && s != []
    requires left.Some? ==>
               left.value == s[0].(forSale := left.value.forSale) && left.value.Valid() && !left.value.Dust()
    ensures var t := if left.Some? then s[0 := left.value] else s[1..];
            Resting(t) && TailOf(t, s)
  {
    hide Price.Less, Down;
    var t := if left.Some? then s[0 := left.value] else s[1..];
    var k := |s| - |t|;
    forall i, j | 0 <= i < j < |t|
      ensures LimitKey(t[i]).AtMost(LimitKey(t[j]))
    {
      assert LimitKey(t[i]) == LimitKey(s[i + k]) && LimitKey(t[j]) == LimitKey(s[j + k]);
      assert LimitKey(s[i + k]).AtMost(LimitKey(s[j + k]));
    }
  }

  // ----- one trade

  /** The taker, the side it works through and the two ledgers. */
  datatype Book = Book(taker: Limit, gone: bool, finished: bool, opp: seq<Limit>, sold: Ledger, bought: Ledger) {
    predicate Ready() { taker.Valid() && Resting(opp) && sold.rule.Valid() && bought.rule.Valid() }
    ghost function Sold(): nat { sold.Total() + if gone then 0 else taker.forSale }
    ghost function Bought(): nat { bought.Total() + Sum(opp, ForSale) }
    predicate SameBalances(that: Book, account: nat) {
      sold.Balance(account) == that.sold.Balance(account) && bought.Balance(account) == that.bought.Balance(account)
    }
  }

  /** The seller of the maker order is paid, less the fee for makers; what is culled of the taker is returned. */
  function SoldAfter(l: Ledger, taker: nat, maker: nat, pays: nat, refund: nat): Ledger
    requires l.rule.Valid()
  {
    l.Credit(taker, refund).Receive(maker, pays, true)
  }

  function BoughtAfter(l: Ledger, taker: nat, maker: nat, gets: nat, refund: nat): Ledger
    requires l.rule.Valid()
  {
    l.Receive(taker, gets, false).Credit(maker, refund)
  }

  lemma LedgersAfter(sold: Ledger, bought: Ledger, taker: nat, maker: nat, t: Trade, takerRefund: nat, makerRefund: nat)
    requires sold.rule.Valid() && bought.rule.Valid()
    ensures var s, b := SoldAfter(sold, taker, maker, t.pays, takerRefund),
            BoughtAfter(bought, taker, maker, t.gets, makerRefund);
            && s.rule == sold.rule && b.rule == bought.rule
            && s.Total() == sold.Total() + t.pays + takerRefund && b.Total() == bought.Total() + t.gets + makerRefund
            && (forall a | a != taker && a != maker ::
                  s.Balance(a) == sold.Balance(a) && b.Balance(a) == bought.Balance(a))
  {
    sold.CreditTotal(taker, takerRefund);
    sold.Credit(taker, takerRefund).ReceiveTotal(maker, t.pays, true);
    bought.ReceiveTotal(taker, t.gets, false);
    bought.Receive(taker, t.gets, false).CreditTotal(maker, makerRefund);
  }

  /**
   Account by account: in the asset sold the maker receives the payment less the makers' fee and the taker its refund;
   in the asset bought the taker receives what it gets less the takers' fee and the maker its refund.
   */
  lemma TradePays(sold: Ledger, bought: Ledger, taker: nat, maker: nat, t: Trade, takerRefund: nat, makerRefund: nat)
    requires sold.rule.Valid() && bought.rule.Valid()
    ensures var s, b := SoldAfter(sold, taker, maker, t.pays, takerRefund),
            BoughtAfter(bought, taker, maker, t.gets, makerRefund);
            Paid(sold, s, maker, t.pays, true, taker, takerRefund) &&
                Paid(bought, b, taker, t.gets, false, maker, makerRefund)
  {
    hide MarketFee, Ledger.Vest, Ledger.Reward;
    sold.CreditPays(taker, takerRefund);
    sold.Credit(taker, takerRefund).ReceivePays(maker, t.pays, true);
    bought.ReceivePays(taker, t.gets, false);
    bought.Receive(taker, t.gets, false).CreditPays(maker, makerRefund);
  }

  /** From `l` to `n` one account is paid an amount less the market fee, and one is returned a refund. */
  ghost predicate Paid(l: Ledger, n: Ledger, payee: nat, amount: nat, isMaker: bool, owner: nat, refund: nat)
    requires l.rule.Valid()
  {
    forall a :: n.Balance(a) == l.Balance(a) + (if a == payee then amount - MarketFee(l.rule, amount, isMaker) else 0)
                                             + if a == owner then refund else 0
  }

  /** One trade of the taker with the best maker, at the maker's price. */
  function TradeStep(b: Book): Book
    requires b.Ready() && b.opp != [] && Crosses(b.taker.price, b.opp[0].price)
  {
    var maker := b.opp[0];
    LimitMatch(b.taker, maker);
    match TradeSizes(b.taker.forSale, maker.forSale, maker.price)
    case None => b.(finished := true)
    case Some(t) =>
      var finished := b.taker.forSale <= maker.ToReceive();
      var ft := Fill(b.taker, t.pays, finished);
      var fm := Fill(maker, t.gets, true);
      Book(if ft.left.Some? then ft.left.value else b.taker, ft.left.None?, finished,
           if fm.left.Some? then b.opp[0 := fm.left.value] else b.opp[1..],
           SoldAfter(b.sold, b.taker.seller, maker.seller, t.pays, ft.refund),
           BoughtAfter(b.bought, b.taker.seller, maker.seller, t.gets, fm.refund))
  }

  /**
   From `b` to `c` the taker paid `t.pays` for `t.gets`: each order shrinks by what it gave, or is gone if nothing of it
   is left or the rest is culled, and then the rest is returned to its seller.  Makers are culled always, the taker when
   it has nothing left worth selling to this maker.
   */
  ghost predicate Traded(b: Book, c: Book, t: Trade)
    requires b.Ready() && b.opp != []
  {
    var maker := b.opp[0];
    && t.pays <= b.taker.forSale && t.gets <= maker.forSale
    && var rest, restOpp := b.taker.forSale - t.pays, maker.forSale - t.gets;
       && c.finished == (b.taker.forSale <= Down(maker.forSale, maker.price))
       && c.gone == (rest == 0 || (c.finished && Down(rest, b.taker.price) == 0))
       && (!c.gone ==> c.taker == b.taker.(forSale := rest))
       && var out := restOpp == 0 || Down(restOpp, maker.price) == 0;
          && c.opp == (if out then b.opp[1..] else [maker.(forSale := restOpp)] + b.opp[1..])
          // who is paid what
          && Paid(b.sold, c.sold, maker.seller, t.pays, true, b.taker.seller, if c.gone then rest else 0)
          && Paid(b.bought, c.bought, b.taker.seller, t.gets, false, maker.seller, if out then restOpp else 0)
  }

  /** One trade moves both assets as the two limits and the maker's price say, account by account. */
  lemma TradeStepPays(b: Book)
    requires b.Ready() && b.opp != [] && Crosses(b.taker.price, b.opp[0].price)
    ensures match TradeSizes(b.taker.forSale, b.opp[0].forSale, b.opp[0].price)
            case None => TradeStep(b) == b.(finished := true)
            case Some(t) => Traded(b, TradeStep(b), t)
  {
    hide Down, Up, Price.Less, SoldAfter, BoughtAfter, Paid, Resting;
    var maker := b.opp[0];
    assert b.taker.Valid() && maker.Valid() && !maker.Dust() by { FrontIsAlive(b); }
    LimitMatch(b.taker, maker);
    match TradeSizes(b.taker.forSale, maker.forSale, maker.price) {
      case None =>
      case Some(t) =>
        var finished := b.taker.forSale <= maker.ToReceive();
        var ft := Fill(b.taker, t.pays, finished);
        var fm := Fill(maker, t.gets, true);
        TradePays(b.sold, b.bought, b.taker.seller, maker.seller, t, ft.refund, fm.refund);
        assert fm.left.Some? ==> b.opp[0 := fm.left.value] == [fm.left.value] + b.opp[1..];
    }
  }

  lemma FrontIsAlive(b: Book)
    requires b.Ready() && b.opp != []
    ensures b.taker.Valid() && b.opp[0].Valid() && !b.opp[0].Dust()
  {
  }

  /** `b` is a state of the taker's matching that started in `b0`. */
  ghost predicate Follows(b: Book, b0: Book) {
    && b.Ready() && b.taker == b0.taker.(forSale := b.taker.forSale) && TailOf(b.opp, b0.opp)
    && b.sold.rule == b0.sold.rule && b.bought.rule == b0.bought.rule
    // each asset is conserved
    && b.Sold() == b0.Sold() && b.Bought() == b0.Bought()
    // the taker leaves only when filled, and stops early only when it is dust
    && (b.gone ==> b.finished) && (b.finished ==> b.gone || b.taker.Dust())
    // nobody else is touched
    && forall a | a != b0.taker.seller && !IsSeller(a, b0.opp) :: b.SameBalances(b0, a)
  }

  /** Each trade removes the taker, the maker or both. */
  lemma TradeStepFollows(b: Book)
    requires b.Ready() && b.opp != [] && Crosses(b.taker.price, b.opp[0].price) && !b.gone && !b.finished
    ensures Follows(TradeStep(b), b)
    ensures !TradeStep(b).finished ==> |TradeStep(b).opp| < |b.opp|
  {
    hide Down, Up, Price.Less;
    var maker := b.opp[0];
    assert IsSeller(maker.seller, b.opp);
    LimitMatch(b.taker, maker);
    match TradeSizes(b.taker.forSale, maker.forSale, maker.price) {
      case None =>
      case Some(t) =>
        var finished := b.taker.forSale <= maker.ToReceive();
        var ft := Fill(b.taker, t.pays, finished);
        var fm := Fill(maker, t.gets, true);
        LedgersAfter(b.sold, b.bought, b.taker.seller, maker.seller, t, ft.refund, fm.refund);
        RestingAfterFill(b.opp, fm.left);
        SumFront(b.opp, fm.left);
    }
  }

  lemma FollowsTransitive(c: Book, b: Book, a: Book)
    requires Follows(c, b) && Follows(b, a)
    ensures Follows(c, a)
  {
    hide Down, Resting;
    TailTransitive(c.opp, b.opp, a.opp);
    forall x | x != a.taker.seller && !IsSeller(x, a.opp)
      ensures c.SameBalances(a, x)
    {
      SellerOfTail(x, b.opp, a.opp);
    }
  }

  lemma SellerOfTail(a: nat, s: seq<Limit>, t: seq<Limit>)
    requires TailOf(s, t)
    ensures IsSeller(a, s) ==> IsSeller(a, t)
  {
  }

  lemma FollowsSelf(b: Book)
    requires b.Ready() && !b.gone && !b.finished
    ensures Follows(b, b)
  {
  }

  // ----- the loop over the opposite side

  /** The taker may trade with the best maker: prices cross and, given a floor, the maker is strictly better than it. */
  predicate MayTrade(b: Book, floor: Option<Price>) {
    !b.finished && b.opp != [] && Crosses(b.taker.price, b.opp[0].price) &&
        (floor.None? || floor.value.Less(b.opp[0].price))
  }

  /** All the trades of a taker, best maker first. */
  function Matching(b: Book, floor: Option<Price>): Book
    requires b.Ready() && (b.gone ==> b.finished)
    decreases !b.finished, |b.opp|
  {
    if !MayTrade(b, floor) then b
    else
      TradeStepFollows(b);
      Matching(TradeStep(b), floor)
  }

  /**
   The taker works through the opposite side from the best price down; the result is the fold of single trades, and it
   ends only when nothing more can match or the taker is finished.
   */
  method MatchOpposite(start: Book, floor: Option<Price>) returns (b: Book)
    requires start.Ready() && !start.gone && !start.finished
    ensures b == Matching(start, floor)
    ensures Follows(b, start) && !MayTrade(b, floor)
  {
    hide Down, Up, Price.Less, Resting, TradeStep, Follows;
    b := start;
    FollowsSelf(b);
    FollowsFacts(b, start);
    while MayTrade(b, floor)
      invariant Follows(b, start) && b.Ready() && (b.gone ==> b.finished)
      invariant Matching(b, floor) == Matching(start, floor)
      decreases !b.finished, |b.opp|
    {
      TradeStepFollows(b);
      FollowsTransitive(TradeStep(b), b, start);
      FollowsFacts(TradeStep(b), start);
      b := TradeStep(b);
    }
  }

  /**
   A trade of the unfinished taker with the best maker, whose price crosses its own and is strictly better than the
   floor, if there is one; or the taker turns out to have too little to get anything, which finishes it.
   */
  ghost predicate TradeFrom(books: seq<Book>, i: nat, floor: Option<Price>)
    requires i + 1 < |books|
  {
    var b, c := books[i], books[i + 1];
    && b.Ready() && b.opp != [] && !b.finished && b.taker.price.Inv().AtMost(b.opp[0].price)
    && (floor.Some? ==> floor.value.Less(b.opp[0].price))
    && match TradeSizes(b.taker.forSale, b.opp[0].forSale, b.opp[0].price)
       case None => c == b.(finished := true)
       case Some(t) => Traded(b, c, t)
  }

  /** Matching is a run of such trades, and it ends only when no further one is possible. */
  lemma {:induction false} MatchingIsTrades(b: Book, floor: Option<Price>) returns (books: seq<Book>)
    requires b.Ready() && (b.gone ==> b.finished)
    ensures books != [] && books[0] == b && books[|books| - 1] == Matching(b, floor)
    ensures forall i | 0 <= i < |books| - 1 :: TradeFrom(books, i, floor)
    ensures var c := books[|books| - 1];
            || c.finished || c.opp == [] || !c.taker.price.Inv().AtMost(c.opp[0].price)
            || (floor.Some? && !floor.value.Less(c.opp[0].price))
    decreases !b.finished, |b.opp|
  {
    hide Price.Less, Down, Resting, TradeStep, Traded, Follows;
    if MayTrade(b, floor) {
      TradeStepFollows(b);
      TradeStepPays(b);
      FollowsFacts(TradeStep(b), b);
      var rest := MatchingIsTrades(TradeStep(b), floor);
      books := [b] + rest;
      forall i | 0 <= i < |books| - 1
        ensures TradeFrom(books, i, floor)
      {
        if i > 0 {
          var j := i - 1;
          assert TradeFrom(rest, j, floor) && books[i] == rest[j] && books[i + 1] == rest[j + 1];
        }
      }
    } else {
      books := [b];
    }
  }

  lemma {:induction false} MatchingKeepsPrice(b: Book, floor: Option<Price>)
    requires b.Ready() && (b.gone ==> b.finished)
    ensures var c := Matching(b, floor);
            c.Ready() && (c.gone ==> c.finished) && c.taker.price == b.taker.price
    decreases !b.finished, |b.opp|
  {
    hide Price.Less, Down, Resting, TradeStep;
    if MayTrade(b, floor) {
      TradeStepFollows(b);
      MatchingKeepsPrice(TradeStep(b), floor);
    }
  }

  /** Stopping at a price and going on from there is the same as not stopping. */
  lemma {:induction false} MatchingInTwo(b: Book, floor: Option<Price>)
    requires b.Ready() && (b.gone ==> b.finished)
    ensures var c := Matching(b, floor);
            c.Ready() && (c.gone ==> c.finished) && Matching(c, None) == Matching(b, None)
    decreases !b.finished, |b.opp|
  {
    hide Price.Less, Down, Resting, TradeStep;
    if MayTrade(b, floor) {
      TradeStepFollows(b);
      MatchingInTwo(TradeStep(b), floor);
    }
  }

  lemma FollowsFacts(b: Book, b0: Book)
    requires Follows(b, b0)
    ensures b.Ready() && (b.gone ==> b.finished)
  {
  }

  lemma TailTransitive(a: seq<Limit>, b: seq<Limit>, c: seq<Limit>)
    requires TailOf(a, b) && TailOf(b, c)
    ensures TailOf(a, c)
  {
  }

  lemma SumFront(s: seq<Limit>, left: Option<Limit>)
    requires s != []
    ensures Sum(s, ForSale) == ForSale(s[0]) + Sum(s[1..], ForSale)
    ensures left.Some? ==> Sum(s[0 := left.value], ForSale) == ForSale(left.value) + Sum(s[1..], ForSale)
  {
  }
}
