/**
 The constant-product liquidity pool (libraries/chain/liquidity_pool_evaluator.cpp), together with the guards on
 issuing and burning pool shares (libraries/chain/asset_evaluator.cpp).
 */
module LiquidityPools {
  import opened Prices
  import opened Collections
  import opened Ledgers

  const TWO_TO_128: nat := 0x1_0000_0000_0000_0000_0000_0000_0000_0000

  /** `supply` is the supply of the share asset, `value` the cached product of the balances. */
  datatype Pool = Pool(a: nat, b: nat, supply: nat, value: nat, maxSupply: nat, takerFee: nat, withdrawalFee: nat) {
    function WithProduct(): (p: Pool)
      ensures p == this.(value := p.value)
    {
      this.(value := a * b)
    }
  }

  /** What every operation keeps. */
  predicate Sound(p: Pool) {
    && p.value == p.a * p.b
    && (p.a == 0 <==> p.supply == 0) && (p.b == 0 <==> p.supply == 0)
    && p.a <= INT64_MAX && p.b <= INT64_MAX && p.supply <= p.maxSupply <= MAX_SHARE_SUPPLY
    && p.takerFee <= HUNDRED_PERCENT && p.withdrawalFee <= HUNDRED_PERCENT
  }

  /** `Refused` is an ordinary rejection, `Internal` one of the checks labelled "Internal error". */
  datatype Outcome<+T> = Fine(value: T) | Refused | Internal

  function CeilDiv(x: nat, y: nat): nat
    requires y > 0
  {
    (x + y - 1) / y
  }

  function FloorDiv(x: nat, y: nat): nat
    requires y > 0
  {
    x / y
  }

  lemma CeilDivSpec(x: nat, y: nat, z: nat)
    requires y > 0
    ensures CeilDiv(x, y) <= z <==> x <= z * y
  {
    QuotientGeq(x + y - 1, y, z + 1);
    assert y * (z + 1) == y * z + y;
  }

  lemma FloorDivSpec(x: nat, y: nat, z: nat)
    requires y > 0
    ensures FloorDiv(x, y) >= z <==> x >= z * y
  {
    QuotientGeq(x, y, z);
  }

  // ----- evaluation

  /** What a deposit takes and the shares it yields. */
  datatype Deposited = Deposited(a: nat, b: nat, shares: nat)

  function EvalDeposit(p: Pool, amountA: nat, amountB: nat, byOwner: bool): Outcome<Deposited>
    requires p.value == p.a * p.b
  {
    if amountA == 0 || amountB == 0 then Refused
    else if (p.a == 0) != (p.b == 0) then Internal
    else if p.a == 0 && !byOwner then Refused
    else if (p.a == 0) != (p.supply == 0) then Internal
    else if p.supply >= p.maxSupply then Refused
    else if p.a == 0 then
      var shares := Max(amountA, amountB);
      if shares > p.maxSupply then Refused else Fine(Deposited(amountA, amountB, shares))
    else
      var shares := Min(Min(FloorDiv(p.supply * amountA, p.a), FloorDiv(p.supply * amountB, p.b)),
                        p.maxSupply - p.supply);
      if shares == 0 then Refused
      else
        var a, b := CeilDiv(shares * p.a, p.supply), CeilDiv(shares * p.b, p.supply);
        if a > amountA || b > amountB then Internal
        else if p.a + a > INT64_MAX || p.b + b > INT64_MAX then Refused
        else Fine(Deposited(a, b, shares))
  }

  datatype Withdrawn = Withdrawn(a: nat, b: nat)

  function EvalWithdraw(p: Pool, shares: nat): Outcome<Withdrawn> {
    if shares == 0 || p.a == 0 || p.b == 0 || p.supply < shares then Refused
    else if p.supply == shares then Fine(Withdrawn(p.a, p.b))
    else
      var a, b := FloorDiv(shares * p.a, p.supply), FloorDiv(shares * p.b, p.supply);
      if a >= p.a || b >= p.b then Internal
      else
        var feeA, feeB := PercentOf(a, p.withdrawalFee), PercentOf(b, p.withdrawalFee);
        if feeA > a || feeB > b then Refused
        else if a - feeA == 0 && b - feeB == 0 then Refused
        else Fine(Withdrawn(a - feeA, b - feeB))
  }

  /** What the pool receives and pays, and what reaches the account after its market fee. */
  datatype Exchanged = Exchanged(receives: nat, pays: nat, gets: nat)

  /** Selling into balance `x` for balance `y`, with the market fee rules of the sold and the bought asset. */
  function EvalExchange(x: nat, y: nat, value: nat, takerFee: nat, amount: nat, minGet: nat, sold: FeeRule,
                        bought: FeeRule)
    : (r: Outcome<Exchanged>)
    requires sold.Valid() && bought.Valid()
    ensures r.Fine? ==> r.value.gets <= r.value.pays <= y
  {
    if x == 0 || y == 0 || amount == 0 || minGet == 0 then Refused
    else
      var makerFee := MarketFee(sold, amount, true);
      if makerFee >= amount then Refused
      else
        var receives := amount - makerFee;
        if x + receives > INT64_MAX then Refused
        else
          var newY := CeilDiv(value, x + receives);
          if newY > y then Internal
          else
            var delta := y - newY;
            var fee := PercentOf(delta, takerFee);
            if fee > delta then Refused
            else
              var pays := delta - fee;
              var gets := pays - MarketFee(bought, pays, false);
              if gets < minGet then Refused else Fine(Exchanged(receives, pays, gets))
  }

  // ----- operations

  datatype Op =
    | Deposit(amountA: nat, amountB: nat, byOwner: bool)
    | Withdraw(shares: nat)
    | Exchange(sellA: bool, amount: nat, minGet: nat)
    | Burn(shares: nat)

  /** The new pool, or why there is none. */
  function Step(p: Pool, op: Op, ruleA: FeeRule, ruleB: FeeRule): Outcome<Pool>
    requires p.value == p.a * p.b && ruleA.Valid() && ruleB.Valid()
  {
    match op
    case Deposit(amountA, amountB, byOwner) =>
      (match EvalDeposit(p, amountA, amountB, byOwner)
       case Refused => Refused
       case Internal => Internal
       case Fine(d) =>
         var q := p.(a := p.a + d.a, b := p.b + d.b, supply := p.supply + d.shares).WithProduct();
         if q.a == 0 || q.b == 0 || q.supply == 0 then Internal
         else if q.a > INT64_MAX || q.b > INT64_MAX then Refused
         else Fine(q))
    case Withdraw(shares) =>
      (match EvalWithdraw(p, shares)
       case Refused => Refused
       case Internal => Internal
       case Fine(w) =>
         if w.a > p.a || w.b > p.b || shares > p.supply then Internal
         else
           var q := p.(a := p.a - w.a, b := p.b - w.b, supply := p.supply - shares).WithProduct();
           if (q.a == 0) != (q.b == 0) || (q.a == 0) != (q.supply == 0) then Internal else Fine(q))
    case Exchange(sellA, amount, minGet) =>
      var x, y := if sellA then p.a else p.b, if sellA then p.b else p.a;
      var sold, bought := if sellA then ruleA else ruleB, if sellA then ruleB else ruleA;
      (match EvalExchange(x, y, p.value, p.takerFee, amount, minGet, sold, bought)
       case Refused => Refused
       case Internal => Internal
       case Fine(e) =>
         if e.pays > y then Internal
         else
           var q := (if sellA then p.(a := p.a + e.receives, b := p.b - e.pays)
                     else p.(a := p.a - e.pays, b := p.b + e.receives)).WithProduct();
           if q.a == 0 || q.b == 0 || q.value < p.value then Internal else Fine(q))
    case Burn(shares) =>
      // shares of a pool can be reserved only below the whole supply, and never issued by hand
      if p.supply <= shares then Refused else Fine(p.(supply := p.supply - shares))
  }

  // ----- soundness of each operation

  lemma DepositFacts(p: Pool, amountA: nat, amountB: nat, byOwner: bool)
    requires Sound(p)
    ensures !EvalDeposit(p, amountA, amountB, byOwner).Internal?
    ensures EvalDeposit(p, amountA, amountB, byOwner).Fine? ==>
              var d := EvalDeposit(p, amountA, amountB, byOwner).value;
              && 0 < d.a <= amountA && 0 < d.b <= amountB && 0 < d.shares && p.supply + d.shares <= p.maxSupply
              && d.a * p.supply >= d.shares * p.a && d.b * p.supply >= d.shares * p.b
              && (p.supply == 0 ==> d == Deposited(amountA, amountB, Max(amountA, amountB)))
  {
    hide FloorDiv, CeilDiv;
    if amountA > 0 && amountB > 0 && 0 < p.supply < p.maxSupply {
      var shares := Min(Min(FloorDiv(p.supply * amountA, p.a), FloorDiv(p.supply * amountB, p.b)),
                        p.maxSupply - p.supply);
      DepositSide(p.a, p.supply, amountA, shares);
      DepositSide(p.b, p.supply, amountB, shares);
    }
  }

  lemma DepositSide(balance: nat, supply: nat, amount: nat, shares: nat)
    requires balance > 0 && supply > 0 && shares <= FloorDiv(supply * amount, balance)
    ensures CeilDiv(shares * balance, supply) <= amount
    ensures CeilDiv(shares * balance, supply) * supply >= shares * balance
    ensures shares > 0 ==> CeilDiv(shares * balance, supply) > 0
  {
    hide FloorDiv, CeilDiv;
    FloorDivSpec(supply * amount, balance, shares);
    CeilDivSpec(shares * balance, supply, amount);
    CeilDivSpec(shares * balance, supply, CeilDiv(shares * balance, supply));
    CeilDivSpec(shares * balance, supply, 0);
  }

  lemma WithdrawFacts(p: Pool, shares: nat)
    requires Sound(p)
    ensures !EvalWithdraw(p, shares).Internal?
    ensures EvalWithdraw(p, shares).Fine? ==>
              var w := EvalWithdraw(p, shares).value;
              && 0 < shares <= p.supply && w.a <= p.a && w.b <= p.b
              && (shares == p.supply ==> w == Withdrawn(p.a, p.b))
              && (shares < p.supply ==>
                    && w.a < p.a && w.b < p.b
                    && w.a * p.supply <= shares * p.a && w.b * p.supply <= shares * p.b)
  {
    hide FloorDiv, PercentOf;
    if 0 < shares < p.supply {
      WithdrawSide(p.a, p.supply, shares, p.withdrawalFee);
      WithdrawSide(p.b, p.supply, shares, p.withdrawalFee);
    }
  }

  lemma WithdrawSide(balance: nat, supply: nat, shares: nat, fee: nat)
    requires balance > 0 && 0 < shares < supply && fee <= HUNDRED_PERCENT
    ensures var x := FloorDiv(shares * balance, supply);
            && x < balance && PercentOf(x, fee) <= x
            && (x - PercentOf(x, fee)) * supply <= shares * balance
  {
    hide FloorDiv;
    var x := FloorDiv(shares * balance, supply);
    FloorDivSpec(shares * balance, supply, balance);
    FloorDivSpec(shares * balance, supply, x);
    MulLess(shares, supply, balance);
    PercentOfBound(x, fee);
    MulLeq(x - PercentOf(x, fee), x, supply);
  }

  /** The new balance keeps the product, and the fee only leaves more in the pool. */
  lemma SwapSide(x: nat, y: nat, receives: nat, takerFee: nat)
    requires x > 0 && y > 0 && receives > 0 && takerFee <= HUNDRED_PERCENT
    ensures var newY := CeilDiv(x * y, x + receives);
            && 0 < newY <= y && PercentOf(y - newY, takerFee) <= y - newY
            && (x + receives) * (newY + PercentOf(y - newY, takerFee)) >= x * y
  {
    hide CeilDiv, PercentOf;
    var newY := CeilDiv(x * y, x + receives);
    MulLeq(x, x + receives, y);
    MulLeq(1, x, y);
    CeilDivSpec(x * y, x + receives, y);
    CeilDivSpec(x * y, x + receives, newY);
    CeilDivSpec(x * y, x + receives, 0);
    PercentOfBound(y - newY, takerFee);
    MulLeq(newY, newY + PercentOf(y - newY, takerFee), x + receives);
  }

  lemma ExchangeFacts(x: nat, y: nat, takerFee: nat, amount: nat, minGet: nat, sold: FeeRule, bought: FeeRule)
    requires sold.Valid() && bought.Valid() && takerFee <= HUNDRED_PERCENT
    ensures !EvalExchange(x, y, x * y, takerFee, amount, minGet, sold, bought).Internal?
    ensures EvalExchange(x, y, x * y, takerFee, amount, minGet, sold, bought).Fine? ==>
              var e := EvalExchange(x, y, x * y, takerFee, amount, minGet, sold, bought).value;
              && 0 < e.receives <= amount && minGet <= e.gets <= e.pays < y && x + e.receives <= INT64_MAX
              && (x + e.receives) * (y - e.pays) >= x * y
  {
    hide CeilDiv, PercentOf, MarketFee;
    if x > 0 && y > 0 && MarketFee(sold, amount, true) < amount {
      SwapSide(x, y, amount - MarketFee(sold, amount, true), takerFee);
    }
  }

  // ----- and no operation gives less than it can

  /** A deposit takes the least that pays for its shares, and more shares are beyond the offer or the maximum supply. */
  lemma DepositIsBest(p: Pool, amountA: nat, amountB: nat, byOwner: bool, d: Deposited, more: nat)
    requires Sound(p) && p.supply > 0 && EvalDeposit(p, amountA, amountB, byOwner) == Fine(d)
    ensures (d.a - 1) * p.supply < d.shares * p.a && (d.b - 1) * p.supply < d.shares * p.b
    ensures more > d.shares ==>
              amountA * p.supply < more * p.a || amountB * p.supply < more * p.b || p.supply + more > p.maxSupply
  {
    hide FloorDiv, CeilDiv;
    DepositFacts(p, amountA, amountB, byOwner);
    SideIsBest(p.a, p.supply, amountA, d.shares, d.a, more);
    SideIsBest(p.b, p.supply, amountB, d.shares, d.b, more);
  }

  lemma SideIsBest(balance: nat, supply: nat, amount: nat, shares: nat, paid: nat, more: nat)
    requires balance > 0 && supply > 0 && paid > 0 && paid == CeilDiv(shares * balance, supply)
    ensures (paid - 1) * supply < shares * balance
    ensures more > FloorDiv(supply * amount, balance) ==> amount * supply < more * balance
  {
    hide FloorDiv, CeilDiv;
    CeilDivSpec(shares * balance, supply, paid - 1);
    FloorDivSpec(supply * amount, balance, more);
  }

  /** A withdrawal of part of the pool yields the whole part of the shares' worth, less the fee on exactly that. */
  lemma WithdrawIsBest(p: Pool, shares: nat, w: Withdrawn)
    requires Sound(p) && shares < p.supply && EvalWithdraw(p, shares) == Fine(w)
    ensures exists a: nat, b: nat ::
              && a * p.supply <= shares * p.a < (a + 1) * p.supply && b * p.supply <= shares * p.b < (b + 1) * p.supply
              && w.a + PercentOf(a, p.withdrawalFee) == a && w.b + PercentOf(b, p.withdrawalFee) == b
  {
    hide FloorDiv, PercentOf;
    WithdrawFacts(p, shares);
    var a, b := FloorDiv(shares * p.a, p.supply), FloorDiv(shares * p.b, p.supply);
    FloorDivSpec(shares * p.a, p.supply, a);
    FloorDivSpec(shares * p.a, p.supply, a + 1);
    FloorDivSpec(shares * p.b, p.supply, b);
    FloorDivSpec(shares * p.b, p.supply, b + 1);
  }

  /** Before its fee a swap pays the most that keeps the product of the balances. */
  lemma ExchangeIsBest(x: nat, y: nat, takerFee: nat, amount: nat, minGet: nat, sold: FeeRule, bought: FeeRule,
                       e: Exchanged)
    requires sold.Valid() && bought.Valid() && takerFee <= HUNDRED_PERCENT
    requires EvalExchange(x, y, x * y, takerFee, amount, minGet, sold, bought) == Fine(e)
    ensures e.receives == amount - MarketFee(sold, amount, true) && e.gets == e.pays - MarketFee(bought, e.pays, false)
    ensures exists delta: nat ::
              && delta < y && e.pays + PercentOf(delta, takerFee) == delta
              && (x + e.receives) * (y - delta) >= x * y > (x + e.receives) * (y - delta - 1)
  {
    hide CeilDiv, PercentOf, MarketFee;
    SwapSide(x, y, e.receives, takerFee);
    var newY := CeilDiv(x * y, x + e.receives);
    CeilDivSpec(x * y, x + e.receives, newY);
    CeilDivSpec(x * y, x + e.receives, newY - 1);
    var delta: nat := y - newY;
    assert (x + e.receives) * (y - delta) >= x * y > (x + e.receives) * (y - delta - 1);
  }

  // ----- exactly when each evaluation succeeds, and with what

  /** The least amount that pays for this many shares. */
  predicate PaysFor(paid: nat, shares: nat, balance: nat, supply: nat) {
    0 < paid && (paid - 1) * supply < shares * balance <= paid * supply
  }

  /** These many shares are affordable on both sides and within the maximum supply. */
  predicate Affordable(p: Pool, amountA: nat, amountB: nat, shares: nat) {
    shares * p.a <= p.supply * amountA && shares * p.b <= p.supply * amountB && p.supply + shares <= p.maxSupply
  }

  /** A deposit, in terms of the pool and the offer. */
  predicate DepositOf(p: Pool, amountA: nat, amountB: nat, byOwner: bool, d: Deposited) {
    && amountA > 0 && amountB > 0 && p.supply < p.maxSupply
    && if p.supply == 0 then
         byOwner && d.a == amountA && d.b == amountB && d.shares == Max(amountA, amountB) <= p.maxSupply
       else
         && 0 < d.shares && Affordable(p, amountA, amountB, d.shares) && !Affordable(p, amountA, amountB, d.shares + 1)
         && PaysFor(d.a, d.shares, p.a, p.supply) && PaysFor(d.b, d.shares, p.b, p.supply)
         && p.a + d.a <= INT64_MAX && p.b + d.b <= INT64_MAX
  }

  /** A deposit succeeds exactly with the most shares that are affordable, for the least amounts that pay for them. */
  lemma DepositExactly(p: Pool, amountA: nat, amountB: nat, byOwner: bool, d: Deposited)
    requires Sound(p)
    ensures EvalDeposit(p, amountA, amountB, byOwner) == Fine(d) <==> DepositOf(p, amountA, amountB, byOwner, d)
  {
    hide FloorDiv, CeilDiv, Affordable, PaysFor;
    if amountA > 0 && amountB > 0 && 0 < p.supply < p.maxSupply {
      DepositFacts(p, amountA, amountB, byOwner);
      var shares := Min(Min(FloorDiv(p.supply * amountA, p.a), FloorDiv(p.supply * amountB, p.b)),
                        p.maxSupply - p.supply);
      DepositSide(p.a, p.supply, amountA, shares);
      DepositSide(p.b, p.supply, amountB, shares);
      AffordableIff(p, amountA, amountB, d.shares);
      AffordableIff(p, amountA, amountB, d.shares + 1);
      PaysForIff(d.a, d.shares, p.a, p.supply);
      PaysForIff(d.b, d.shares, p.b, p.supply);
    }
  }

  lemma AffordableIff(p: Pool, amountA: nat, amountB: nat, shares: nat)
    requires Sound(p) && p.supply > 0
    ensures Affordable(p, amountA, amountB, shares) <==>
              && shares <= FloorDiv(p.supply * amountA, p.a) && shares <= FloorDiv(p.supply * amountB, p.b)
              && p.supply + shares <= p.maxSupply
  {
    hide FloorDiv;
    FloorDivSpec(p.supply * amountA, p.a, shares);
    FloorDivSpec(p.supply * amountB, p.b, shares);
  }

  lemma PaysForIff(paid: nat, shares: nat, balance: nat, supply: nat)
    requires supply > 0 && balance > 0
    ensures shares > 0 ==> (PaysFor(paid, shares, balance, supply) <==> paid == CeilDiv(shares * balance, supply))
  {
    hide CeilDiv;
    if shares > 0 {
      MulLeq(1, shares, balance);
      CeilDivSpec(shares * balance, supply, paid);
      if paid > 0 {
        CeilDivSpec(shares * balance, supply, paid - 1);
      }
    }
  }

  /** The whole part of what these many shares are worth on one side. */
  predicate WorthOf(gross: nat, shares: nat, balance: nat, supply: nat) {
    gross * supply <= shares * balance < (gross + 1) * supply
  }

  /**
   A withdrawal succeeds exactly for shares there are, unless it would yield nothing; it yields everything for all of
   them, and else the whole part of their worth on each side less the withdrawal fee on that.
   */
  lemma WithdrawExactly(p: Pool, shares: nat, w: Withdrawn) returns (a: nat, b: nat, feeA: nat, feeB: nat)
    requires Sound(p)
    ensures 0 < shares < p.supply ==>
              && WorthOf(a, shares, p.a, p.supply) && IsPercent(feeA, a, p.withdrawalFee)
              && WorthOf(b, shares, p.b, p.supply) && IsPercent(feeB, b, p.withdrawalFee)
    ensures EvalWithdraw(p, shares) == Fine(w) <==>
              && 0 < shares <= p.supply
              && (shares == p.supply ==> w == Withdrawn(p.a, p.b))
              && (shares < p.supply ==> w.a + feeA == a && w.b + feeB == b && w.a + w.b > 0)
  {
    a, b, feeA, feeB := 0, 0, 0, 0;
    if 0 < shares < p.supply {
      a, b := FloorDiv(shares * p.a, p.supply), FloorDiv(shares * p.b, p.supply);
      feeA, feeB := PercentOf(a, p.withdrawalFee), PercentOf(b, p.withdrawalFee);
      PercentIs(a, p.withdrawalFee);
      PercentIs(b, p.withdrawalFee);
      hide FloorDiv, PercentOf, IsPercent;
      FloorDivSpec(shares * p.a, p.supply, a);
      FloorDivSpec(shares * p.a, p.supply, a + 1);
      FloorDivSpec(shares * p.b, p.supply, b);
      FloorDivSpec(shares * p.b, p.supply, b + 1);
      WithdrawFacts(p, shares);
      WithdrawSide(p.a, p.supply, shares, p.withdrawalFee);
      WithdrawSide(p.b, p.supply, shares, p.withdrawalFee);
    }
  }

  lemma PercentIs(x: nat, percent: nat)
    ensures IsPercent(PercentOf(x, percent), x, percent)
  {
  }

  predicate Keeps(x: nat, y: nat, product: nat) { x * y >= product }

  lemma MostKept(x: nat, y: nat, receives: nat)
    requires x > 0 && y > 0 && receives > 0
    ensures var newY := CeilDiv(x * y, x + receives);
            0 < newY <= y && Keeps(x + receives, newY, x * y) && !Keeps(x + receives, newY - 1, x * y)
  {
    hide CeilDiv;
    SwapSide(x, y, receives, 0);
    var newY := CeilDiv(x * y, x + receives);
    CeilDivSpec(x * y, x + receives, newY);
    CeilDivSpec(x * y, x + receives, newY - 1);
  }

  /**
   A swap succeeds exactly if the pool is live, something is sold after its market fee, the balance stays in range, and
   at least the required amount is received.  What leaves the pool is the most that keeps the product, less the taker
   fee on that.
   */
  lemma ExchangeExactly(x: nat, y: nat, takerFee: nat, amount: nat, minGet: nat, sold: FeeRule, bought: FeeRule,
                        e: Exchanged)
    returns (delta: nat, fee: nat)
    requires sold.Valid() && bought.Valid() && takerFee <= HUNDRED_PERCENT
    ensures var able := x > 0 && y > 0 && amount > 0 && minGet > 0 && MarketFee(sold, amount, true) < amount;
            && (able ==>
                  var newX := x + (amount - MarketFee(sold, amount, true));
                  && delta < y && Keeps(newX, y - delta, x * y) && !Keeps(newX, y - delta - 1, x * y)
                  && fee <= delta && IsPercent(fee, delta, takerFee))
            && (EvalExchange(x, y, x * y, takerFee, amount, minGet, sold, bought) == Fine(e) <==>
                  && able && e.receives + MarketFee(sold, amount, true) == amount && x + e.receives <= INT64_MAX
                  && e.pays + fee == delta && e.gets + MarketFee(bought, e.pays, false) == e.pays && e.gets >= minGet)
  {
    delta, fee := 0, 0;
    if x > 0 && y > 0 && amount > 0 && MarketFee(sold, amount, true) < amount {
      var receives := amount - MarketFee(sold, amount, true);
      var newY := CeilDiv(x * y, x + receives);
      MostKept(x, y, receives);
      SwapSide(x, y, receives, takerFee);
      delta := y - newY;
      fee := PercentOf(delta, takerFee);
      PercentIs(delta, takerFee);
      hide CeilDiv, PercentOf, MarketFee, IsPercent, Keeps;
      ExchangeFacts(x, y, takerFee, amount, minGet, sold, bought);
    }
  }

  /**
   From `p` to `q` the amounts of the operation's evaluation moved, and the cached product is that of the balances.
   */
  predicate Moved(p: Pool, op: Op, ruleA: FeeRule, ruleB: FeeRule, q: Pool)
    requires p.value == p.a * p.b && ruleA.Valid() && ruleB.Valid()
  {
    && q == p.(a := q.a, b := q.b, supply := q.supply).WithProduct()
    && match op
       case Deposit(amountA, amountB, byOwner) =>
         && p.a <= q.a <= INT64_MAX && p.b <= q.b <= INT64_MAX && p.supply <= q.supply
         && EvalDeposit(p, amountA, amountB, byOwner) == Fine(Deposited(q.a - p.a, q.b - p.b, q.supply - p.supply))
       case Withdraw(shares) =>
         && q.supply + shares == p.supply && q.a <= p.a && q.b <= p.b
         && EvalWithdraw(p, shares) == Fine(Withdrawn(p.a - q.a, p.b - q.b))
       case Exchange(sellA, amount, minGet) =>
         && q.supply == p.supply
         && (sellA ==> q.a >= p.a && q.b <= p.b &&
                       Swapped(EvalExchange(p.a, p.b, p.value, p.takerFee, amount, minGet, ruleA, ruleB),
                               q.a - p.a, p.b - q.b))
         && (!sellA ==> q.b >= p.b && q.a <= p.a &&
                        Swapped(EvalExchange(p.b, p.a, p.value, p.takerFee, amount, minGet, ruleB, ruleA),
                                q.b - p.b, p.a - q.a))
       case Burn(shares) => q.a == p.a && q.b == p.b && shares < p.supply && q.supply + shares == p.supply
  }

  predicate Swapped(r: Outcome<Exchanged>, receives: nat, pays: nat) {
    r.Fine? && r.value.receives == receives && r.value.pays == pays
  }

  /** An operation on a sound pool succeeds exactly if these movements are possible, and makes them. */
  lemma StepMoves(p: Pool, op: Op, ruleA: FeeRule, ruleB: FeeRule, q: Pool)
    requires Sound(p) && ruleA.Valid() && ruleB.Valid()
    ensures Step(p, op, ruleA, ruleB) == Fine(q) <==> Moved(p, op, ruleA, ruleB, q)
  {
    match op {
      case Deposit(_, _, _) => DepositMoves(p, op, ruleA, ruleB, q);
      case Withdraw(_) => WithdrawMoves(p, op, ruleA, ruleB, q);
      case Exchange(_, _, _) => ExchangeMoves(p, op, ruleA, ruleB, q);
      case Burn(shares) =>
    }
  }

  lemma DepositYields(p: Pool, amountA: nat, amountB: nat, byOwner: bool)
    requires Sound(p)
    ensures var r := EvalDeposit(p, amountA, amountB, byOwner);
            !r.Internal? && (r.Fine? ==> r.value.a > 0 && r.value.b > 0 && r.value.shares > 0)
  {
    hide EvalDeposit;
    DepositFacts(p, amountA, amountB, byOwner);
  }

  lemma DepositMoves(p: Pool, op: Op, ruleA: FeeRule, ruleB: FeeRule, q: Pool)
    requires p.value == p.a * p.b && Sound(p) && ruleA.Valid() && ruleB.Valid() && op.Deposit?
    ensures Step(p, op, ruleA, ruleB) == Fine(q) <==> Moved(p, op, ruleA, ruleB, q)
  {
    hide EvalDeposit, EvalWithdraw, EvalExchange, Pool.WithProduct, Sound;
    DepositYields(p, op.amountA, op.amountB, op.byOwner);
  }

  lemma WithdrawMoves(p: Pool, op: Op, ruleA: FeeRule, ruleB: FeeRule, q: Pool)
    requires Sound(p) && ruleA.Valid() && ruleB.Valid() && op.Withdraw?
    ensures Step(p, op, ruleA, ruleB) == Fine(q) <==> Moved(p, op, ruleA, ruleB, q)
  {
    hide EvalDeposit, EvalWithdraw, EvalExchange, Pool.WithProduct;
    WithdrawFacts(p, op.shares);
  }

  lemma ExchangeMoves(p: Pool, op: Op, ruleA: FeeRule, ruleB: FeeRule, q: Pool)
    requires Sound(p) && ruleA.Valid() && ruleB.Valid() && op.Exchange?
    ensures Step(p, op, ruleA, ruleB) == Fine(q) <==> Moved(p, op, ruleA, ruleB, q)
  {
    hide EvalDeposit, EvalWithdraw, EvalExchange;
    ExchangeStep(p, op.sellA, op.amount, op.minGet, ruleA, ruleB);
  }

  /** A pool seen as a price: product of the balances over the square of the share supply. */
  function Backing(p: Pool): Price { Price(p.a * p.b, p.supply * p.supply) }

  /** If each balance per share does not fall, neither does the backing. */
  lemma BackingFromSides(p: Pool, q: Pool)
    requires q.a * p.supply >= p.a * q.supply && q.b * p.supply >= p.b * q.supply
    ensures Backing(p).AtMost(Backing(q))
  {
    var s, t := p.supply, q.supply;
    MulLeq(p.a * t, q.a * s, p.b * t);
    MulLeq(p.b * t, q.b * s, q.a * s);
    assert (p.a * t) * (p.b * t) == (p.a * p.b) * (t * t) by { Regroup(p.a, t, p.b, t); }
    assert (q.a * s) * (q.b * s) == (q.a * q.b) * (s * s) by { Regroup(q.a, s, q.b, s); }
  }

  lemma Regroup(x: nat, y: nat, z: nat, w: nat)
    ensures (x * y) * (z * w) == (x * z) * (y * w)
  {
  }

  /**
   Every operation of a sound pool keeps it sound and never trips an internal check; as long as shares remain, the
   product of the balances per squared share does not fall.
   */
  lemma StepKeepsSound(p: Pool, op: Op, ruleA: FeeRule, ruleB: FeeRule)
    requires Sound(p) && ruleA.Valid() && ruleB.Valid()
    ensures !Step(p, op, ruleA, ruleB).Internal?
    ensures Step(p, op, ruleA, ruleB).Fine? ==>
              var q := Step(p, op, ruleA, ruleB).value;
              Sound(q) && (p.supply > 0 && q.supply > 0 ==> Backing(p).AtMost(Backing(q)))
  {
    hide EvalDeposit, EvalWithdraw, EvalExchange, Price.Less;
    match op {
      case Deposit(amountA, amountB, byOwner) =>
        DepositFacts(p, amountA, amountB, byOwner);
        if EvalDeposit(p, amountA, amountB, byOwner).Fine? {
          var d := EvalDeposit(p, amountA, amountB, byOwner).value;
          var q := p.(a := p.a + d.a, b := p.b + d.b, supply := p.supply + d.shares).WithProduct();
          SideAfterDeposit(p.a, d.a, p.supply, d.shares);
          SideAfterDeposit(p.b, d.b, p.supply, d.shares);
          BackingFromSides(p, q);
        }
      case Withdraw(shares) =>
        WithdrawFacts(p, shares);
        if EvalWithdraw(p, shares).Fine? {
          var w := EvalWithdraw(p, shares).value;
          var q := p.(a := p.a - w.a, b := p.b - w.b, supply := p.supply - shares).WithProduct();
          if shares < p.supply {
            SideAfterWithdraw(p.a, w.a, p.supply, shares);
            SideAfterWithdraw(p.b, w.b, p.supply, shares);
            BackingFromSides(p, q);
          }
        }
      case Exchange(sellA, amount, minGet) =>
        ExchangeStep(p, sellA, amount, minGet, ruleA, ruleB);
      case Burn(shares) =>
        if shares < p.supply {
          var q := p.(supply := p.supply - shares);
          MulLeq(q.supply, p.supply, p.a);
          MulLeq(q.supply, p.supply, p.b);
          BackingFromSides(p, q);
        }
    }
  }

  lemma SideAfterDeposit(balance: nat, added: nat, supply: nat, shares: nat)
    requires added * supply >= shares * balance
    ensures (balance + added) * supply >= balance * (supply + shares)
  {
  }

  lemma SideAfterWithdraw(balance: nat, taken: nat, supply: nat, shares: nat)
    requires taken <= balance && shares <= supply && taken * supply <= shares * balance
    ensures (balance - taken) * supply >= balance * (supply - shares)
  {
  }

  lemma ExchangeStep(p: Pool, sellA: bool, amount: nat, minGet: nat, ruleA: FeeRule, ruleB: FeeRule)
    requires Sound(p) && ruleA.Valid() && ruleB.Valid()
    ensures var r := Step(p, Exchange(sellA, amount, minGet), ruleA, ruleB);
            && !r.Internal?
            && (r.Fine? ==> Sound(r.value) && r.value.supply == p.supply && p.value <= r.value.value &&
                            Backing(p).AtMost(Backing(r.value)))
  {
    hide EvalExchange;
    var x, y := if sellA then p.a else p.b, if sellA then p.b else p.a;
    var sold, bought := if sellA then ruleA else ruleB, if sellA then ruleB else ruleA;
    assert p.value == x * y;
    ExchangeFacts(x, y, p.takerFee, amount, minGet, sold, bought);
    var r := Step(p, Exchange(sellA, amount, minGet), ruleA, ruleB);
    if r.Fine? {
      var q := r.value;
      MulLeq(p.a * p.b, q.a * q.b, p.supply * p.supply);
    }
  }

  // ----- whole runs

  /** Refused operations change nothing. */
  function Steps(p: Pool, ops: seq<Op>, ruleA: FeeRule, ruleB: FeeRule): seq<Pool>
    requires Sound(p) && ruleA.Valid() && ruleB.Valid()
    decreases |ops|
  {
    if ops == [] then [p]
    else
      StepKeepsSound(p, ops[0], ruleA, ruleB);
      var r := Step(p, ops[0], ruleA, ruleB);
      [p] + Steps(if r.Fine? then r.value else p, ops[1..], ruleA, ruleB)
  }

  /** Every state of every run is sound, so no internal check can ever fire. */
  lemma {:induction false} EveryStateIsSound(p: Pool, ops: seq<Op>, ruleA: FeeRule, ruleB: FeeRule, i: nat)
    requires Sound(p) && ruleA.Valid() && ruleB.Valid() && i <= |ops|
    ensures |Steps(p, ops, ruleA, ruleB)| == |ops| + 1
    ensures Sound(Steps(p, ops, ruleA, ruleB)[i])
    ensures i < |ops| ==> !Step(Steps(p, ops, ruleA, ruleB)[i], ops[i], ruleA, ruleB).Internal?
    decreases |ops|
  {
    hide Step;
    if ops != [] {
      StepKeepsSound(p, ops[0], ruleA, ruleB);
      var r := Step(p, ops[0], ruleA, ruleB);
      EveryStateIsSound(if r.Fine? then r.value else p, ops[1..], ruleA, ruleB, if i == 0 then 0 else i - 1);
    } else {
      assert i == 0;
    }
  }

  /** Each state of a run follows from the one before by the operation, or by its being refused. */
  lemma {:induction false} StepsFollow(p: Pool, ops: seq<Op>, ruleA: FeeRule, ruleB: FeeRule, i: nat)
    requires Sound(p) && ruleA.Valid() && ruleB.Valid() && i < |ops|
    requires |Steps(p, ops, ruleA, ruleB)| == |ops| + 1 && Sound(Steps(p, ops, ruleA, ruleB)[i])
    ensures Steps(p, ops, ruleA, ruleB)[0] == p
    ensures var all := Steps(p, ops, ruleA, ruleB);
            var r := Step(all[i], ops[i], ruleA, ruleB);
            all[i + 1] == if r.Fine? then r.value else all[i]
    decreases |ops|
  {
    hide Step;
    StepKeepsSound(p, ops[0], ruleA, ruleB);
    var r := Step(p, ops[0], ruleA, ruleB);
    var q := if r.Fine? then r.value else p;
    FirstState(q, ops[1..], ruleA, ruleB);
    if i > 0 {
      StepsFollow(q, ops[1..], ruleA, ruleB, i - 1);
    }
  }

  /** In a run during which the pool is never emptied, a share is never backed by less than at the start. */
  lemma {:induction false} BackingNeverFalls(p: Pool, ops: seq<Op>, ruleA: FeeRule, ruleB: FeeRule, i: nat)
    requires Sound(p) && ruleA.Valid() && ruleB.Valid() && i <= |ops|
    requires |Steps(p, ops, ruleA, ruleB)| == |ops| + 1
    requires forall k | 0 <= k <= i :: Steps(p, ops, ruleA, ruleB)[k].supply > 0
    ensures Backing(p).AtMost(Backing(Steps(p, ops, ruleA, ruleB)[i]))
    decreases |ops|
  {
    hide Step, Price.Less;
    if i == 0 {
      BackingReflexive(p);
    } else {
      StepKeepsSound(p, ops[0], ruleA, ruleB);
      var r := Step(p, ops[0], ruleA, ruleB);
      var q := if r.Fine? then r.value else p;
      var all := Steps(p, ops, ruleA, ruleB);
      var tail := Steps(q, ops[1..], ruleA, ruleB);
      assert all == [p] + tail;
      forall k | 0 <= k <= i - 1 ensures tail[k].supply > 0 {
        assert tail[k] == all[k + 1];
      }
      EveryStateIsSound(q, ops[1..], ruleA, ruleB, i - 1);
      assert all[0] == p && tail[0] == all[1];
      FirstState(q, ops[1..], ruleA, ruleB);
      BackingNeverFalls(q, ops[1..], ruleA, ruleB, i - 1);
      BackingReflexive(p);
      LiveBackingIsValid(p);
      LiveBackingIsValid(q);
      LiveBackingIsValid(tail[i - 1]);
      AtMostTransitive(Backing(p), Backing(q), Backing(tail[i - 1]));
    }
  }

  lemma FirstState(p: Pool, ops: seq<Op>, ruleA: FeeRule, ruleB: FeeRule)
    requires Sound(p) && ruleA.Valid() && ruleB.Valid()
    ensures |Steps(p, ops, ruleA, ruleB)| > 0 && Steps(p, ops, ruleA, ruleB)[0] == p
  {
  }

  lemma BackingReflexive(p: Pool)
    ensures Backing(p).AtMost(Backing(p))
  {
  }

  lemma LiveBackingIsValid(p: Pool)
    requires Sound(p) && p.supply > 0
    ensures Backing(p).Valid()
  {
  }

  // ----- round trips

  /** Depositing and withdrawing the same shares never returns more of either asset than was put in. */
  lemma DepositThenWithdraw(p: Pool, amountA: nat, amountB: nat, byOwner: bool, d: Deposited, q: Pool, w: Withdrawn)
    requires Sound(p) && EvalDeposit(p, amountA, amountB, byOwner) == Fine(d)
    requires q == p.(a := p.a + d.a, b := p.b + d.b, supply := p.supply + d.shares).WithProduct()
    requires EvalWithdraw(q, d.shares) == Fine(w)
    ensures w.a <= d.a && w.b <= d.b
  {
    hide EvalDeposit, EvalWithdraw;
    DepositFacts(p, amountA, amountB, byOwner);
    WithdrawAtMostShare(q, d.shares, w);
    if p.supply > 0 {
      RoundTripSide(p.a, d.a, p.supply, d.shares);
      RoundTripSide(p.b, d.b, p.supply, d.shares);
    }
  }

  lemma WithdrawAtMostShare(p: Pool, shares: nat, w: Withdrawn)
    requires EvalWithdraw(p, shares) == Fine(w)
    ensures p.supply == shares ==> w == Withdrawn(p.a, p.b)
    ensures p.supply > 0 && (p.supply != shares ==>
              w.a <= FloorDiv(shares * p.a, p.supply) && w.b <= FloorDiv(shares * p.b, p.supply))
  {
  }

  lemma RoundTripSide(balance: nat, added: nat, supply: nat, shares: nat)
    requires supply > 0 && added * supply >= shares * balance
    ensures FloorDiv(shares * (balance + added), supply + shares) <= added
  {
  }

  /** From balances `x` and `y` an exchange of `amount` comes out as `e`. */
  predicate Swaps(x: nat, y: nat, takerFee: nat, amount: nat, minGet: nat, sold: FeeRule, bought: FeeRule, e: Exchanged)
    requires sold.Valid() && bought.Valid() && takerFee <= HUNDRED_PERCENT
  {
    EvalExchange(x, y, x * y, takerFee, amount, minGet, sold, bought) == Fine(e)
  }

  /**
   Swapping and swapping back what was received never returns more than was sold.  The pool is (x, y) before, the
   account sells `amount` of x and gets `e.gets` of y, then sells at most that back.
   */
  lemma SwapThenSwapBack(x: nat, y: nat, takerFee: nat, amount: nat, min1: nat, e: Exchanged, x1: nat, y1: nat,
                         back: nat, min2: nat, r: Exchanged, ruleX: FeeRule, ruleY: FeeRule)
    requires ruleX.Valid() && ruleY.Valid() && takerFee <= HUNDRED_PERCENT
    requires Swaps(x, y, takerFee, amount, min1, ruleX, ruleY, e)
    requires x1 == x + e.receives && y1 + e.pays == y && back <= e.gets
    requires Swaps(y1, x1, takerFee, back, min2, ruleY, ruleX, r)
    ensures r.gets <= amount
  {
    hide EvalExchange;
    ExchangeFacts(x, y, takerFee, amount, min1, ruleX, ruleY);
    ExchangeFacts(y1, x1, takerFee, back, min2, ruleY, ruleX);
    ProductFloor(x, y, x1 - r.pays, y1 + r.receives, x1 * y1);
  }

  lemma ProductFloor(x: nat, y: nat, x2: nat, y2: nat, middle: nat)
    requires y > 0 && y2 <= y && x * y <= middle && middle <= y2 * x2
    ensures x <= x2
  {
  }

  // ----- width of the intermediate values

  /** All intermediate values of the evaluators fit 128 bits. */
  lemma IntermediatesFit(p: Pool, amount: nat, shares: nat, receives: nat)
    requires Sound(p) && amount <= INT64_MAX && shares <= p.maxSupply
    ensures p.supply * amount < TWO_TO_128
    ensures shares * p.a + p.supply < TWO_TO_128 && shares * p.b + p.supply < TWO_TO_128
    ensures p.a + receives <= INT64_MAX ==> p.value + (p.a + receives) < TWO_TO_128
    ensures p.b + receives <= INT64_MAX ==> p.value + (p.b + receives) < TWO_TO_128
    ensures p.a * p.takerFee < TWO_TO_128 && p.a * p.withdrawalFee < TWO_TO_128
    ensures p.b * p.takerFee < TWO_TO_128 && p.b * p.withdrawalFee < TWO_TO_128
  {
    ProductFits(p.supply, amount);
    ProductFits(shares, p.a);
    ProductFits(shares, p.b);
    ProductFits(p.a, p.b);
    ProductFits(p.a, p.takerFee);
    ProductFits(p.a, p.withdrawalFee);
    ProductFits(p.b, p.takerFee);
    ProductFits(p.b, p.withdrawalFee);
  }

  lemma ProductFits(x: nat, y: nat)
    requires x <= INT64_MAX && y <= INT64_MAX
    ensures x * y + INT64_MAX < TWO_TO_128
  {
    MulLeq(x, INT64_MAX, y);
    MulLeq(y, INT64_MAX, INT64_MAX);
  }

  /** The pool object: evaluation fixes the amounts, application moves them. */
  class LiquidityPool {
    var p: Pool
    const ruleA: FeeRule
    const ruleB: FeeRule

    ghost predicate Valid()
      reads this
    {
      Sound(p) && ruleA.Valid() && ruleB.Valid()
    }

    /** A new pool is bound to a share asset without supply. */
    constructor (maxSupply: nat, takerFee: nat, withdrawalFee: nat, ruleA: FeeRule, ruleB: FeeRule)
      requires maxSupply <= MAX_SHARE_SUPPLY && takerFee <= HUNDRED_PERCENT && withdrawalFee <= HUNDRED_PERCENT
      requires ruleA.Valid() && ruleB.Valid()
      ensures Valid() && p == Pool(0, 0, 0, 0, maxSupply, takerFee, withdrawalFee)
    {
      p := Pool(0, 0, 0, 0, maxSupply, takerFee, withdrawalFee);
      this.ruleA, this.ruleB := ruleA, ruleB;
    }

    method Apply(op: Op) returns (ok: bool)
      requires Valid()
      modifies this
      ensures Valid()
      ensures ok <==> Step(old(p), op, ruleA, ruleB).Fine?
      ensures p == if ok then Step(old(p), op, ruleA, ruleB).value else old(p)
      ensures ok ==> Moved(old(p), op, ruleA, ruleB, p)
      ensures old(p.supply > 0) && p.supply > 0 ==> Backing(old(p)).AtMost(Backing(p))
    {
      hide Price.Less, EvalDeposit, EvalWithdraw, EvalExchange, Moved;
      StepKeepsSound(p, op, ruleA, ruleB);
      if Step(p, op, ruleA, ruleB).Fine? {
        StepMoves(p, op, ruleA, ruleB, Step(p, op, ruleA, ruleB).value);
      }
      BackingReflexive(p);
      ok := false;
      match op {
        case Deposit(amountA, amountB, byOwner) =>
          var r := EvalDeposit(p, amountA, amountB, byOwner);
          if r.Fine? && p.a + r.value.a <= INT64_MAX && p.b + r.value.b <= INT64_MAX {
            var q := p.(a := p.a + r.value.a, b := p.b + r.value.b, supply := p.supply + r.value.shares);
            p, ok := q.WithProduct(), true;
          }
        case Withdraw(shares) =>
          var r := EvalWithdraw(p, shares);
          if r.Fine? {
            var q := p.(a := p.a - r.value.a, b := p.b - r.value.b, supply := p.supply - shares);
            p, ok := q.WithProduct(), true;
          }
        case Exchange(sellA, amount, minGet) =>
          if sellA {
            var r := EvalExchange(p.a, p.b, p.value, p.takerFee, amount, minGet, ruleA, ruleB);
            if r.Fine? {
              p, ok := p.(a := p.a + r.value.receives, b := p.b - r.value.pays).WithProduct(), true;
            }
          } else {
            var r := EvalExchange(p.b, p.a, p.value, p.takerFee, amount, minGet, ruleB, ruleA);
            if r.Fine? {
              p, ok := p.(a := p.a - r.value.pays, b := p.b + r.value.receives).WithProduct(), true;
            }
          }
        case Burn(shares) =>
          if shares < p.supply {
            p, ok := p.(supply := p.supply - shares), true;
          }
      }
    }
  }
}
