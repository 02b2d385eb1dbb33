/**
 Redeeming a globally settled asset (libraries/chain/asset_evaluator.cpp, `asset_settle_evaluator::do_apply`).

 The settlement price is the supply over the fund at the time of the settlement.  Holders redeem at that price,
 rounded in favour of the fund; the holder of the whole remaining supply takes the whole remaining fund.
 */
module Redemption {
  import opened Prices

  datatype Claim = Claim(pays: nat, gets: nat)

  /** `None` when the operation throws. */
  function Redeem(supply: nat, fund: nat, price: Price, amount: nat): Option<Claim>
    requires price.base > 0
  {
    var gets := if amount == supply then fund else Down(amount, price);
    if gets > fund || gets == 0 then None
    else if amount == supply then Some(Claim(amount, gets))
    else if price.quote == 0 then None
    else Some(Claim(Up(gets, price.Inv()), gets))
  }

  /** The fund covers the supply at the settlement price. */
  predicate Solvent(supply: nat, fund: nat, price: Price) {
    fund * price.base >= supply * price.quote && (supply == 0 ==> fund == 0)
  }

  /**
   One redemption of a solvent fund: the fund is never overdrawn, the holder pays no more than asked and gets exactly
   what the payment is worth, and the fund stays solvent.
   */
  lemma RedeemKeepsSolvent(supply: nat, fund: nat, price: Price, amount: nat)
    requires price.base > 0 && Solvent(supply, fund, price) && amount <= supply
    ensures amount < supply ==> Down(amount, price) <= fund
    ensures amount < supply && price.quote > 0 ==> Down(amount, price) < fund
    ensures match Redeem(supply, fund, price, amount)
            case None => fund == 0 || (amount < supply && Down(amount, price) == 0)
            case Some(Claim(pays, gets)) =>
              && 0 < pays <= amount && 0 < gets <= fund
              && Solvent(supply - pays, fund - gets, price)
              && (amount == supply ==> pays == supply && gets == fund)
              && (amount < supply ==> pays < supply && gets == Down(amount, price) == Down(pays, price))
  {
    hide Up;
    if amount < supply {
      if price.quote == 0 {
        assert Down(amount, price) == 0;
      } else {
        RedeemPart(supply, fund, price, amount);
      }
    }
  }

  lemma RedeemPart(supply: nat, fund: nat, price: Price, amount: nat)
    requires price.Valid() && Solvent(supply, fund, price) && amount < supply
    ensures Down(amount, price) < fund
    ensures var gets := Down(amount, price);
            var pays := Up(gets, price.Inv());
            && pays <= amount && Down(pays, price) == gets && (gets > 0 ==> pays > 0)
            && (fund - gets) * price.base >= (supply - pays) * price.quote
  {
    hide Up, Down;
    var gets := Down(amount, price);
    var pays := Up(gets, price.Inv());
    DownSpec(amount, gets, price);
    MulLess(amount, supply, price.quote);
    // gets * base <= amount * quote < supply * quote <= fund * base
    Cancel(gets, fund, price.base);
    Stabilize(amount, price);
    UpSpec(gets, pays, price.Inv());
    UpSpec(gets, 0, price.Inv());
    assert (fund - gets) * price.base == fund * price.base - gets * price.base;
    assert (supply - pays) * price.quote == supply * price.quote - pays * price.quote;
  }

  /** A holder of part of the supply gives up the least that is worth what it gets. */
  lemma RedeemPaysLeast(supply: nat, fund: nat, price: Price, amount: nat, k: nat)
    requires price.Valid() && amount < supply
    ensures match Redeem(supply, fund, price, amount)
            case None => Down(amount, price) == 0 || Down(amount, price) > fund
            case Some(c) => c.gets == Down(amount, price) && (c.pays <= k <==> c.gets * price.base <= k * price.quote)
  {
    hide Down, Up;
    UpSpec(Down(amount, price), k, price.Inv());
  }

  // ----- whole runs

  datatype Pot = Pot(supply: nat, fund: nat)

  /** One attempt: a redemption that throws, or asks for more than the supply, changes nothing. */
  function Attempt(s: Pot, price: Price, amount: nat): Pot
    requires price.base > 0
  {
    if amount > s.supply then s
    else
      match Redeem(s.supply, s.fund, price, amount)
      case None => s
      case Some(c) => if c.pays <= s.supply && c.gets <= s.fund then Pot(s.supply - c.pays, s.fund - c.gets) else s
  }

  function Attempts(s: Pot, price: Price, amounts: seq<nat>): Pot
    requires price.base > 0
    decreases |amounts|
  {
    if amounts == [] then s else Attempts(Attempt(s, price, amounts[0]), price, amounts[1..])
  }

  /** From `s` to `t` an amount was redeemed, or could not be. */
  predicate Attempted(s: Pot, price: Price, amount: nat, t: Pot)
    requires price.base > 0
  {
    var r := if amount > s.supply then None else Redeem(s.supply, s.fund, price, amount);
    if r.None? then t == s else t.supply + r.value.pays == s.supply && t.fund + r.value.gets == s.fund
  }

  /** What is left after each attempt. */
  lemma {:induction false} AttemptsFollow(s: Pot, price: Price, amounts: seq<nat>) returns (pots: seq<Pot>)
    requires price.base > 0 && Solvent(s.supply, s.fund, price)
    ensures |pots| == |amounts| + 1 && pots[0] == s && pots[|amounts|] == Attempts(s, price, amounts)
    ensures forall i | 0 <= i < |amounts| :: Attempted(pots[i], price, amounts[i], pots[i + 1])
    decreases |amounts|
  {
    hide Redeem, Solvent;
    if amounts == [] {
      return [s];
    }
    if amounts[0] <= s.supply {
      RedeemKeepsSolvent(s.supply, s.fund, price, amounts[0]);
    }
    var t := Attempt(s, price, amounts[0]);
    var rest := AttemptsFollow(t, price, amounts[1..]);
    pots := [s] + rest;
    forall i | 0 <= i < |amounts|
      ensures Attempted(pots[i], price, amounts[i], pots[i + 1])
    {
      if i > 0 {
        var j := i - 1;
        assert Attempted(rest[j], price, amounts[1..][j], rest[j + 1]);
      }
    }
  }

  /**
   Every run of redemptions after a settlement with supply S0 and fund F0 keeps fund * S0 >= supply * F0, so nobody
   left behind is worse off than the settlement price, and the fund is empty exactly when the supply is (if anything
   was collected at all).
   */
  lemma {:induction false} EveryRunStaysSolvent(s: Pot, price: Price, amounts: seq<nat>)
    requires price.base > 0 && Solvent(s.supply, s.fund, price)
    ensures var t := Attempts(s, price, amounts);
            && Solvent(t.supply, t.fund, price)
            && t.supply <= s.supply && t.fund <= s.fund
            && (price.quote > 0 ==> (t.supply == 0 <==> t.fund == 0))
    decreases |amounts|
  {
    if amounts == [] {
      if price.quote > 0 && s.supply > 0 {
        MulLeq(1, s.supply, price.quote);
        MulLeq(1, s.supply * price.quote, 1);
        assert s.fund != 0;
      }
    } else {
      if amounts[0] <= s.supply {
        RedeemKeepsSolvent(s.supply, s.fund, price, amounts[0]);
      }
      EveryRunStaysSolvent(Attempt(s, price, amounts[0]), price, amounts[1..]);
    }
  }
}
