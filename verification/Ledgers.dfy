/**
 Who holds one asset outside of orders: account balances, the issuer's accumulated market fees and the
 vesting balances of fee sharing (libraries/chain/db_market.cpp, `calculate_market_fee`, `pay_market_fees`).
 */
module Ledgers {
  import opened Prices
  import opened Collections

  /** Who shares in the fees of an account, and the referrer's part of the reward. */
  datatype Sharing = Sharing(registrar: nat, referrer: nat, referrerPercent: nat)

  /** `sharing` lists the accounts whose registrars may be rewarded. */
  datatype FeeRule = FeeRule(charges: bool, makerPercent: nat, takerPercent: Option<nat>, maxFee: nat,
                             rewardPercent: nat, sharing: map<nat, Sharing>)
  {
    predicate Valid() {
      && makerPercent <= HUNDRED_PERCENT && rewardPercent <= HUNDRED_PERCENT
      && (takerPercent.Some? ==> takerPercent.value <= HUNDRED_PERCENT)
      && forall a | a in sharing :: sharing[a].referrerPercent <= HUNDRED_PERCENT
    }
  }

  function PercentOf(x: nat, percent: nat): nat { x * percent / HUNDRED_PERCENT }

  lemma PercentOfBound(x: nat, percent: nat)
    requires percent <= HUNDRED_PERCENT
    ensures PercentOf(x, percent) <= x
  {
  }

  /** The fee on an amount received in a trade: never more than the amount. */
  function MarketFee(rule: FeeRule, amount: nat, isMaker: bool): (fee: nat)
    requires rule.Valid()
    ensures fee <= amount
  {
    if !rule.charges then 0
    else if isMaker && rule.makerPercent == 0 then 0
    else if !isMaker && rule.takerPercent == Some(0) then 0
    else
      var percent := if !isMaker && rule.takerPercent.Some? then rule.takerPercent.value else rule.makerPercent;
      PercentOfBound(amount, percent);
      Min(PercentOf(amount, percent), rule.maxFee)
  }

  /** A percentage, in hundredths of a percent, is rounded down. */
  predicate IsPercent(part: nat, x: nat, percent: nat) {
    part * HUNDRED_PERCENT <= x * percent < (part + 1) * HUNDRED_PERCENT
  }

  lemma PercentOfSpec(x: nat, percent: nat, part: nat)
    ensures PercentOf(x, percent) >= part <==> part * HUNDRED_PERCENT <= x * percent
    ensures percent == 0 ==> x * percent == 0
  {
    QuotientGeq(x * percent, HUNDRED_PERCENT, part);
  }

  /**
   The fee is the largest amount that exceeds neither the maximum nor the percentage; takers have their own percentage
   if one is set, and the makers' otherwise.
   */
  lemma MarketFeeIs(rule: FeeRule, amount: nat, isMaker: bool, fee: nat)
    requires rule.Valid()
    ensures !rule.charges ==> MarketFee(rule, amount, isMaker) == 0
    ensures rule.charges && (isMaker || rule.takerPercent.None?) ==>
              (fee <= MarketFee(rule, amount, isMaker) <==>
               fee * HUNDRED_PERCENT <= amount * rule.makerPercent && fee <= rule.maxFee)
    ensures rule.charges && !isMaker && rule.takerPercent.Some? ==>
              (fee <= MarketFee(rule, amount, isMaker) <==>
               fee * HUNDRED_PERCENT <= amount * rule.takerPercent.value && fee <= rule.maxFee)
  {
    hide PercentOf;
    PercentOfSpec(amount, rule.makerPercent, fee);
    if rule.takerPercent.Some? {
      PercentOfSpec(amount, rule.takerPercent.value, fee);
    }
  }

  function Plus(m: map<nat, nat>, account: nat, x: nat): map<nat, nat> { m[account := Lookup(m, account) + x] }

  lemma PlusTotal(m: map<nat, nat>, account: nat, x: nat)
    ensures SumMap(Plus(m, account, x)) == SumMap(m) + x
  {
    SumMapUpdate(m, account, Lookup(m, account) + x);
  }

  /** From `l` to `n` one account's balance grew by `x`, and no other changed. */
  ghost predicate Credited(l: Ledger, n: Ledger, account: nat, x: nat) {
    forall a :: n.Balance(a) == l.Balance(a) + if a == account then x else 0
  }

  datatype Ledger = Ledger(bal: map<nat, nat>, fees: nat, vested: map<nat, nat>, rule: FeeRule) {
    ghost function Total(): nat { SumMap(bal) + fees + SumMap(vested) }

    function Balance(account: nat): nat { Lookup(bal, account) }

    function Credit(account: nat, x: nat): Ledger {
      this.(bal := bal[account := Balance(account) + x])
    }

    function Debit(account: nat, x: nat): Ledger
      requires x <= Balance(account)
    {
      this.(bal := bal[account := Balance(account) - x])
    }

    /** The part of a market fee that goes to the vesting balances of the seller's registrar and referrer. */
    function Reward(account: nat, fee: nat): (reward: nat)
      requires rule.Valid()
      ensures reward <= fee
    {
      PercentOfBound(fee, rule.rewardPercent);
      if account in rule.sharing then PercentOf(fee, rule.rewardPercent) else 0
    }

    /** The referrer's part is cut from the reward; the registrar gets the rest. */
    function Vest(account: nat, reward: nat): Ledger
      requires rule.Valid() && (reward > 0 ==> account in rule.sharing)
    {
      if reward == 0 then this
      else
        var s := rule.sharing[account];
        var cut := if s.referrer == s.registrar then 0 else PercentOf(reward, s.referrerPercent);
        PercentOfBound(reward, s.referrerPercent);
        this.(vested := Plus(Plus(vested, s.referrer, cut), s.registrar, reward - cut))
    }

    /** Pays `x` to the seller less the market fee; what is not rewarded of the fee accumulates for the issuer. */
    function Receive(account: nat, x: nat, isMaker: bool): Ledger
      requires rule.Valid()
    {
      var fee := MarketFee(rule, x, isMaker);
      var reward := Reward(account, fee);
      var l := Credit(account, x - fee).Vest(account, reward);
      l.(fees := fees + (fee - reward))
    }

    lemma CreditTotal(account: nat, x: nat)
      ensures Credit(account, x).Total() == Total() + x
      ensures Credit(account, x).rule == rule
    {
      SumMapUpdate(bal, account, Balance(account) + x);
    }

    lemma DebitTotal(account: nat, x: nat)
      requires x <= Balance(account)
      ensures Debit(account, x).Total() == Total() - x
      ensures Debit(account, x).rule == rule
      ensures Balance(account) <= Total()
    {
      SumMapUpdate(bal, account, Balance(account) - x);
    }

    lemma VestTotal(account: nat, reward: nat)
      requires rule.Valid() && (reward > 0 ==> account in rule.sharing)
      ensures Vest(account, reward).Total() == Total() + reward
      ensures Vest(account, reward) == this.(vested := Vest(account, reward).vested)
    {
      hide PercentOf, Plus;
      if reward > 0 {
        var s := rule.sharing[account];
        var cut := if s.referrer == s.registrar then 0 else PercentOf(reward, s.referrerPercent);
        PercentOfBound(reward, s.referrerPercent);
        var once := Plus(vested, s.referrer, cut);
        PlusTotal(vested, s.referrer, cut);
        PlusTotal(once, s.registrar, reward - cut);
      }
    }

    /** Account by account. */
    lemma CreditPays(account: nat, x: nat)
      ensures forall a ::
                Credit(account, x).Balance(a) == Balance(a) + if a == account then x else 0
      ensures Credit(account, x).fees == fees && Credit(account, x).vested == vested && Credit(account, x).rule == rule
    {
    }

    lemma DebitTakes(account: nat, x: nat)
      requires x <= Balance(account)
      ensures forall a ::
                Debit(account, x).Balance(a) == Balance(a) - if a == account then x else 0
      ensures Debit(account, x).fees == fees && Debit(account, x).vested == vested && Debit(account, x).rule == rule
    {
    }

    /** A seller whose registrar shares in fees has its percentage of the fee rewarded; others have nothing rewarded. */
    lemma RewardIs(account: nat, fee: nat)
      requires rule.Valid()
      ensures if account in rule.sharing then IsPercent(Reward(account, fee), fee, rule.rewardPercent)
              else Reward(account, fee) == 0
    {
    }

    /** The referrer's percentage of the reward vests for the referrer, the rest for the registrar. */
    lemma VestSplits(account: nat, reward: nat) returns (cut: nat)
      requires rule.Valid() && account in rule.sharing
      ensures var s, l := rule.sharing[account], Vest(account, reward);
              && cut <= reward && (if s.referrer == s.registrar then cut == 0
                                   else IsPercent(cut, reward, s.referrerPercent))
              && (forall a :: Lookup(l.vested, a) ==
                              Lookup(vested, a) + (if a == s.referrer then cut else 0)
                                                + if a == s.registrar then reward - cut else 0)
              && l.bal == bal && l.fees == fees && l.rule == rule
    {
      var s := rule.sharing[account];
      PercentOfBound(reward, s.referrerPercent);
      cut := if s.referrer == s.registrar then 0 else PercentOf(reward, s.referrerPercent);
      hide PercentOf;
      assert reward == 0 ==> cut == 0 by {
        PercentOfBound(0, s.referrerPercent);
      }
    }

    /** The seller alone is paid, less the fee; the issuer accumulates what is not rewarded of the fee. */
    lemma ReceivePays(account: nat, x: nat, isMaker: bool)
      requires rule.Valid()
      ensures var fee := MarketFee(rule, x, isMaker);
              var l := Receive(account, x, isMaker);
              && (forall a :: l.Balance(a) == Balance(a) + if a == account then x - fee else 0)
              && l.fees == fees + (fee - Reward(account, fee))
              && l.vested == Vest(account, Reward(account, fee)).vested
    {
    }

    /** Everything received is accounted for: by the seller, the issuer or the fee sharers. */
    lemma ReceiveTotal(account: nat, x: nat, isMaker: bool)
      requires rule.Valid()
      ensures Receive(account, x, isMaker).Total() == Total() + x
      ensures Receive(account, x, isMaker).rule == rule
      ensures Receive(account, x, isMaker).bal == Credit(account, x - MarketFee(rule, x, isMaker)).bal
    {
      var fee := MarketFee(rule, x, isMaker);
      CreditTotal(account, x - fee);
      Credit(account, x - fee).VestTotal(account, Reward(account, fee));
    }
  }

  lemma EmptyLedger(l: Ledger)
    requires l.bal == map[] && l.vested == map[] && l.fees == 0
    ensures l.Total() == 0
  {
  }
}
