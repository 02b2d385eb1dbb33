/**
 Sizing a margin call (libraries/chain/market_object.cpp, `call_order_object::get_max_debt_to_cover`).

 Given a position, the price it would be matched at and the price feed, decide how much debt to cover so that
 the remaining position is strictly above its target collateral ratio.  Prices are in collateral / debt form:
 `base` is the collateral amount and `quote` the debt amount.
 */
module MarginCall {
  import opened Prices
  import opened PriceScaling
  import PriceAccuracy

  datatype CallOrder = CallOrder(id: nat, borrower: nat, collateral: nat, debt: nat, target: Option<nat>) {
    predicate Valid() {
      0 < collateral <= MAX_SHARE_SUPPLY && 0 < debt <= MAX_SHARE_SUPPLY &&
      (target.Some? ==> target.value <= 65535)
    }
    function Collateralization(): Price { Price(collateral, debt) }
  }

  /** The feed values a margin call looks at. */
  datatype Feed = Feed(price: Price, mcr: nat, mssr: nat) {
    /** `price` is collateral / debt; ratios are in thousandths. */
    predicate Valid() {
      && price.Valid() && price.base <= MAX_SHARE_SUPPLY && price.quote <= MAX_SHARE_SUPPLY
      && 1001 <= mcr <= 32000 && 1001 <= mssr <= 32000
    }
    function MaintenanceCollateralization(): Price
      requires Valid()
    {
      Scale(price, mcr, COLLATERAL_RATIO_DENOM)
    }
  }

  function TargetRatio(target: nat, mcr: nat): nat { Max(target, mcr) }

  function TargetCollateralization(call: CallOrder, feed: Feed): Price
    requires feed.Valid() && call.target.Some?
  {
    Scale(feed.price, TargetRatio(call.target.value, feed.mcr), COLLATERAL_RATIO_DENOM)
  }

  predicate Callable(call: CallOrder, feed: Feed)
    requires feed.Valid()
  {
    !feed.MaintenanceCollateralization().Less(call.Collateralization())
  }

  /** What the caller charges for covering `cover`: the match price, rounded up. */
  function Payment(cover: nat, mp: Price): nat
    requires mp.Valid()
  {
    Up(cover, mp.Inv())
  }

  /** What a payment buys: the match price, rounded down. */
  function Bought(pay: nat, mp: Price): nat
    requires mp.Valid()
  {
    Down(pay, mp)
  }

  /** The position left after paying `pay` for `cover` is strictly above the target. */
  predicate Good(call: CallOrder, target: Price, pay: nat, cover: nat) {
    pay < call.collateral && cover < call.debt &&
    target.Less(Price(call.collateral - pay, call.debt - cover))
  }

  /** The pair tested for goodness is the pair the caller will execute. */
  predicate Stable(pay: nat, cover: nat, mp: Price)
    requires mp.Valid()
  {
    pay == Payment(cover, mp) && cover == Bought(pay, mp)
  }

  /** A search result that is neither nothing nor everything leaves the position above target. */
  predicate Sized(call: CallOrder, target: Price, mp: Price, cover: nat)
    requires mp.Valid()
  {
    cover == call.debt || Good(call, target, Payment(cover, mp), cover)
  }

  /** Sums of two amounts of this position fit 64 bits. */
  predicate SumsFit(call: CallOrder) {
    2 * call.collateral <= INT64_MAX && 2 * call.debt <= INT64_MAX
  }

  /** No conversion between the two assets at this price leaves the range of amounts. */
  predicate ConversionsFit(call: CallOrder, mp: Price)
    requires mp.Valid()
  {
    Payment(call.debt, mp) <= MAX_SHARE_SUPPLY && Bought(call.collateral, mp) <= MAX_SHARE_SUPPLY
  }

  // ----- the closed form

  function Numerator(call: CallOrder, mp: Price, fp: Price, tcr: nat): int {
    fp.base * mp.quote * call.debt * tcr - fp.quote * mp.quote * call.collateral * COLLATERAL_RATIO_DENOM
  }

  function Denominator(mp: Price, fp: Price, tcr: nat): int {
    fp.base * mp.quote * tcr - fp.quote * mp.base * COLLATERAL_RATIO_DENOM
  }

  function RoundingTerm(mp: Price, fp: Price, tcr: nat): nat {
    fp.base * mp.quote * tcr
  }

  /** The closed form, rounded down. */
  function LowerGuess(call: CallOrder, mp: Price, fp: Price, tcr: nat): (g: nat)
    requires Numerator(call, mp, fp, tcr) >= 0 && Denominator(mp, fp, tcr) > 0
    ensures forall k: nat :: k <= g <==> k * Denominator(mp, fp, tcr) <= Numerator(call, mp, fp, tcr)
  {
    hide Numerator, Denominator;
    var n: nat, d: nat := Numerator(call, mp, fp, tcr), Denominator(mp, fp, tcr);
    assert forall k: nat :: n / d >= k <==> k * d <= n by {
      forall k: nat
        ensures n / d >= k <==> k * d <= n
      {
        QuotientGeq(n, d, k);
        assert d * k == k * d;
      }
    }
    n / d
  }

  /** The closed form with the fraction lost to rounding added: where the searches start looking from above. */
  function UpperGuess(call: CallOrder, mp: Price, fp: Price, tcr: nat): int
    requires Denominator(mp, fp, tcr) > 0
  {
    (Numerator(call, mp, fp, tcr) + RoundingTerm(mp, fp, tcr)) / Denominator(mp, fp, tcr) + 1
  }

  /**
   The amount is between the two closed forms: strictly above numerator / denominator, and at most every guess strictly
   above that with the rounding fraction added, re-rounded at the match price, that leaves part of the position.
   */
  ghost predicate WithinClosedForms(call: CallOrder, mp: Price, fp: Price, tcr: nat, cover: nat)
    requires mp.Valid()
  {
    var n, d, t := Numerator(call, mp, fp, tcr), Denominator(mp, fp, tcr), RoundingTerm(mp, fp, tcr);
    && (d <= 0 ==> cover == call.debt)
    && (cover < call.debt ==> cover * d > n)
    && (d > 0 ==>
          forall guess: nat | Partial(call, mp, guess) && guess * d > n + t :: cover <= Bought(Payment(guess, mp), mp))
  }

  /** The amount, re-rounded at the match price, leaves part of the position. */
  predicate Partial(call: CallOrder, mp: Price, guess: nat)
    requires mp.Valid()
  {
    Payment(guess, mp) < call.collateral && Bought(Payment(guess, mp), mp) < call.debt
  }

  /** The next smaller amount that could be executed would leave the position at or below its target. */
  predicate NextSmallerFails(call: CallOrder, target: Price, mp: Price, cover: nat)
    requires mp.Valid()
  {
    var pay := Payment(cover, mp);
    if mp.base < mp.quote then
      pay > 0 && !Good(call, target, Payment(Bought(pay - 1, mp), mp), Bought(pay - 1, mp))
    else
      cover > 0 && !Good(call, target, Payment(cover - 1, mp), cover - 1)
  }

  /** Strictly above a ratio of the feed price, in exact arithmetic. */
  predicate AboveExactTarget(collateral: nat, debt: nat, fp: Price, tcr: nat) {
    collateral * (fp.quote * COLLATERAL_RATIO_DENOM) > (fp.base * tcr) * debt
  }

  /**
   When a callable position is nevertheless told to cover nothing, whatever the match price: its exact ratio is above
   the target already, although it is not above the rounded maintenance collateralization.
   */
  predicate CoversNothing(call: CallOrder, feed: Feed)
    requires feed.Valid() && call.target.Some?
  {
    if call.target.value >= feed.mcr then AboveExactTarget(call.collateral, call.debt, feed.price, call.target.value)
    else AboveExactTarget(call.collateral, call.debt, feed.price, feed.mcr)
  }

  /** The target collateralization is representable; a condition on the feed and the target alone. */
  predicate TargetIsExact(call: CallOrder, feed: Feed)
    requires feed.Valid() && call.target.Some?
  {
    ScalesExactly(feed.price, TargetRatio(call.target.value, feed.mcr), COLLATERAL_RATIO_DENOM)
  }

  /**
   What an amount to cover promises for a target ratio in thousandths of the feed price: the caller's own payment for it
   leaves the position above the target, unless it is everything.  With an exact target it is also no more than needed:
   bounded by the closed forms on both sides and locally minimal, so that the forward search is never entered.
   */
  ghost predicate SizedFor(call: CallOrder, mp: Price, fp: Price, ratio: nat, cover: nat)
    requires mp.Valid() && fp.Valid() && ratio > 0
  {
    var target := Scale(fp, ratio, COLLATERAL_RATIO_DENOM);
    && 0 < cover <= call.debt
    && (cover < call.debt ==> Good(call, target, Payment(cover, mp), cover))
    && (ScalesExactly(fp, ratio, COLLATERAL_RATIO_DENOM) ==>
          WithinClosedForms(call, mp, fp, ratio, cover) &&
              (cover < call.debt ==> NextSmallerFails(call, target, mp, cover)))
  }

  /** The ratio is the owner's, if that is at least the maintenance ratio, and else the maintenance ratio. */
  ghost predicate RightSize(call: CallOrder, mp: Price, feed: Feed, cover: nat)
    requires mp.Valid() && feed.Valid()
  {
    match call.target
    case None => 0 < cover == call.debt
    case Some(own) =>
      && (own >= feed.mcr ==> SizedFor(call, mp, feed.price, own, cover))
      && (own < feed.mcr ==> SizedFor(call, mp, feed.price, feed.mcr, cover))
  }

  // ----- the searches

  datatype Search = Found(cover: nat) | Exhausted(pay: nat, cover: nat)

  lemma StableAfterDown(pay: nat, mp: Price)
    requires mp.Valid()
    ensures Stable(Payment(Bought(pay, mp), mp), Bought(pay, mp), mp)
    ensures Payment(Bought(pay, mp), mp) <= pay
  {
    hide Down, Up;
    Stabilize(pay, mp);
  }

  lemma StableAfterUp(cover: nat, mp: Price)
    requires mp.Valid()
    ensures Stable(Payment(cover, mp), Bought(Payment(cover, mp), mp), mp)
    ensures Bought(Payment(cover, mp), mp) >= cover
  {
    hide Down, Up;
    StabilizeUp(cover, mp);
  }

  /** When a unit of collateral is the finer step, one more unit buys more. */
  lemma MoreBuysMore(pay: nat, mp: Price)
    requires mp.Valid() && mp.base <= mp.quote
    ensures Bought(pay + 1, mp) > Bought(pay, mp)
  {
    hide Down;
    var y := Bought(pay, mp);
    DownSpec(pay, y, mp);
    DownSpec(pay + 1, y + 1, mp);
    assert (pay + 1) * mp.quote == pay * mp.quote + mp.quote;
    assert (y + 1) * mp.base == y * mp.base + mp.base;
  }

  /** When a unit of debt is the finer step, one more unit costs more. */
  lemma MoreCostsMore(cover: nat, mp: Price)
    requires mp.Valid() && mp.quote <= mp.base
    ensures Payment(cover + 1, mp) > Payment(cover, mp)
  {
    hide Up;
    var p := Payment(cover, mp);
    UpSpec(cover + 1, p, mp.Inv());
    assert (cover + 1) * mp.base == cover * mp.base + mp.base;
    if p > 0 {
      UpSpec(cover, p - 1, mp.Inv());
      assert (p - 1) * mp.quote == p * mp.quote - mp.quote;
    }
  }

  /** No executable pair lies strictly between two neighbours. */
  predicate Neighbours(mp: Price, minPay: nat, minCover: nat, maxPay: nat, maxCover: nat) {
    if mp.base < mp.quote then maxPay == minPay + 1 else maxCover == minCover + 1
  }

  /**
   The mean in units of collateral, when those are the finer step: rounded up, then re-rounded to an executable pair.
   */
  function MeanByPaying(mp: Price, minPay: nat, maxPay: nat, maxCover: nat): Result<(nat, nat)>
    requires mp.Valid()
  {
    var sum :- CheckedAdd(minPay + maxPay, 1);
    if sum / 2 == maxPay then Ok((maxPay, maxCover))
    else
      var cover :- Checked(Bought(sum / 2, mp));
      Ok(if cover >= maxCover then (maxPay, maxCover) else (Payment(cover, mp), cover))
  }

  /** The mean in units of debt: rounded down, then re-rounded. */
  function MeanByCovering(mp: Price, minCover: nat, maxPay: nat, maxCover: nat): Result<(nat, nat)>
    requires mp.Valid()
  {
    var sum :- CheckedAdd(minCover, maxCover);
    if sum / 2 == maxCover then Ok((maxPay, maxCover))
    else
      var pay :- Checked(Payment(sum / 2, mp));
      if pay >= maxPay then Ok((maxPay, maxCover))
      else
        var cover :- Checked(Bought(pay, mp));
        Ok(if cover >= maxCover then (maxPay, maxCover) else (pay, cover))
  }

  /** One mean of the binary search; the upper bound itself if the mean has not moved away from the lower one. */
  function Mean(mp: Price, minPay: nat, minCover: nat, maxPay: nat, maxCover: nat): Result<(nat, nat)>
    requires mp.Valid()
  {
    var pair :- if mp.base < mp.quote then MeanByPaying(mp, minPay, maxPay, maxCover)
                else MeanByCovering(mp, minCover, maxPay, maxCover);
    var (pay, cover) := pair;
    Ok(if pay <= minPay || cover <= minCover || pay > maxPay || cover > maxCover then (maxPay, maxCover)
       else (pay, cover))
  }

  /** A mean is a stable pair strictly inside the bounds, at most half their sum, or the upper bound itself. */
  lemma MeanFacts(mp: Price, minPay: nat, minCover: nat, maxPay: nat, maxCover: nat)
    requires mp.Valid() && minPay < maxPay && minCover < maxCover
    ensures match Mean(mp, minPay, minCover, maxPay, maxCover)
            case Ok((pay, cover)) =>
              && (pay == maxPay ==> cover == maxCover)
              && (pay != maxPay ==>
                    && minPay < pay < maxPay && minCover < cover < maxCover && Stable(pay, cover, mp)
                    // half the sum, rounded up if in collateral and down if in debt, then re-rounded
                    && (if mp.base < mp.quote
                        then cover == Bought((minPay + maxPay + 1) / 2, mp) && 2 * pay <= INT64_MAX
                        else pay == Payment((minCover + maxCover) / 2, mp) && 2 * cover <= INT64_MAX))
              && (pay == maxPay && Stable(minPay, minCover, mp) && Stable(maxPay, maxCover, mp) ==>
                    Neighbours(mp, minPay, minCover, maxPay, maxCover))
            case Err(AmountOverflow) => Bought(maxPay, mp) > MAX_SHARE_SUPPLY ||
                Payment(maxCover, mp) > MAX_SHARE_SUPPLY
            case Err(AdditionOverflow) => SumOverflows(mp, minPay, minCover, maxPay, maxCover)
    ensures SumOverflows(mp, minPay, minCover, maxPay, maxCover) ==>
              Mean(mp, minPay, minCover, maxPay, maxCover) == Err(AdditionOverflow)
  {
    hide Down, Up;
    if mp.base < mp.quote {
      var pay := (minPay + maxPay + 1) / 2;
      if pay < maxPay {
        DownMonotone(pay, maxPay, mp);
        InsideByPaying(minPay, minCover, pay, maxPay, maxCover, mp);
        StableAfterDown(pay, mp);
      }
    } else {
      var cover := (minCover + maxCover) / 2;
      UpMonotone(cover, maxCover, mp.Inv());
      InsideByCovering(minPay, minCover, cover, maxPay, maxCover, mp);
      CoverIsStable(cover, mp);
      if Payment(cover, mp) < maxPay {
        DownMonotone(Payment(cover, mp), maxPay, mp);
      }
    }
  }

  /** The sum of two bounds that the original takes in 64 bits does not fit. */
  predicate SumOverflows(mp: Price, minPay: nat, minCover: nat, maxPay: nat, maxCover: nat) {
    if mp.base < mp.quote then minPay + maxPay + 1 > INT64_MAX else minCover + maxCover > INT64_MAX
  }

  /** When a unit of debt is the coarser step, every amount to cover is executable. */
  lemma CoverIsStable(cover: nat, mp: Price)
    requires mp.Valid() && mp.base >= mp.quote
    ensures Stable(Payment(cover, mp), cover, mp)
  {
    hide Down, Up;
    StableAfterUp(cover, mp);
    MoreCostsMore(cover, mp);
    DownGeqIffUpLeq(Payment(cover, mp), cover + 1, mp);
  }

  /** A payment strictly between two executable pairs, re-rounded, is still strictly between them. */
  lemma InsideByPaying(minPay: nat, minCover: nat, pay: nat, maxPay: nat, maxCover: nat, mp: Price)
    requires mp.Valid() && mp.base < mp.quote && minPay < pay < maxPay
    ensures Stable(minPay, minCover, mp) && Stable(maxPay, maxCover, mp) ==>
              minCover < Bought(pay, mp) < maxCover && minPay < Payment(Bought(pay, mp), mp)
  {
    hide Down, Up;
    if Stable(minPay, minCover, mp) && Stable(maxPay, maxCover, mp) {
      MoreBuysMore(minPay, mp);
      DownMonotone(minPay + 1, pay, mp);
      DownGeqIffUpLeq(pay, maxCover, mp);
      DownGeqIffUpLeq(minPay, Bought(pay, mp), mp);
    }
  }

  lemma InsideByCovering(minPay: nat, minCover: nat, cover: nat, maxPay: nat, maxCover: nat, mp: Price)
    requires mp.Valid() && mp.base >= mp.quote && minCover <= cover < maxCover
    ensures Stable(minPay, minCover, mp) && Stable(maxPay, maxCover, mp) ==>
              Payment(cover, mp) < maxPay && cover <= Bought(Payment(cover, mp), mp) < maxCover
    ensures Stable(minPay, minCover, mp) && minCover < cover ==> minPay < Payment(cover, mp)
  {
    hide Down, Up;
    MoreCostsMore(cover, mp);
    UpMonotone(cover + 1, maxCover, mp.Inv());
    DownGeqIffUpLeq(Payment(cover, mp), maxCover, mp);
    StableAfterUp(cover, mp);
    if minCover < cover {
      MoreCostsMore(minCover, mp);
      UpMonotone(minCover + 1, cover, mp.Inv());
    }
  }

  /** What the binary search returns from these bounds; `maxIsOk` says that the upper one is known to be good. */
  function BinaryFrom(call: CallOrder, target: Price, mp: Price, minPay: nat, minCover: nat, maxPay: nat, maxCover: nat,
                      maxIsOk: bool): Result<Search>
    requires mp.Valid() && minPay < maxPay && minCover < maxCover
    decreases maxPay - minPay
  {
    MeanFacts(mp, minPay, minCover, maxPay, maxCover);
    var mean :- Mean(mp, minPay, minCover, maxPay, maxCover);
    var (pay, cover) := mean;
    if pay == maxPay && (maxIsOk || pay == call.collateral) then Ok(Found(cover))
    else if Good(call, target, pay, cover) then
      if pay == maxPay then Ok(Found(cover)) else BinaryFrom(call, target, mp, minPay, minCover, pay, cover, true)
    else
      if pay == maxPay then Ok(Exhausted(pay, cover))
      else BinaryFrom(call, target, mp, pay, cover, maxPay, maxCover, maxIsOk)
  }

  /** Bounds the search may have: the lower one executable and too small, the upper one executable or everything. */
  predicate Bounds(call: CallOrder, target: Price, mp: Price, minPay: nat, minCover: nat, maxPay: nat, maxCover: nat)
    requires mp.Valid()
  {
    && minPay < maxPay && minCover < maxCover
    && Stable(minPay, minCover, mp) && !Good(call, target, minPay, minCover)
    && ((maxPay == call.collateral && maxCover == call.debt) ||
        (maxPay < call.collateral && maxCover < call.debt && Stable(maxPay, maxCover, mp)))
  }

  /**
   What the search finds short of everything is good and locally minimal, and it finds something if the upper bound is
   good or everything.
   */
  lemma {:induction false} BinaryFromFacts(call: CallOrder, target: Price, mp: Price, minPay: nat, minCover: nat,
                                           maxPay: nat, maxCover: nat, maxIsOk: bool)
    requires call.Valid() && mp.Valid() && Bounds(call, target, mp, minPay, minCover, maxPay, maxCover)
    requires maxIsOk ==> Good(call, target, maxPay, maxCover)
    ensures match BinaryFrom(call, target, mp, minPay, minCover, maxPay, maxCover, maxIsOk)
            case Ok(Found(cover)) =>
              && 0 < cover <= maxCover && Sized(call, target, mp, cover)
              && (cover < call.debt ==> NextSmallerFails(call, target, mp, cover))
            case Ok(Exhausted(pay, cover)) =>
              && !Good(call, target, maxPay, maxCover) && maxPay != call.collateral
              && Stable(pay, cover, mp) && 0 < cover < call.debt && pay < call.collateral
            case Err(AmountOverflow) => !ConversionsFit(call, mp)
            case Err(AdditionOverflow) => !SumsFit(call)
    decreases maxPay - minPay
  {
    hide Down, Up, Price.Less, Mean;
    DownMonotone(maxPay, call.collateral, mp);
    UpMonotone(maxCover, call.debt, mp.Inv());
    MeanFacts(mp, minPay, minCover, maxPay, maxCover);
    NeighbourFails(call, target, mp, minPay, minCover, maxPay, maxCover);
    match Mean(mp, minPay, minCover, maxPay, maxCover) {
      case Err(_) =>
      case Ok((pay, cover)) =>
        if pay != maxPay {
          if Good(call, target, pay, cover) {
            BinaryFromFacts(call, target, mp, minPay, minCover, pay, cover, true);
          } else {
            BinaryFromFacts(call, target, mp, pay, cover, maxPay, maxCover, maxIsOk);
          }
        }
    }
  }

  /** The binary search between two bounds. */
  method BinarySearch(call: CallOrder, target: Price, mp: Price, lowPay: nat, lowCover: nat, highPay: nat,
                      highCover: nat)
    returns (r: Result<Search>)
    requires call.Valid() && mp.Valid() && Bounds(call, target, mp, lowPay, lowCover, highPay, highCover)
    ensures r == BinaryFrom(call, target, mp, lowPay, lowCover, highPay, highCover, false)
  {
    hide Mean, Good, Down, Up;
    var minPay: nat, minCover: nat, maxPay: nat, maxCover: nat := lowPay, lowCover, highPay, highCover;
    var maxIsOk := false;
    while true
      invariant Bounds(call, target, mp, minPay, minCover, maxPay, maxCover)
      invariant BinaryFrom(call, target, mp, minPay, minCover, maxPay, maxCover, maxIsOk) ==
                BinaryFrom(call, target, mp, lowPay, lowCover, highPay, highCover, false)
      decreases maxPay - minPay
    {
      MeanFacts(mp, minPay, minCover, maxPay, maxCover);
      var mean :- Mean(mp, minPay, minCover, maxPay, maxCover);
      var (pay, cover) := mean;
      if pay == maxPay && (maxIsOk || pay == call.collateral) {
        return Ok(Found(cover));
      }
      // the original's defensive check
      assert pay < call.collateral && cover < call.debt;
      if Good(call, target, pay, cover) {
        if pay == maxPay {
          return Ok(Found(cover));
        }
        maxPay, maxCover, maxIsOk := pay, cover, true;
      } else {
        if pay == maxPay {
          return Ok(Exhausted(pay, cover));
        }
        minPay, minCover := pay, cover;
      }
    }
  }

  // ----- when a sum of bounds overflows

  /**
   Taking means with the upper bound held fixed, every mean up to the first sum that overflows is too small.  The search
   itself is simpler to foresee than to run: once the upper bound has moved, no sum can overflow any more.
   */
  predicate MeansOverflow(call: CallOrder, target: Price, mp: Price, minPay: nat, minCover: nat, maxPay: nat,
                          maxCover: nat)
    requires mp.Valid() && minPay < maxPay && minCover < maxCover
    decreases maxPay - minPay
  {
    MeanFacts(mp, minPay, minCover, maxPay, maxCover);
    SumOverflows(mp, minPay, minCover, maxPay, maxCover) ||
    match Mean(mp, minPay, minCover, maxPay, maxCover)
    case Err(_) => false
    case Ok((pay, cover)) =>
      pay != maxPay && !Good(call, target, pay, cover) && MeansOverflow(call, target, mp, pay, cover, maxPay, maxCover)
  }

  /** Bounds whose upper one is at most half the 64-bit range never overflow. */
  lemma {:induction false} NoOverflowBelowHalf(call: CallOrder, target: Price, mp: Price, minPay: nat, minCover: nat,
                                               maxPay: nat, maxCover: nat, maxIsOk: bool)
    requires mp.Valid() && minPay < maxPay && minCover < maxCover
    requires if mp.base < mp.quote then 2 * maxPay <= INT64_MAX else 2 * maxCover <= INT64_MAX
    ensures BinaryFrom(call, target, mp, minPay, minCover, maxPay, maxCover, maxIsOk) != Err(AdditionOverflow)
    decreases maxPay - minPay
  {
    hide Mean, Good, Stable;
    MeanFacts(mp, minPay, minCover, maxPay, maxCover);
    match Mean(mp, minPay, minCover, maxPay, maxCover) {
      case Err(_) =>
      case Ok((pay, cover)) =>
        if pay != maxPay {
          NoOverflowBelowHalf(call, target, mp, minPay, minCover, pay, cover, true);
          NoOverflowBelowHalf(call, target, mp, pay, cover, maxPay, maxCover, maxIsOk);
        }
    }
  }

  /** The binary search throws for a sum exactly in this case. */
  lemma {:induction false} BinaryOverflows(call: CallOrder, target: Price, mp: Price, minPay: nat, minCover: nat,
                                           maxPay: nat, maxCover: nat)
    requires mp.Valid() && minPay < maxPay && minCover < maxCover
    ensures BinaryFrom(call, target, mp, minPay, minCover, maxPay, maxCover, false) == Err(AdditionOverflow) <==>
            MeansOverflow(call, target, mp, minPay, minCover, maxPay, maxCover)
    decreases maxPay - minPay
  {
    hide Mean, Good, Stable;
    MeanFacts(mp, minPay, minCover, maxPay, maxCover);
    match Mean(mp, minPay, minCover, maxPay, maxCover) {
      case Err(_) =>
      case Ok((pay, cover)) =>
        if pay != maxPay {
          NoOverflowBelowHalf(call, target, mp, minPay, minCover, pay, cover, true);
          BinaryOverflows(call, target, mp, pay, cover, maxPay, maxCover);
        }
    }
  }

  /** In closed form: it overflows if the first sum does, and does not if twice the upper bound fits. */
  lemma OverflowBracket(call: CallOrder, target: Price, mp: Price, minPay: nat, minCover: nat, maxPay: nat,
                        maxCover: nat)
    requires mp.Valid() && minPay < maxPay && minCover < maxCover
    ensures SumOverflows(mp, minPay, minCover, maxPay, maxCover) ==>
              MeansOverflow(call, target, mp, minPay, minCover, maxPay, maxCover)
    ensures (if mp.base < mp.quote then 2 * maxPay <= INT64_MAX else 2 * maxCover <= INT64_MAX) ==>
              !MeansOverflow(call, target, mp, minPay, minCover, maxPay, maxCover)
  {
    BinaryOverflows(call, target, mp, minPay, minCover, maxPay, maxCover);
    if (if mp.base < mp.quote then 2 * maxPay <= INT64_MAX else 2 * maxCover <= INT64_MAX) {
      NoOverflowBelowHalf(call, target, mp, minPay, minCover, maxPay, maxCover, false);
    }
  }

  /** All means taken with the upper bound held fixed are too small. */
  predicate MeansFail(call: CallOrder, target: Price, mp: Price, minPay: nat, minCover: nat, maxPay: nat, maxCover: nat)
    requires mp.Valid() && minPay < maxPay && minCover < maxCover
    decreases maxPay - minPay
  {
    MeanFacts(mp, minPay, minCover, maxPay, maxCover);
    match Mean(mp, minPay, minCover, maxPay, maxCover)
    case Err(_) => false
    case Ok((pay, cover)) =>
      pay == maxPay || (!Good(call, target, pay, cover) && MeansFail(call, target, mp, pay, cover, maxPay, maxCover))
  }

  /** They are, and so is the upper bound, which is not everything. */
  predicate MeansTooSmall(call: CallOrder, target: Price, mp: Price, minPay: nat, minCover: nat, maxPay: nat,
                          maxCover: nat)
    requires mp.Valid() && minPay < maxPay && minCover < maxCover
  {
    && MeansFail(call, target, mp, minPay, minCover, maxPay, maxCover)
    && maxPay != call.collateral && !Good(call, target, maxPay, maxCover)
  }

  /** Once the upper bound is known to be good, the search ends with an amount or an error. */
  lemma {:induction false} GoodBoundIsFound(call: CallOrder, target: Price, mp: Price, minPay: nat, minCover: nat,
                                            maxPay: nat, maxCover: nat)
    requires mp.Valid() && minPay < maxPay && minCover < maxCover
    ensures var r := BinaryFrom(call, target, mp, minPay, minCover, maxPay, maxCover, true);
            r.Ok? ==> r.value.Found? && r.value.cover <= maxCover
    decreases maxPay - minPay
  {
    hide Mean, Good, Stable;
    MeanFacts(mp, minPay, minCover, maxPay, maxCover);
    match Mean(mp, minPay, minCover, maxPay, maxCover) {
      case Err(_) =>
      case Ok((pay, cover)) =>
        if pay != maxPay {
          GoodBoundIsFound(call, target, mp, minPay, minCover, pay, cover);
          GoodBoundIsFound(call, target, mp, pay, cover, maxPay, maxCover);
        }
    }
  }

  /**
   The search keeps its upper bound exactly if those means are all too small, and then finds nothing exactly if the
   bound is neither good nor everything.
   */
  lemma {:induction false} BinaryExhausts(call: CallOrder, target: Price, mp: Price, minPay: nat, minCover: nat,
                                          maxPay: nat, maxCover: nat)
    requires mp.Valid() && minPay < maxPay && minCover < maxCover
    ensures var r := BinaryFrom(call, target, mp, minPay, minCover, maxPay, maxCover, false);
            if MeansTooSmall(call, target, mp, minPay, minCover, maxPay, maxCover) then r ==
                  Ok(Exhausted(maxPay, maxCover))
            else if MeansFail(call, target, mp, minPay, minCover, maxPay, maxCover) then r == Ok(Found(maxCover))
            else r.Ok? ==> r.value.Found? && r.value.cover < maxCover
    decreases maxPay - minPay
  {
    hide Mean, Good, Stable;
    MeanFacts(mp, minPay, minCover, maxPay, maxCover);
    match Mean(mp, minPay, minCover, maxPay, maxCover) {
      case Err(_) =>
      case Ok((pay, cover)) =>
        if pay != maxPay {
          GoodBoundIsFound(call, target, mp, minPay, minCover, pay, cover);
          BinaryExhausts(call, target, mp, pay, cover, maxPay, maxCover);
        }
    }
  }

  lemma NeighbourFails(call: CallOrder, target: Price, mp: Price, minPay: nat, minCover: nat, maxPay: nat,
                       maxCover: nat)
    requires mp.Valid() && Stable(minPay, minCover, mp) && !Good(call, target, minPay, minCover)
    ensures Stable(maxPay, maxCover, mp) && Neighbours(mp, minPay, minCover, maxPay, maxCover) ==>
              NextSmallerFails(call, target, mp, maxCover)
  {
  }

  /** A forward step of `d` from a stable pair never moves back and, once re-rounded, still pays at least `d`. */
  lemma ForwardPayStep(pay: nat, cover: nat, d: nat, mp: Price)
    requires mp.Valid() && Stable(pay, cover, mp) && cover > 0
    ensures Bought(pay + d, mp) >= cover
    ensures Payment(Bought(pay + d, mp), mp) >= pay
    ensures Payment(Bought(pay + d, mp), mp) >= d
  {
    hide Down, Up;
    var x := pay + d;
    var c := Bought(x, mp);
    DownMonotone(pay, x, mp);
    UpMonotone(cover, c, mp.Inv());
    var p := Payment(c, mp);
    UpSpec(c, p, mp.Inv());
    DownSpec(x, c + 1, mp);
    UpSpec(cover, pay, mp.Inv());
    // p * quote >= c * base > x * quote - base >= d * quote
    MulLeq(1, cover, mp.base);
    assert x * mp.quote == pay * mp.quote + d * mp.quote;
    assert (c + 1) * mp.base == c * mp.base + mp.base;
    if p < d {
      MulLeq(p, d, mp.quote);
    }
  }

  /** One forward step of `d`, re-rounded; `None` if it reaches the whole position. */
  function ForwardStep(call: CallOrder, mp: Price, pay: nat, cover: nat, d: nat): Result<Option<(nat, nat)>>
    requires mp.Valid()
  {
    if mp.base > mp.quote then
      var more :- CheckedAdd(pay, d);
      if more >= call.collateral then Ok(None)
      else
        var buys :- Checked(Bought(more, mp));
        Ok(if buys >= call.debt || Payment(buys, mp) >= call.collateral then None else Some((Payment(buys, mp), buys)))
    else
      var more :- CheckedAdd(cover, d);
      if more >= call.debt then Ok(None)
      else
        var costs :- Checked(Payment(more, mp));
        if costs >= call.collateral then Ok(None)
        else
          var buys :- Checked(Bought(costs, mp));
          Ok(if buys >= call.debt then None else Some((costs, buys)))
  }

  /** A state of the Fibonacci search: the previous step is already contained in the executable pair. */
  predicate Forward(call: CallOrder, mp: Price, pay: nat, cover: nat, d1: nat, d2: nat)
    requires mp.Valid()
  {
    && Stable(pay, cover, mp) && 0 < cover < call.debt && pay < call.collateral
    && 1 <= d2 && d1 <= (if mp.base > mp.quote then pay else cover)
    && d2 <= (if mp.base > mp.quote then call.collateral else call.debt)
  }

  lemma ForwardStepFacts(call: CallOrder, mp: Price, pay: nat, cover: nat, d1: nat, d2: nat)
    requires call.Valid() && mp.Valid() && Forward(call, mp, pay, cover, d1, d2)
    ensures match ForwardStep(call, mp, pay, cover, d2)
            case Ok(None) => true
            case Ok(Some((p, c))) => Forward(call, mp, p, c, d2, d1 + d2)
            case Err(AmountOverflow) => !ConversionsFit(call, mp)
            case Err(AdditionOverflow) => !SumsFit(call)
  {
    hide Down, Up;
    if mp.base > mp.quote {
      ForwardPayStep(pay, cover, d2, mp);
      if pay + d2 < call.collateral {
        DownMonotone(pay + d2, call.collateral, mp);
        StableAfterDown(pay + d2, mp);
      }
    } else if cover + d2 < call.debt {
      UpMonotone(cover + d2, call.debt, mp.Inv());
      StableAfterUp(cover + d2, mp);
      if Payment(cover + d2, mp) < call.collateral {
        DownMonotone(Payment(cover + d2, mp), call.collateral, mp);
      }
    }
  }

  /** What the Fibonacci search returns; its step never exceeds the position, so it terminates. */
  function ForwardFrom(call: CallOrder, target: Price, mp: Price, pay: nat, cover: nat, d1: nat, d2: nat): Result<nat>
    requires call.Valid() && mp.Valid() && Forward(call, mp, pay, cover, d1, d2)
    decreases 2 * (call.collateral + call.debt) - (d1 + d2)
  {
    ForwardStepFacts(call, mp, pay, cover, d1, d2);
    var next :- ForwardStep(call, mp, pay, cover, d2);
    if next.None? then Ok(call.debt)
    else
      var (p, c) := next.value;
      if Good(call, target, p, c) then Ok(c) else ForwardFrom(call, target, mp, p, c, d2, d1 + d2)
  }

  lemma {:induction false} ForwardFromFacts(call: CallOrder, target: Price, mp: Price, pay: nat, cover: nat, d1: nat,
                                            d2: nat)
    requires call.Valid() && mp.Valid() && Forward(call, mp, pay, cover, d1, d2)
    ensures match ForwardFrom(call, target, mp, pay, cover, d1, d2)
            case Ok(found) => 0 < found <= call.debt && Sized(call, target, mp, found)
            case Err(AmountOverflow) => !ConversionsFit(call, mp)
            case Err(AdditionOverflow) => !SumsFit(call)
    decreases 2 * (call.collateral + call.debt) - (d1 + d2)
  {
    hide Down, Up, Price.Less, ForwardStep;
    ForwardStepFacts(call, mp, pay, cover, d1, d2);
    match ForwardStep(call, mp, pay, cover, d2) {
      case Ok(Some((p, c))) =>
        if !Good(call, target, p, c) {
          ForwardFromFacts(call, target, mp, p, c, d2, d1 + d2);
        }
      case _ =>
    }
  }

  /** The Fibonacci search. */
  method ForwardSearch(call: CallOrder, target: Price, mp: Price, startPay: nat, startCover: nat)
    returns (r: Result<nat>)
    requires call.Valid() && mp.Valid() && Forward(call, mp, startPay, startCover, 0, 1)
    ensures r == ForwardFrom(call, target, mp, startPay, startCover, 0, 1)
  {
    hide Down, Up, Price.Less, ForwardStep, Good;
    var pay: nat, cover: nat := startPay, startCover;
    var d1, d2, d3: nat := 0, 1, 1;
    while true
      invariant Forward(call, mp, pay, cover, d1, d2) && d3 == d1 + d2
      invariant ForwardFrom(call, target, mp, pay, cover, d1, d2) ==
                  ForwardFrom(call, target, mp, startPay, startCover, 0, 1)
      decreases 2 * (call.collateral + call.debt) - d3
    {
      ForwardStepFacts(call, mp, pay, cover, d1, d2);
      var next :- ForwardStep(call, mp, pay, cover, d2);
      if next.None? {
        return Ok(call.debt);
      }
      pay, cover := next.value.0, next.value.1;
      // the original's defensive check
      assert pay < call.collateral && cover < call.debt;
      if Good(call, target, pay, cover) {
        return Ok(cover);
      }
      d1 := d2;
      d2 := d3;
      d3 := d1 + d2;
    }
  }

  /**
   The executable pairs that Fibonacci steps reach, whatever the target is, and the error they end in, unless they end
   because the next one would be everything.
   */
  datatype Trajectory = Trajectory(pairs: seq<(nat, nat)>, error: Option<Error>)

  function Steps(call: CallOrder, mp: Price, pay: nat, cover: nat, d1: nat, d2: nat): Trajectory
    requires call.Valid() && mp.Valid() && Forward(call, mp, pay, cover, d1, d2)
    decreases 2 * (call.collateral + call.debt) - (d1 + d2)
  {
    ForwardStepFacts(call, mp, pay, cover, d1, d2);
    match ForwardStep(call, mp, pay, cover, d2)
    case Ok(Some((p, c))) =>
      var rest := Steps(call, mp, p, c, d2, d1 + d2);
      Trajectory([(p, c)] + rest.pairs, rest.error)
    case Ok(None) => Trajectory([], None)
    case Err(error) => Trajectory([], Some(error))
  }

  /** None of the pairs lifts the position above the target. */
  predicate AllTooSmall(call: CallOrder, target: Price, pairs: seq<(nat, nat)>) {
    forall k | 0 <= k < |pairs| :: !Good(call, target, pairs[k].0, pairs[k].1)
  }

  /** The forward search returns the first good pair of the steps; if there is none, what they end in. */
  lemma {:induction false} ForwardFindsFirst(call: CallOrder, target: Price, mp: Price, pay: nat, cover: nat, d1: nat,
                                             d2: nat)
    returns (k: nat)
    requires call.Valid() && mp.Valid() && Forward(call, mp, pay, cover, d1, d2)
    ensures var r, steps := ForwardFrom(call, target, mp, pay, cover, d1, d2), Steps(call, mp, pay, cover, d1, d2);
            && k <= |steps.pairs| && AllTooSmall(call, target, steps.pairs[..k])
            && (k < |steps.pairs| ==>
                  && Good(call, target, steps.pairs[k].0, steps.pairs[k].1) && r == Ok(steps.pairs[k].1))
            && (k == |steps.pairs| ==> match steps.error case None => r == Ok(call.debt) case Some(e) => r == Err(e))
    decreases 2 * (call.collateral + call.debt) - (d1 + d2)
  {
    hide Down, Up, Price.Less, Good, ForwardStep;
    ForwardStepFacts(call, mp, pay, cover, d1, d2);
    k := 0;
    match ForwardStep(call, mp, pay, cover, d2) {
      case Ok(Some((p, c))) =>
        if !Good(call, target, p, c) {
          var rest := Steps(call, mp, p, c, d2, d1 + d2).pairs;
          k := ForwardFindsFirst(call, target, mp, p, c, d2, d1 + d2);
          assert ([(p, c)] + rest)[..k + 1] == [(p, c)] + rest[..k];
          k := k + 1;
        }
      case _ =>
    }
  }

  /** The forward search throws for a sum exactly if the steps end in one and none of them is good. */
  lemma ForwardOverflows(call: CallOrder, target: Price, mp: Price, pay: nat, cover: nat, d1: nat, d2: nat)
    requires call.Valid() && mp.Valid() && Forward(call, mp, pay, cover, d1, d2)
    ensures ForwardFrom(call, target, mp, pay, cover, d1, d2) == Err(AdditionOverflow) <==>
              && Steps(call, mp, pay, cover, d1, d2).error == Some(AdditionOverflow)
              && AllTooSmall(call, target, Steps(call, mp, pay, cover, d1, d2).pairs)
  {
    hide Good, ForwardStep;
    var pairs := Steps(call, mp, pay, cover, d1, d2).pairs;
    var k := ForwardFindsFirst(call, target, mp, pay, cover, d1, d2);
    assert pairs[..|pairs|] == pairs;
  }

  function Fibonacci(k: nat): nat { if k <= 1 then k else Fibonacci(k - 1) + Fibonacci(k - 2) }

  /** A step of `d` in the finer unit, re-rounded. */
  predicate StepsTo(mp: Price, a: (nat, nat), b: (nat, nat), d: nat)
    requires mp.Valid()
  {
    if mp.base > mp.quote then b.1 == Bought(a.0 + d, mp) && b.0 == Payment(b.1, mp)
    else b.0 == Payment(a.1 + d, mp) && b.1 == Bought(b.0, mp)
  }

  predicate FibonacciSteps(mp: Price, pairs: seq<(nat, nat)>, k: nat)
    requires mp.Valid()
  {
    forall i | 0 <= i < |pairs| - 1 :: StepsTo(mp, pairs[i], pairs[i + 1], Fibonacci(k + i))
  }

  lemma FirstStep(mp: Price, pair: (nat, nat), rest: seq<(nat, nat)>, k: nat)
    requires mp.Valid() && rest != [] && StepsTo(mp, pair, rest[0], Fibonacci(k)) && FibonacciSteps(mp, rest, k + 1)
    ensures FibonacciSteps(mp, [pair] + rest, k)
  {
    hide StepsTo;
    var all := [pair] + rest;
    forall i | 0 <= i < |all| - 1
      ensures StepsTo(mp, all[i], all[i + 1], Fibonacci(k + i))
    {
      if i > 0 {
        var j := i - 1;
        assert StepsTo(mp, rest[j], rest[j + 1], Fibonacci(k + 1 + j));
      }
    }
  }

  lemma ForwardStepsTo(call: CallOrder, mp: Price, pay: nat, cover: nat, d: nat)
    requires mp.Valid()
    ensures match ForwardStep(call, mp, pay, cover, d)
            case Ok(Some(pair)) => StepsTo(mp, (pay, cover), pair, d)
            case _ => true
  {
    hide Down, Up;
  }

  /** The steps are those of the Fibonacci sequence. */
  lemma {:induction false} StepsAreFibonacci(call: CallOrder, mp: Price, pay: nat, cover: nat, k: nat)
    requires call.Valid() && mp.Valid() && Forward(call, mp, pay, cover, Fibonacci(k), Fibonacci(k + 1))
    ensures var steps := Steps(call, mp, pay, cover, Fibonacci(k), Fibonacci(k + 1));
            FibonacciSteps(mp, [(pay, cover)] + steps.pairs, k + 1)
    decreases 2 * (call.collateral + call.debt) - Fibonacci(k + 2)
  {
    hide Down, Up, FibonacciSteps, StepsTo, ForwardStep, Stable;
    ForwardStepFacts(call, mp, pay, cover, Fibonacci(k), Fibonacci(k + 1));
    ForwardStepsTo(call, mp, pay, cover, Fibonacci(k + 1));
    match ForwardStep(call, mp, pay, cover, Fibonacci(k + 1)) {
      case Ok(Some((p, c))) =>
        StepsAreFibonacci(call, mp, p, c, k + 1);
        FirstStep(mp, (pay, cover), [(p, c)] + Steps(call, mp, p, c, Fibonacci(k + 1), Fibonacci(k + 2)).pairs, k + 1);
      case _ =>
        OnePair(mp, (pay, cover), k + 1);
    }
  }

  lemma OnePair(mp: Price, pair: (nat, nat), k: nat)
    requires mp.Valid()
    ensures FibonacciSteps(mp, [pair] + [], k)
  {
  }

  // ----- the whole computation

  /** The upper bound of the binary search: the guess re-rounded, or everything. */
  function HighPair(call: CallOrder, mp: Price, upper: nat): Result<(nat, nat)>
    requires mp.Valid()
  {
    if upper >= call.debt then Ok((call.collateral, call.debt))
    else
      var pay :- Checked(Payment(upper, mp));
      if pay >= call.collateral then Ok((call.collateral, call.debt))
      else
        var cover :- Checked(Bought(pay, mp));
        Ok(if cover >= call.debt then (call.collateral, call.debt) else (pay, cover))
  }

  /** A pair known to be too small, and a guess above it. */
  predicate Searchable(call: CallOrder, target: Price, mp: Price, pay: nat, cover: nat, upper: nat)
    requires mp.Valid()
  {
    && Stable(pay, cover, mp) && !Good(call, target, pay, cover)
    && pay < call.collateral && cover < call.debt && cover < upper
  }

  /** The bounds are proper: the original's branch for strange data is unreachable. */
  lemma HighPairFacts(call: CallOrder, target: Price, mp: Price, pay: nat, cover: nat, upper: nat)
    requires call.Valid() && mp.Valid() && Searchable(call, target, mp, pay, cover, upper)
    ensures match HighPair(call, mp, upper)
            case Ok((highPay, highCover)) =>
              && Bounds(call, target, mp, pay, cover, highPay, highCover)
              && (if Partial(call, mp, upper) then highPay == Payment(upper, mp) && highCover == Bought(highPay, mp)
                  else highPay == call.collateral && highCover == call.debt)
            case Err(error) => error == AmountOverflow && !ConversionsFit(call, mp)
  {
    hide Down, Up, Price.Less;
    StableAfterUp(upper, mp);
    UpMonotone(cover, upper, mp.Inv());
    if upper < call.debt {
      UpMonotone(upper, call.debt, mp.Inv());
      if Payment(upper, mp) < call.collateral {
        DownMonotone(Payment(upper, mp), call.collateral, mp);
      }
    }
  }

  /** What the searches return. */
  function SearchResult(call: CallOrder, target: Price, mp: Price, pay: nat, cover: nat, upper: nat): Result<nat>
    requires call.Valid() && mp.Valid() && Searchable(call, target, mp, pay, cover, upper)
  {
    HighPairFacts(call, target, mp, pay, cover, upper);
    var high :- HighPair(call, mp, upper);
    BinaryFromFacts(call, target, mp, pay, cover, high.0, high.1, false);
    var s :- BinaryFrom(call, target, mp, pay, cover, high.0, high.1, false);
    match s
    case Found(found) => Ok(found)
    case Exhausted(p, c) => ForwardFrom(call, target, mp, p, c, 0, 1)
  }

  /** With a good upper guess the result is at most it, and locally minimal. */
  lemma SearchResultFacts(call: CallOrder, target: Price, mp: Price, pay: nat, cover: nat, upper: nat)
    requires call.Valid() && mp.Valid() && Searchable(call, target, mp, pay, cover, upper)
    ensures match SearchResult(call, target, mp, pay, cover, upper)
            case Ok(found) =>
              && 0 < found <= call.debt && Sized(call, target, mp, found)
              && (UpperIsGood(call, target, mp, upper) ==>
                    && (Partial(call, mp, upper) ==> found <= Bought(Payment(upper, mp), mp))
                    && (found < call.debt ==> NextSmallerFails(call, target, mp, found)))
              // whatever the target
              && (!ForwardEntered(call, target, mp, pay, cover, upper) ==>
                    found < call.debt ==> NextSmallerFails(call, target, mp, found))
            case Err(AmountOverflow) => !ConversionsFit(call, mp)
            case Err(AdditionOverflow) => !SumsFit(call)
    ensures SearchResult(call, target, mp, pay, cover, upper) == Err(AdditionOverflow) <==>
            SearchOverflows(call, target, mp, pay, cover, upper)
    // with a good upper guess the forward search is never entered
    ensures UpperIsGood(call, target, mp, upper) ==>
              && !ForwardEntered(call, target, mp, pay, cover, upper)
              && (SearchOverflows(call, target, mp, pay, cover, upper) <==>
                  BinarySumOverflows(call, target, mp, pay, cover, upper))
  {
    hide Down, Up, Price.Less, NextSmallerFails;
    HighPairFacts(call, target, mp, pay, cover, upper);
    match HighPair(call, mp, upper) {
      case Err(_) =>
      case Ok((highPay, highCover)) =>
        BinaryFromFacts(call, target, mp, pay, cover, highPay, highCover, false);
        BinaryOverflows(call, target, mp, pay, cover, highPay, highCover);
        BinaryExhausts(call, target, mp, pay, cover, highPay, highCover);
        if MeansTooSmall(call, target, mp, pay, cover, highPay, highCover) {
          ForwardFromFacts(call, target, mp, highPay, highCover, 0, 1);
          ForwardOverflows(call, target, mp, highPay, highCover, 0, 1);
        }
    }
  }

  /** The upper guess, if it leaves part of the position, lifts that part above the target. */
  predicate UpperIsGood(call: CallOrder, target: Price, mp: Price, upper: nat)
    requires mp.Valid()
  {
    Partial(call, mp, upper) ==> Good(call, target, Payment(upper, mp), Bought(Payment(upper, mp), mp))
  }

  /** A sum overflows in the binary search. */
  predicate BinarySumOverflows(call: CallOrder, target: Price, mp: Price, pay: nat, cover: nat, upper: nat)
    requires call.Valid() && mp.Valid() && Searchable(call, target, mp, pay, cover, upper)
  {
    HighPairFacts(call, target, mp, pay, cover, upper);
    match HighPair(call, mp, upper)
    case Err(_) => false
    case Ok((highPay, highCover)) => MeansOverflow(call, target, mp, pay, cover, highPay, highCover)
  }

  /** The binary search finds nothing, so the forward search starts from its upper bound. */
  predicate ForwardEntered(call: CallOrder, target: Price, mp: Price, pay: nat, cover: nat, upper: nat)
    requires call.Valid() && mp.Valid() && Searchable(call, target, mp, pay, cover, upper)
  {
    HighPairFacts(call, target, mp, pay, cover, upper);
    match HighPair(call, mp, upper)
    case Err(_) => false
    case Ok((highPay, highCover)) => MeansTooSmall(call, target, mp, pay, cover, highPay, highCover)
  }

  lemma ForwardStarts(call: CallOrder, target: Price, mp: Price, pay: nat, cover: nat, upper: nat)
    requires call.Valid() && mp.Valid() && Searchable(call, target, mp, pay, cover, upper)
    ensures ForwardEntered(call, target, mp, pay, cover, upper) ==>
              var (highPay, highCover) := HighPair(call, mp, upper).value;
              Forward(call, mp, highPay, highCover, 0, 1)
  {
    hide Down, Up, Price.Less;
    HighPairFacts(call, target, mp, pay, cover, upper);
    match HighPair(call, mp, upper) {
      case Err(_) =>
      case Ok((highPay, highCover)) =>
        BinaryFromFacts(call, target, mp, pay, cover, highPay, highCover, false);
        BinaryExhausts(call, target, mp, pay, cover, highPay, highCover);
    }
  }

  /**
   A sum overflows in the binary search; or all its means and its upper bound are too small, the Fibonacci steps from
   there end in a sum that overflows, and all of them are too small.
   */
  predicate SearchOverflows(call: CallOrder, target: Price, mp: Price, pay: nat, cover: nat, upper: nat)
    requires call.Valid() && mp.Valid() && Searchable(call, target, mp, pay, cover, upper)
  {
    || BinarySumOverflows(call, target, mp, pay, cover, upper)
    || (&& ForwardEntered(call, target, mp, pay, cover, upper)
        && (ForwardStarts(call, target, mp, pay, cover, upper);
            var (highPay, highCover) := HighPair(call, mp, upper).value;
            var steps := Steps(call, mp, highPay, highCover, 0, 1);
            steps.error == Some(AdditionOverflow) && AllTooSmall(call, target, steps.pairs)))
  }

  /** The closed form rounded down, as an executable pair. */
  function LowPair(call: CallOrder, mp: Price, fp: Price, tcr: nat): (nat, nat)
    requires mp.Valid() && Numerator(call, mp, fp, tcr) >= 0 && Denominator(mp, fp, tcr) > 0
  {
    var cover := Bought(Down(Numerator(call, mp, fp, tcr) / Denominator(mp, fp, tcr), mp.Inv()), mp);
    (Payment(cover, mp), cover)
  }

  /** The closed form applies, is less than everything and can be converted. */
  predicate ClosedFormApplies(call: CallOrder, mp: Price, fp: Price, tcr: nat)
    requires mp.Valid()
  {
    var n, d := Numerator(call, mp, fp, tcr), Denominator(mp, fp, tcr);
    n >= 0 && d > 0 && n / d < call.debt && Down(n / d, mp.Inv()) <= MAX_SHARE_SUPPLY
  }

  /** Executing the pair leaves part of the position, but not above the target. */
  predicate TooSmall(call: CallOrder, target: Price, pair: (nat, nat)) {
    pair.0 < call.collateral && !Good(call, target, pair.0, pair.1)
  }

  /** The searches are needed: the closed form leaves part of the position, but not enough. */
  predicate Searches(call: CallOrder, mp: Price, feed: Feed)
    requires mp.Valid() && feed.Valid()
  {
    && Callable(call, feed) && call.target.Some?
    && ClosedFormApplies(call, mp, feed.price, TargetRatio(call.target.value, feed.mcr))
    && TooSmall(call, TargetCollateralization(call, feed),
                LowPair(call, mp, feed.price, TargetRatio(call.target.value, feed.mcr)))
  }

  lemma LowPairFacts(call: CallOrder, mp: Price, fp: Price, tcr: nat)
    requires call.Valid() && mp.Valid() && Numerator(call, mp, fp, tcr) >= 0 && Denominator(mp, fp, tcr) > 0
    requires Numerator(call, mp, fp, tcr) / Denominator(mp, fp, tcr) < call.debt
    ensures var n, d := Numerator(call, mp, fp, tcr), Denominator(mp, fp, tcr);
            var (pay, cover) := LowPair(call, mp, fp, tcr);
            && Stable(pay, cover, mp) && cover <= n / d < UpperGuess(call, mp, fp, tcr) && pay <= Down(n / d, mp.Inv())
            && (cover == 0 ==> pay == 0) && Down(n / d, mp.Inv()) <= Payment(call.debt, mp)
            && pay <= Payment(UpperGuess(call, mp, fp, tcr), mp)
            && Bought(Payment(UpperGuess(call, mp, fp, tcr), mp), mp) >= UpperGuess(call, mp, fp, tcr)
  {
    hide Down, Up, Numerator, Denominator, RoundingTerm, UpperGuess;
    var guess: nat := Numerator(call, mp, fp, tcr) / Denominator(mp, fp, tcr);
    UpperGuessIsAbove(call, mp, fp, tcr);
    FirstGuessFits(call, guess, mp);
    StableAfterDown(Down(guess, mp.Inv()), mp);
    var cover := Bought(Down(guess, mp.Inv()), mp);
    PaymentZero(cover, Payment(cover, mp), mp);
    UpMonotone(cover, UpperGuess(call, mp, fp, tcr), mp.Inv());
  }

  /** The pair searched from is the largest executable one that costs no more than the closed form itself is worth. */
  lemma LowPairIsLargest(call: CallOrder, mp: Price, fp: Price, tcr: nat, c: nat)
    requires mp.Valid() && Numerator(call, mp, fp, tcr) >= 0 && Denominator(mp, fp, tcr) > 0
    ensures Payment(c, mp) * mp.quote <= LowerGuess(call, mp, fp, tcr) * mp.base <==> c <= LowPair(call, mp, fp, tcr).1
    ensures LowPair(call, mp, fp, tcr).0 == Payment(LowPair(call, mp, fp, tcr).1, mp)
  {
    hide Down, Up, Numerator, Denominator;
    var guess := LowerGuess(call, mp, fp, tcr);
    DownSpec(guess, Payment(c, mp), mp.Inv());
    DownGeqIffUpLeq(Down(guess, mp.Inv()), c, mp);
  }

  /** What the original returns for this position, match price and feed. */
  function MaxDebtToCover(call: CallOrder, mp: Price, feed: Feed): Result<nat>
    requires call.Valid() && mp.Valid() && feed.Valid()
  {
    if !Callable(call, feed) then Ok(0)
    else if call.target.None? then Ok(call.debt)
    else
      var tcr := TargetRatio(call.target.value, feed.mcr);
      var target := TargetCollateralization(call, feed);
      var n, d := Numerator(call, mp, feed.price, tcr), Denominator(mp, feed.price, tcr);
      if n < 0 then Ok(0)
      else if d <= 0 || n / d >= call.debt then Ok(call.debt)
      else
        LowPairFacts(call, mp, feed.price, tcr);
        var _ :- Checked(Down(n / d, mp.Inv()));
        var (pay, cover) := LowPair(call, mp, feed.price, tcr);
        if pay >= call.collateral then Ok(call.debt)
        else if Good(call, target, pay, cover) then Ok(cover)
        else SearchResult(call, target, mp, pay, cover, UpperGuess(call, mp, feed.price, tcr))
  }

  /** A sum of two amounts that the original takes in 64 bits overflows; a caller can evaluate this beforehand. */
  predicate SumsOverflow(call: CallOrder, mp: Price, feed: Feed)
    requires call.Valid() && mp.Valid() && feed.Valid()
  {
    Searches(call, mp, feed) &&
    (var tcr := TargetRatio(call.target.value, feed.mcr);
     LowPairFacts(call, mp, feed.price, tcr);
     var (pay, cover) := LowPair(call, mp, feed.price, tcr);
     SearchOverflows(call, TargetCollateralization(call, feed), mp, pay, cover, UpperGuess(call, mp, feed.price, tcr)))
  }

  /** The same with an exact target, when only the binary search is ever entered. */
  predicate MeansSumsOverflow(call: CallOrder, mp: Price, feed: Feed)
    requires call.Valid() && mp.Valid() && feed.Valid()
  {
    Searches(call, mp, feed) &&
    (var tcr := TargetRatio(call.target.value, feed.mcr);
     LowPairFacts(call, mp, feed.price, tcr);
     var (pay, cover) := LowPair(call, mp, feed.price, tcr);
     BinarySumOverflows(call, TargetCollateralization(call, feed), mp, pay, cover,
                        UpperGuess(call, mp, feed.price, tcr)))
  }

  /** The check that the original calls merely defensive is where a callable position is told to cover nothing. */
  lemma CoversNothingIffNegative(call: CallOrder, mp: Price, feed: Feed)
    requires mp.Valid() && feed.Valid() && call.target.Some?
    ensures CoversNothing(call, feed) <==> Numerator(call, mp, feed.price, TargetRatio(call.target.value, feed.mcr)) < 0
  {
    hide Numerator;
    var fp, tcr := feed.price, TargetRatio(call.target.value, feed.mcr);
    var a, b := fp.quote * COLLATERAL_RATIO_DENOM, fp.base * tcr;
    NumeratorIs(call, mp, fp, tcr, a, b);
    SignOfProduct(b * call.debt - a * call.collateral, mp.quote);
    assert a * call.collateral == call.collateral * a;
  }

  lemma SignOfProduct(x: int, k: nat)
    requires k > 0
    ensures x * k < 0 <==> x < 0
  {
  }

  /** Whatever is rounded: scaled prices grow with the ratio. */
  lemma TargetAboveMaintenance(call: CallOrder, feed: Feed)
    requires feed.Valid() && call.target.Some?
    ensures feed.MaintenanceCollateralization().AtMost(TargetCollateralization(call, feed))
  {
    hide Scale;
    PriceAccuracy.ScaleMonotone(feed.price, feed.mcr, TargetRatio(call.target.value, feed.mcr));
  }

  lemma CallableIsNotAboveTarget(call: CallOrder, feed: Feed)
    requires call.Valid() && feed.Valid() && call.target.Some? && Callable(call, feed)
    ensures !TargetCollateralization(call, feed).Less(call.Collateralization())
  {
    hide Scale, Price.Less;
    TargetAboveMaintenance(call, feed);
    ScaleFacts(feed.price, feed.mcr, COLLATERAL_RATIO_DENOM);
    ScaleFacts(feed.price, TargetRatio(call.target.value, feed.mcr), COLLATERAL_RATIO_DENOM);
    if TargetCollateralization(call, feed).Less(call.Collateralization()) {
      LessTransitive(feed.MaintenanceCollateralization(), TargetCollateralization(call, feed),
                     call.Collateralization());
    }
  }

  /** A guess strictly above the closed form with the rounding fraction is at least the upper guess. */
  lemma GuessIsAboveUpper(call: CallOrder, mp: Price, fp: Price, tcr: nat, guess: nat)
    requires mp.Valid() && Numerator(call, mp, fp, tcr) >= 0 && Denominator(mp, fp, tcr) > 0
    requires guess * Denominator(mp, fp, tcr) > Numerator(call, mp, fp, tcr) + RoundingTerm(mp, fp, tcr)
    ensures guess >= UpperGuess(call, mp, fp, tcr) >= 0
    ensures Payment(guess, mp) >= Payment(UpperGuess(call, mp, fp, tcr), mp)
    ensures Bought(Payment(guess, mp), mp) >= Bought(Payment(UpperGuess(call, mp, fp, tcr), mp), mp)
  {
    hide Numerator, Denominator, RoundingTerm, Down, Up;
    var n: nat, d: nat, t: nat := Numerator(call, mp, fp, tcr), Denominator(mp, fp, tcr), RoundingTerm(mp, fp, tcr);
    QuotientGeq(n + t, d, guess);
    assert d * guess == guess * d;
    UpMonotone(UpperGuess(call, mp, fp, tcr), guess, mp.Inv());
    DownMonotone(Payment(UpperGuess(call, mp, fp, tcr), mp), Payment(guess, mp), mp);
  }

  lemma ClosedFormBounds(call: CallOrder, mp: Price, fp: Price, tcr: nat, cover: nat)
    requires mp.Valid()
    requires Denominator(mp, fp, tcr) <= 0 ==> cover == call.debt
    requires cover < call.debt ==> cover * Denominator(mp, fp, tcr) > Numerator(call, mp, fp, tcr)
    requires Numerator(call, mp, fp, tcr) >= 0
    requires Denominator(mp, fp, tcr) > 0 && UpperGuess(call, mp, fp, tcr) >= 0 &&
             Partial(call, mp, UpperGuess(call, mp, fp, tcr)) ==>
               cover <= Bought(Payment(UpperGuess(call, mp, fp, tcr), mp), mp)
    ensures WithinClosedForms(call, mp, fp, tcr, cover)
  {
    hide Numerator, Denominator, RoundingTerm, UpperGuess, Down, Up;
    if Denominator(mp, fp, tcr) > 0 {
      forall guess: nat | Partial(call, mp, guess) &&
                          guess * Denominator(mp, fp, tcr) > Numerator(call, mp, fp, tcr) + RoundingTerm(mp, fp, tcr)
        ensures cover <= Bought(Payment(guess, mp), mp)
      {
        GuessIsAboveUpper(call, mp, fp, tcr, guess);
      }
    }
  }

  /**
   The closed form decides first, for any target: it gives nothing, everything or, where it is good, the answer; only
   when it leaves part of the position but not enough are the searches needed.
   */
  lemma ClosedFormDecides(call: CallOrder, mp: Price, feed: Feed, ratio: nat)
    requires call.Valid() && mp.Valid() && feed.Valid() && call.target.Some? && Callable(call, feed)
    requires if call.target.value >= feed.mcr then ratio == call.target.value else ratio == feed.mcr
    ensures var r := MaxDebtToCover(call, mp, feed);
            var n, d := Numerator(call, mp, feed.price, ratio), Denominator(mp, feed.price, ratio);
            && (n < 0 ==> r == Ok(0))
            && (n >= 0 && (d <= 0 || n >= call.debt * d) ==> r == Ok(call.debt))
            && (n >= 0 && d > 0 && n < call.debt * d ==>
                  var rough := Down(LowerGuess(call, mp, feed.price, ratio), mp.Inv());
                  var cover := Bought(rough, mp);
                  var pay := Payment(cover, mp);
                  && (rough > MAX_SHARE_SUPPLY ==> r == Err(AmountOverflow))
                  && (rough <= MAX_SHARE_SUPPLY && pay >= call.collateral ==> r == Ok(call.debt))
                  && (rough <= MAX_SHARE_SUPPLY && pay < call.collateral ==>
                        if Good(call, Scale(feed.price, ratio, COLLATERAL_RATIO_DENOM), pay, cover) then r == Ok(cover)
                        else Searches(call, mp, feed)))
  {
    hide Down, Up, Price.Less, Numerator, Denominator, RoundingTerm, UpperGuess, Scale, SearchResult;
    var n, d := Numerator(call, mp, feed.price, ratio), Denominator(mp, feed.price, ratio);
    if n >= 0 && d > 0 {
      QuotientGeq(n, d, call.debt);
      assert d * call.debt == call.debt * d;
    }
  }

  /** What the result promises, and exactly when it is nothing and when a sum overflows. */
  lemma MaxDebtFacts(call: CallOrder, mp: Price, feed: Feed)
    requires call.Valid() && mp.Valid() && feed.Valid()
    ensures var r := MaxDebtToCover(call, mp, feed);
            && (!Callable(call, feed) ==> r == Ok(0))
            && (Callable(call, feed) && call.target.None? ==> r == Ok(call.debt))
            && (r.Ok? && r.value > 0 ==> RightSize(call, mp, feed, r.value))
            && (Callable(call, feed) && call.target.Some? ==> (r == Ok(0) <==> CoversNothing(call, feed)))
            && (r == Err(AmountOverflow) ==> !ConversionsFit(call, mp))
            && (r == Err(AdditionOverflow) ==> !SumsFit(call))
            && (r == Err(AdditionOverflow) <==> SumsOverflow(call, mp, feed))
            && (call.target.Some? && TargetIsExact(call, feed) ==>
                  (SumsOverflow(call, mp, feed) <==> MeansSumsOverflow(call, mp, feed)))
  {
    hide Down, Up, Price.Less, Numerator, Denominator, RoundingTerm, UpperGuess, Scale, ScalesExactly, SearchResult,
         SearchOverflows, BinarySumOverflows, NextSmallerFails, CoversNothing;
    if Callable(call, feed) && call.target.Some? {
      CoversNothingIffNegative(call, mp, feed);
      CallableIsNotAboveTarget(call, feed);
      var tcr := TargetRatio(call.target.value, feed.mcr);
      var target := TargetCollateralization(call, feed);
      var n, d := Numerator(call, mp, feed.price, tcr), Denominator(mp, feed.price, tcr);
      if n >= 0 && d > 0 {
        UpperGuessIsAbove(call, mp, feed.price, tcr);
        if n / d < call.debt {
          LowPairFacts(call, mp, feed.price, tcr);
          var (pay, cover) := LowPair(call, mp, feed.price, tcr);
          var upper: nat := UpperGuess(call, mp, feed.price, tcr);
          if TargetIsExact(call, feed) {
            UpperGuessIsGood(call, mp, feed);
            if pay < call.collateral {
              LowerGuessFails(call, mp, feed, pay, cover);
            }
          }
          if pay < call.collateral && !Good(call, target, pay, cover) {
            SearchResultFacts(call, target, mp, pay, cover, upper);
            match SearchResult(call, target, mp, pay, cover, upper) {
              case Ok(found) =>
                if TargetIsExact(call, feed) {
                  GoodIsAboveLowerGuess(call, mp, feed, found);
                }
              case Err(_) =>
            }
          }
        }
      }
      var r := MaxDebtToCover(call, mp, feed);
      if TargetIsExact(call, feed) && r.Ok? && r.value > 0 {
        ClosedFormBounds(call, mp, feed.price, tcr, r.value);
      }
    }
  }

  method GetMaxDebtToCover(call: CallOrder, mp: Price, feed: Feed) returns (r: Result<nat>)
    requires call.Valid() && mp.Valid() && feed.Valid()
    ensures r == MaxDebtToCover(call, mp, feed)
    // Nothing for a position above maintenance, everything for one without a target.
    ensures !Callable(call, feed) ==> r == Ok(0)
    ensures Callable(call, feed) && call.target.None? ==> r == Ok(call.debt)
    // Short of everything it lifts the position above the owner's target, or above the maintenance ratio if that is
    // higher, and with exact targets it is also no more than needed.
    ensures r.Ok? && r.value > 0 && call.target.Some? ==>
              && (call.target.value >= feed.mcr ==> SizedFor(call, mp, feed.price, call.target.value, r.value))
              && (call.target.value < feed.mcr ==> SizedFor(call, mp, feed.price, feed.mcr, r.value))
    ensures r.Ok? && r.value > 0 ==> RightSize(call, mp, feed, r.value)
    // A callable position is told to cover nothing exactly in the case a caller can foresee.
    ensures Callable(call, feed) && call.target.Some? ==> (r == Ok(0) <==> CoversNothing(call, feed))
    // No defensive check fires; it throws for a sum exactly in the case a caller can foresee, and else for a
    // conversion.
    ensures r == Err(AdditionOverflow) <==> SumsOverflow(call, mp, feed)
    ensures r == Err(AmountOverflow) ==>
              Up(call.debt, mp.Inv()) > MAX_SHARE_SUPPLY || Down(call.collateral, mp) > MAX_SHARE_SUPPLY
    ensures SumsOverflow(call, mp, feed) ==> 2 * call.collateral > INT64_MAX || 2 * call.debt > INT64_MAX
  {
    MaxDebtFacts(call, mp, feed);
    hide Down, Up, Price.Less, Numerator, Denominator, RoundingTerm, UpperGuess, Scale, ScalesExactly, SumsOverflow,
         SizedFor, CoversNothing, SearchResult;
    if feed.MaintenanceCollateralization().Less(call.Collateralization()) {
      return Ok(0);
    }
    if call.target.None? {
      return Ok(call.debt);
    }
    var tcr := TargetRatio(call.target.value, feed.mcr);
    var target := TargetCollateralization(call, feed);
    var numerator := Numerator(call, mp, feed.price, tcr);
    if numerator < 0 {
      return Ok(0);
    }
    var denominator := Denominator(mp, feed.price, tcr);
    if denominator <= 0 {
      return Ok(call.debt);
    }
    UpperGuessIsAbove(call, mp, feed.price, tcr);
    if numerator / denominator >= call.debt {
      return Ok(call.debt);
    }
    LowPairFacts(call, mp, feed.price, tcr);
    var guess: nat := numerator / denominator;
    var rough :- Checked(Down(guess, mp.Inv()));
    var cover := Bought(rough, mp);
    var pay := Payment(cover, mp);
    if cover >= call.debt || pay >= call.collateral {
      return Ok(call.debt);
    }
    if Good(call, target, pay, cover) {
      return Ok(cover);
    }
    r := SearchFrom(call, target, mp, pay, cover, UpperGuess(call, mp, feed.price, tcr));
  }

  /** The searches, from a pair known to be too small up to the upper guess and beyond. */
  method SearchFrom(call: CallOrder, target: Price, mp: Price, pay: nat, cover: nat, upper: nat)
    returns (r: Result<nat>)
    requires call.Valid() && mp.Valid() && Searchable(call, target, mp, pay, cover, upper)
    ensures r == SearchResult(call, target, mp, pay, cover, upper)
  {
    hide Down, Up, Price.Less;
    HighPairFacts(call, target, mp, pay, cover, upper);
    var guess := if upper >= call.debt then call.debt else upper;
    var maxPay := call.collateral;
    if guess != call.debt {
      maxPay :- Checked(Payment(guess, mp));
    }
    if maxPay > call.collateral {
      maxPay := call.collateral;
    }
    var maxCover := call.debt;
    if maxPay != call.collateral {
      maxCover :- Checked(Bought(maxPay, mp));
    }
    if maxCover >= call.debt {
      maxPay, maxCover := call.collateral, call.debt;
    }
    // the original's check for strange data
    assert maxPay > pay && maxCover > cover;
    BinaryFromFacts(call, target, mp, pay, cover, maxPay, maxCover, false);
    var s :- BinarySearch(call, target, mp, pay, cover, maxPay, maxCover);
    if s.Found? {
      return Ok(s.cover);
    }
    r := ForwardSearch(call, target, mp, s.pay, s.cover);
  }

  lemma FirstGuessFits(call: CallOrder, guess: nat, mp: Price)
    requires call.Valid() && mp.Valid() && guess < call.debt
    ensures Down(guess, mp.Inv()) <= Payment(call.debt, mp)
    ensures Bought(Down(guess, mp.Inv()), mp) <= guess
    ensures Payment(Bought(Down(guess, mp.Inv()), mp), mp) <= Down(guess, mp.Inv())
  {
    hide Down, Up;
    var rough := Down(guess, mp.Inv());
    DownSpec(guess, rough, mp.Inv());
    UpSpec(call.debt, Payment(call.debt, mp), mp.Inv());
    MulLeq(guess, call.debt, mp.base);
    Cancel(rough, Payment(call.debt, mp), mp.quote);
    DownSpec(rough, guess + 1, mp);
    MulLess(guess, guess + 1, mp.base);
    StableAfterDown(rough, mp);
  }

  lemma PaymentZero(cover: nat, pay: nat, mp: Price)
    requires mp.Valid() && pay == Payment(cover, mp)
    ensures cover == 0 ==> pay == 0
  {
  }

  // ----- what the closed form means

  /**
   The closed form is a lower bound: no amount at or below numerator / denominator lifts the position above
   the exact target, whatever whole payment at least as large as the match price is charged for it.
   */
  lemma NoSmallerCoverSuffices(call: CallOrder, mp: Price, fp: Price, tcr: nat, pay: nat, cover: nat)
    requires mp.Valid() && fp.Valid() && call.Valid()
    requires pay < call.collateral && cover < call.debt && pay >= Payment(cover, mp)
    requires AboveExactTarget(call.collateral - pay, call.debt - cover, fp, tcr)
    ensures cover * Denominator(mp, fp, tcr) > Numerator(call, mp, fp, tcr)
  {
    hide Up;
    UpSpec(cover, pay, mp.Inv());
    // pay * mp.quote >= cover * mp.base
    var a, b := fp.quote * COLLATERAL_RATIO_DENOM, fp.base * tcr;
    var c, d := call.collateral, call.debt;
    assert (c - pay) * a > b * (d - cover);
    MulLess(b * (d - cover), (c - pay) * a, mp.quote);
    MulLeq(cover * mp.base, pay * mp.quote, a);
    calc {
      cover * Denominator(mp, fp, tcr) - Numerator(call, mp, fp, tcr);
      { DenominatorIs(mp, fp, tcr, a, b); NumeratorIs(call, mp, fp, tcr, a, b); }
      cover * (b * mp.quote - a * mp.base) - (b * d - a * c) * mp.quote;
      { Expand(cover, mp.base, mp.quote, a, b, c, d, pay); }
      (((c - pay) * a) * mp.quote - (b * (d - cover)) * mp.quote) + ((pay * mp.quote) * a - (cover * mp.base) * a);
    }
  }

  lemma DenominatorIs(mp: Price, fp: Price, tcr: nat, a: nat, b: nat)
    requires a == fp.quote * COLLATERAL_RATIO_DENOM && b == fp.base * tcr
    ensures Denominator(mp, fp, tcr) == b * mp.quote - a * mp.base
  {
  }

  lemma NumeratorIs(call: CallOrder, mp: Price, fp: Price, tcr: nat, a: nat, b: nat)
    requires a == fp.quote * COLLATERAL_RATIO_DENOM && b == fp.base * tcr
    ensures Numerator(call, mp, fp, tcr) == (b * call.debt - a * call.collateral) * mp.quote
  {
  }

  lemma Expand(cover: nat, mb: nat, mq: nat, a: nat, b: nat, c: nat, d: nat, pay: nat)
    ensures cover * (b * mq - a * mb) - (b * d - a * c) * mq ==
            (((c - pay) * a) * mq - (b * (d - cover)) * mq) + ((pay * mq) * a - (cover * mb) * a)
  {
  }

  /** The upper guess is large enough: executed at the match price it lifts the position above the exact target. */
  lemma UpperGuessSuffices(call: CallOrder, mp: Price, fp: Price, tcr: nat, guess: nat)
    requires mp.Valid() && fp.Valid() && call.Valid() && tcr > 0 && Denominator(mp, fp, tcr) > 0
    requires guess * Denominator(mp, fp, tcr) > Numerator(call, mp, fp, tcr) + RoundingTerm(mp, fp, tcr)
    requires Payment(guess, mp) < call.collateral && Bought(Payment(guess, mp), mp) < call.debt
    ensures AboveExactTarget(call.collateral - Payment(guess, mp), call.debt - Bought(Payment(guess, mp), mp), fp, tcr)
  {
    hide Up, Down, Denominator, Numerator, RoundingTerm;
    var pay := Payment(guess, mp);
    var cover := Bought(pay, mp);
    var a, b := fp.quote * COLLATERAL_RATIO_DENOM, fp.base * tcr;
    var den := Denominator(mp, fp, tcr);
    UpSpec(guess, pay, mp.Inv());
    DownSpec(pay, cover + 1, mp);
    DenominatorIs(mp, fp, tcr, a, b);
    NumeratorIs(call, mp, fp, tcr, a, b);
    RoundingTermIs(mp, fp, tcr, b);
    var short := b * call.debt - a * call.collateral;
    DistributeMinus(short + b, b, mp.quote);
    PaysForGuess(pay, guess, mp, den, short + b);
    LiftedByPayment(call.collateral, call.debt, pay, cover, mp, a, b);
  }

  lemma RoundingTermIs(mp: Price, fp: Price, tcr: nat, b: nat)
    requires b == fp.base * tcr
    ensures RoundingTerm(mp, fp, tcr) == b * mp.quote
  {
  }

  lemma PaysForGuess(pay: nat, guess: nat, mp: Price, den: int, need: int)
    requires mp.Valid() && den > 0 && guess * mp.base <= pay * mp.quote && guess * den > need * mp.quote
    ensures pay * den > need * mp.base
  {
  }

  lemma LiftedByPayment(c: nat, d: nat, pay: nat, cover: nat, mp: Price, a: nat, b: nat)
    requires mp.Valid() && pay < c && cover < d && b > 0 && pay * mp.quote < (cover + 1) * mp.base
    requires pay * (b * mp.quote - a * mp.base) > (b * d - a * c + b) * mp.base
    ensures (c - pay) * a > b * (d - cover)
  {
    MulLess(pay * mp.quote, (cover + 1) * mp.base, b);
    Swap(pay, mp.quote, b);
    Swap(cover + 1, mp.base, b);
    DistributeMinus(b * mp.quote, a * mp.base, pay);
    Swap(b, mp.quote, pay);
    Swap(a, mp.base, pay);
    Lifted(a * c, a * pay, b * d, b * cover, b, (pay * b) * mp.quote, mp.base);
    DistributeMinus(c, pay, a);
    DistributeMinus(d, cover, b);
  }

  lemma Lifted(u: int, v: int, w: int, z: int, b: int, t: int, m: nat)
    requires m > 0 && t < (z + b) * m && t - v * m > (w - u + b) * m
    ensures u - v > w - z
  {
  }

  lemma DistributeMinus(x: int, y: int, m: int)
    ensures (x - y) * m == x * m - y * m
  {
  }

  /** Strictly above an exactly scaled target is strictly above the exact ratio. */
  lemma GoodIffAboveExactTarget(call: CallOrder, feed: Feed, pay: nat, cover: nat)
    requires feed.Valid() && call.target.Some? && TargetIsExact(call, feed) && pay < call.collateral &&
             cover < call.debt
    ensures Good(call, TargetCollateralization(call, feed), pay, cover) <==>
            AboveExactTarget(call.collateral - pay, call.debt - cover, feed.price,
                             TargetRatio(call.target.value, feed.mcr))
  {
    hide Scale, ScalesExactly;
    AtMostExactScale(feed.price, TargetRatio(call.target.value, feed.mcr), call.collateral - pay, call.debt - cover);
  }

  /** The upper guess exceeds the closed form, and its re-rounding only raises it. */
  lemma UpperGuessIsAbove(call: CallOrder, mp: Price, fp: Price, tcr: nat)
    requires mp.Valid() && Numerator(call, mp, fp, tcr) >= 0 && Denominator(mp, fp, tcr) > 0
    ensures UpperGuess(call, mp, fp, tcr) > Numerator(call, mp, fp, tcr) / Denominator(mp, fp, tcr) >= 0
    ensures UpperGuess(call, mp, fp, tcr) * Denominator(mp, fp, tcr) >
            Numerator(call, mp, fp, tcr) + RoundingTerm(mp, fp, tcr)
    ensures Bought(Payment(UpperGuess(call, mp, fp, tcr), mp), mp) >= UpperGuess(call, mp, fp, tcr)
  {
    hide Numerator, Denominator, RoundingTerm, Down, Up;
    var n: nat, d: nat, t: nat := Numerator(call, mp, fp, tcr), Denominator(mp, fp, tcr), RoundingTerm(mp, fp, tcr);
    QuotientBounds(n, d);
    QuotientBounds(n + t, d);
    QuotientGeq(n + t, d, n / d);
    assert ((n + t) / d + 1) * d == d * ((n + t) / d) + d;
    StableAfterUp(UpperGuess(call, mp, fp, tcr), mp);
  }

  /** With an exact target the closed form alone is never enough ... */
  lemma LowerGuessFails(call: CallOrder, mp: Price, feed: Feed, pay: nat, cover: nat)
    requires call.Valid() && mp.Valid() && feed.Valid() && call.target.Some? && TargetIsExact(call, feed)
    requires var tcr := TargetRatio(call.target.value, feed.mcr);
             var n, d := Numerator(call, mp, feed.price, tcr), Denominator(mp, feed.price, tcr);
             n >= 0 && d > 0 && cover <= n / d
    requires pay < call.collateral && cover < call.debt && pay == Payment(cover, mp)
    ensures !Good(call, TargetCollateralization(call, feed), pay, cover)
  {
    hide Numerator, Denominator, Scale, ScalesExactly, Up, AboveExactTarget;
    var tcr := TargetRatio(call.target.value, feed.mcr);
    GoodIffAboveExactTarget(call, feed, pay, cover);
    if AboveExactTarget(call.collateral - pay, call.debt - cover, feed.price, tcr) {
      NoSmallerCoverSuffices(call, mp, feed.price, tcr, pay, cover);
      var n: nat, d: nat := Numerator(call, mp, feed.price, tcr), Denominator(mp, feed.price, tcr);
      QuotientGeq(n, d, cover);
    }
  }

  /** ... and the upper guess always is. */
  lemma UpperGuessIsGood(call: CallOrder, mp: Price, feed: Feed)
    requires call.Valid() && mp.Valid() && feed.Valid() && call.target.Some? && TargetIsExact(call, feed)
    requires var tcr := TargetRatio(call.target.value, feed.mcr);
             && Numerator(call, mp, feed.price, tcr) >= 0 && Denominator(mp, feed.price, tcr) > 0
             && UpperGuess(call, mp, feed.price, tcr) >= 0
    ensures var upper := UpperGuess(call, mp, feed.price, TargetRatio(call.target.value, feed.mcr));
            Partial(call, mp, upper) ==>
              Good(call, TargetCollateralization(call, feed), Payment(upper, mp), Bought(Payment(upper, mp), mp))
  {
    hide Numerator, Denominator, RoundingTerm, UpperGuess, Scale, ScalesExactly, Up, Down, AboveExactTarget;
    var tcr := TargetRatio(call.target.value, feed.mcr);
    var upper := UpperGuess(call, mp, feed.price, tcr);
    if Partial(call, mp, upper) {
      UpperGuessIsAbove(call, mp, feed.price, tcr);
      UpperGuessSuffices(call, mp, feed.price, tcr, upper);
      GoodIffAboveExactTarget(call, feed, Payment(upper, mp), Bought(Payment(upper, mp), mp));
    }
  }

  lemma GoodIsAboveLowerGuess(call: CallOrder, mp: Price, feed: Feed, cover: nat)
    requires call.Valid() && mp.Valid() && feed.Valid() && call.target.Some? && TargetIsExact(call, feed)
    requires cover < call.debt ==> Good(call, TargetCollateralization(call, feed), Payment(cover, mp), cover)
    ensures var tcr := TargetRatio(call.target.value, feed.mcr);
            cover < call.debt ==> cover * Denominator(mp, feed.price, tcr) > Numerator(call, mp, feed.price, tcr)
  {
    hide Numerator, Denominator, Scale, ScalesExactly, Up, AboveExactTarget;
    if cover < call.debt {
      GoodIffAboveExactTarget(call, feed, Payment(cover, mp), cover);
      NoSmallerCoverSuffices(call, mp, feed.price, TargetRatio(call.target.value, feed.mcr), Payment(cover, mp), cover);
    }
  }

  /** A position at or below an exactly scaled collateralization, in products of the feed's own terms. */
  lemma AtMostExactScale(fp: Price, ratio: nat, collateral: nat, debt: nat)
    requires fp.Valid() && ratio > 0 && debt > 0
    requires ScalesExactly(fp, ratio, COLLATERAL_RATIO_DENOM)
    ensures Price(collateral, debt).AtMost(Scale(fp, ratio, COLLATERAL_RATIO_DENOM)) <==>
            collateral * (fp.quote * COLLATERAL_RATIO_DENOM) <= (fp.base * ratio) * debt
  {
    hide Scale, ScalesExactly;
    ScaleFacts(fp, ratio, COLLATERAL_RATIO_DENOM);
    var s := Scale(fp, ratio, COLLATERAL_RATIO_DENOM);
    var a, b := fp.quote * COLLATERAL_RATIO_DENOM, fp.base * ratio;
    // s.base * a == b * s.quote, so comparing with s is comparing with b / a
    Cancel(collateral * s.quote, s.base * debt, a);
    Cancel(collateral * a, b * debt, s.quote);
    Swap(collateral, s.quote, a);
    Swap(s.base, debt, a);
    Swap(b, s.quote, debt);
  }

  /**
   Without rounding a position is callable exactly if its ratio is at most the maintenance ratio of the feed price.
   */
  lemma CallableMeans(call: CallOrder, feed: Feed)
    requires call.Valid() && feed.Valid() && ScalesExactly(feed.price, feed.mcr, COLLATERAL_RATIO_DENOM)
    ensures Callable(call, feed) <==>
            call.collateral * (feed.price.quote * COLLATERAL_RATIO_DENOM) <= (feed.price.base * feed.mcr) * call.debt
  {
    hide Scale, ScalesExactly;
    AtMostExactScale(feed.price, feed.mcr, call.collateral, call.debt);
  }

  /** With rounding the maintenance collateralization differs from that ratio by at most one part in 2^17. */
  lemma MaintenanceIsNear(feed: Feed)
    requires feed.Valid() && PriceAccuracy.InRange(feed.price, feed.mcr, COLLATERAL_RATIO_DENOM)
    ensures var mc := feed.MaintenanceCollateralization();
            var exact := (feed.price.base * feed.mcr) * mc.quote;
            var scaled := mc.base * (feed.price.quote * COLLATERAL_RATIO_DENOM);
            exact * 131_071 <= scaled * 131_072 <= exact * 131_073
  {
    PriceAccuracy.ScaleIsNear(feed.price, feed.mcr, COLLATERAL_RATIO_DENOM);
  }

  /** With an exact maintenance collateralization every callable position covers something, at any match price. */
  lemma CallableCoversSomething(call: CallOrder, feed: Feed)
    requires call.Valid() && feed.Valid() && call.target.Some? && Callable(call, feed)
    requires ScalesExactly(feed.price, feed.mcr, COLLATERAL_RATIO_DENOM)
    ensures !CoversNothing(call, feed)
  {
    hide Scale, ScalesExactly;
    var tcr := TargetRatio(call.target.value, feed.mcr);
    AtMostExactScale(feed.price, feed.mcr, call.collateral, call.debt);
    LargerRatio(feed.price.base, feed.mcr, tcr, call.debt);
  }

  lemma LargerRatio(base: nat, r1: nat, r2: nat, debt: nat)
    requires r1 <= r2
    ensures (base * r1) * debt <= (base * r2) * debt
  {
    MulLeq(r1, r2, base);
    MulLeq(base * r1, base * r2, debt);
  }

  // ----- counterexamples

  lemma FullPositionSearches(call: CallOrder, mp: Price, feed: Feed)
    requires call == CallOrder(0, 0, 9_000_000_000_000_000_000, 8_000_000_000_000_000_000, Some(1500))
    requires mp == Price(1, 1) && feed == Feed(Price(1, 1), 1500, 1100)
    ensures call.Valid() && mp.Valid() && feed.Valid() && Callable(call, feed) && TargetIsExact(call, feed)
    ensures Numerator(call, mp, feed.price, 1500) == 3_000_000_000_000_000_000_000 &&
            Denominator(mp, feed.price, 1500) == 500
    ensures UpperGuess(call, mp, feed.price, 1500) == 6_000_000_000_000_000_004
  {
    assert Gcd(1000, 500) == 500;
    assert Gcd(1500, 1000) == 500;
    assert ScalesExactly(feed.price, 1500, COLLATERAL_RATIO_DENOM);
    AtMostExactScale(feed.price, 1500, call.collateral, call.debt);
  }

  /**
   The sum that the original says should not overflow can: a position of 9e18 collateral and 8e18 debt with a target of
   1.5, matched at 1 : 1, starts the binary search between 6e18 and 6e18 + 4.
   */
  lemma SizingCanOverflow()
    ensures var call := CallOrder(0, 0, 9_000_000_000_000_000_000, 8_000_000_000_000_000_000, Some(1500));
            var mp, feed := Price(1, 1), Feed(Price(1, 1), 1500, 1100);
            && call.Valid() && mp.Valid() && feed.Valid() && ConversionsFit(call, mp)
            && SumsOverflow(call, mp, feed) && MaxDebtToCover(call, mp, feed) == Err(AdditionOverflow)
  {
    hide Numerator, Denominator, RoundingTerm, UpperGuess, Scale, ScalesExactly;
    var call := CallOrder(0, 0, 9_000_000_000_000_000_000, 8_000_000_000_000_000_000, Some(1500));
    var mp, feed := Price(1, 1), Feed(Price(1, 1), 1500, 1100);
    FullPositionSearches(call, mp, feed);
    LowPairFacts(call, mp, feed.price, 1500);
    var (pay, cover) := LowPair(call, mp, feed.price, 1500);
    LowerGuessFails(call, mp, feed, pay, cover);
    assert HighPair(call, mp, 6_000_000_000_000_000_004) == Ok((6_000_000_000_000_000_004, 6_000_000_000_000_000_004));
    MaxDebtFacts(call, mp, feed);
  }

  lemma RoundedTerms()
    ensures Gcd(1001, 9_000_000_000_000_000_000_000) == 1
    ensures Gcd(500, 4_500_000_000_000_000_000_000) == 500
  {
  }

  lemma RoundedMaintenance()
    ensures Scale(Price(1, MAX_SHARE_SUPPLY), 1001, COLLATERAL_RATIO_DENOM) == Price(1, 8_991_008_991_008_991_008)
  {
    hide Gcd;
    RoundedTerms();
    var exact := PriceScaling.Fraction(1001, 9_000_000_000_000_000_000_000);
    assert Reduce(exact) == exact;
    var half := PriceScaling.Fraction(500, 4_500_000_000_000_000_000_000);
    assert Reduce(half) == PriceScaling.Fraction(1, MAX_SHARE_SUPPLY);
    assert Shrink(exact, false) == Shrink(Reduce(half), true);
    assert WholeCandidate(exact) == PriceScaling.Fraction(1, 8_991_008_991_008_991_008);
  }

  /**
   The exactness condition is not decoration: with a feed of 1 : 9e18 and a ratio of 1.001 the maintenance
   collateralization rounds up, and a position exactly at it is callable yet covers nothing.
   */
  lemma RoundedFeedCoversNothing(mp: Price)
    requires mp.Valid()
    ensures var feed := Feed(Price(1, MAX_SHARE_SUPPLY), 1001, 1100);
            var call := CallOrder(0, 0, 1, 8_991_008_991_008_991_008, Some(1001));
            && feed.Valid() && call.Valid() && Callable(call, feed) && CoversNothing(call, feed)
            && MaxDebtToCover(call, mp, feed) == Ok(0)
  {
    hide Scale, Numerator;
    RoundedMaintenance();
    CoversNothingIffNegative(CallOrder(0, 0, 1, 8_991_008_991_008_991_008, Some(1001)), mp,
                             Feed(Price(1, MAX_SHARE_SUPPLY), 1001, 1100));
  }
}
