/**
 Amounts and prices (libraries/protocol/asset.cpp).

 An asset amount is a natural number and a price is a pair of positive amounts, base over quote.
 Multiplying an amount by a price rounds down; `multiply_and_round_up` rounds up.  Everything the
 market engine relies on follows from one fact, `DownGeqIffUpLeq`: rounding down in one direction and
 rounding up in the other form a Galois connection.
 */
module Prices {

  const MAX_SHARE_SUPPLY: nat := 9_000_000_000_000_000_000
  const INT64_MAX: nat := 0x7FFF_FFFF_FFFF_FFFF
  const COLLATERAL_RATIO_DENOM: nat := 1000
  const HUNDRED_PERCENT: nat := 10_000

  datatype Option<+T> = None | Some(value: T)

  /** Why an arithmetic step of the original throws. */
  datatype Error =
    | AmountOverflow     // a converted amount exceeds MAX_SHARE_SUPPLY
    | AdditionOverflow   // a sum of two amounts does not fit a signed 64-bit integer

  datatype Result<+T> = Ok(value: T) | Err(error: Error) {
    predicate IsFailure() { Err? }
    function PropagateFailure<U>(): Result<U> requires Err? { Err(error) }
    function Extract(): T requires Ok? { value }
  }

  function Min(a: nat, b: nat): (r: nat)
    ensures r <= a && r <= b && (r == a || r == b)
  {
    if a <= b then a else b
  }

  function Max(a: nat, b: nat): (r: nat)
    ensures r >= a && r >= b && (r == a || r == b)
  {
    if a >= b then a else b
  }

  datatype Price = Price(base: nat, quote: nat) {
    predicate Valid() { base > 0 && quote > 0 }

    /** The same exchange rate seen from the other asset (`~price`). */
    function Inv(): Price { Price(quote, base) }

    /** Strict comparison by cross multiplication. */
    predicate Less(that: Price) { base * that.quote < that.base * quote }
    predicate AtMost(that: Price) { !that.Less(this) }
  }

  /** `asset * price` for an amount of the base asset: rounds down. */
  function Down(x: nat, p: Price): nat
    requires p.base > 0
  {
    x * p.quote / p.base
  }

  /** `multiply_and_round_up` for an amount of the base asset. */
  function Up(x: nat, p: Price): nat
    requires p.base > 0
  {
    (x * p.quote + p.base - 1) / p.base
  }

  /** The range check both multiplications end with. */
  function Checked(x: nat): (r: Result<nat>)
    ensures r.Ok? <==> x <= MAX_SHARE_SUPPLY
    ensures r.Ok? ==> r.value == x
    ensures r.Err? ==> r.error == AmountOverflow
  {
    if x <= MAX_SHARE_SUPPLY then Ok(x) else Err(AmountOverflow)
  }

  /** Addition of 64-bit amounts, which throws rather than wraps. */
  function CheckedAdd(x: nat, y: nat): (r: Result<nat>)
    ensures r.Ok? <==> x + y <= INT64_MAX
    ensures r.Ok? ==> r.value == x + y
    ensures r.Err? ==> r.error == AdditionOverflow
  {
    if x + y <= INT64_MAX then Ok(x + y) else Err(AdditionOverflow)
  }

  // ----- rounding

  lemma QuotientBounds(a: nat, b: nat)
    requires b > 0
    ensures b * (a / b) <= a < b * (a / b) + b
  {
  }

  lemma MulLeq(a: nat, b: nat, c: nat)
    requires a <= b
    ensures a * c <= b * c
  {
  }

  lemma QuotientGeq(a: nat, b: nat, q: nat)
    requires b > 0
    ensures a / b >= q <==> a >= b * q
  {
    QuotientBounds(a, b);
    if a / b >= q {
      MulLeq(q, a / b, b);
    } else {
      MulLeq(a / b + 1, q, b);
    }
  }

  /** What `Down` computes: the largest whole amount whose value does not exceed that of `x`. */
  lemma DownSpec(x: nat, y: nat, p: Price)
    requires p.Valid()
    ensures Down(x, p) >= y <==> x * p.quote >= y * p.base
  {
    QuotientGeq(x * p.quote, p.base, y);
  }

  /** What `Up` computes: the smallest whole amount worth at least `x`. */
  lemma UpSpec(x: nat, y: nat, p: Price)
    requires p.Valid()
    ensures Up(x, p) <= y <==> x * p.quote <= y * p.base
  {
    QuotientGeq(x * p.quote + p.base - 1, p.base, y + 1);
    assert p.base * (y + 1) == p.base * y + p.base;
  }

  /** The Galois connection between rounding down and rounding up in opposite directions. */
  lemma DownGeqIffUpLeq(x: nat, y: nat, p: Price)
    requires p.Valid()
    ensures Down(x, p) >= y <==> Up(y, p.Inv()) <= x
  {
    DownSpec(x, y, p);
    UpSpec(y, x, p.Inv());
  }

  lemma DownMonotone(x: nat, y: nat, p: Price)
    requires p.Valid() && x <= y
    ensures Down(x, p) <= Down(y, p)
  {
    hide Down;
    DownGeqIffUpLeq(x, Down(x, p), p);
    DownGeqIffUpLeq(y, Down(x, p), p);
  }

  lemma UpMonotone(x: nat, y: nat, p: Price)
    requires p.Valid() && x <= y
    ensures Up(x, p) <= Up(y, p)
  {
    hide Up;
    UpSpec(x, Up(y, p), p);
    UpSpec(y, Up(y, p), p);
    MulLeq(x, y, p.quote);
  }

  /** Re-rounding an amount down and back up never raises it, and the result is stable. */
  lemma Stabilize(x: nat, p: Price)
    requires p.Valid()
    ensures Up(Down(x, p), p.Inv()) <= x
    ensures Down(Up(Down(x, p), p.Inv()), p) == Down(x, p)
  {
    hide Down, Up;
    var y := Down(x, p);
    DownGeqIffUpLeq(x, y, p);
    var x' := Up(y, p.Inv());
    DownGeqIffUpLeq(x', y, p);
    DownMonotone(x', x, p);
  }

  /** Rounding up and back down never lowers an amount, and the result is stable. */
  lemma StabilizeUp(y: nat, p: Price)
    requires p.Valid()
    ensures Down(Up(y, p.Inv()), p) >= y
    ensures Up(Down(Up(y, p.Inv()), p), p.Inv()) == Up(y, p.Inv())
  {
    hide Down, Up;
    var x := Up(y, p.Inv());
    DownGeqIffUpLeq(x, y, p);
    DownGeqIffUpLeq(x, Down(x, p), p);
    UpMonotone(y, Down(x, p), p.Inv());
  }

  /** The remainder a stabilised payment leaves is worth nothing. */
  lemma RemainderIsWorthless(x: nat, p: Price)
    requires p.Valid()
    ensures Up(Down(x, p), p.Inv()) <= x
    ensures Down(x - Up(Down(x, p), p.Inv()), p) == 0
  {
    hide Down, Up;
    var y := Down(x, p);
    Stabilize(x, p);
    var r := x - Up(y, p.Inv());
    UpSpec(y, Up(y, p.Inv()), p.Inv());
    DownSpec(x, y + 1, p);
    DownSpec(r, 1, p);
    assert r * p.quote == x * p.quote - Up(y, p.Inv()) * p.quote;
    assert (y + 1) * p.base == y * p.base + p.base;
  }

  // ----- order of prices

  lemma AtMostTransitive(a: Price, b: Price, c: Price)
    requires a.Valid() && b.Valid() && c.Valid()
    requires a.AtMost(b) && b.AtMost(c)
    ensures a.AtMost(c)
  {
  }

  lemma LessTransitive(a: Price, b: Price, c: Price)
    requires a.Valid() && b.Valid() && c.Valid()
    requires (a.Less(b) && b.AtMost(c)) || (a.AtMost(b) && b.Less(c))
    ensures a.Less(c)
  {
  }

  lemma Swap(x: nat, y: nat, z: nat)
    ensures (x * y) * z == (x * z) * y
  {
  }

  lemma MulLess(a: nat, b: nat, c: nat)
    requires a < b && c > 0
    ensures a * c < b * c
  {
  }

  /** Cancels a positive factor from a comparison of products. */
  lemma Cancel(x: nat, y: nat, k: nat)
    requires k > 0
    ensures x * k <= y * k <==> x <= y
    ensures x * k < y * k <==> x < y
  {
  }

  /** A better price for the seller never yields less. */
  lemma DownAtBetterPrice(x: nat, p: Price, q: Price)
    requires p.Valid() && q.Valid() && q.AtMost(p)
    ensures Down(x, p) <= Down(x, q)
  {
    hide Down;
    var y := Down(x, p);
    DownSpec(x, y, p);
    DownSpec(x, y, q);
    // x*p.quote >= y*p.base  and  q.base*p.quote <= p.base*q.quote
    MulLeq(y * p.base, x * p.quote, q.base);
    MulLeq(q.base * p.quote, p.base * q.quote, x);
    Swap(y, p.base, q.base);
    Swap(q.base, p.quote, x);
    assert (q.base * x) * p.quote == (x * p.quote) * q.base by { Swap(x, q.base, p.quote); }
    assert (p.base * q.quote) * x == (x * q.quote) * p.base by { Swap(q.quote, p.base, x); }
    Cancel(y * q.base, x * q.quote, p.base);
  }
}
