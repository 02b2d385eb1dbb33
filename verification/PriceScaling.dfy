/**
 Multiplying a price by a ratio (libraries/protocol/asset.cpp, `operator*(price, ratio_type)`).

 The exact product is kept as a fraction in lowest terms.  When a term does not fit an amount, both terms
 are halved until they do, a rounded whole-number candidate may replace the result, and a result on the wrong
 side of the original price is discarded.
 */
module PriceScaling {
  import opened Prices

  datatype Fraction = Fraction(num: nat, den: nat) {
    predicate Positive() { num > 0 && den > 0 }
    predicate Fits() { num <= MAX_SHARE_SUPPLY && den <= MAX_SHARE_SUPPLY }
  }

  function Gcd(a: nat, b: nat): (g: nat)
    requires a > 0
    ensures g > 0 && a / g * g == a && b / g * g == b
    decreases b
  {
    if b == 0 then a
    else if a % b == 0 then b
    else
      var g := Gcd(b, a % b);
      DividesSum(a, b, g);
      g
  }

  lemma DividesSum(a: nat, b: nat, g: nat)
    requires g > 0 && b > 0 && b / g * g == b && a % b / g * g == a % b
    ensures a / g * g == a
  {
    var k := a / b * (b / g) + a % b / g;
    calc {
      k * g;
      (a / b * (b / g)) * g + a % b / g * g;
      { Swap(a / b, b / g, g); assert (a / b * g) * (b / g) == a / b * (b / g * g); }
      a / b * b + a % b;
      { QuotientBounds(a, b); }
      a;
    }
    QuotientIs(a, g, k);
  }

  lemma QuotientIs(a: nat, g: nat, k: nat)
    requires g > 0 && a == k * g
    ensures a / g == k
  {
    QuotientGeq(a, g, k);
    QuotientGeq(a, g, k + 1);
  }

  /** Lowest terms, as boost::rational keeps them: the same ratio with terms that never grow. */
  function Reduce(f: Fraction): (r: Fraction)
    requires f.Positive()
    ensures r.Positive()
    ensures r.num <= f.num && r.den <= f.den
    ensures r.num * f.den == f.num * r.den
  {
    var g := Gcd(f.num, f.den);
    var r := Fraction(f.num / g, f.den / g);
    assert r.num * f.den == f.num * r.den by {
      assert r.num * (r.den * g) == (r.num * g) * r.den;
    }
    assert r.num <= f.num && r.den <= f.den by {
      MulLeq(1, g, r.num);
      MulLeq(1, g, r.den);
    }
    r
  }

  /** No common divisor exceeds the greatest one. */
  lemma {:induction false} GcdIsGreatest(a: nat, b: nat, k: nat, x: nat, y: nat)
    requires a > 0 && a == k * x && b == k * y
    ensures k <= Gcd(a, b)
    decreases b
  {
    if b == 0 {
      MulLeq(1, x, k);
    } else {
      MulLeq(1, y, k);
      if a % b != 0 {
        var z := RemainderIsMultiple(a, b, k, x, y);
        GcdIsGreatest(b, a % b, k, y, z);
      }
    }
  }

  lemma RemainderIsMultiple(a: nat, b: nat, k: nat, x: nat, y: nat) returns (z: nat)
    requires b > 0 && a == k * x && b == k * y && a % b > 0
    ensures a % b == k * z
  {
    var q := a / b;
    assert a % b == a - b * q;
    Factor(k, x, y, q);
    z := x - y * q;
  }

  lemma Factor(k: nat, x: nat, y: nat, q: nat)
    requires k * x - (k * y) * q > 0
    ensures x - y * q > 0 && k * x - (k * y) * q == k * (x - y * q)
  {
    assert (k * y) * q == k * (y * q);
    assert k * x - k * (y * q) == k * (x - y * q);
  }

  /** Nothing is left to divide both terms by. */
  lemma ReducedIsLowest(f: Fraction, k: nat, x: nat, y: nat)
    requires f.Positive() && Reduce(f).num == k * x && Reduce(f).den == k * y
    ensures k <= 1
  {
    var g := Gcd(f.num, f.den);
    Rotate(k, x, g);
    Rotate(k, y, g);
    hide Gcd;
    GcdIsGreatest(f.num, f.den, g * k, x, y);
    NotLarger(g, k);
  }

  lemma Rotate(k: nat, x: nat, g: nat)
    ensures (k * x) * g == (g * k) * x
  {
  }

  lemma NotLarger(g: nat, k: nat)
    requires 0 < g && g * k <= g
    ensures k <= 1
  {
  }

  datatype Shrunk = Shrunk(f: Fraction, halved: bool, usingMax: bool)

  /** The halving loop. */
  function Shrink(f: Fraction, halved: bool): (r: Shrunk)
    requires f.Positive()
    ensures r.f.Positive() && r.f.Fits()
    ensures halved ==> r.halved
    ensures f.Fits() ==> r == Shrunk(f, halved, false)
    ensures !f.Fits() ==> r.halved || r.usingMax
    decreases f.num
  {
    if f.Fits() then Shrunk(f, halved, false)
    else if f.num == 1 then Shrunk(Fraction(1, MAX_SHARE_SUPPLY), halved, true)
    else if f.den == 1 then Shrunk(Fraction(MAX_SHARE_SUPPLY, 1), halved, true)
    else Shrink(Reduce(Fraction(f.num / 2, f.den / 2)), true)
  }

  /** The whole-number approximation tried when the fraction had to be halved. */
  function WholeCandidate(exact: Fraction): (r: Fraction)
    requires exact.Positive()
    ensures r.Positive() && r.Fits()
  {
    if exact.num > exact.den then
      QuotientGeq(exact.num, exact.den, 1);
      Fraction(Min(exact.num / exact.den, MAX_SHARE_SUPPLY), 1)
    else
      QuotientGeq(exact.den, exact.num, 1);
      Fraction(1, Min(exact.den / exact.num, MAX_SHARE_SUPPLY))
  }

  function Distance(a: nat, b: nat): nat { if a >= b then a - b else b - a }

  /** Whether `a` is strictly closer to `exact` than `b`. */
  predicate Closer(a: Fraction, b: Fraction, exact: Fraction) {
    Distance(a.num * exact.den, exact.num * a.den) * b.den < Distance(b.num * exact.den, exact.num * b.den) * a.den
  }

  /**
   The product, with the outcome of the closeness comparison as a parameter: every statement below holds
   whichever candidate is picked.
   */
  function ScaleWith(p: Price, num: nat, den: nat, pickWhole: bool): (r: Price)
    requires p.Valid() && num > 0 && den > 0
  {
    if num == den then p
    else
      var exact := Reduce(Fraction(p.base * num, p.quote * den));
      var s := Shrink(exact, false);
      var whole := WholeCandidate(exact);
      var edge := whole.num == MAX_SHARE_SUPPLY || whole.den == MAX_SHARE_SUPPLY;
      var cp := if s.halved && (edge || pickWhole) then whole else s.f;
      var np := Price(cp.num, cp.den);
      if (s.halved || s.usingMax) && ((num > den && np.Less(p)) || (num < den && p.Less(np))) then p else np
  }

  function Scale(p: Price, num: nat, den: nat): (r: Price)
    requires p.Valid() && num > 0 && den > 0
  {
    var exact := Reduce(Fraction(p.base * num, p.quote * den));
    ScaleWith(p, num, den, Closer(WholeCandidate(exact), Shrink(exact, false).f, exact))
  }

  /** A condition on the operands a caller can test: the exact product is representable. */
  predicate ScalesExactly(p: Price, num: nat, den: nat)
    requires p.Valid() && num > 0 && den > 0
  {
    num == den || Reduce(Fraction(p.base * num, p.quote * den)).Fits()
  }

  /** The result is always a valid price with terms in range. */
  lemma ScaleWithIsValid(p: Price, num: nat, den: nat, pickWhole: bool)
    requires p.Valid() && num > 0 && den > 0
    requires p.base <= MAX_SHARE_SUPPLY && p.quote <= MAX_SHARE_SUPPLY
    ensures var r := ScaleWith(p, num, den, pickWhole);
            r.Valid() && r.base <= MAX_SHARE_SUPPLY && r.quote <= MAX_SHARE_SUPPLY
  {
  }

  /** An exact product lies on the side of the original price its ratio says. */
  lemma ExactProductSide(p: Price, num: nat, den: nat, r: Price)
    requires p.Valid() && r.Valid() && num > 0 && den > 0
    requires r.base * (p.quote * den) == (p.base * num) * r.quote
    ensures num >= den ==> p.AtMost(r)
    ensures num <= den ==> r.AtMost(p)
  {
  }

  /** A ratio above one never lowers the price and a ratio below one never raises it, rounding included. */
  lemma ScaleWithKeepsSide(p: Price, num: nat, den: nat, pickWhole: bool)
    requires p.Valid() && num > 0 && den > 0
    ensures num >= den ==> p.AtMost(ScaleWith(p, num, den, pickWhole))
    ensures num <= den ==> ScaleWith(p, num, den, pickWhole).AtMost(p)
  {
    var exact := Reduce(Fraction(p.base * num, p.quote * den));
    if num != den && exact.Fits() {
      ExactProductSide(p, num, den, Price(exact.num, exact.den));
    }
  }

  /** When the exact product is representable the result is the exact product. */
  lemma ScaleIsExact(p: Price, num: nat, den: nat, pickWhole: bool)
    requires p.Valid() && num > 0 && den > 0
    requires ScalesExactly(p, num, den)
    ensures var r := ScaleWith(p, num, den, pickWhole);
            r.base * (p.quote * den) == (p.base * num) * r.quote
  {
  }

  /** The three facts about `Scale` the market engine uses. */
  lemma ScaleFacts(p: Price, num: nat, den: nat)
    requires p.Valid() && num > 0 && den > 0
    ensures Scale(p, num, den).Valid()
    ensures p.base <= MAX_SHARE_SUPPLY && p.quote <= MAX_SHARE_SUPPLY ==>
              Scale(p, num, den).base <= MAX_SHARE_SUPPLY && Scale(p, num, den).quote <= MAX_SHARE_SUPPLY
    ensures num >= den ==> p.AtMost(Scale(p, num, den))
    ensures num <= den ==> Scale(p, num, den).AtMost(p)
    ensures ScalesExactly(p, num, den) ==>
              Scale(p, num, den).base * (p.quote * den) == (p.base * num) * Scale(p, num, den).quote
  {
    var exact := Reduce(Fraction(p.base * num, p.quote * den));
    var pick := Closer(WholeCandidate(exact), Shrink(exact, false).f, exact);
    ScaleWithKeepsSide(p, num, den, pick);
    if ScalesExactly(p, num, den) {
      ScaleIsExact(p, num, den, pick);
    }
  }
}
