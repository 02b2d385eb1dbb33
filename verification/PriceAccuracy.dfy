/**
 How accurate a scaled price is (libraries/protocol/asset.cpp, `operator*(price, ratio_type)`), and that it grows with
 the ratio whatever the price.

 The halving loop only ever divides the exact terms by one number, so its ratio is accurate unless a term gets small;
 and then the whole-number candidate is.
 */
module PriceAccuracy {
  import opened Prices
  import opened PriceScaling

  // ----- how accurate a scaled price is

  /** `c` differs from `x` by at most one part in 2^17. */
  predicate Near(c: Fraction, x: Fraction) {
    Distance(c.num * x.den, x.num * c.den) * 131_072 <= x.num * c.den
  }

  /** The terms of a fraction divided by the same number, rounded down. */
  predicate Floors(f: Fraction, x: Fraction, g: nat) {
    g > 0 && f.num == x.num / g && f.den == x.den / g
  }

  lemma QuotientOfQuotient(a: nat, g: nat, h: nat)
    requires g > 0 && h > 0
    ensures g * h > 0 && a / (g * h) == a / g / h
  {
    MulLess(0, g, h);
    QuotientsGeq(a, g, h, a / (g * h));
    QuotientsGeq(a, g, h, a / g / h);
  }

  lemma QuotientsGeq(a: nat, g: nat, h: nat, k: nat)
    requires g > 0 && h > 0
    ensures g * h > 0 && (a / (g * h) >= k <==> a / g / h >= k)
  {
    MulLess(0, g, h);
    QuotientGeq(a, g * h, k);
    QuotientGeq(a, g, h * k);
    QuotientGeq(a / g, h, k);
    assert (g * h) * k == g * (h * k);
  }

  /** Halving and reducing again divides both terms once more. */
  lemma HalvedFloors(f: Fraction, x: Fraction, g: nat) returns (h: nat)
    requires f.Positive() && f.num > 1 && f.den > 1 && Floors(f, x, g)
    ensures Floors(Fraction(f.num / 2, f.den / 2), x, g * 2)
    ensures Floors(Reduce(Fraction(f.num / 2, f.den / 2)), x, h)
  {
    QuotientOfQuotient(x.num, g, 2);
    QuotientOfQuotient(x.den, g, 2);
    var k := Gcd(f.num / 2, f.den / 2);
    h := g * 2 * k;
    QuotientOfQuotient(x.num, g * 2, k);
    QuotientOfQuotient(x.den, g * 2, k);
  }

  /**
   The halving loop ends in the ratio of the exact terms divided by one number, of which the larger one is still at
   least half the maximum; or one term reached one.
   */
  lemma {:induction false} ShrinkFloors(f: Fraction, x: Fraction, g: nat, halved: bool) returns (r: Fraction, h: nat)
    requires f.Positive() && Floors(f, x, g) && !f.Fits()
    ensures var s := Shrink(f, halved);
            if s.usingMax then r.Positive() && Floors(r, x, h) && !r.Fits() && (r.num == 1 || r.den == 1)
            else
              && r.Positive() && Floors(r, x, h) && (2 * r.num >= MAX_SHARE_SUPPLY || 2 * r.den >= MAX_SHARE_SUPPLY)
              && s.f.num * r.den == r.num * s.f.den
    decreases f.num
  {
    r, h := f, g;
    if f.num > 1 && f.den > 1 {
      var half := Fraction(f.num / 2, f.den / 2);
      var next := Reduce(half);
      h := HalvedFloors(f, x, g);
      if next.Fits() {
        r, h := half, g * 2;
      } else {
        r, h := ShrinkFloors(next, x, h, true);
      }
    }
  }

  // ----- one of the two candidates is near the exact product

  lemma ScaleDistance(a: nat, b: nat, k: nat)
    ensures Distance(a * k, b * k) == Distance(a, b) * k
  {
    if a >= b {
      MulLeq(b, a, k);
      assert (a - b) * k == a * k - b * k;
    } else {
      MulLeq(a, b, k);
      assert (b - a) * k == b * k - a * k;
    }
  }

  /** Terms divided by one number and rounded down are near if both are large enough. */
  lemma LargeFloorsAreNear(r: Fraction, x: Fraction, g: nat)
    requires Floors(r, x, g) && r.num >= 131_072 && r.den >= 131_072
    ensures Near(r, x)
  {
    QuotientBounds(x.num, g);
    QuotientBounds(x.den, g);
    var n, d, a, b := x.num, x.den, r.num, r.den;
    FloorsNear(n, d, a, b, g);
  }

  lemma FloorsNear(n: nat, d: nat, a: nat, b: nat, g: nat)
    requires g * a <= n < g * a + g && g * b <= d < g * b + g && a >= 131_072 && b >= 131_072
    ensures Distance(a * d, n * b) * 131_072 <= n * b
  {
    // a * d - n * b <= a * g and n * b - a * d <= g * b
    MulLeq(d, g * b + g, a);
    MulLeq(g * a, n, b);
    MulLeq(n, g * a + g, b);
    MulLeq(g * b, d, a);
    assert (g * b + g) * a == g * a * b + g * a;
    assert (g * a + g) * b == g * a * b + g * b;
    assert g * b * a == g * a * b;
    MulLeq(131_072, b, n);
    MulLeq(131_072, a, g * b);
    assert (g * b) * a == g * a * b;
    if a * d >= n * b {
      MulLeq(a * d - n * b, n, 131_072);
    } else {
      MulLeq(n * b - a * d, g * b, 131_072);
    }
  }

  /** Nearness is a property of the ratio alone. */
  lemma NearSameRatio(c: Fraction, r: Fraction, x: Fraction)
    requires c.Positive() && r.Positive() && c.num * r.den == r.num * c.den && Near(r, x)
    ensures Near(c, x)
  {
    var dc, dr := Distance(c.num * x.den, x.num * c.den), Distance(r.num * x.den, x.num * r.den);
    ScaleDistance(c.num * x.den, x.num * c.den, r.den);
    ScaleDistance(r.num * x.den, x.num * r.den, c.den);
    Swap(c.num, x.den, r.den);
    Swap(r.num, x.den, c.den);
    Swap(x.num, c.den, r.den);
    assert dc * r.den == dr * c.den;
    MulLeq(dr * 131_072, x.num * r.den, c.den);
    Swap(dr, 131_072, c.den);
    Swap(dc, 131_072, r.den);
    Swap(x.num, r.den, c.den);
    Cancel(dc * 131_072, x.num * c.den, r.den);
  }

  /** The whole-number candidate is near if the ratio is large or small enough, and not clamped. */
  lemma WholeIsNear(x: Fraction)
    requires x.Positive() && (x.num >= 131_072 * x.den || x.den >= 131_072 * x.num)
    requires x.num < MAX_SHARE_SUPPLY * x.den && x.den < MAX_SHARE_SUPPLY * x.num
    ensures Near(WholeCandidate(x), x)
  {
    if x.num > x.den {
      var w := x.num / x.den;
      QuotientBounds(x.num, x.den);
      QuotientGeq(x.num, x.den, MAX_SHARE_SUPPLY);
      LargeQuotient(x.num, x.den, w);
      assert WholeCandidate(x) == Fraction(w, 1);
    } else {
      var w := x.den / x.num;
      QuotientBounds(x.den, x.num);
      QuotientGeq(x.den, x.num, MAX_SHARE_SUPPLY);
      QuotientGeq(x.den, x.num, 131_072);
      SmallQuotient(x.num, x.den, w);
      assert WholeCandidate(x) == Fraction(1, w);
    }
  }

  lemma LargeQuotient(n: nat, d: nat, w: nat)
    requires d * w <= n < d * w + d && 131_072 * d <= n
    ensures Near(Fraction(w, 1), Fraction(n, d))
  {
    assert w * d == d * w;
  }

  lemma SmallQuotient(n: nat, d: nat, w: nat)
    requires n * w <= d < n * w + n && w >= 131_072
    ensures Near(Fraction(1, w), Fraction(n, d))
  {
    MulLeq(131_072, w, n);
  }

  /** If one candidate is near, the closer one is. */
  lemma CloserIsNear(a: Fraction, b: Fraction, x: Fraction)
    requires a.Positive() && b.Positive() && (Near(a, x) || Near(b, x))
    ensures Near(if Closer(a, b, x) then a else b, x)
  {
    hide Distance;
    var da, db := Distance(a.num * x.den, x.num * a.den), Distance(b.num * x.den, x.num * b.den);
    if Closer(a, b, x) {
      if Near(b, x) {
        NotFarther(da, db, a.den, b.den, x.num);
      }
    } else if Near(a, x) {
      NotFarther(db, da, b.den, a.den, x.num);
    }
  }

  lemma NotFarther(d1: nat, d2: nat, k1: nat, k2: nat, n: nat)
    requires d1 * k2 <= d2 * k1 && k1 > 0 && k2 > 0 && d2 * 131_072 <= n * k2
    ensures d1 * 131_072 <= n * k1
  {
    MulLeq(d1 * k2, d2 * k1, 131_072);
    MulLeq(d2 * 131_072, n * k2, k1);
    Swap(d1, k2, 131_072);
    Swap(d2, k1, 131_072);
    Swap(n, k2, k1);
    Cancel(d1 * 131_072, n * k1, k2);
  }

  /** The scaled fraction before the check against the original price. */
  function Candidate(x: Fraction): (c: Fraction)
    requires x.Positive()
    ensures c.Positive() && c.Fits()
  {
    var s := Shrink(x, false);
    var whole := WholeCandidate(x);
    var edge := whole.num == MAX_SHARE_SUPPLY || whole.den == MAX_SHARE_SUPPLY;
    if s.halved && (edge || Closer(whole, s.f, x)) then whole else s.f
  }

  /** The two ends of the range are where a candidate may be far from the exact product. */
  lemma CandidateIsNear(x: Fraction)
    requires x.Positive() && x.den < MAX_SHARE_SUPPLY * x.num
    ensures x.num >= MAX_SHARE_SUPPLY * x.den ==> Candidate(x) == Fraction(MAX_SHARE_SUPPLY, 1)
    ensures x.num < MAX_SHARE_SUPPLY * x.den ==> Near(Candidate(x), x)
  {
    if x.num >= MAX_SHARE_SUPPLY * x.den {
      ClampedAtTop(x);
    } else if !x.Fits() {
      NotClamped(x);
      CandidatesNear(x);
      CloserIsNear(WholeCandidate(x), Shrink(x, false).f, x);
    }
  }

  lemma ClampedAtTop(x: Fraction)
    requires x.Positive() && x.num >= MAX_SHARE_SUPPLY * x.den
    ensures Candidate(x) == Fraction(MAX_SHARE_SUPPLY, 1)
  {
    QuotientGeq(x.num, x.den, MAX_SHARE_SUPPLY);
  }

  /** Inside the range the halving loop is entered, and the whole-number candidate is not at an end. */
  lemma NotClamped(x: Fraction)
    requires x.Positive() && !x.Fits() && x.num < MAX_SHARE_SUPPLY * x.den && x.den < MAX_SHARE_SUPPLY * x.num
    ensures Shrink(x, false).halved
    ensures WholeCandidate(x).num < MAX_SHARE_SUPPLY && WholeCandidate(x).den < MAX_SHARE_SUPPLY
  {
    QuotientGeq(x.num, x.den, MAX_SHARE_SUPPLY);
    QuotientGeq(x.den, x.num, MAX_SHARE_SUPPLY);
  }

  lemma CandidatesNear(x: Fraction)
    requires x.Positive() && !x.Fits() && x.num < MAX_SHARE_SUPPLY * x.den && x.den < MAX_SHARE_SUPPLY * x.num
    ensures Near(WholeCandidate(x), x) || Near(Shrink(x, false).f, x)
  {
    hide Shrink, WholeCandidate, Near;
    var r, g := ShrinkFloors(x, x, 1, false);
    if r.num >= 131_072 && r.den >= 131_072 {
      LargeFloorsAreNear(r, x, g);
      NearSameRatio(Shrink(x, false).f, r, x);
    } else {
      SmallTermMeansFar(r, x, g);
      WholeIsNear(x);
    }
  }

  /** A small term beside a large one means that the ratio itself is large or small. */
  lemma SmallTermMeansFar(r: Fraction, x: Fraction, g: nat)
    requires Floors(r, x, g) && (r.num < 131_072 || r.den < 131_072)
    requires 2 * r.num >= MAX_SHARE_SUPPLY || 2 * r.den >= MAX_SHARE_SUPPLY
    ensures x.num >= 131_072 * x.den || x.den >= 131_072 * x.num
  {
    if r.num < 131_072 {
      FarApart(x.num, x.den, g);
    } else {
      FarApart(x.den, x.num, g);
    }
  }

  lemma FarApart(small: nat, large: nat, g: nat)
    requires g > 0 && small / g < 131_072 && large / g >= 131_072 * 131_072
    ensures large >= 131_072 * small
  {
    QuotientGeq(small, g, 131_072);
    QuotientGeq(large, g, 131_072 * 131_072);
  }

  // ----- monotonicity in the ratio

  /** Near fractions of exact products that are at least one part in 32000 apart are in order. */
  lemma NearInOrder(c1: Fraction, x1: Fraction, c2: Fraction, x2: Fraction)
    requires c1.Positive() && c2.Positive() && x1.Positive() && x2.Positive() && Near(c1, x1) && Near(c2, x2)
    requires x1.num * x2.den * 32_001 <= x2.num * x1.den * 32_000
    ensures c1.num * c2.den <= c2.num * c1.den
  {
    var a := c1.num * x1.den;
    var b := x1.num * c1.den;
    var c := x2.num * c2.den;
    var d := c2.num * x2.den;
    // a is at most b and one part more, d at least c and one part less
    assert a * 131_072 <= b * 131_073;
    assert c * 131_071 <= d * 131_072;
    ProductsInOrder(a, b, c, d);
    // a * c * k <= b * d * l
    var u, v := c1.num * c2.den, c2.num * c1.den;
    var y, z := x2.num * x1.den, x1.num * x2.den;
    Regroup(c1.num, x1.den, x2.num, c2.den);
    Regroup(x1.num, c1.den, c2.num, x2.den);
    assert a * c == u * y;
    assert b * d == z * v;
    Ordered(u, v, y, z);
  }

  lemma Regroup(x: nat, y: nat, z: nat, w: nat)
    ensures (x * y) * (z * w) == (x * w) * (z * y)
  {
    assert (x * y) * (z * w) == x * (y * (z * w));
    assert y * (z * w) == (z * y) * w;
    assert x * ((z * y) * w) == (x * w) * (z * y);
  }

  lemma ProductsInOrder(a: nat, b: nat, c: nat, d: nat)
    requires a * 131_072 <= b * 131_073 && c * 131_071 <= d * 131_072
    ensures (a * c) * 131_071 <= (b * d) * 131_073
  {
    MulLeq(a * 131_072, b * 131_073, c * 131_071);
    MulLeq(c * 131_071, d * 131_072, b * 131_073);
    assert (a * 131_072) * (c * 131_071) == ((a * c) * 131_071) * 131_072;
    assert (d * 131_072) * (b * 131_073) == ((b * d) * 131_073) * 131_072;
    assert (b * 131_073) * (c * 131_071) == (c * 131_071) * (b * 131_073);
  }

  lemma Ordered(u: nat, v: nat, y: nat, z: nat)
    requires (u * y) * 131_071 <= (z * v) * 131_073 && z * 32_001 <= y * 32_000 && y > 0
    ensures u <= v
  {
    MulLeq(z * 32_001, y * 32_000, v);
    Swap(z, 32_001, v);
    Swap(y, 32_000, v);
    assert (u * y) * 131_071 * 32_001 <= (z * v) * 131_073 * 32_001;
    assert (u * y) * 131_071 * 32_001 <= (y * v) * 131_073 * 32_000;
    assert 131_073 * 32_000 <= 131_071 * 32_001;
    MulLeq(131_073 * 32_000, 131_071 * 32_001, y * v);
    assert u * y <= y * v;
    Cancel(u, v, y);
  }

  /** The exact product of a price and a ratio in thousandths, in lowest terms. */
  function Product(p: Price, ratio: nat): Fraction
    requires p.Valid() && ratio > 0
  {
    Reduce(Fraction(p.base * ratio, p.quote * 1000))
  }

  /**
   With a ratio above one the result is the candidate, or the price itself if rounding took the candidate below it.
   */
  lemma ScaleIsGuarded(p: Price, ratio: nat)
    requires p.Valid() && ratio > 1000
    ensures var c := Candidate(Product(p, ratio));
            var np := Price(c.num, c.den);
            Scale(p, ratio, 1000) == if !Product(p, ratio).Fits() && np.Less(p) then p else np
  {
    hide Reduce;
  }

  lemma ProductsApart(p: Price, r1: nat, r2: nat)
    requires p.Valid() && 0 < r1 <= 32_000 && r1 < r2
    ensures var x1, x2 := Product(p, r1), Product(p, r2);
            x1.num * x2.den * 32_001 <= x2.num * x1.den * 32_000
  {
    hide Reduce;
    var x1, x2 := Product(p, r1), Product(p, r2);
    var b, k := p.base, p.quote * 1000;
    ProductTerms(b, k, r1, r2, x1, x2);
  }

  lemma ProductTerms(b: nat, k: nat, r1: nat, r2: nat, x1: Fraction, x2: Fraction)
    requires k > 0 && r1 <= 32_000 && r1 < r2
    requires x1.num * k == b * r1 * x1.den && x2.num * k == b * r2 * x2.den
    ensures x1.num * x2.den * 32_001 <= x2.num * x1.den * 32_000
  {
    var w := b * (x1.den * x2.den);
    var n1, n2 := x1.num * x2.den, x2.num * x1.den;
    CrossTerm(b, k, r1, x1, x2.den, w);
    CrossTerm(b, k, r2, x2, x1.den, w);
    ScaledApart(w, r1, r2);
    Swap(n1, 32_001, k);
    Swap(n2, 32_000, k);
    Cancel(n1 * 32_001, n2 * 32_000, k);
  }

  lemma CrossTerm(b: nat, k: nat, r: nat, x: Fraction, y: nat, w: nat)
    requires x.num * k == b * r * x.den && w == b * (x.den * y)
    ensures (x.num * y) * k == w * r
  {
    Swap(x.num, y, k);
    assert b * r * x.den * y == (b * r) * (x.den * y);
    Swap(b, r, x.den * y);
  }

  lemma ScaledApart(w: nat, r1: nat, r2: nat)
    requires r1 <= 32_000 && r1 < r2
    ensures (w * r1) * 32_001 <= (w * r2) * 32_000
  {
    MulLeq(r1 * 32_001, r2 * 32_000, w);
    assert (w * r1) * 32_001 == (r1 * 32_001) * w && (w * r2) * 32_000 == (r2 * 32_000) * w;
  }

  /** The product is above the price, so it is not below the range. */
  lemma ProductAbovePrice(p: Price, ratio: nat)
    requires p.Valid() && p.quote <= MAX_SHARE_SUPPLY && ratio > 1000
    ensures var x := Product(p, ratio);
            x.den < MAX_SHARE_SUPPLY * x.num && p.Less(Price(x.num, x.den))
  {
    hide Reduce;
    var x := Product(p, ratio);
    AboveTerms(p.base, p.quote, ratio, x.num, x.den);
  }

  lemma AboveTerms(b: nat, q: nat, ratio: nat, n: nat, d: nat)
    requires b > 0 && 0 < q <= MAX_SHARE_SUPPLY && ratio > 1000 && n > 0 && d > 0 && n * (q * 1000) == b * ratio * d
    ensures b * d < n * q && d < MAX_SHARE_SUPPLY * n
  {
    MulLess(1000, ratio, b * d);
    assert b * ratio * d == ratio * (b * d);
    assert n * (q * 1000) == (n * q) * 1000;
    MulLeq(1, b, d);
    MulLeq(q, MAX_SHARE_SUPPLY, n);
  }

  /**
   A larger ratio never gives a lower price, whatever is rounded: the ratios are whole thousandths up to 32, so their
   products are further apart than rounding can move them.
   */
  lemma ScaleMonotone(p: Price, r1: nat, r2: nat)
    requires p.Valid() && p.base <= MAX_SHARE_SUPPLY && p.quote <= MAX_SHARE_SUPPLY
    requires 1000 < r1 <= 32_000 && r1 <= r2
    ensures Scale(p, r1, 1000).AtMost(Scale(p, r2, 1000))
  {
    hide Scale, Product, Candidate, Near, Price.Less;
    var x1, x2 := Product(p, r1), Product(p, r2);
    ScaleIsGuarded(p, r1);
    ScaleIsGuarded(p, r2);
    if r1 < r2 {
      ProductsArePositive(p, r1);
      ProductsArePositive(p, r2);
      ProductAbovePrice(p, r1);
      ProductAbovePrice(p, r2);
      CandidatesInOrder(p, r1, r2);
      GuardsInOrder(p, x1, x2);
    } else {
      Total(Scale(p, r1, 1000), Scale(p, r2, 1000));
    }
  }

  lemma CandidatesInOrder(p: Price, r1: nat, r2: nat)
    requires p.Valid() && p.quote <= MAX_SHARE_SUPPLY && 1000 < r1 <= 32_000 && r1 < r2
    ensures var c1, c2 := Candidate(Product(p, r1)), Candidate(Product(p, r2));
            c1.num * c2.den <= c2.num * c1.den
  {
    hide Candidate, Product, Near;
    var x1, x2 := Product(p, r1), Product(p, r2);
    ProductAbovePrice(p, r1);
    ProductAbovePrice(p, r2);
    ProductsArePositive(p, r1);
    ProductsArePositive(p, r2);
    CandidateIsNear(x1);
    CandidateIsNear(x2);
    ProductsApart(p, r1, r2);
    var c1, c2 := Candidate(x1), Candidate(x2);
    if x2.num >= MAX_SHARE_SUPPLY * x2.den {
      MulLeq(1, c1.den, MAX_SHARE_SUPPLY);
    } else {
      BelowTop(x1, x2);
      NearInOrder(c1, x1, c2, x2);
    }
  }

  lemma ProductsArePositive(p: Price, ratio: nat)
    requires p.Valid() && ratio > 0
    ensures Product(p, ratio).Positive()
  {
  }

  lemma BelowTop(x1: Fraction, x2: Fraction)
    requires x1.Positive() && x2.Positive() && x2.num < MAX_SHARE_SUPPLY * x2.den
    requires x1.num * x2.den * 32_001 <= x2.num * x1.den * 32_000
    ensures x1.num < MAX_SHARE_SUPPLY * x1.den
  {
    MulLess(x2.num, MAX_SHARE_SUPPLY * x2.den, x1.den);
    Swap(MAX_SHARE_SUPPLY, x2.den, x1.den);
    assert x1.num * x2.den <= x2.num * x1.den;
    Cancel(x1.num, MAX_SHARE_SUPPLY * x1.den, x2.den);
  }

  lemma GuardsInOrder(p: Price, x1: Fraction, x2: Fraction)
    requires p.Valid() && x1.Positive() && x2.Positive() && p.Less(Price(x1.num, x1.den)) &&
             p.Less(Price(x2.num, x2.den))
    requires var c1, c2 := Candidate(x1), Candidate(x2);
             c1.num * c2.den <= c2.num * c1.den
    ensures var n1, n2 := Price(Candidate(x1).num, Candidate(x1).den), Price(Candidate(x2).num, Candidate(x2).den);
            var s1 := if !x1.Fits() && n1.Less(p) then p else n1;
            var s2 := if !x2.Fits() && n2.Less(p) then p else n2;
            s1.AtMost(s2)
  {
    ExactCandidate(x1);
    ExactCandidate(x2);
    hide Candidate, Price.Less;
    var n1, n2 := Price(Candidate(x1).num, Candidate(x1).den), Price(Candidate(x2).num, Candidate(x2).den);
    assert n1.AtMost(n2) by { CompareCandidates(n1, n2); }
    Total(p, n1);
    Total(p, n2);
    Total(p, p);
    if x1.Fits() && n2.Less(p) {
      LessTransitive(n2, p, n1);
    } else if n2.Less(p) {
      LessTransitive(n1, n2, p);
    }
  }

  lemma CompareCandidates(n1: Price, n2: Price)
    requires n1.base * n2.quote <= n2.base * n1.quote
    ensures n1.AtMost(n2)
  {
  }

  lemma ExactCandidate(x: Fraction)
    requires x.Positive()
    ensures x.Fits() ==> Candidate(x) == x
  {
  }

  lemma Total(p: Price, q: Price)
    ensures p.Less(q) ==> p.AtMost(q)
    ensures !p.Less(q) ==> q.AtMost(p)
    ensures p == q ==> p.AtMost(q)
  {
  }

  // ----- how near a scaled price is to the exact product

  /** The exact product of the price and `num / den` lies strictly inside the range of prices. */
  predicate InRange(p: Price, num: nat, den: nat) {
    && p.base * num < MAX_SHARE_SUPPLY * (p.quote * den)
    && p.quote * den < MAX_SHARE_SUPPLY * (p.base * num)
  }

  /** Nearness to a fraction depends on its ratio alone. */
  lemma NearSameExact(c: Fraction, x: Fraction, y: Fraction)
    requires x.Positive() && x.num * y.den == y.num * x.den && Near(c, x)
    ensures Near(c, y)
  {
    var dx, dy := Distance(c.num * x.den, x.num * c.den), Distance(c.num * y.den, y.num * c.den);
    ScaleDistance(c.num * x.den, x.num * c.den, y.den);
    ScaleDistance(c.num * y.den, y.num * c.den, x.den);
    Swap(c.num, x.den, y.den);
    Swap(x.num, c.den, y.den);
    Swap(y.num, c.den, x.den);
    assert dx * y.den == dy * x.den;
    MulLeq(dx * 131_072, x.num * c.den, y.den);
    Swap(dx, 131_072, y.den);
    Swap(dy, 131_072, x.den);
    assert (dy * 131_072) * x.den <= (y.num * c.den) * x.den;
    Cancel(dy * 131_072, y.num * c.den, x.den);
  }

  /** A fraction between the exact one and a near one is near. */
  lemma BetweenIsNear(p: Fraction, c: Fraction, x: Fraction)
    requires p.Positive() && c.Positive() && x.Positive() && Near(c, x)
    requires || (c.num * p.den < p.num * c.den && p.num * x.den <= x.num * p.den)
             || (p.num * c.den < c.num * p.den && x.num * p.den <= p.num * x.den)
    ensures Near(p, x)
  {
    NearMeans(c, x);
    // p.num * x.den over x.num * p.den lies between c.num * x.den over x.num * c.den and one
    Swap(p.num, x.den, c.den);
    Swap(c.num, x.den, p.den);
    Swap(x.num, c.den, p.den);
    if c.num * p.den < p.num * c.den {
      MulLeq(c.num * p.den, p.num * c.den, x.den);
      Transfer(c.num * x.den, x.num * c.den, p.num * x.den, x.num * p.den, p.den, c.den, 131_072, 131_071);
    } else {
      MulLeq(p.num * c.den, c.num * p.den, x.den);
      Transfer(x.num * c.den, c.num * x.den, x.num * p.den, p.num * x.den, p.den, c.den, 131_073, 131_072);
    }
  }

  /** If `v / u` is at most `z / y`, then it is bounded by whatever bounds that. */
  lemma Transfer(y: nat, z: nat, u: nat, v: nat, m: nat, k: nat, a: nat, b: nat)
    requires k > 0 && y * m <= u * k && v * k <= z * m && z * b <= y * a
    ensures v * b <= u * a
  {
    MulLeq(z * b, y * a, m);
    Swap(z, b, m);
    Swap(y, a, m);
    MulLeq(v * k, z * m, b);
    MulLeq(y * m, u * k, a);
    Swap(v, k, b);
    Swap(u, k, a);
    Cancel(v * b, u * a, k);
  }

  /** The result is the candidate, or the price itself if the candidate is on its wrong side. */
  lemma ScaleIsCandidate(p: Price, num: nat, den: nat)
    requires p.Valid() && num > 0 && den > 0 && num != den
    ensures var x := Reduce(Fraction(p.base * num, p.quote * den));
            var c := Candidate(x);
            var np, s := Price(c.num, c.den), Scale(p, num, den);
            s == np || (s == p && ((num > den && np.Less(p)) || (num < den && p.Less(np))))
  {
    hide Reduce;
  }

  /** Inside the range a scaled price differs from the exact product by at most one part in 2^17, whatever the ratio. */
  lemma ScaleIsNear(p: Price, num: nat, den: nat)
    requires p.Valid() && num > 0 && den > 0 && InRange(p, num, den)
    ensures var s := Scale(p, num, den);
            var exact, scaled := (p.base * num) * s.quote, s.base * (p.quote * den);
            exact * 131_071 <= scaled * 131_072 && scaled * 131_072 <= exact * 131_073
  {
    hide Reduce, Candidate, Scale, Near;
    var s := Scale(p, num, den);
    ScaleFacts(p, num, den);
    if num != den {
      var b, q := p.base * num, p.quote * den;
      MulLess(0, p.base, num);
      MulLess(0, p.quote, den);
      var x := Reduce(Fraction(b, q));
      RangeOfReduced(x, b, q);
      CandidateIsNear(x);
      ScaleIsCandidate(p, num, den);
      if s == p {
        SideOfReduced(p, num, den, x);
        GuardedIsNear(p, num, den, x);
      }
      NearSameExact(Fraction(s.base, s.quote), x, Fraction(b, q));
      NearMeans(Fraction(s.base, s.quote), Fraction(b, q));
    } else {
      Swap(p.base, num, p.quote);
    }
  }

  lemma GuardedIsNear(p: Price, num: nat, den: nat, x: Fraction)
    requires p.Valid() && x.Positive() && Near(Candidate(x), x)
    requires var np := Price(Candidate(x).num, Candidate(x).den);
             np == p || (num > den && np.Less(p)) || (num < den && p.Less(np))
    requires num >= den ==> p.base * x.den <= x.num * p.quote
    requires num <= den ==> x.num * p.quote <= p.base * x.den
    ensures Near(Fraction(p.base, p.quote), x)
  {
    hide Candidate, Near;
    var c := Candidate(x);
    if Price(c.num, c.den) != p {
      BetweenIsNear(Fraction(p.base, p.quote), c, x);
    }
  }

  lemma NearMeans(c: Fraction, x: Fraction)
    requires Near(c, x)
    ensures (x.num * c.den) * 131_071 <= (c.num * x.den) * 131_072 <= (x.num * c.den) * 131_073
  {
  }

  lemma RangeOfReduced(x: Fraction, n: nat, d: nat)
    requires x.Positive() && n > 0 && d > 0 && x.num * d == n * x.den
    requires n < MAX_SHARE_SUPPLY * d && d < MAX_SHARE_SUPPLY * n
    ensures x.num < MAX_SHARE_SUPPLY * x.den && x.den < MAX_SHARE_SUPPLY * x.num
  {
    MulLess(n, MAX_SHARE_SUPPLY * d, x.den);
    MulLess(d, MAX_SHARE_SUPPLY * n, x.den);
    Swap(MAX_SHARE_SUPPLY, d, x.den);
    Cancel(x.num, MAX_SHARE_SUPPLY * x.den, d);
    Swap(MAX_SHARE_SUPPLY, n, x.den);
    assert (MAX_SHARE_SUPPLY * n) * x.den == (MAX_SHARE_SUPPLY * x.num) * d;
    Cancel(x.den, MAX_SHARE_SUPPLY * x.num, d);
  }

  lemma SideOfReduced(p: Price, num: nat, den: nat, x: Fraction)
    requires p.Valid() && num > 0 && den > 0 && x.Positive()
    requires x.num * (p.quote * den) == (p.base * num) * x.den
    ensures num >= den ==> p.base * x.den <= x.num * p.quote
    ensures num <= den ==> x.num * p.quote <= p.base * x.den
  {
    ExactProductSide(p, num, den, Price(x.num, x.den));
  }
}
