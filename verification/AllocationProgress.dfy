/**
 The 32-bit arithmetic of allocation progress (libraries/chain/property_object.cpp, `get_allocation_progress`;
 libraries/protocol/include/graphene/protocol/types.hpp, `ratio_type`).

 The original forms the progress with rational numbers whose terms are 32-bit integers.  Every product and sum the
 rational library forms on the way is checked here; none overflows.
 */
module AllocationProgress {
  import opened Prices
  import opened PriceScaling
  import opened Allocation

  const MAX_INT32: nat := 0x7FFF_FFFF

  /** A fraction of 32-bit terms. */
  datatype Ratio = Ratio(num: nat, den: nat) {
    predicate Fits() { 0 < den <= MAX_INT32 && num <= MAX_INT32 }
    predicate Is(n: nat, d: nat) { num * d == n * den }
  }

  function Over(x: nat, g: nat): nat
    requires g > 0
  {
    x / g
  }

  /** The greatest common divisor of `a` and `b`; of a positive number and zero it is the number. */
  function Common(a: nat, b: nat): (g: nat)
    requires a > 0
    ensures g > 0
  {
    Gcd(a, b)
  }

  lemma CommonFacts(a: nat, b: nat)
    requires a > 0
    ensures var g := Common(a, b);
            && g <= a && Over(a, g) * g == a && Over(b, g) * g == b
            && 0 < Over(a, g) <= a && Over(b, g) <= b && (b > 0 ==> Over(b, g) > 0)
  {
    var g := Gcd(a, b);
    OverFacts(a, g);
    OverFacts(b, g);
  }

  lemma OverFacts(x: nat, g: nat)
    requires g > 0 && x / g * g == x
    ensures Over(x, g) * g == x && Over(x, g) <= x && (x > 0 ==> Over(x, g) > 0 && g <= x)
  {
    var q := x / g;
    MulLeq(1, g, q);
    if q > 0 {
      MulLeq(1, q, g);
    }
  }

  function Lowest(num: nat, den: nat): (r: Ratio)
    requires den > 0
    ensures 0 < r.den <= den && r.num <= num && r.Is(num, den)
  {
    if num == 0 then Ratio(0, 1)
    else
      var f := Reduce(Fraction(num, den));
      Ratio(f.num, f.den)
  }

  /** Dividing by four cancels first. */
  function Quarter(r: Ratio): (q: Ratio)
    requires r.den > 0
    ensures 0 < q.den <= 4 * r.den && q.num <= r.num
  {
    var g := Common(4, r.num);
    CommonFacts(4, r.num);
    MulLeq(Over(4, g), 4, r.den);
    MulLeq(1, Over(4, g), r.den);
    Ratio(Over(r.num, g), Over(4, g) * r.den)
  }

  /** Multiplying by three cancels first. */
  function Thrice(r: Ratio): (q: Ratio)
    requires r.den > 0
    ensures 0 < q.den <= r.den && q.num <= 3 * r.num
  {
    var g := Common(3, r.den);
    CommonFacts(3, r.den);
    MulLeq(Over(3, g), 3, r.num);
    Ratio(Over(3, g) * r.num, Over(r.den, g))
  }

  function CrossSum(x: nat, y: nat, z: nat, w: nat): nat { x * y + z * w }

  /** The sum, or `None` if a product, their sum or the denominator does not fit. */
  function Added(a: Ratio, b: Ratio): Option<Ratio>
    requires a.den > 0 && b.den > 0
  {
    var g := Common(a.den, b.den);
    var den := Over(a.den, g);
    var num := CrossSum(a.num, Over(b.den, g), b.num, den);
    var h := Common(g, num);
    if num <= MAX_INT32 && den * b.den <= MAX_INT32 then Some(Ratio(Over(num, h), den * Over(b.den, h))) else None
  }

  /** `get_allocation_progress`, with every term formed on the way checked for 32 bits. */
  function Progress32(p: Property): Option<Ratio>
    requires Consistent(p)
  {
    var initial, approval := Lowest(p.initial, p.initialMax), Lowest(p.approval, p.approvalMax);
    var a, three := Quarter(initial), Thrice(approval);
    var b := Quarter(three);
    if p.initialMax <= MAX_INT32 && p.approvalMax <= MAX_INT32 && initial.Fits() && approval.Fits()
       && a.Fits() && three.Fits() && b.Fits()
    then Added(a, b) else None
  }

  lemma QuarterIs(r: Ratio, n: nat, d: nat)
    requires r.den > 0 && r.Is(n, d)
    ensures Quarter(r).Is(n, 4 * d)
  {
    hide Common, Over;
    var g := Common(4, r.num);
    CommonFacts(4, r.num);
    QuarterTerms(Over(r.num, g), Over(4, g), g, r.num, r.den, n, d);
  }

  lemma QuarterTerms(x: nat, y: nat, g: nat, num: nat, den: nat, n: nat, d: nat)
    requires x * g == num && y * g == 4 && num * d == n * den
    ensures x * (4 * d) == n * (y * den)
  {
    assert x * ((y * g) * d) == (x * g) * d * y;
    assert n * den * y == n * (y * den);
  }

  lemma ThriceIs(r: Ratio, n: nat, d: nat)
    requires r.den > 0 && r.Is(n, d)
    ensures Thrice(r).Is(3 * n, d)
  {
    hide Common, Over;
    var g := Common(3, r.den);
    CommonFacts(3, r.den);
    ThriceTerms(Over(r.den, g), Over(3, g), g, r.num, r.den, n, d);
  }

  lemma ThriceTerms(x: nat, y: nat, g: nat, num: nat, den: nat, n: nat, d: nat)
    requires x * g == den && y * g == 3 && num * d == n * den
    ensures y * num * d == 3 * n * x
  {
    assert y * num * d == y * (n * (x * g));
    assert y * (n * (x * g)) == (y * g) * (n * x);
    assert 3 * (n * x) == 3 * n * x;
  }

  /** What `h` divides of `g`, and `g` of `n`, `h` divides of `n`. */
  lemma Divides(n: nat, g: nat, h: nat)
    requires g > 0 && h > 0 && Over(n, g) * g == n && Over(g, h) * h == g
    ensures Over(n, h) * h == n
  {
    var k := Over(n, g) * Over(g, h);
    assert k * h == Over(n, g) * (Over(g, h) * h);
    QuotientGeq(n, h, k);
    QuotientGeq(n, h, k + 1);
    assert h * (k + 1) == h * k + h;
  }

  /** Adding a fraction to one quarter. */
  lemma AddedToQuarter(b: Ratio)
    requires b.den > 0 && b.num <= MAX_INT32 / 10 && b.den <= MAX_INT32 / 5
    ensures var r := Added(Ratio(1, 4), b);
            r.Some? && r.value.Is(b.den + 4 * b.num, 4 * b.den)
  {
    hide Common, Over;
    var g := Common(4, b.den);
    CommonFacts(4, b.den);
    var z := Over(4, g);
    var num := CrossSum(1, Over(b.den, g), b.num, z);
    var h := Common(g, num);
    CommonFacts(g, num);
    MulLeq(z, 4, b.num);
    MulLeq(z, 4, b.den);
    Divides(b.den, g, h);
    SumTerms(Over(num, h), Over(b.den, h), z, g, h, Over(b.den, g), num, b);
  }

  lemma SumTerms(x: nat, y: nat, z: nat, g: nat, h: nat, w: nat, num: nat, b: Ratio)
    requires x * h == num && y * h == b.den && z * g == 4 && w * g == b.den && num == w + b.num * z
    ensures x * (4 * b.den) == (b.den + 4 * b.num) * (z * y)
  {
    assert num * g == b.den + 4 * b.num by {
      assert (w + b.num * z) * g == w * g + b.num * (z * g);
    }
    assert x * (4 * b.den) == x * ((z * g) * (y * h));
    assert (z * g) * (y * h) == h * (g * (z * y));
    assert x * (h * (g * (z * y))) == (x * h) * (g * (z * y));
    assert (x * h) * (g * (z * y)) == (num * g) * (z * y);
  }

  /**
   The 32-bit rational arithmetic never overflows and gives the progress: the initial counter is filled first, so one of
   the two addends is zero or exactly a quarter.
   */
  lemma ProgressFits32Bits(p: Property)
    requires Consistent(p)
    ensures Progress32(p).Some? && Progress32(p).value.Is(ProgressNum(p), ProgressDen(p))
  {
    hide Common, Quarter, Thrice, Added, Lowest;
    var initial, approval := Lowest(p.initial, p.initialMax), Lowest(p.approval, p.approvalMax);
    QuarterIs(initial, p.initial, p.initialMax);
    ThriceIs(approval, p.approval, p.approvalMax);
    QuarterIs(Thrice(approval), 3 * p.approval, p.approvalMax);
    var a, b := Quarter(initial), Quarter(Thrice(approval));
    if p.approval == 0 {
      NoApproval(p.approvalMax);
      AddedToZero(a);
      InitialProgress(a, Added(a, b).value, p.initial, p.initialMax, p.approvalMax);
    } else {
      FullInitial(p.initialMax);
      AddedToQuarter(b);
      FullProgress(b, p.approval, p.approvalMax, p.initialMax, Added(a, b).value);
    }
  }

  lemma NoApproval(n: nat)
    requires n > 0
    ensures Quarter(Thrice(Lowest(0, n))) == Ratio(0, 1)
  {
    assert Gcd(3, 1) == 1 && Gcd(4, 0) == 4;
  }

  lemma AddedToZero(a: Ratio)
    requires 0 < a.den <= MAX_INT32 && a.num <= MAX_INT32
    ensures Added(a, Ratio(0, 1)) == Some(a)
  {
    assert Gcd(a.den, 1) == 1;
    GcdOneWith(a.num);
  }

  lemma GcdOneWith(n: nat)
    ensures Gcd(1, n) == 1
  {
    var g := Gcd(1, n);
    OverFacts(1, g);
  }

  lemma InitialProgress(a: Ratio, r: Ratio, n: nat, m: nat, k: nat)
    requires r == a && a.Is(n, 4 * m)
    ensures r.Is(n * k + 3 * 0 * m, 4 * m * k)
  {
    assert a.num * (4 * m * k) == (a.num * (4 * m)) * k;
    assert n * a.den * k == n * k * a.den;
  }

  /** A full initial counter is the fraction one, and a quarter of it one quarter. */
  lemma FullInitial(n: nat)
    requires n > 0
    ensures Quarter(Lowest(n, n)) == Ratio(1, 4)
  {
    assert Gcd(n, n) == n;
    assert n / n == 1;
    assert Gcd(4, 1) == 1;
  }

  /** A quarter and three quarters of the approval progress. */
  lemma FullProgress(b: Ratio, approval: nat, m: nat, k: nat, r: Ratio)
    requires b.den > 0 && b.Is(3 * approval, 4 * m) && r.Is(b.den + 4 * b.num, 4 * b.den)
    ensures r.Is(k * m + 3 * approval * k, 4 * k * m)
  {
    FullTerms(b.num, b.den, approval, m, r.num, r.den);
    assert r.num * (4 * k * m) == (r.num * (4 * m)) * k;
    assert (m + 3 * approval) * r.den * k == (k * m + 3 * approval * k) * r.den;
  }

  lemma FullTerms(bn: nat, bd: nat, approval: nat, m: nat, x: nat, y: nat)
    requires bd > 0 && bn * (4 * m) == 3 * approval * bd && x * (4 * bd) == (bd + 4 * bn) * y
    ensures x * (4 * m) == (m + 3 * approval) * y
  {
    assert x * (4 * bd) * m == (bd + 4 * bn) * y * m;
    assert (bd + 4 * bn) * m == bd * m + bn * (4 * m) == (m + 3 * approval) * bd;
    assert (bd + 4 * bn) * y * m == ((bd + 4 * bn) * m) * y;
    assert x * (4 * bd) * m == (x * (4 * m)) * bd;
    assert ((m + 3 * approval) * bd) * y == ((m + 3 * approval) * y) * bd;
    Cancel(x * (4 * m), (m + 3 * approval) * y, bd);
  }
}
