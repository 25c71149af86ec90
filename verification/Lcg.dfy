/** The benchmark's random numbers: x -> (1664525 x + 1013904223) mod 2^32. Every state is visited
    exactly once in 2^32 steps, from any seed, and no product leaves the exact range of a double. */
module Lcg {

  const MUL: nat := 1664525
  const INC: nat := 1013904223
  const MODULUS: nat := 4294967296
  const EXACT: nat := 9007199254740992

  function Next(x: nat): nat {
    (x * MUL + INC) % MODULUS
  }

  function Iterate(x: nat, n: nat): nat {
    if n == 0 then x else Next(Iterate(x, n - 1))
  }

  function Pow2(k: nat): (p: nat)
    ensures p > 0
  {
    if k == 0 then 1 else 2 * Pow2(k - 1)
  }

  /** a^n and 1 + a + ... + a^(n-1). */
  function Pow(a: nat, n: nat): nat {
    if n == 0 then 1 else a * Pow(a, n - 1)
  }

  function Geo(a: nat, n: nat): nat {
    if n == 0 then 0 else 1 + a * Geo(a, n - 1)
  }

  /** d divides x, with the quotient in hand. */
  ghost predicate Divides(d: int, x: int) {
    exists q: int :: x == Times(d, q)
  }

  function Times(d: int, q: int): int {
    d * q
  }

  // ---------- divisibility ----------

  lemma DividesSum(d: int, x: int, y: int)
    requires Divides(d, x)
    ensures Divides(d, x + y) <==> Divides(d, y)
  {
    var q :| x == Times(d, q);
    if Divides(d, y) {
      var p :| y == Times(d, p);
      assert x + y == Times(d, q + p);
    }
    if Divides(d, x + y) {
      var p :| x + y == Times(d, p);
      assert y == Times(d, p - q);
    }
  }

  lemma DividesMod(d: nat, x: int)
    requires d > 0
    ensures Divides(d, x) <==> x % d == 0
    ensures Divides(d, x - x % d)
  {
    var q := x / d;
    assert x - x % d == Times(d, q);
    if Divides(d, x) {
      var p :| x == Times(d, p);
      assert x % d == 0 by {
        var e := q - p;
        assert x % d == Times(d, -e);
        SmallMultiple(d, x % d, -e);
      }
    }
  }

  lemma SmallMultiple(d: nat, r: nat, q: int)
    requires r < d && r == Times(d, q)
    ensures r == 0
  {
  }

  /** Doubling both sides. */
  lemma DividesDouble(d: int, x: int)
    ensures Divides(2 * d, 2 * x) <==> Divides(d, x)
  {
    if Divides(d, x) {
      var q :| x == Times(d, q);
      assert 2 * x == Times(2 * d, q);
    }
    if Divides(2 * d, 2 * x) {
      var q :| 2 * x == Times(2 * d, q);
      assert 2 * x == 2 * Times(d, q);
    }
  }

  /** An odd factor does not help a power of two divide. */
  lemma {:induction false} OddFactor(k: nat, x: int, odd: int)
    requires odd % 2 == 1
    ensures Divides(Pow2(k), x * odd) <==> Divides(Pow2(k), x)
    decreases k
  {
    if k == 0 {
      assert x * odd == Times(1, x * odd) && x == Times(1, x);
    } else {
      OddProduct(x, odd);
      EvenOfDivides(k, x * odd);
      EvenOfDivides(k, x);
      if x % 2 == 0 {
        var h := x / 2;
        assert x * odd == 2 * (h * odd);
        DividesDouble(Pow2(k - 1), h * odd);
        DividesDouble(Pow2(k - 1), h);
        OddFactor(k - 1, h, odd);
      }
    }
  }

  lemma OddProduct(x: int, odd: int)
    requires odd % 2 == 1
    ensures (x * odd) % 2 == x % 2
  {
    var h := odd / 2;
    assert x * odd == 2 * (x * h) + x;
  }

  lemma EvenOfDivides(k: nat, x: int)
    requires k > 0
    ensures Divides(Pow2(k), x) ==> x % 2 == 0
  {
    if Divides(Pow2(k), x) {
      var q :| x == Times(Pow2(k), q);
      assert x == 2 * (Pow2(k - 1) * q);
    }
  }

  // ---------- the closed form of an iterate ----------

  lemma {:induction false} GeoPow(a: nat, n: nat)
    ensures Pow(a, n) - 1 == (a - 1) * Geo(a, n)
  {
    if n > 0 {
      GeoPow(a, n - 1);
      assert Pow(a, n) - 1 == a * (Pow(a, n - 1) - 1) + a - 1;
      assert (a - 1) * Geo(a, n) == a * ((a - 1) * Geo(a, n - 1)) + a - 1;
    }
  }

  lemma {:induction false} PowAdd(a: nat, m: nat, n: nat)
    ensures Pow(a, m + n) == Pow(a, m) * Pow(a, n)
    ensures Geo(a, m + n) == Geo(a, m) + Pow(a, m) * Geo(a, n)
  {
    if m > 0 {
      PowAdd(a, m - 1, n);
      assert m + n - 1 == m - 1 + n;
      Assoc(a, Pow(a, m - 1), Pow(a, n));
      Assoc(a, Pow(a, m - 1), Geo(a, n));
      Distribute(a, Geo(a, m - 1), Pow(a, m - 1) * Geo(a, n));
    }
  }

  lemma Assoc(a: int, b: int, c: int)
    ensures a * (b * c) == (a * b) * c
  {
  }

  lemma Distribute(a: int, b: int, c: int)
    ensures a * (b + c) == a * b + a * c
  {
  }

  /** An iterate differs from its closed form by a multiple of the modulus. */
  lemma {:induction false} ClosedForm(x: nat, n: nat)
    ensures Divides(MODULUS, Iterate(x, n) - (Pow(MUL, n) * x + INC * Geo(MUL, n)))
  {
    if n == 0 {
      assert Iterate(x, n) - (Pow(MUL, n) * x + INC * Geo(MUL, n)) == Times(MODULUS, 0);
    } else {
      ClosedForm(x, n - 1);
      var y, p, g := Iterate(x, n - 1), Pow(MUL, n - 1), Geo(MUL, n - 1);
      var q :| y - (p * x + INC * g) == Times(MODULUS, q);
      var w := y * MUL + INC;
      DividesMod(MODULUS, w);
      var e :| w - w % MODULUS == Times(MODULUS, e);
      ClosedStep(x, y, p, g, q);
      assert Iterate(x, n) - (Pow(MUL, n) * x + INC * Geo(MUL, n)) == Times(MODULUS, q * MUL - e);
    }
  }

  lemma ClosedStep(x: int, y: int, p: int, g: int, q: int)
    requires y - (p * x + INC * g) == MODULUS * q
    ensures y * MUL + INC == MUL * p * x + INC * (1 + MUL * g) + MODULUS * (q * MUL)
  {
  }

  /** So n steps move a state by a multiple of the modulus exactly when the modulus divides the geometric sum
      times an odd number. */
  lemma Displacement(x: nat, n: nat)
    ensures Divides(MODULUS, Iterate(x, n) - x) <==> Divides(MODULUS, Geo(MUL, n) * ((MUL - 1) * x + INC))
  {
    ClosedForm(x, n);
    GeoPow(MUL, n);
    var g := Geo(MUL, n);
    var closed := Pow(MUL, n) * x + INC * g;
    ClosedDisplacement(Pow(MUL, n), g, x, MUL - 1, INC);
    DividesSum(MODULUS, Iterate(x, n) - closed, closed - x);
  }

  lemma ClosedDisplacement(p: int, g: int, x: int, a: int, c: int)
    requires p - 1 == a * g
    ensures p * x + c * g - x == g * (a * x + c)
  {
    assert p * x - x == (a * g) * x == g * (a * x);
  }

  // ---------- powers of two in the geometric sum ----------

  lemma {:induction false} GeoParity(a: nat, n: nat)
    requires a % 4 == 1
    ensures Pow(a, n) % 4 == 1 && Geo(a, n) % 2 == n % 2
  {
    if n > 0 {
      GeoParity(a, n - 1);
      PowStep(a, Pow(a, n - 1), Pow(a, n));
      GeoStep(a, Geo(a, n - 1), Geo(a, n));
      Successor(Geo(a, n - 1), Geo(a, n), n);
    }
  }

  lemma PowStep(a: int, p: int, y: int)
    requires a % 4 == 1 && p % 4 == 1 && y == a * p
    ensures y % 4 == 1
  {
    var h := a / 4;
    var q := h * p;
    assert y == 4 * q + p by {
      assert a == 4 * h + 1;
    }
  }

  lemma GeoStep(a: int, g: int, y: int)
    requires a % 4 == 1 && y == 1 + a * g
    ensures y % 2 == (1 + g) % 2
  {
    var h := a / 4;
    var q := h * g;
    assert y == 4 * q + g + 1 by {
      assert a == 4 * h + 1;
    }
  }

  lemma Successor(g: int, y: int, n: int)
    requires y % 2 == (1 + g) % 2 && g % 2 == (n - 1) % 2
    ensures y % 2 == n % 2
  {
  }

  /** The sum over twice as many powers. */
  lemma GeoDouble(a: nat, j: nat) returns (odd: nat)
    requires a % 4 == 1
    ensures odd % 2 == 1 && Geo(a, 2 * j) == 2 * (Geo(a, j) * odd)
  {
    odd := HalfOfSuccessor(a, j);
    PowAdd(a, j, j);
    assert j + j == 2 * j;
    FactorOut(Geo(a, j), Pow(a, j), odd);
  }

  lemma HalfOfSuccessor(a: nat, j: nat) returns (odd: nat)
    requires a % 4 == 1
    ensures odd % 2 == 1 && 1 + Pow(a, j) == 2 * odd
  {
    GeoParity(a, j);
    odd := HalfOf(Pow(a, j));
  }

  lemma HalfOf(p: nat) returns (odd: nat)
    requires p % 4 == 1
    ensures odd % 2 == 1 && 1 + p == 2 * odd
  {
    var q := p / 4;
    odd := 2 * q + 1;
  }

  lemma FactorOut(g: int, p: int, odd: int)
    requires 1 + p == 2 * odd
    ensures g + p * g == 2 * (g * odd)
  {
    assert g + p * g == (1 + p) * g == (2 * odd) * g;
  }

  /** With a multiplier that is 1 mod 4, the sum of n powers holds exactly the powers of two that n holds. */
  lemma {:induction false} GeoValuation(a: nat, k: nat, n: nat)
    requires a % 4 == 1
    ensures Divides(Pow2(k), Geo(a, n)) <==> Divides(Pow2(k), n)
    decreases k
  {
    GeoParity(a, n);
    if k == 0 {
      assert Geo(a, n) == Times(1, Geo(a, n)) && n == Times(1, n);
    } else {
      EvenOfDivides(k, Geo(a, n));
      EvenOfDivides(k, n);
      if n % 2 == 0 {
        var j := n / 2;
        var odd := GeoDouble(a, j);
        DividesDouble(Pow2(k - 1), Geo(a, j) * odd);
        OddFactor(k - 1, Geo(a, j), odd);
        GeoValuation(a, k - 1, j);
        DividesDouble(Pow2(k - 1), j);
      }
    }
  }

  lemma ModulusIsPower()
    ensures Pow2(32) == MODULUS
  {
    assert Pow2(8) == 256;
    assert Pow2(16) == 65536;
    assert Pow2(24) == 16777216;
  }

  // ---------- the period ----------

  lemma {:induction false} IterateInRange(x: nat, n: nat)
    requires x < MODULUS
    ensures Iterate(x, n) < MODULUS
  {
    if n > 0 {
      IterateInRange(x, n - 1);
    }
  }

  /** A state comes back after n steps exactly when 2^32 divides n: the first return is after 2^32 steps. */
  lemma FullPeriod(x: nat, n: nat)
    requires x < MODULUS
    ensures Iterate(x, n) == x <==> n % MODULUS == 0
  {
    IterateInRange(x, n);
    SmallDifference(Iterate(x, n), x);
    Displacement(x, n);
    ModulusIsPower();
    SpreadIsOdd(x);
    OddFactor(32, Geo(MUL, n), (MUL - 1) * x + INC);
    GeoValuation(MUL, 32, n);
    DividesMod(MODULUS, n);
  }

  /** Two states differ by a multiple of the modulus only if they are equal. */
  lemma SmallDifference(y: nat, x: nat)
    requires x < MODULUS && y < MODULUS
    ensures Divides(MODULUS, y - x) <==> y == x
  {
    if Divides(MODULUS, y - x) {
      var q :| y - x == Times(MODULUS, q);
      assert q == 0;
    }
    assert 0 == Times(MODULUS, 0);
  }

  /** Because the multiplier is odd and so is the increment. */
  lemma SpreadIsOdd(x: nat)
    ensures ((MUL - 1) * x + INC) % 2 == 1
  {
    assert (MUL - 1) * x + INC == 2 * (832262 * x + 506952111) + 1;
  }

  lemma {:induction false} IterateAdd(x: nat, m: nat, n: nat)
    ensures Iterate(x, m + n) == Iterate(Iterate(x, m), n)
    decreases n
  {
    if n > 0 {
      IterateAdd(x, m, n - 1);
    }
  }

  /** Two visits to one state lie a multiple of 2^32 steps apart. */
  lemma VisitsApart(x: nat, m: nat, n: nat)
    requires x < MODULUS && m <= n
    ensures Iterate(x, m) == Iterate(x, n) <==> (n - m) % MODULUS == 0
  {
    IterateInRange(x, m);
    IterateAdd(x, m, n - m);
    FullPeriod(Iterate(x, m), n - m);
  }

  /** The state map is a permutation: it is injective ... */
  lemma NextInjective(x: nat, y: nat)
    requires x < MODULUS && y < MODULUS && Next(x) == Next(y)
    ensures x == y
  {
    var n := MODULUS - 1;
    IterateAdd(x, 1, n);
    IterateAdd(y, 1, n);
    assert Iterate(x, 1) == Next(Iterate(x, 0)) && Iterate(y, 1) == Next(Iterate(y, 0));
    FullPeriod(x, MODULUS);
    FullPeriod(y, MODULUS);
  }

  /** ... and every state has the predecessor reached just before the period closes. */
  lemma NextSurjective(x: nat)
    requires x < MODULUS
    ensures Iterate(x, MODULUS - 1) < MODULUS && Next(Iterate(x, MODULUS - 1)) == x
  {
    IterateInRange(x, MODULUS - 1);
    FullPeriod(x, MODULUS);
  }

  // ---------- every state is visited ----------

  ghost function Below(n: nat): set<nat> {
    set i: nat {:trigger IsBelow(i, n)} | i < n && IsBelow(i, n)
  }

  ghost predicate IsBelow(i: nat, n: nat) {
    i < n
  }

  lemma {:induction false} BelowSize(n: nat)
    ensures |Below(n)| == n
  {
    if n == 0 {
      assert Below(0) == {};
    } else {
      BelowSize(n - 1);
      assert forall i: nat :: IsBelow(i, n) <==> IsBelow(i, n - 1) || i == n - 1;
      assert Below(n) == Below(n - 1) + {n - 1};
    }
  }

  /** The states seen in the first k steps. */
  ghost function Visited(x: nat, k: nat): set<nat> {
    if k == 0 then {} else Visited(x, k - 1) + {Iterate(x, k - 1)}
  }

  lemma {:induction false} VisitedAt(x: nat, k: nat, y: nat) returns (n: nat)
    requires y in Visited(x, k)
    ensures n < k && Iterate(x, n) == y
  {
    if y == Iterate(x, k - 1) {
      n := k - 1;
    } else {
      n := VisitedAt(x, k - 1, y);
    }
  }

  /** Within one period no state repeats, so k steps see k states. */
  lemma {:induction false} VisitedSize(x: nat, k: nat)
    requires x < MODULUS && k <= MODULUS
    ensures |Visited(x, k)| == k && Visited(x, k) <= Below(MODULUS)
  {
    if k > 0 {
      VisitedSize(x, k - 1);
      IterateInRange(x, k - 1);
      assert IsBelow(Iterate(x, k - 1), MODULUS);
      if Iterate(x, k - 1) in Visited(x, k - 1) {
        var n := VisitedAt(x, k - 1, Iterate(x, k - 1));
        VisitsApart(x, n, k - 1);
        SmallMod(k - 1 - n);
        assert false;
      }
    }
  }

  lemma SmallMod(n: nat)
    requires 0 < n < MODULUS
    ensures n % MODULUS == n
  {
  }

  /** From any seed, every state is reached within one period. */
  lemma EveryStateVisited(x: nat, y: nat) returns (n: nat)
    requires x < MODULUS && y < MODULUS
    ensures n < MODULUS && Iterate(x, n) == y
  {
    VisitedSize(x, MODULUS);
    BelowSize(MODULUS);
    var seen, all := Visited(x, MODULUS), Below(MODULUS);
    assert all == seen + (all - seen);
    assert |all - seen| == 0;
    assert IsBelow(y, MODULUS) && y in all;
    n := VisitedAt(x, MODULUS, y);
  }

  // ---------- the program ----------

  /** No product of the generator leaves the integers a double holds exactly, and no state is negative. */
  lemma ProductsExact(x: nat)
    requires x < MODULUS
    ensures x * MUL + INC < EXACT && 0 <= Next(x) < MODULUS
  {
  }

  class Random {
    var state: nat

    constructor ()
      ensures state == 1
    {
      state := 1;
    }

    method NextRandom() returns (r: real)
      requires state < MODULUS
      modifies this
      ensures state == Next(old(state)) < MODULUS
      ensures r == Fraction(state) && 0.0 <= r < 1.0 && r * 4294967296.0 == state as real
    {
      ProductsExact(state);
      state := (state * MUL + INC) % MODULUS;
      r := state as real / MODULUS as real;
    }
  }

  function Fraction(x: nat): real {
    x as real / MODULUS as real
  }

  /** The i-th point of the run from seed x falls in the quarter circle. */
  predicate Hit(x: nat, i: nat) {
    InQuarter(Fraction(Iterate(x, 2 * i + 1)), Fraction(Iterate(x, 2 * i + 2)))
  }

  /** Two states make a point of the quarter circle exactly when their squares sum to at most 2^64. */
  lemma QuarterByStates(x: nat, y: nat)
    ensures InQuarter(Fraction(x), Fraction(y)) <==> x * x + y * y <= 18446744073709551616
  {
    var m := 4294967296.0;
    FractionSquare(x, m);
    FractionSquare(y, m);
    var u, v := Fraction(x) * Fraction(x), Fraction(y) * Fraction(y);
    assert m * m == 18446744073709551616.0;
    assert u * (m * m) + v * (m * m) == (x * x + y * y) as real;
  }

  lemma FractionSquare(x: nat, m: real)
    requires m == 4294967296.0
    ensures Fraction(x) * Fraction(x) * (m * m) == (x * x) as real
  {
    var f := Fraction(x);
    assert f * m == x as real;
    assert f * f * (m * m) == f * m * (f * m);
    assert (x * x) as real == x as real * x as real;
  }

  /** The points of the run from seed x of which this holds. */
  ghost predicate Point(x: nat, i: nat) {
    var a, b := Iterate(x, 2 * i + 1), Iterate(x, 2 * i + 2);
    a * a + b * b <= 18446744073709551616
  }

  ghost function Points(x: nat, n: nat): set<nat> {
    set i: nat {:trigger Point(x, i)} | i < n && Point(x, i)
  }

  lemma PointsLater(x: nat, n: nat)
    ensures |Points(x, n + 1)| == |Points(x, n)| + if Point(x, n) then 1 else 0
  {
    var before, now := Points(x, n), Points(x, n + 1);
    assert n !in before;
    forall i: nat
      ensures i in now <==> i in before || (i == n && Point(x, n))
    {
    }
    if Point(x, n) {
      assert now == before + {n};
    } else {
      assert now == before;
    }
  }

  /** So the count is that of the points whose two states have squares of at most 2^64 together. */
  lemma {:induction false} HitsCountPoints(x: nat, n: nat)
    ensures Hits(x, n) == |Points(x, n)|
  {
    if n == 0 {
      assert Points(x, 0) == {};
    } else {
      HitsCountPoints(x, n - 1);
      HitIsPoint(x, n - 1);
      PointsLater(x, n - 1);
    }
  }

  lemma HitIsPoint(x: nat, i: nat)
    ensures Hit(x, i) <==> Point(x, i)
  {
    QuarterByStates(Iterate(x, 2 * i + 1), Iterate(x, 2 * i + 2));
  }

  /** The generator, and its first three states. */
  lemma NextIs(x: nat, y: nat)
    ensures Next(x) == y <==> y < 4294967296 && exists q: int :: 1664525 * x + 1013904223 == Times(4294967296, q) + y
  {
    var z := 1664525 * x + 1013904223;
    if Next(x) == y {
      assert z == Times(4294967296, z / 4294967296) + y;
    }
    if y < 4294967296 && exists q: int :: z == Times(4294967296, q) + y {
      var q: int :| z == Times(4294967296, q) + y;
      Unique(z, q, y);
    }
  }

  lemma Unique(z: nat, q: int, y: nat)
    requires z == 4294967296 * q + y && y < 4294967296
    ensures z % 4294967296 == y
  {
  }

  lemma FirstStates(a: nat, b: nat, c: nat)
    requires a == Next(1) && b == Next(a) && c == Next(b)
    ensures a == 1015568748 && b == 1586005467 && c == 2165703038
    ensures Iterate(1, 0) == 1 && Iterate(1, 1) == a && Iterate(1, 2) == b && Iterate(1, 3) == c
  {
    IterateNext(1, 0);
    IterateNext(1, 1);
    IterateNext(1, 2);
  }

  lemma IterateNext(x: nat, n: nat)
    ensures Iterate(x, n + 1) == Next(Iterate(x, n))
  {
  }

  predicate InQuarter(u: real, v: real) {
    u * u + v * v <= 1.0
  }

  function Hits(x: nat, n: nat): (h: nat)
    ensures h <= n
  {
    if n == 0 then 0 else Hits(x, n - 1) + if Hit(x, n - 1) then 1 else 0
  }

  /** The counting loop: the number of hits among the points drawn from successive pairs of states. */
  method CountInside(n: nat) returns (inside: nat)
    ensures inside == Hits(1, n) == |Points(1, n)|
  {
    var rng := new Random();
    inside := 0;
    var i := 0;
    while i < n
      invariant 0 <= i <= n && inside == Hits(1, i)
      invariant rng.state == Iterate(1, 2 * i) < MODULUS
    {
      var x := rng.NextRandom();
      assert rng.state == Iterate(1, 2 * i + 1);
      var y := rng.NextRandom();
      assert rng.state == Iterate(1, 2 * i + 2);
      if InQuarter(x, y) {
        inside := inside + 1;
      }
      i := i + 1;
      assert 2 * (i - 1) + 2 == 2 * i;
    }
    HitsCountPoints(1, n);
  }
}
