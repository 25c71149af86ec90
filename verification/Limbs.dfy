/** The integer benchmark: a three-limb accumulator in base one million, prime counting by trial division, and
    a mixing loop. Numbers are doubles in the source, so every intermediate must stay below 2^53. */
module Limbs {

  const EXACT := 0x20_0000_0000_0000
  const BASE := 1_000_000
  const LCG_MOD := 2147483647

  // ---------- three limbs ----------

  /** The number that three limbs stand for. */
  function Number(a2: nat, a1: nat, a0: nat): nat {
    a2 * (BASE * BASE) + a1 * BASE + a0
  }

  const CUBE := 1_000_000_000_000_000_000

  /** The multiplier and the addend of a round. */
  function Mul(i: nat): (m: nat)
    ensures 31 <= m <= 47
  {
    31 + i % 17
  }

  function Add(i: nat): (a: nat)
    ensures a <= 96
  {
    i % 97
  }

  function MulAdd(v: nat, mul: nat, add: nat): nat {
    (v * mul + add) % CUBE
  }

  /** The accumulator after n rounds, as one number. */
  function Iterate(v: nat, n: nat): nat {
    if n == 0 then v else MulAdd(Iterate(v, n - 1), Mul(n - 1), Add(n - 1))
  }

  /** The limbs of a number below 10^18, added up. */
  function LimbSum(v: nat): nat {
    v % BASE + v / BASE % BASE + v / (BASE * BASE)
  }

  /** The checksum after n rounds: the limbs of every number passed through. */
  function Checksum(v: nat, n: nat): (c: nat)
    ensures c < LCG_MOD
  {
    if n == 0 then 0 else (Checksum(v, n - 1) + LimbSum(Iterate(v, n))) % LCG_MOD
  }

  /** The multipliers go from 31 to 47 and start again; the addends go from 0 to 96 and start again. */
  lemma Schedule(i: nat)
    ensures Mul(0) == 31 && Mul(i + 17) == Mul(i) && (i < 16 ==> Mul(i + 1) == Mul(i) + 1)
    ensures Add(0) == 0 && Add(i + 97) == Add(i) && (i < 96 ==> Add(i + 1) == Add(i) + 1)
  {
  }

  /** The first three numbers from one, and the checksum of them. */
  lemma FirstRounds(v: nat)
    requires v == 1
    ensures Iterate(v, 1) == 31 && Iterate(v, 2) == 993 && Iterate(v, 3) == 32771
    ensures Checksum(v, 3) == 31 + 993 + 32771
  {
    assert Iterate(v, 0) == 1 && Checksum(v, 0) == 0;
    assert Iterate(v, 1) == 31;
    assert Iterate(v, 2) == 993;
    assert Iterate(v, 3) == 32771;
    LimbsAdd(0, 0, 31);
    LimbsAdd(0, 0, 993);
    LimbsAdd(0, 0, 32771);
    assert Checksum(v, 1) == 31 && Checksum(v, 2) == 31 + 993;
  }

  lemma LimbsAdd(n2: nat, n1: nat, n0: nat)
    requires n2 < BASE && n1 < BASE && n0 < BASE
    ensures LimbSum(Number(n2, n1, n0)) == n2 + n1 + n0
  {
    var v := Number(n2, n1, n0);
    assert v == (n2 * BASE + n1) * BASE + n0;
    assert v / BASE == n2 * BASE + n1;
    assert v / (BASE * BASE) == n2;
  }

  lemma ChecksumNext(v: nat, n: nat, n2: nat, n1: nat, n0: nat)
    requires n2 < BASE && n1 < BASE && n0 < BASE && Number(n2, n1, n0) == Iterate(v, n + 1)
    ensures Checksum(v, n + 1) == (Checksum(v, n) + n0 + n1 + n2) % LCG_MOD
  {
    LimbsAdd(n2, n1, n0);
  }

  lemma IterateNext(v: nat, n: nat, now: nat, next: nat)
    requires now == Iterate(v, n) && next == MulAdd(now, Mul(n), Add(n))
    ensures next == Iterate(v, n + 1)
  {
  }

  lemma RoundCounts(v: nat, n: nat, now: nat, n2: nat, n1: nat, n0: nat, checksum: nat)
    requires n2 < BASE && n1 < BASE && n0 < BASE && now == Iterate(v, n) && checksum == Checksum(v, n)
    requires Number(n2, n1, n0) == MulAdd(now, Mul(n), Add(n))
    ensures Number(n2, n1, n0) == Iterate(v, n + 1) && (checksum + n0 + n1 + n2) % LCG_MOD == Checksum(v, n + 1)
  {
    IterateNext(v, n, now, Number(n2, n1, n0));
    ChecksumNext(v, n, n2, n1, n0);
  }

  lemma ProductFits(limb: nat, mul: nat)
    requires limb < BASE && mul <= 47
    ensures limb * mul <= 47 * (BASE - 1)
  {
    assert limb * (47 - mul) >= 0;
  }

  lemma SplitFits(v: nat)
    requires v < 48 * BASE
    ensures v % BASE < BASE && (v - v % BASE) / BASE < 48 && v == (v - v % BASE) / BASE * BASE + v % BASE
  {
  }

  lemma CarryForm(a2: nat, a1: nat, a0: nat, mul: nat, add: nat, c0: nat, c1: nat, c2: nat, n0: nat, n1: nat, n2: nat)
    requires a0 * mul + add == c0 * BASE + n0
    requires a1 * mul + c0 == c1 * BASE + n1
    requires a2 * mul + c1 == c2 * BASE + n2
    ensures Number(a2, a1, a0) * mul + add == c2 * CUBE + Number(n2, n1, n0)
  {
    assert Number(a2, a1, a0) * mul == a2 * mul * (BASE * BASE) + a1 * mul * BASE + a0 * mul;
  }

  lemma Remainder(x: nat, q: nat, r: nat)
    requires x == q * CUBE + r && r < CUBE
    ensures x % CUBE == r
  {
  }

  lemma NumberRange(n2: nat, n1: nat, n0: nat)
    requires n2 < BASE && n1 < BASE && n0 < BASE
    ensures Number(n2, n1, n0) < CUBE
  {
  }

  class Bench {
    var limb2: nat
    var limb1: nat
    var limb0: nat
    var arithmeticScore: int
    var primeScore: nat
    var bigintLikeScore: nat

    ghost predicate Valid()
      reads this
    {
      limb2 < BASE && limb1 < BASE && limb0 < BASE
    }

    constructor ()
      ensures Valid() && Number(limb2, limb1, limb0) == 1
    {
      limb2, limb1, limb0 := 0, 0, 1;
      arithmeticScore, primeScore, bigintLikeScore := 0, 0, 0;
    }

    /** One limb of a product: the part kept and the carry; the product is exact in doubles. */
    static method Limb(limb: nat, mul: nat, carry: nat) returns (n: nat, c: nat)
      requires limb < BASE && mul <= 47 && carry < BASE
      ensures limb * mul + carry < EXACT
      ensures n < BASE && c < 48 && limb * mul + carry == c * BASE + n
    {
      ProductFits(limb, mul);
      var v := limb * mul + carry;
      SplitFits(v);
      n := v % BASE;
      c := (v - n) / BASE;
    }

    /** The limbs stay limbs, and the number they stand for is the iterated multiply-add modulo 10^18. */
    method BigintLikeStress(rounds: nat)
      requires Valid()
      modifies `limb2, `limb1, `limb0, `bigintLikeScore
      ensures Valid() && bigintLikeScore == Checksum(old(Number(limb2, limb1, limb0)), rounds)
      ensures rounds > 0 ==>
                Number(limb2, limb1, limb0) == Iterate(old(Number(limb2, limb1, limb0)), rounds)
      ensures rounds == 0 ==> limb2 == old(limb2) && limb1 == old(limb1) && limb0 == old(limb0)
    {
      ghost var v := Number(limb2, limb1, limb0);
      var i: nat, checksum: nat := 0, 0;
      while i < rounds
        invariant i <= rounds && Valid() && checksum == Checksum(v, i)
        invariant Number(limb2, limb1, limb0) == Iterate(v, i)
        invariant i == 0 ==> limb2 == old(limb2) && limb1 == old(limb1) && limb0 == old(limb0)
      {
        ghost var now := Number(limb2, limb1, limb0);
        var n2, n1, n0 := Round(limb2, limb1, limb0, Mul(i), Add(i));
        RoundCounts(v, i, now, n2, n1, n0, checksum);
        limb0 := n0;
        limb1 := n1;
        limb2 := n2;
        checksum := (checksum + n0 + n1 + n2) % LCG_MOD;
        i := i + 1;
      }
      bigintLikeScore := checksum;
    }

    static method Round(a2: nat, a1: nat, a0: nat, mul: nat, add: nat) returns (n2: nat, n1: nat, n0: nat)
      requires a2 < BASE && a1 < BASE && a0 < BASE && mul <= 47 && add < BASE
      ensures n2 < BASE && n1 < BASE && n0 < BASE
      ensures Number(n2, n1, n0) == MulAdd(Number(a2, a1, a0), mul, add)
    {
      var c0, c1, c2;
      n0, c0 := Limb(a0, mul, add);
      n1, c1 := Limb(a1, mul, c0);
      n2, c2 := Limb(a2, mul, c1);
      RoundKeeps(a2, a1, a0, mul, add, c0, c1, c2, n0, n1, n2);
    }

    /** The score is the number of primes up to the limit, although only divisors with d * d <= n are tried. */
    method CountPrimes(limit: nat)
      modifies `primeScore
      ensures primeScore == PrimesUpTo(limit)
    {
      var count, n := 0, 2;
      PrimesBelowTwo(limit);
      while n <= limit
        invariant 2 <= n && (if limit < 2 then n == 2 else n <= limit + 1) && count == PrimesUpTo(n - 1)
      {
        var d, prime := 2, true;
        while d * d <= n
          invariant 2 <= d && (prime ==> NoDivisor(n, d))
          decreases n + 1 - d
        {
          assert d <= d * d by { Square(d); }
          if n % d == 0 {
            prime := false;
            SmallFactor(n, d);
            break;
          }
          d := d + 1;
        }
        if prime {
          TrialEnough(n, d);
          count := count + 1;
        }
        n := n + 1;
      }
      primeScore := count;
    }

    /** The mixing loop; the remainder of the source keeps the sign of its dividend, and a negative one is
        brought back by one modulus. */
    method ArithmeticStress(rounds: nat)
      modifies `arithmeticScore
      ensures arithmeticScore == Mixed(rounds)
    {
      var acc: int := 123456;
      var i := 0;
      while i < rounds
        invariant 0 <= i <= rounds && acc == Mixed(i)
      {
        MixStays(acc, i);
        acc := (acc * 1664525 + 1013904223) % LCG_MOD;
        if i % 7 == 0 {
          acc := (acc + i) % LCG_MOD;
        } else if i % 11 == 0 {
          acc := RemainderOf(acc - i);
        } else {
          acc := (acc + (i % 97) * (i % 89)) % LCG_MOD;
        }
        if acc < 0 {
          acc := acc + LCG_MOD;
        }
        i := i + 1;
      }
      arithmeticScore := acc;
    }
  }

  /** What round i adds to the scrambled accumulator. */
  function Offset(i: nat): int {
    if i % 7 == 0 then i else if i % 11 == 0 then -(i as int) else (i % 97) * (i % 89)
  }

  /** The accumulator after n rounds of affine scrambling and offsets, in residues. */
  function Mixed(n: nat): (acc: nat)
    ensures acc < LCG_MOD
  {
    if n == 0 then 123456 else (Mixed(n - 1) * 1664525 + 1013904223 + Offset(n - 1)) % LCG_MOD
  }

  /** A round whose number is a multiple of seven adds it, one of another multiple of eleven takes it off, and any other
      adds the product of what is left of it by 97 and by 89. */
  lemma Offsets(i: nat, j: nat, p: nat, a: nat, q: nat, b: nat)
    requires i == 97 * p + a == 89 * q + b && a < 97 && b < 89
    ensures i == 7 * j ==> Offset(i) == i
    ensures i == 11 * j && j % 7 != 0 ==> Offset(i) + i == 0
    ensures i % 7 != 0 && i % 11 != 0 ==> Offset(i) == a * b
  {
    SameQuotient(i, 97, p, a);
    SameQuotient(i, 89, q, b);
    OffsetForms(i, a, b);
    if i == 7 * j {
      MultipleOf(7, j);
    }
    if i == 11 * j && j % 7 != 0 {
      MultipleOf(11, j);
      NotSeven(j);
    }
  }

  lemma OffsetForms(i: nat, a: nat, b: nat)
    requires i % 97 == a && i % 89 == b
    ensures i % 7 == 0 ==> Offset(i) == i
    ensures i % 7 != 0 && i % 11 == 0 ==> Offset(i) + i == 0
    ensures i % 7 != 0 && i % 11 != 0 ==> Offset(i) == a * b
  {
  }

  lemma MultipleOf(m: nat, j: nat)
    requires m > 0
    ensures (m * j) % m == 0
  {
    SameQuotient(m * j, m, j, 0);
  }

  lemma SameQuotient(x: nat, m: nat, q: nat, r: nat)
    requires x == m * q + r && r < m
    ensures x % m == r
  {
    var p, s := x / m, x % m;
    assert x == m * p + s;
    assert m * (p - q) == r - s;
    Times(p - q, m);
  }

  lemma NotSeven(j: nat)
    requires j % 7 != 0
    ensures (11 * j) % 7 != 0
  {
    var t := 11 * (j % 7);
    SameQuotient(11 * j, 7, 11 * (j / 7) + t / 7, t % 7);
  }

  /** The first values of the mixing loop. */
  lemma FirstMixed(a: nat, b: nat, c: nat)
    requires a == Mixed(0) && b == Mixed(1) && c == Mixed(2)
    ensures a == 123456 && b == 351072511 && c == 1030222153
  {
    assert b == (a * 1664525 + 1013904223 + Offset(0)) % LCG_MOD;
    assert c == (b * 1664525 + 1013904223 + Offset(1)) % LCG_MOD;
  }

  /** Reducing twice, with signs or without, is reducing once. */
  lemma MixStays(acc: int, i: nat)
    requires 0 <= acc < LCG_MOD
    ensures var a := (acc * 1664525 + 1013904223) % LCG_MOD;
            var b := if i % 11 == 0 && i % 7 != 0 then RemainderOf(a + Offset(i)) else (a + Offset(i)) % LCG_MOD;
            (if b < 0 then b + LCG_MOD else b) == (acc * 1664525 + 1013904223 + Offset(i)) % LCG_MOD
  {
    var x := acc * 1664525 + 1013904223;
    SmallProduct(i % 97, i % 89);
    ResidueSum(x, Offset(i));
    SignedResidue(x % LCG_MOD + Offset(i));
  }

  lemma ResidueSum(x: int, y: int)
    ensures (x % LCG_MOD + y) % LCG_MOD == (x + y) % LCG_MOD
  {
    var q := x / LCG_MOD;
    assert x == q * LCG_MOD + x % LCG_MOD;
    SameResidue(x % LCG_MOD + y, x + y, q);
  }

  lemma SameResidue(x: int, y: int, q: int)
    requires y == x + q * LCG_MOD
    ensures x % LCG_MOD == y % LCG_MOD
  {
    var a, b := x / LCG_MOD, y / LCG_MOD;
    assert (x % LCG_MOD) - (y % LCG_MOD) == (b - a - q) * LCG_MOD;
  }

  lemma SignedResidue(x: int)
    ensures var r := RemainderOf(x); (if r < 0 then r + LCG_MOD else r) == x % LCG_MOD
  {
    if x < 0 {
      var m := (-x) % LCG_MOD;
      SameResidue(-m, x, -((-x) / LCG_MOD));
    }
  }

  /** All intermediates of a round are integers that a double holds exactly, up to more rounds than 9 * 10^15. */
  lemma RoundExact(acc: int, i: nat)
    requires 0 <= acc < LCG_MOD && i < EXACT - LCG_MOD
    ensures acc * 1664525 + 1013904223 < EXACT
    ensures var a := (acc * 1664525 + 1013904223) % LCG_MOD;
            -EXACT < a - i && a + i < EXACT && a + (i % 97) * (i % 89) < EXACT && i + 1 < EXACT
  {
    SmallProduct(i % 97, i % 89);
  }

  lemma SmallProduct(a: nat, b: nat)
    requires a <= 96 && b <= 88
    ensures a * b <= 96 * 88
  {
  }

  /** The remainder that keeps the sign of the dividend. */
  function RemainderOf(x: int): (r: int)
    ensures -LCG_MOD < r < LCG_MOD && (x >= 0 ==> r >= 0) && (x < 0 ==> r <= 0)
  {
    if x >= 0 then x % LCG_MOD else -((-x) % LCG_MOD)
  }

  lemma RoundKeeps(a2: nat, a1: nat, a0: nat, mul: nat, add: nat, c0: nat, c1: nat, c2: nat, n0: nat, n1: nat, n2: nat)
    requires a0 * mul + add == c0 * BASE + n0
    requires a1 * mul + c0 == c1 * BASE + n1
    requires a2 * mul + c1 == c2 * BASE + n2
    requires n0 < BASE && n1 < BASE && n2 < BASE
    ensures Number(n2, n1, n0) == MulAdd(Number(a2, a1, a0), mul, add)
  {
    CarryForm(a2, a1, a0, mul, add, c0, c1, c2, n0, n1, n2);
    NumberRange(n2, n1, n0);
    Remainder(Number(a2, a1, a0) * mul + add, c2, Number(n2, n1, n0));
  }

  // ---------- primes ----------

  ghost predicate Prime(n: nat) {
    n >= 2 && NoDivisor(n, n)
  }

  /** No number from 2 up to but not including bound divides n. */
  ghost predicate NoDivisor(n: nat, bound: nat) {
    forall d: nat | 2 <= d < bound :: n % d != 0
  }

  ghost function PrimesUpTo(n: nat): nat {
    if n == 0 then 0 else PrimesUpTo(n - 1) + if Prime(n) then 1 else 0
  }

  lemma PrimesBelowTwo(limit: nat)
    ensures PrimesUpTo(1) == 0 && (limit < 2 ==> PrimesUpTo(limit) == 0)
  {
    assert PrimesUpTo(0) == 0;
  }

  lemma Square(d: nat)
    ensures d <= d * d
  {
    if d > 0 {
      assert d * d >= d * 1;
    }
  }

  /** A divisor found by trial is a proper one. */
  lemma SmallFactor(n: nat, d: nat)
    requires 2 <= d && d * d <= n && n % d == 0
    ensures !Prime(n)
  {
    assert d * d >= 2 * d;
    assert 2 <= d < n;
  }

  lemma Times(k: int, e: int)
    requires e >= 0
    ensures (k >= 1 ==> k * e >= e) && (k <= -1 ==> k * e <= -e) && (k <= 1 ==> k * e <= e)
  {
  }

  /** A proper divisor has a cofactor that is one too. */
  lemma Cofactor(n: nat, d: nat) returns (e: nat)
    requires 2 <= d < n && n % d == 0
    ensures d * e == n && 2 <= e < n && n % e == 0
  {
    e := n / d;
    assert d * e == n;
    Times(e, d);
    assert e * 2 <= e * d;
    Multiple(e, d);
  }

  lemma Multiple(e: nat, d: nat)
    requires e > 0
    ensures (d * e) % e == 0
  {
    var n := d * e;
    var q, r := n / e, n % e;
    assert n == q * e + r;
    assert (d - q) * e == r;
    Times(d - q, e);
  }

  /** Trial up to the square root is enough. */
  lemma TrialEnough(n: nat, d: nat)
    requires n >= 2 && 2 <= d && d * d > n && NoDivisor(n, d)
    ensures Prime(n)
  {
    forall k: nat | 2 <= k < n
      ensures n % k != 0
    {
      if n % k == 0 {
        var e := Cofactor(n, k);
        assert n % e == 0 && e >= d;
        BothLarge(d, k, e);
      }
    }
  }

  lemma BothLarge(d: nat, k: nat, e: nat)
    requires k >= d && e >= d
    ensures k * e >= d * d
  {
    assert k * e >= d * e >= d * d;
  }
}
