/** Pi by Machin's formula in decimal fixed point: how far the truncating integer series can be from the
    exact rational one. */
module Machin {
  import opened Decimal

  const PREC: nat := 30
  const SCALE: nat := 1_000_000_000_000_000_000_000_000_000_000

  function Pow(n: nat, k: nat): nat {
    if k == 0 then 1 else n * Pow(n, k - 1)
  }

  /** The power in the i-th term. */
  function OddPower(n: nat, i: nat): (p: nat)
    requires n > 0
    ensures p > 0
  {
    PowPositive(n, 2 * i + 1);
    Pow(n, 2 * i + 1)
  }

  /** Denominator of the i-th term of the series of atan(1/n). */
  function Denominator(n: nat, i: nat): nat {
    (2 * i + 1) * Pow(n, 2 * i + 1)
  }

  lemma {:induction false} PowPositive(n: nat, k: nat)
    requires n > 0
    ensures Pow(n, k) > 0
  {
    if k > 0 {
      PowPositive(n, k - 1);
    }
  }

  lemma DenominatorPositive(n: nat, i: nat)
    requires n > 0
    ensures Denominator(n, i) > 0
  {
    PowPositive(n, 2 * i + 1);
    ProductPositive(2 * i + 1, Pow(n, 2 * i + 1));
  }

  lemma ProductPositive(a: nat, b: nat)
    requires a > 0 && b > 0
    ensures a * b > 0
  {
  }

  // ---------- truncation ----------

  lemma DivUnique(a: nat, b: nat, q: nat)
    requires b > 0 && q * b <= a < (q + 1) * b
    ensures a / b == q
  {
    var p := a / b;
    assert p * b <= a < (p + 1) * b;
    if p < q {
      Times(p + 1, q, b);
    } else if q < p {
      Times(q + 1, p, b);
    }
  }

  lemma Times(a: nat, b: nat, c: nat)
    requires a <= b
    ensures a * c <= b * c
  {
  }

  /** Truncating twice is truncating once: repeated division loses nothing against one division. */
  lemma DivDiv(a: nat, b: nat, c: nat)
    requires b > 0 && c > 0
    ensures b * c > 0 && a / b / c == a / (b * c)
  {
    ProductPositive(b, c);
    NestedBounds(a, b, c, a / b, a / b / c);
    DivUnique(a, b * c, a / b / c);
  }

  lemma NestedBounds(a: nat, b: nat, c: nat, p: nat, q: nat)
    requires p * b <= a < (p + 1) * b && q * c <= p < (q + 1) * c
    ensures q * (b * c) <= a < (q + 1) * (b * c)
  {
    Times(q * c, p, b);
    Times(p + 1, (q + 1) * c, b);
    Assoc(q, c, b);
    Assoc(q + 1, c, b);
    assert c * b == b * c;
  }

  lemma Assoc(a: int, b: int, c: int)
    ensures a * (b * c) == a * b * c
  {
  }

  lemma DivAtLeast(a: nat, b: nat, q: nat)
    requires b > 0 && q * b <= a
    ensures q <= a / b
  {
    var p := a / b;
    assert a < (p + 1) * b;
    if p < q {
      Times(p + 1, q, b);
    }
  }

  /** A larger divisor gives no larger quotient. */
  lemma DivAnti(a: nat, b: nat, c: nat)
    requires 0 < b <= c
    ensures a / c <= a / b
  {
    var q := a / c;
    Times(b, c, q);
    DivAtLeast(a, b, q);
  }

  // ---------- the series ----------

  /** The i-th term of the integer series. */
  function Term(scale: nat, n: nat, i: nat): nat
    requires n > 0
  {
    DenominatorPositive(n, i);
    scale / Denominator(n, i)
  }

  /** The i-th term of the exact series, times the scale. */
  function ExactTerm(scale: nat, n: nat, i: nat): real
    requires n > 0
  {
    DenominatorPositive(n, i);
    scale as real / Denominator(n, i) as real
  }

  /** Alternating sum of the first k values of t, the first one positive. */
  function Alternate(t: nat -> int, k: nat): int {
    if k == 0 then 0
    else if k % 2 == 1 then Alternate(t, k - 1) + t(k - 1)
    else Alternate(t, k - 1) - t(k - 1)
  }

  function AlternateReal(t: nat -> real, k: nat): real {
    if k == 0 then 0.0
    else if k % 2 == 1 then AlternateReal(t, k - 1) + t(k - 1)
    else AlternateReal(t, k - 1) - t(k - 1)
  }

  function Terms(scale: nat, n: nat): nat -> int
    requires n > 0
  {
    (i: nat) => Term(scale, n, i)
  }

  function ExactTerms(scale: nat, n: nat): nat -> real
    requires n > 0
  {
    (i: nat) => ExactTerm(scale, n, i)
  }

  /** The integer series and the exact one, times the scale. */
  function Sum(scale: nat, n: nat, k: nat): int
    requires n > 0
  {
    Alternate(Terms(scale, n), k)
  }

  function ExactSum(scale: nat, n: nat, k: nat): real
    requires n > 0
  {
    AlternateReal(ExactTerms(scale, n), k)
  }

  /** Each term is the exact one, rounded down. */
  lemma TermError(scale: nat, n: nat, i: nat)
    requires n > 0
    ensures 0.0 <= ExactTerm(scale, n, i) - Term(scale, n, i) as real < 1.0
  {
    DenominatorPositive(n, i);
    FloorError(scale, Denominator(n, i));
  }

  lemma FloorError(a: nat, b: nat)
    requires b > 0
    ensures 0.0 <= a as real / b as real - (a / b) as real < 1.0
  {
    var q := a / b;
    assert q * b <= a < (q + 1) * b;
    ProductReal(q, b);
    ProductReal(q + 1, b);
    QuotientBetween(a as real, b as real, q as real, a as real / b as real);
  }

  lemma ProductReal(a: int, b: int)
    ensures (a * b) as real == a as real * b as real
  {
  }

  lemma QuotientBetween(a: real, b: real, q: real, x: real)
    requires b > 0.0 && q * b <= a < (q + 1.0) * b && x == a / b
    ensures q <= x < q + 1.0
  {
    assert x * b == a;
    Cancel(q, x, b);
    CancelStrict(x, q + 1.0, b);
  }

  lemma Cancel(x: real, y: real, b: real)
    requires b > 0.0 && x * b <= y * b
    ensures x <= y
  {
  }

  lemma CancelStrict(x: real, y: real, b: real)
    requires b > 0.0 && x * b < y * b
    ensures x < y
  {
  }

  /** If every value of t is that of e rounded down, the errors alternate too, so at most every other one
      counts: the sum is less than (k + 1) / 2 below and at most k / 2 above. */
  lemma {:induction false} AlternateError(t: nat -> int, e: nat -> real, k: nat)
    requires k > 0 && forall i: nat :: 0.0 <= e(i) - t(i) as real < 1.0
    ensures -(((k + 1) / 2) as real) < Alternate(t, k) as real - AlternateReal(e, k) <= (k / 2) as real
  {
    assert 0.0 <= e(k - 1) - t(k - 1) as real < 1.0;
    if k > 1 {
      AlternateError(t, e, k - 1);
    } else {
      assert Alternate(t, 0) == 0 && AlternateReal(e, 0) == 0.0;
    }
  }

  /** An alternating sum of values that decrease to no less than 0 stays between 0 and its first value. */
  lemma {:induction false} AlternateRange(t: nat -> int, k: nat)
    requires k > 0 && forall i: nat, j: nat :: i <= j ==> 0 <= t(j) <= t(i)
    ensures 0 <= Alternate(t, k) <= t(0)
    ensures if k % 2 == 1 then t(k - 1) <= Alternate(t, k) else Alternate(t, k) + t(k - 1) <= t(0)
  {
    if k == 1 {
      assert Alternate(t, 0) == 0;
      assert 0 <= t(0) <= t(0);
    } else {
      AlternateRange(t, k - 1);
      assert 0 <= t(k - 1) <= t(k - 2);
    }
  }

  lemma {:induction false} PowMono(n: nat, j: nat, k: nat)
    requires n > 0 && j <= k
    ensures Pow(n, j) <= Pow(n, k)
  {
    if j < k {
      PowMono(n, j, k - 1);
      PowPositive(n, k - 1);
      Times(1, n, Pow(n, k - 1));
    }
  }

  lemma TermsDecrease(scale: nat, n: nat, i: nat, j: nat)
    requires n > 0 && i <= j
    ensures 0 <= Term(scale, n, j) <= Term(scale, n, i)
  {
    var p, q := OddPower(n, i), OddPower(n, j);
    PowMono(n, 2 * i + 1, 2 * j + 1);
    TimesBoth(2 * i + 1, 2 * j + 1, p, q);
    DenominatorPositive(n, i);
    DivAnti(scale, Denominator(n, i), Denominator(n, j));
  }

  lemma TimesBoth(a: nat, b: nat, p: nat, q: nat)
    requires a <= b && p <= q
    ensures a * p <= b * q
  {
    Times(p, q, a);
    Times(a, b, q);
  }

  // ---------- the program ----------

  lemma PowSquare(n: nat, i: nat)
    ensures Pow(n, 2 * i + 3) == Pow(n, 2 * i + 1) * (n * n)
  {
    assert Pow(n, 2 * i + 3) == n * Pow(n, 2 * i + 2) == n * (n * Pow(n, 2 * i + 1));
    Assoc(n, n, Pow(n, 2 * i + 1));
  }

  /** The running power is the scale over the odd power, despite its repeated truncation. */
  lemma NextPower(scale: nat, n: nat, i: nat)
    requires n > 0
    ensures n * n > 0 && scale / OddPower(n, i) / (n * n) == scale / OddPower(n, i + 1)
  {
    ProductPositive(n, n);
    PowSquare(n, i);
    DivDiv(scale, OddPower(n, i), n * n);
  }

  lemma TermOfPower(scale: nat, n: nat, i: nat)
    requires n > 0
    ensures scale / OddPower(n, i) / (2 * i + 1) == Term(scale, n, i)
  {
    DivDiv(scale, OddPower(n, i), 2 * i + 1);
    assert OddPower(n, i) * (2 * i + 1) == Denominator(n, i);
  }

  /** The series loop: `terms` terms, or one when fewer are asked for. */
  method AtanInverse(n: nat, terms: int) returns (result: int)
    requires n > 0
    ensures result == Sum(SCALE, n, if terms < 1 then 1 else terms)
  {
    var nSq := n * n;
    ProductPositive(n, n);
    var power := SCALE / n;
    TermOfPower(SCALE, n, 0);
    assert Pow(n, 1) == n * Pow(n, 0) == n;
    result := power;
    var sign := -1;
    var i := 1;
    assert Sum(SCALE, n, 1) == Sum(SCALE, n, 0) + Term(SCALE, n, 0);
    while i < terms
      invariant 1 <= i && (i <= terms || i == 1)
      invariant sign == if i % 2 == 1 then -1 else 1
      invariant power == SCALE / OddPower(n, i - 1)
      invariant result == Sum(SCALE, n, i)
    {
      NextPower(SCALE, n, i - 1);
      power := power / nSq;
      var denom := 2 * i + 1;
      var term := power / denom;
      TermOfPower(SCALE, n, i);
      result := if sign > 0 then result + term else result - term;
      sign := -sign;
      i := i + 1;
    }
  }

  /** What the loop returns is never negative, never above its first term, and off by less than half the
      number of terms, rounded up. */
  lemma AtanAccuracy(n: nat, terms: nat)
    requires n > 0 && terms > 0
    ensures 0 <= Sum(SCALE, n, terms) <= Term(SCALE, n, 0)
    ensures -(((terms + 1) / 2) as real) < Sum(SCALE, n, terms) as real - ExactSum(SCALE, n, terms) <= (terms / 2) as real
  {
    var t, e := Terms(SCALE, n), ExactTerms(SCALE, n);
    forall i: nat, j: nat | i <= j
      ensures 0 <= t(j) <= t(i)
    {
      TermsDecrease(SCALE, n, i, j);
    }
    forall i: nat
      ensures 0.0 <= e(i) - t(i) as real < 1.0
    {
      TermError(SCALE, n, i);
    }
    AlternateRange(t, terms);
    AlternateError(t, e, terms);
  }

  /** The two series of the formula: (5, 80 terms) and (239, 20 terms). */
  const SERIES: seq<(nat, nat)> := [(5, 80), (239, 20)]

  /** 16 atan(1/p) - 4 atan(1/q), with j and k terms. */
  function Combine(p: nat, j: nat, q: nat, k: nat): int
    requires p > 0 && q > 0
  {
    16 * Sum(SCALE, p, j) - 4 * Sum(SCALE, q, k)
  }

  function ExactCombine(p: nat, j: nat, q: nat, k: nat): real
    requires p > 0 && q > 0
  {
    16.0 * ExactSum(SCALE, p, j) - 4.0 * ExactSum(SCALE, q, k)
  }

  lemma CombineAccuracy(p: nat, j: nat, q: nat, k: nat)
    requires p > 0 && q > 0 && j > 0 && k > 0
    ensures var bound := (16 * ((j + 1) / 2) + 4 * ((k + 1) / 2)) as real;
            -bound < Combine(p, j, q, k) as real - ExactCombine(p, j, q, k) < bound
  {
    AtanAccuracy(p, j);
    AtanAccuracy(q, k);
    WeighErrors(Sum(SCALE, p, j), Sum(SCALE, q, k), ExactSum(SCALE, p, j), ExactSum(SCALE, q, k), j, k);
  }

  lemma WeighErrors(a: int, b: int, ea: real, eb: real, j: nat, k: nat)
    requires -(((j + 1) / 2) as real) < a as real - ea <= (j / 2) as real
    requires -(((k + 1) / 2) as real) < b as real - eb <= (k / 2) as real
    ensures var bound := (16 * ((j + 1) / 2) + 4 * ((k + 1) / 2)) as real;
            -bound < (16 * a - 4 * b) as real - (16.0 * ea - 4.0 * eb) < bound
  {
  }

  /** With at most the program's 80 and 20 terms, the value is within 680 units in the thirtieth decimal place
      of the exact rational sum. */
  lemma PiAccuracy(p: nat, j: nat, q: nat, k: nat)
    requires p > 0 && q > 0 && 0 < j <= 80 && 0 < k <= 20
    ensures -680.0 < Combine(p, j, q, k) as real - ExactCombine(p, j, q, k) < 680.0
  {
    CombineAccuracy(p, j, q, k);
    BoundForTerms(j, k, Combine(p, j, q, k) as real - ExactCombine(p, j, q, k));
  }

  lemma BoundForTerms(j: nat, k: nat, err: real)
    requires j <= 80 && k <= 20
    requires var bound := (16 * ((j + 1) / 2) + 4 * ((k + 1) / 2)) as real; -bound < err < bound
    ensures -680.0 < err < 680.0
  {
    var n := 16 * ((j + 1) / 2) + 4 * ((k + 1) / 2);
    assert n <= 680;
    assert n as real <= 680.0;
  }

  // ---------- the digits ----------

  /** After i terms: the running power and the sum. */
  ghost predicate Stands(n: nat, i: nat, power: nat, sum: int)
    requires n > 0
  {
    i > 0 && power == SCALE / OddPower(n, i - 1) && sum == Sum(SCALE, n, i)
  }

  lemma SeriesStarts(n: nat, power: nat)
    requires n > 0 && power == SCALE / n
    ensures Stands(n, 1, power, power)
  {
    assert Sum(SCALE, n, 1) == Sum(SCALE, n, 0) + Term(SCALE, n, 0);
    assert Pow(n, 1) == n * Pow(n, 0) == n;
    TermOfPower(SCALE, n, 0);
  }

  lemma OneTerm(n: nat, i: nat, power: nat, sum: int, square: nat, next: nat, later: int)
    requires n > 0 && square == n * n > 0 && Stands(n, i, power, sum) && next == power / square
    requires later == if i % 2 == 1 then sum - next / (2 * i + 1) else sum + next / (2 * i + 1)
    ensures Stands(n, i + 1, next, later)
  {
    NextPower(SCALE, n, i - 1);
    SumLater(n, i, next, sum);
  }

  lemma SumLater(n: nat, i: nat, next: nat, sum: int)
    requires n > 0 && i > 0 && next == SCALE / OddPower(n, i) && sum == Sum(SCALE, n, i)
    ensures Sum(SCALE, n, i + 1) == if i % 2 == 1 then sum - next / (2 * i + 1) else sum + next / (2 * i + 1)
  {
    TermOfPower(SCALE, n, i);
  }

  /** Once the running power is zero nothing more is added. */
  lemma {:induction false} NoTerms(n: nat, i: nat, k: nat, sum: int, square: nat)
    requires n > 0 && square == n * n > 0 && Stands(n, i, 0, sum) && i <= k
    ensures Sum(SCALE, n, k) == sum
    decreases k - i
  {
    if i < k {
      assert 0 / square == 0 && 0 / (2 * i + 1) == 0;
      OneTerm(n, i, 0, sum, square, 0, sum);
      NoTerms(n, i + 1, k, sum, square);
    }
  }

  /** The first terms of the series of 1/5. */
  lemma FirstOfFifth(n: nat, square: nat)
    requires n > 0 && square == n * n == 25
    requires Stands(n, 1, 200000000000000000000000000000, 200000000000000000000000000000)
    ensures Stands(n, 12, 83886080000000, 197395559849880758240624612782)
  {
    OneTerm(n, 1, 200000000000000000000000000000, 200000000000000000000000000000, square, 8000000000000000000000000000, 197333333333333333333333333334);
    OneTerm(n, 2, 8000000000000000000000000000, 197333333333333333333333333334, square, 320000000000000000000000000, 197397333333333333333333333334);
    OneTerm(n, 3, 320000000000000000000000000, 197397333333333333333333333334, square, 12800000000000000000000000, 197395504761904761904761904763);
    OneTerm(n, 4, 12800000000000000000000000, 197395504761904761904761904763, square, 512000000000000000000000, 197395561650793650793650793651);
    OneTerm(n, 5, 512000000000000000000000, 197395561650793650793650793651, square, 20480000000000000000000, 197395559788975468975468975470);
    OneTerm(n, 6, 20480000000000000000000, 197395559788975468975468975470, square, 819200000000000000000, 197395559851990853590853590854);
    OneTerm(n, 7, 819200000000000000000, 197395559851990853590853590854, square, 32768000000000000000, 197395559849806320257520257521);
    OneTerm(n, 8, 32768000000000000000, 197395559849806320257520257521, square, 1310720000000000000, 197395559849883421433990845756);
    OneTerm(n, 9, 1310720000000000000, 197395559849883421433990845756, square, 52428800000000000, 197395559849880662023464529967);
    OneTerm(n, 10, 52428800000000000, 197395559849880662023464529967, square, 2097152000000000, 197395559849880761887845482347);
    OneTerm(n, 11, 2097152000000000, 197395559849880761887845482347, square, 83886080000000, 197395559849880758240624612782);
  }

  /** And the others that are not zero. */
  lemma AtanOfFifth(n: nat, square: nat)
    requires n > 0 && square == n * n == 25
    requires Stands(n, 1, 200000000000000000000000000000, 200000000000000000000000000000)
    ensures Stands(n, 22, 0, 197395559849880758370049765195)
  {
    FirstOfFifth(n, square);
    OneTerm(n, 12, 83886080000000, 197395559849880758240624612782, square, 3355443200000, 197395559849880758374842340782);
    OneTerm(n, 13, 3355443200000, 197395559849880758374842340782, square, 134217728000, 197395559849880758369871313820);
    OneTerm(n, 14, 134217728000, 197395559849880758369871313820, square, 5368709120, 197395559849880758370056441720);
    OneTerm(n, 15, 5368709120, 197395559849880758370056441720, square, 214748364, 197395559849880758370049514354);
    OneTerm(n, 16, 214748364, 197395559849880758370049514354, square, 8589934, 197395559849880758370049774655);
    OneTerm(n, 17, 8589934, 197395559849880758370049774655, square, 343597, 197395559849880758370049764838);
    OneTerm(n, 18, 343597, 197395559849880758370049764838, square, 13743, 197395559849880758370049765209);
    OneTerm(n, 19, 13743, 197395559849880758370049765209, square, 549, 197395559849880758370049765195);
    OneTerm(n, 20, 549, 197395559849880758370049765195, square, 21, 197395559849880758370049765195);
    OneTerm(n, 21, 21, 197395559849880758370049765195, square, 0, 197395559849880758370049765195);
  }

  lemma AtanOf239th(n: nat, square: nat)
    requires n > 0 && square == n * n == 57121
    requires Stands(n, 1, 4184100418410041841004184100, 4184100418410041841004184100)
    ensures Stands(n, 7, 0, 4184076002074723864538214960)
  {
    OneTerm(n, 1, 4184100418410041841004184100, 4184100418410041841004184100, square, 73249775361251410882235, 4184076001818254757200556689);
    OneTerm(n, 2, 73249775361251410882235, 4184076001818254757200556689, square, 1282361572123236828, 4184076002074727071625204054);
    OneTerm(n, 3, 1282361572123236828, 4184076002074727071625204054, square, 22449914604492, 4184076002074723864494546270);
    OneTerm(n, 4, 22449914604492, 4184076002074723864494546270, square, 393023837, 4184076002074723864538215585);
    OneTerm(n, 5, 393023837, 4184076002074723864538215585, square, 6880, 4184076002074723864538214960);
    OneTerm(n, 6, 6880, 4184076002074723864538214960, square, 0, 4184076002074723864538214960);
  }

  /** The value of the program is 3.14159265358979323846264338328. */
  lemma PiDigits(p: nat, j: nat, q: nat, k: nat)
    requires p == 5 && j == 80 && q == 239 && k == 20
    ensures Combine(p, j, q, k) == 3141592653589793238462643383280
  {
    SeriesStarts(p, 200000000000000000000000000000);
    AtanOfFifth(p, 25);
    NoTerms(p, 22, j, 197395559849880758370049765195, 25);
    SeriesStarts(q, 4184100418410041841004184100);
    AtanOf239th(q, 57121);
    NoTerms(q, 7, k, 4184076002074723864538214960, 57121);
  }

  method Pi() returns (pi: int)
    ensures pi == 3141592653589793238462643383280
    ensures -680.0 < pi as real - ExactCombine(SERIES[0].0, SERIES[0].1, SERIES[1].0, SERIES[1].1) < 680.0
  {
    var a := AtanInverse(SERIES[0].0, SERIES[0].1);
    var b := AtanInverse(SERIES[1].0, SERIES[1].1);
    pi := 16 * a - 4 * b;
    PiAccuracy(SERIES[0].0, SERIES[0].1, SERIES[1].0, SERIES[1].1);
    PiDigits(SERIES[0].0, SERIES[0].1, SERIES[1].0, SERIES[1].1);
  }

  /** The printed form: a sign, the digits padded to one more than the precision, a dot before the last PREC. */
  function Format(x: int): string {
    var abs: nat := if x < 0 then -x else x;
    var s := Padded(abs);
    (if x < 0 then "-" else "") + s[..|s| - PREC] + "." + s[|s| - PREC..]
  }

  function Padded(n: nat): (s: string)
    ensures |s| > PREC
  {
    var s := Digits(n);
    if |s| < PREC + 1 then Zeros(PREC + 1 - |s|) + s else s
  }

  /** The printed form reads back: without its sign and its dot it is the digits of the number, with exactly
      PREC of them after the dot and at least one before. */
  lemma FormatReadsBack(x: int) returns (whole: string, frac: string)
    ensures Format(x) == (if x < 0 then "-" else "") + whole + "." + frac
    ensures whole != "" && |frac| == PREC
    ensures AllDigits(whole + frac) && Value(whole + frac) == if x < 0 then -x else x
  {
    var abs: nat := if x < 0 then -x else x;
    PaddedValue(abs);
    var s := Padded(abs);
    whole, frac := s[..|s| - PREC], s[|s| - PREC..];
    assert whole + frac == s;
  }

  lemma PaddedValue(n: nat)
    ensures AllDigits(Padded(n)) && Value(Padded(n)) == n
  {
    var d := Digits(n);
    ValueDigits(n);
    if |d| < PREC + 1 {
      LeadingZeros(PREC + 1 - |d|, d);
    }
  }
}
