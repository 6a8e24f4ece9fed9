/** The linear congruential generator shared by the simulators, and the proof that its period is full. */
module Lcg {
  import opened MachineInts
  import opened Sequences
  import opened Powers

  const MULTIPLIER: u64 := 6_364_136_223_846_793_005
  const INCREMENT: u64 := 1_442_695_040_888_963_407

  /** One advance of the generator: a wrapping multiplication and a wrapping addition. */
  function Next(seed: u64): u64 {
    ((MULTIPLIER * seed) % TWO_64 + INCREMENT) % TWO_64
  }

  /** A literal step: the wrapped product and sum is what remains of a multiple of 2^64. */
  lemma NextIs(x: u64, quotient: nat, y: u64)
    requires 6_364_136_223_846_793_005 * x + 1_442_695_040_888_963_407 == 18_446_744_073_709_551_616 * quotient + y
    ensures Next(x) == y
  {
    ModAdd(MULTIPLIER * x, INCREMENT, TWO_64);
    DivisionUnique(MULTIPLIER * x + INCREMENT, TWO_64, quotient, y);
  }

  /** The generator is Knuth's MMIX generator: from 0 it continues with these three values. */
  lemma FirstValues()
    ensures Next(0) == 1_442_695_040_888_963_407
    ensures Next(1_442_695_040_888_963_407) == 1_876_011_003_808_476_466
    ensures Next(1_876_011_003_808_476_466) == 11_166_244_414_315_200_793
  {
    hide Next;
    NextIs(0, 0, 1_442_695_040_888_963_407);
    NextIs(1_442_695_040_888_963_407, 497_730_533_529_282_336, 1_876_011_003_808_476_466);
    NextIs(1_876_011_003_808_476_466, 647_224_764_325_133_034, 11_166_244_414_315_200_793);
  }

  // ---- The recurrence x -> a*x + c, first without reduction ----

  ghost function Affine(a: nat, c: nat, x: nat): nat {
    a * x + c
  }

  ghost function Orbit(a: nat, c: nat, x: nat, n: nat): nat {
    if n == 0 then x else Affine(a, c, Orbit(a, c, x, n - 1))
  }

  /** 1 + a + ... + a^(n-1). */
  ghost function Sum(a: nat, n: nat): nat {
    if n == 0 then 0 else Affine(a, 1, Sum(a, n - 1))
  }

  ghost function Power(a: nat, n: nat): nat {
    if n == 0 then 1 else a * Power(a, n - 1)
  }

  lemma {:induction false} OrbitDistance(a: nat, c: nat, x: nat, n: nat)
    requires a > 0
    ensures Orbit(a, c, x, n) - x == ((a - 1) * x + c) * Sum(a, n)
  {
    if n > 0 {
      OrbitDistance(a, c, x, n - 1);
      DistanceStep(a, c, x, Orbit(a, c, x, n - 1), Sum(a, n - 1));
    }
  }

  lemma DistanceStep(a: nat, c: nat, x: nat, y: nat, s: nat)
    requires a > 0 && y - x == ((a - 1) * x + c) * s
    ensures a * y + c - x == ((a - 1) * x + c) * (1 + a * s)
  {
    var d := (a - 1) * x + c;
    calc {
      a * y + c - x;
      { assert a * y == a * x + a * (y - x); }
      (a * x - x + c) + a * (d * s);
      { assert (a - 1) * x == a * x - x; }
      d + a * (d * s);
      { assert a * (d * s) == d * (a * s); }
      d * (1 + a * s);
    }
  }

  lemma {:induction false} OrbitContinues(a: nat, c: nat, x: nat, i: nat, n: nat)
    ensures Orbit(a, c, x, i + n) == Orbit(a, c, Orbit(a, c, x, i), n)
  {
    if n > 0 { OrbitContinues(a, c, x, i, n - 1); }
  }

  lemma {:induction false} SumSplits(a: nat, m: nat, n: nat)
    ensures Sum(a, m + n) == Sum(a, n) + Power(a, n) * Sum(a, m)
  {
    hide Affine;
    if n > 0 {
      SumSplits(a, m, n - 1);
      SplitStep(a, Sum(a, n - 1), Power(a, n - 1), Sum(a, m));
    }
  }

  lemma SplitStep(a: nat, s: nat, p: nat, t: nat)
    ensures Affine(a, 1, s + p * t) == Affine(a, 1, s) + (a * p) * t
  {
    var u := p * t;
    assert a * (s + u) == a * s + a * u;
    Associate(a, p, t);
  }

  lemma Associate(a: int, b: int, c: int)
    ensures a * (b * c) == (a * b) * c
  {
  }

  lemma {:induction false} SumParity(a: nat, n: nat)
    requires a % 2 == 1
    ensures Sum(a, n) % 2 == n % 2
  {
    hide Affine;
    if n > 0 {
      SumParity(a, n - 1);
      NextParity(a, Sum(a, n - 1));
    }
  }

  lemma NextParity(a: nat, s: nat)
    requires a % 2 == 1
    ensures Affine(a, 1, s) % 2 == (1 + s) % 2
  {
    OddTimes(a, s);
    ParityPlusOne(a * s, s);
  }

  lemma ParityPlusOne(u: nat, v: nat)
    requires u % 2 == v % 2
    ensures (u + 1) % 2 == (1 + v) % 2
  {
  }

  lemma {:induction false} PowerModFour(a: nat, n: nat)
    requires a % 4 == 1
    ensures Power(a, n) % 4 == 1
  {
    if n > 0 {
      PowerModFour(a, n - 1);
      OneModFour(a, Power(a, n - 1));
    }
  }

  lemma OneModFour(a: nat, p: nat)
    requires a % 4 == 1 && p % 4 == 1
    ensures (a * p) % 4 == 1
  {
    var q := a / 4;
    assert (4 * q + 1) * p == 4 * (q * p) + p;
  }

  /** Twice as many terms make the sum twice an odd multiple of itself. */
  lemma SumDoubles(a: nat, m: nat) returns (odd: nat)
    requires a % 4 == 1
    ensures odd % 2 == 1 && Sum(a, 2 * m) == 2 * (odd * Sum(a, m))
  {
    hide Sum, Power;
    SumSplits(a, m, m);
    PowerModFour(a, m);
    odd := HalfOf(Power(a, m));
    FactorTwo(Power(a, m), odd, Sum(a, m));
  }

  lemma HalfOf(p: nat) returns (odd: nat)
    requires p % 4 == 1
    ensures odd % 2 == 1 && p == 2 * odd - 1
  {
    var q := p / 4;
    odd := 2 * q + 1;
  }

  lemma FactorTwo(p: nat, odd: nat, s: nat)
    requires p == 2 * odd - 1
    ensures s + p * s == 2 * (odd * s)
  {
  }

  /** The sum is divisible by exactly the same powers of two as the number of its terms. */
  lemma {:induction false} SumValuation(a: nat, k: nat, n: nat)
    requires a % 4 == 1
    ensures Divides(k, Sum(a, n)) <==> Divides(k, n)
  {
    if k > 0 {
      SumParity(a, n);
      if n % 2 == 0 {
        var odd := SumDoubles(a, n / 2);
        OddFactor(k - 1, Sum(a, n / 2), odd);
        SumValuation(a, k - 1, n / 2);
      }
    }
  }

  // ---- The reduced recurrence ----

  /** `n` advances from `x`, each reduced to `k` binary digits. */
  ghost function State(a: nat, c: nat, k: nat, x: nat, n: nat): nat {
    if n == 0 then Low(k, x) else Low(k, Affine(a, c, State(a, c, k, x, n - 1)))
  }

  lemma {:induction false} StateFollowsOrbit(a: nat, c: nat, k: nat, x: nat, n: nat)
    ensures State(a, c, k, x, n) == Low(k, Orbit(a, c, x, n))
  {
    hide Affine;
    if n > 0 {
      var o := Orbit(a, c, x, n - 1);
      StateFollowsOrbit(a, c, k, x, n - 1);
      ReduceFirst(k, o);
      AffineCongruent(k, a, c, Low(k, o), o);
    }
  }

  lemma AffineCongruent(k: nat, a: nat, c: nat, x: nat, y: nat)
    requires Divides(k, x - y)
    ensures Low(k, Affine(a, c, x)) == Low(k, Affine(a, c, y))
  {
    DividesMultiple(k, x - y, a);
    Distribute(a, c, x, y);
    SameLow(k, Affine(a, c, x), Affine(a, c, y));
  }

  lemma Distribute(a: nat, c: nat, x: nat, y: nat)
    ensures a * (x - y) == Affine(a, c, x) - Affine(a, c, y)
  {
  }

  lemma ReduceFirst(k: nat, x: int)
    ensures Divides(k, Low(k, x) - x)
  {
    LowBound(k, x);
    LowOfSmall(k, Low(k, x));
    SameLow(k, Low(k, x), x);
  }

  /** Two states of a run coincide exactly when `2^k` divides the number of steps between them. */
  lemma StatesRepeat(a: nat, c: nat, k: nat, x: nat, i: nat, j: nat)
    requires a % 4 == 1 && c % 2 == 1 && i <= j
    ensures State(a, c, k, x, i) == State(a, c, k, x, j) <==> Divides(k, j - i)
  {
    hide Orbit, Sum, State, Affine;
    var n, y, z := j - i, Orbit(a, c, x, i), Orbit(a, c, x, j);
    StateFollowsOrbit(a, c, k, x, i);
    StateFollowsOrbit(a, c, k, x, j);
    SameLow(k, z, y);
    OrbitContinues(a, c, x, i, n);
    OrbitDistance(a, c, y, n);
    StepIsOdd(a, c, y);
    OddFactor(k, Sum(a, n), (a - 1) * y + c);
    SumValuation(a, k, n);
  }

  lemma StepIsOdd(a: nat, c: nat, y: nat)
    requires a % 2 == 1 && c % 2 == 1
    ensures ((a - 1) * y + c) % 2 == 1
  {
    var h := (a - 1) / 2;
    assert (2 * h) * y == 2 * (h * y);
  }

  /** `y` is reached from `x` within the first `2^k` steps. */
  ghost predicate Visits(a: nat, c: nat, k: nat, x: nat, y: nat) {
    exists n: nat :: n < Pow2(k) && State(a, c, k, x, n) == y
  }

  /** Full period: from any seed the generator passes through every state exactly once in `2^k`
      steps, and is then back where it started. */
  lemma FullPeriod(a: nat, c: nat, k: nat, x: nat)
    requires a % 4 == 1 && c % 2 == 1
    ensures State(a, c, k, x, Pow2(k)) == State(a, c, k, x, 0)
    ensures forall i, j :: 0 <= i < j < Pow2(k) ==> State(a, c, k, x, i) != State(a, c, k, x, j)
    ensures forall y: nat :: y < Pow2(k) ==> Visits(a, c, k, x, y)
  {
    PowerDivides(k);
    StatesRepeat(a, c, k, x, 0, Pow2(k));
    forall i, j | 0 <= i < j < Pow2(k) ensures State(a, c, k, x, i) != State(a, c, k, x, j) {
      StatesRepeat(a, c, k, x, i, j);
      if Divides(k, j - i) { SmallMultiple(k, j - i); }
    }
    EveryStateVisited(a, c, k, x);
  }

  /** Distinct states below `2^k` for `2^k` steps leave none out. */
  lemma EveryStateVisited(a: nat, c: nat, k: nat, x: nat)
    requires forall i, j :: 0 <= i < j < Pow2(k) ==> State(a, c, k, x, i) != State(a, c, k, x, j)
    ensures forall y: nat :: y < Pow2(k) ==> Visits(a, c, k, x, y)
  {
    var m := Pow2(k);
    var visited: seq<nat> := seq(m, n requires 0 <= n => State(a, c, k, x, n));
    forall y | y in visited ensures y < m {
      var n :| 0 <= n < m && visited[n] == y;
      StateFollowsOrbit(a, c, k, x, n);
      LowBound(k, Orbit(a, c, x, n));
    }
    Pigeonhole(visited, m);
    forall y: nat | y < m ensures Visits(a, c, k, x, y) {
      assert y in visited;
      var n :| 0 <= n < m && visited[n] == y;
      assert State(a, c, k, x, n) == y;
    }
  }

  // ---- The generator of the code ----

  ghost function Advance(seed: u64, n: nat): u64 {
    if n == 0 then seed else Next(Advance(seed, n - 1))
  }

  lemma Pow64()
    ensures Pow2(64) == TWO_64
  {
    assert Pow2(1) == 2 && Pow2(2) == 4;
    Pow2Doubles(2);
    Pow2Doubles(4);
    Pow2Doubles(8);
    Pow2Doubles(16);
    Pow2Doubles(32);
  }

  lemma Pow2Doubles(k: nat)
    ensures Pow2(2 * k) == Pow2(k) * Pow2(k)
  {
    Pow2Sum(k, k);
    assert k + k == 2 * k;
  }

  lemma {:induction false} Pow2Sum(a: nat, b: nat)
    ensures Pow2(a + b) == Pow2(a) * Pow2(b)
  {
    if a > 0 {
      Pow2Sum(a - 1, b);
      Associate(2, Pow2(a - 1), Pow2(b));
    }
  }

  lemma NextIsLow(x: u64)
    ensures Next(x) == Low(64, MULTIPLIER * x + INCREMENT)
  {
    Pow64();
    ModAdd(MULTIPLIER * x, INCREMENT, TWO_64);
    LowIsRemainder(64, MULTIPLIER * x + INCREMENT);
  }

  lemma {:induction false} AdvanceIsState(seed: u64, n: nat)
    ensures Advance(seed, n) == State(MULTIPLIER, INCREMENT, 64, seed, n)
  {
    if n > 0 {
      AdvanceIsState(seed, n - 1);
      NextIsLow(Advance(seed, n - 1));
    } else {
      Pow64();
      LowOfSmall(64, seed);
    }
  }

  ghost predicate Reaches(seed: u64, y: u64) {
    exists n: nat :: n < TWO_64 && Advance(seed, n) == y
  }

  /** The 64-bit generator of the code has period exactly 2^64 from every seed and visits every state. */
  lemma GeneratorFullPeriod(seed: u64)
    ensures Advance(seed, TWO_64) == seed
    ensures forall i: nat, j: nat :: i < j < TWO_64 ==> Advance(seed, i) != Advance(seed, j)
    ensures forall y: u64 :: Reaches(seed, y)
  {
    Pow64();
    FullPeriod(MULTIPLIER, INCREMENT, 64, seed);
    forall n: nat ensures Advance(seed, n) == State(MULTIPLIER, INCREMENT, 64, seed, n) {
      AdvanceIsState(seed, n);
    }
    forall y: u64 ensures Reaches(seed, y) {
      assert Visits(MULTIPLIER, INCREMENT, 64, seed, y);
      var n: nat :| n < Pow2(64) && State(MULTIPLIER, INCREMENT, 64, seed, n) == y;
      assert Advance(seed, n) == y;
    }
  }
}
