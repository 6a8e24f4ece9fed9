/** Powers of two, divisibility by them, and reduction modulo them, all by halving. */
module Powers {
  ghost function Pow2(k: nat): nat {
    if k == 0 then 1 else 2 * Pow2(k - 1)
  }

  lemma {:induction false} Pow2Positive(k: nat)
    ensures Pow2(k) > 0
  {
    if k > 0 { Pow2Positive(k - 1); }
  }

  lemma {:induction false} Pow2Grows(a: nat, b: nat)
    requires a < b
    ensures Pow2(a) < Pow2(b)
  {
    Pow2Positive(b - 1);
    if a + 1 < b { Pow2Grows(a, b - 1); }
  }

  /** `2^k` divides `x`. */
  ghost predicate Divides(k: nat, x: int) {
    k == 0 || (x % 2 == 0 && Divides(k - 1, x / 2))
  }

  /** The low `k` binary digits of `x`. */
  ghost function Low(k: nat, x: int): nat {
    if k == 0 then 0 else x % 2 + 2 * Low(k - 1, x / 2)
  }

  lemma {:induction false} LowBound(k: nat, x: int)
    ensures Low(k, x) < Pow2(k)
  {
    if k > 0 { LowBound(k - 1, x / 2); }
  }

  lemma {:induction false} LowOfSmall(k: nat, x: nat)
    requires x < Pow2(k)
    ensures Low(k, x) == x
  {
    if k > 0 { LowOfSmall(k - 1, x / 2); }
  }

  /** Two numbers have the same low digits exactly when `2^k` divides their difference. */
  lemma {:induction false} SameLow(k: nat, x: int, y: int)
    ensures Low(k, x) == Low(k, y) <==> Divides(k, x - y)
  {
    if k > 0 && x % 2 == y % 2 {
      assert (x - y) / 2 == x / 2 - y / 2;
      SameLow(k - 1, x / 2, y / 2);
    }
  }

  lemma {:induction false} DividesSum(k: nat, x: int, y: int)
    requires Divides(k, x)
    ensures Divides(k, x + y) <==> Divides(k, y)
  {
    if k > 0 && y % 2 == 0 {
      assert (x + y) / 2 == x / 2 + y / 2;
      DividesSum(k - 1, x / 2, y / 2);
    }
  }

  lemma {:induction false} DividesMultiple(k: nat, x: int, a: int)
    requires Divides(k, x)
    ensures Divides(k, a * x)
  {
    if k > 0 {
      var h := x / 2;
      DividesMultiple(k - 1, h, a);
      DoubleTimes(a, h);
    }
  }

  lemma {:induction false} OddFactor(k: nat, x: int, odd: int)
    requires odd % 2 == 1
    ensures Divides(k, odd * x) <==> Divides(k, x)
  {
    if k > 0 {
      OddTimes(odd, x);
      if x % 2 == 0 {
        DoubleTimes(odd, x / 2);
        OddFactor(k - 1, x / 2, odd);
      }
    }
  }

  /** `2^k` is divisible by itself, and its positive multiples are at least as large. */
  lemma {:induction false} PowerDivides(k: nat)
    ensures Divides(k, Pow2(k))
  {
    if k > 0 { PowerDivides(k - 1); }
  }

  lemma {:induction false} SmallMultiple(k: nat, n: nat)
    requires Divides(k, n) && 0 < n
    ensures Pow2(k) <= n
  {
    if k > 0 { SmallMultiple(k - 1, n / 2); }
  }

  lemma DoubleTimes(a: int, h: int)
    ensures a * (2 * h) == 2 * (a * h)
    ensures (a * (2 * h)) / 2 == a * h && (a * (2 * h)) % 2 == 0
  {
  }

  lemma OddTimes(odd: int, x: int)
    requires odd % 2 == 1
    ensures (odd * x) % 2 == x % 2
  {
    var o := odd / 2;
    var y := o * x;
    OddProduct(o, x);
    EvenPlus(y, x);
  }

  lemma OddProduct(o: int, x: int)
    ensures (2 * o + 1) * x == 2 * (o * x) + x
  {
  }

  lemma EvenPlus(y: int, x: int)
    ensures (2 * y + x) % 2 == x % 2
  {
  }

  /** Reduction by halving is the remainder. */
  lemma {:induction false} LowIsRemainder(k: nat, x: int)
    ensures Pow2(k) > 0 && Low(k, x) == x % Pow2(k)
  {
    Pow2Positive(k);
    if k > 0 {
      var p, h := Pow2(k - 1), x / 2;
      LowIsRemainder(k - 1, h);
      LowBound(k - 1, h);
      var q, r := h / p, Low(k - 1, h);
      DoubleQuotient(x, p, q, r);
      DivisionUnique(x, 2 * p, q, x % 2 + 2 * r);
    }
  }

  lemma DoubleQuotient(x: int, p: nat, q: int, r: nat)
    requires x / 2 == p * q + r
    ensures x == (2 * p) * q + (x % 2 + 2 * r)
  {
    assert (2 * p) * q == 2 * (p * q);
  }

  lemma DivisionUnique(x: int, m: nat, q: int, r: nat)
    requires 0 < m && r < m && x == m * q + r
    ensures x % m == r && x / m == q
  {
    var q', r' := x / m, x % m;
    assert x == m * q' + r' && 0 <= r' < m;
    if q' > q {
      Gap(m, q, q');
    } else if q > q' {
      Gap(m, q', q);
    }
  }

  lemma Gap(m: nat, q: int, q': int)
    requires q < q'
    ensures m * q + m <= m * q'
  {
    var d := q' - q - 1;
    assert m * q' == m * q + m + m * d;
    assert m * d >= 0;
  }

  lemma ModAdd(x: nat, y: nat, m: nat)
    requires m > 0
    ensures (x % m + y) % m == (x + y) % m
  {
    var z := x % m + y;
    assert m * (x / m + z / m) == m * (x / m) + m * (z / m);
    DivisionUnique(x + y, m, x / m + z / m, z % m);
  }

  lemma ModSkip(x: nat, m: nat)
    requires m > 0
    ensures (x + m) % m == x % m
  {
    assert m * (x / m + 1) == m * (x / m) + m;
    DivisionUnique(x + m, m, x / m + 1, x % m);
  }

  lemma ModTimes(x: nat, y: nat, m: nat)
    requires m > 0
    ensures ((x % m) * (y % m)) % m == (x * y) % m
  {
    var a, b, r := x / m, y / m, x % m;
    var z := r * (y % m);
    assert x * y == m * (a * y) + r * y by { assert x == m * a + r; Distribute(m * a, r, y); Regroup(m, a, y); }
    assert r * y == m * (r * b) + z by { assert y == m * b + y % m; Distribute(m * b, y % m, r); Regroup(m, b, r); }
    Distribute(a * y + r * b, z / m, m);
    Distribute(a * y, r * b, m);
    DivisionUnique(x * y, m, a * y + r * b + z / m, z % m);
  }

  lemma Distribute(x: int, y: int, z: int)
    ensures (x + y) * z == x * z + y * z && z * (x + y) == z * x + z * y
  {
  }

  lemma Regroup(x: int, y: int, z: int)
    ensures (x * y) * z == x * (y * z)
  {
  }

  lemma SameRemainder(x: int, y: int, m: nat)
    requires m > 0
    ensures x % m == y % m <==> (x - y) % m == 0
  {
    var q, r := y / m, y % m;
    if x % m == r {
      Distribute(x / m, -q, m);
      DivisionUnique(x - y, m, x / m - q, 0);
    }
    if (x - y) % m == 0 {
      Distribute((x - y) / m, q, m);
      DivisionUnique(x, m, (x - y) / m + q, r);
    }
  }
}
