/**
 The number theory behind the check of Diffie-Hellman parameters: divisibility, primes and
 Euclid's lemma, congruences and powers.
 */
module NumberTheory {

  predicate Divides(d: nat, n: int)
    requires d > 0
  {
    n % d == 0
  }

  predicate IsPrime(p: nat) {
    p >= 2 && forall d :: 2 <= d < p ==> !Divides(d, p)
  }

  function Pow(b: nat, e: nat): nat {
    if e == 0 then 1 else b * Pow(b, e - 1)
  }

  function Factorial(n: nat): (f: nat)
    ensures f > 0
  {
    if n == 0 then 1 else n * Factorial(n - 1)
  }

  /** a and b leave the same remainder modulo p. */
  predicate Cong(a: int, b: int, p: nat)
    requires p > 0
  {
    Divides(p, a - b)
  }

  // ---- divisibility ----

  lemma DividesWitness(d: nat, n: int) returns (q: int)
    requires d > 0 && Divides(d, n)
    ensures n == d * q
  {
    q := n / d;
  }

  lemma WitnessDivides(d: nat, n: int, q: int)
    requires d > 0 && n == d * q
    ensures Divides(d, n)
  {
    ModUnique(n, d, q, 0);
  }

  /** The quotient and the remainder are unique. */
  lemma ModUnique(n: int, d: nat, q: int, r: int)
    requires d > 0 && n == d * q + r && 0 <= r < d
    ensures n % d == r && n / d == q
  {
    var q', r' := n / d, n % d;
    assert n == d * q' + r';
    assert d * (q' - q) == d * q' - d * q;
    MulGap(d, q' - q);
  }

  lemma MulGap(d: nat, k: int)
    ensures k >= 1 ==> d * k >= d
    ensures k <= -1 ==> d * k + d <= 0
  {}

  lemma DividesLinear(d: nat, a: int, b: int, x: int, y: int)
    requires d > 0 && Divides(d, a) && Divides(d, b)
    ensures Divides(d, a * x + b * y)
  {
    var q := DividesWitness(d, a);
    var r := DividesWitness(d, b);
    assert a * x + b * y == d * (q * x + r * y) by {
      assert d * (q * x + r * y) == (d * q) * x + (d * r) * y;
    }
    WitnessDivides(d, a * x + b * y, q * x + r * y);
  }

  lemma SmallNotDivisible(p: nat, n: int)
    requires 0 < n < p
    ensures !Divides(p, n)
  {
    ModUnique(n, p, 0, n);
  }

  // ---- Euclid's lemma ----

  /** k is the least positive number for which p divides k * a. */
  ghost predicate LeastMultiple(p: nat, a: nat, k: nat)
    requires p > 0
  {
    k > 0 && Divides(p, k * a) && forall j: nat :: 0 < j < k ==> !DividesMultiple(p, j, a)
  }

  predicate DividesMultiple(p: nat, j: nat, a: nat)
    requires p > 0
  {
    Divides(p, j * a)
  }

  lemma LeastMultipleExists(p: nat, a: nat, bound: nat) returns (k: nat)
    requires p > 0 && bound > 0 && Divides(p, bound * a)
    ensures LeastMultiple(p, a, k) && k <= bound
  {
    k := bound;
    while exists j: nat :: 0 < j < k && DividesMultiple(p, j, a)
      invariant 0 < k <= bound && Divides(p, k * a)
      decreases k
    {
      var j: nat :| 0 < j < k && DividesMultiple(p, j, a);
      k := j;
    }
  }

  /** The least such number divides all of them. */
  lemma LeastMultipleDivides(p: nat, a: nat, k: nat, n: nat)
    requires p > 0 && LeastMultiple(p, a, k) && Divides(p, n * a)
    ensures Divides(k, n)
  {
    var q, r := n / k, n % k;
    assert n == k * q + r;
    assert r * a == (n * a) * 1 + (k * a) * (-q);
    assert DividesMultiple(p, r, a) == Divides(p, r * a);
    DividesLinear(p, n * a, k * a, 1, -q);
  }

  lemma Euclid(p: nat, a: nat, b: nat)
    requires IsPrime(p) && Divides(p, a * b)
    ensures Divides(p, a) || Divides(p, b)
  {
    WitnessDivides(p, p * a, a);
    var k := LeastMultipleExists(p, a, p);
    assert 2 <= k < p ==> !Divides(k, p);
    LeastMultipleDivides(p, a, k, p);
    if k == p {
      assert b * a == a * b;
      LeastMultipleDivides(p, a, k, b);
    } else {
      assert 1 * a == a;
    }
  }

  lemma {:induction false} FactorialNotDivisible(p: nat, n: nat)
    requires IsPrime(p) && n < p
    ensures !Divides(p, Factorial(n))
  {
    if n == 0 {
      SmallNotDivisible(p, 1);
    } else {
      FactorialNotDivisible(p, n - 1);
      SmallNotDivisible(p, n);
      if Divides(p, n * Factorial(n - 1)) {
        Euclid(p, n, Factorial(n - 1));
      }
    }
  }

  // ---- congruence ----

  lemma CongMul(a: int, b: int, c: int, d: int, p: nat)
    requires p > 0 && Cong(a, b, p) && Cong(c, d, p)
    ensures Cong(a * c, b * d, p)
  {
    DividesLinear(p, a - b, c - d, c, b);
    assert a * c - b * d == (a - b) * c + (c - d) * b;
  }

  lemma CongMod(a: int, p: nat)
    requires p > 0
    ensures Cong(a, a % p, p) && Cong(a % p, a, p)
  {
    WitnessDivides(p, a - a % p, a / p);
    WitnessDivides(p, a % p - a, -(a / p));
  }

  /** A common factor that p does not divide can be removed. */
  lemma CongCancel(a: int, b: int, f: nat, p: nat)
    requires IsPrime(p) && !Divides(p, f) && Cong(a * f, b * f, p)
    ensures Cong(a, b, p)
  {
    if a >= b {
      CancelFactor(a - b, f, p, a * f - b * f);
    } else {
      DividesLinear(p, a * f - b * f, 0, -1, 0);
      CancelFactor(b - a, f, p, -(a * f - b * f));
      DividesLinear(p, b - a, 0, -1, 0);
    }
  }

  lemma CancelFactor(d: nat, f: nat, p: nat, n: int)
    requires IsPrime(p) && !Divides(p, f) && Divides(p, n) && n == d * f
    ensures Divides(p, d)
  {
    Euclid(p, d, f);
  }

  lemma MulAssoc(a: int, b: int, c: int)
    ensures (a * b) * c == a * (b * c)
  {}

  lemma MulSwap(a: int, b: int, x: int, y: int)
    ensures (a * b) * (x * y) == (a * x) * (b * y)
  {
    MulAssoc(a, b, x * y);
    MulAssoc(b, x, y);
    MulAssoc(x, b, y);
    MulAssoc(a, x, b * y);
  }

  // ---- powers ----

  lemma {:induction false} PowAdd(b: nat, m: nat, n: nat)
    ensures Pow(b, m + n) == Pow(b, m) * Pow(b, n)
  {
    if m > 0 {
      PowAdd(b, m - 1, n);
      MulAssoc(b, Pow(b, m - 1), Pow(b, n));
    }
  }

  lemma {:induction false} PowMul(b: nat, m: nat, n: nat)
    ensures Pow(b, m * n) == Pow(Pow(b, m), n)
  {
    if n == 0 {
      assert m * n == 0;
    } else {
      PowMul(b, m, n - 1);
      assert m * n == m + m * (n - 1);
      PowAdd(b, m, m * (n - 1));
    }
  }

  lemma {:induction false} PowProduct(a: nat, b: nat, n: nat)
    ensures Pow(a * b, n) == Pow(a, n) * Pow(b, n)
  {
    if n > 0 {
      PowProduct(a, b, n - 1);
      MulSwap(a, b, Pow(a, n - 1), Pow(b, n - 1));
    }
  }

  lemma {:induction false} PowCong(a: nat, b: nat, n: nat, p: nat)
    requires p > 0 && Cong(a, b, p)
    ensures Cong(Pow(a, n), Pow(b, n), p)
  {
    if n > 0 {
      PowCong(a, b, n - 1, p);
      CongMul(a, b, Pow(a, n - 1), Pow(b, n - 1), p);
    }
  }
}
