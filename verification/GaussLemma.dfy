/**
 Gauss's lemma: modulo an odd prime p = 2h + 1, the power g^h is 1 or -1 according to
 how many of the multiples g, 2g, ..., hg leave a remainder above p / 2.
 */
module GaussLemma {
  import opened NumberTheory

  function Prod(s: seq<nat>): nat {
    if s == [] then 1 else Prod(s[..|s| - 1]) * s[|s| - 1]
  }

  ghost predicate Distinct(s: seq<nat>) {
    forall i, j :: 0 <= i < j < |s| ==> s[i] != s[j]
  }

  ghost predicate Within(s: seq<nat>, m: nat) {
    forall i :: 0 <= i < |s| ==> 1 <= s[i] <= m
  }

  function Without(s: seq<nat>, at: nat): (r: seq<nat>)
    requires at < |s|
    ensures |r| == |s| - 1
    ensures forall i :: 0 <= i < |r| ==> r[i] == s[if i < at then i else i + 1]
  {
    s[..at] + s[at + 1..]
  }

  lemma {:induction false} ProdWithout(s: seq<nat>, at: nat)
    requires at < |s|
    ensures Prod(s) == Prod(Without(s, at)) * s[at]
  {
    var n := |s| - 1;
    if at == n {
      assert Without(s, at) == s[..n];
    } else {
      ProdWithout(s[..n], at);
      assert Without(s, at)[..n - 1] == Without(s[..n], at);
      var rest := Prod(Without(s[..n], at));
      MulAssoc(rest, s[at], s[n]);
      MulAssoc(rest, s[n], s[at]);
    }
  }

  /** Distinct numbers from 1 to m are at most m many. */
  lemma {:induction false} Pigeonhole(s: seq<nat>, m: nat)
    requires Distinct(s) && Within(s, m)
    ensures |s| <= m
  {
    if s != [] {
      assert 1 <= s[0] <= m;
      if i :| 0 <= i < |s| && s[i] == m {
        Pigeonhole(Without(s, i), m - 1);
      } else {
        Pigeonhole(s, m - 1);
      }
    }
  }

  lemma HasLargest(s: seq<nat>) returns (i: nat)
    requires s != [] && Distinct(s) && Within(s, |s|)
    ensures i < |s| && s[i] == |s|
  {
    if |s| !in s {
      Pigeonhole(s, |s| - 1);
      assert false;
    }
    i :| 0 <= i < |s| && s[i] == |s|;
  }

  lemma WithoutLargest(s: seq<nat>, i: nat)
    requires Distinct(s) && Within(s, |s|) && i < |s| && s[i] == |s|
    ensures Distinct(Without(s, i)) && Within(Without(s, i), |s| - 1)
  {}

  /** n distinct numbers from 1 to n multiply to n factorial. */
  lemma {:induction false} ProdIsFactorial(s: seq<nat>)
    requires Distinct(s) && Within(s, |s|)
    ensures Prod(s) == Factorial(|s|)
  {
    if s != [] {
      var i := HasLargest(s);
      WithoutLargest(s, i);
      ProdIsFactorial(Without(s, i));
      ProdByLargest(s, i);
    }
  }

  lemma ProdByLargest(s: seq<nat>, i: nat)
    requires i < |s| && s[i] == |s| && Prod(Without(s, i)) == Factorial(|s| - 1)
    ensures Prod(s) == Factorial(|s|)
  {
    ProdWithout(s, i);
  }

  // ---- signed remainders ----

  /** The remainder of g * k is above p / 2. */
  predicate Upper(g: nat, p: nat, k: nat)
    requires p > 0
  {
    2 * ((g * k) % p) > p
  }

  /** The distance of g * k to the nearest multiple of p. */
  function Near(g: nat, p: nat, k: nat): (m: nat)
    requires p > 0
  {
    if Upper(g, p, k) then p - (g * k) % p else (g * k) % p
  }

  /** -1 to the number of upper remainders among the first n multiples. */
  function Sign(g: nat, p: nat, n: nat): (s: int)
    requires p > 0
    ensures s == 1 || s == -1
  {
    if n == 0 then 1
    else if Upper(g, p, n) then -Sign(g, p, n - 1) else Sign(g, p, n - 1)
  }

  function Nears(g: nat, p: nat, n: nat): (s: seq<nat>)
    requires p > 0
    ensures |s| == n
    ensures forall i :: 0 <= i < n ==> s[i] == Near(g, p, i + 1)
  {
    if n == 0 then [] else Nears(g, p, n - 1) + [Near(g, p, n)]
  }

  /** The number of least absolute value that is congruent to g * k. */
  function SignedNear(g: nat, p: nat, k: nat): int
    requires p > 0
  {
    if Upper(g, p, k) then -(Near(g, p, k) as int) else Near(g, p, k)
  }

  lemma NearCong(g: nat, p: nat, k: nat)
    requires p > 0
    ensures Cong(g * k, SignedNear(g, p, k), p)
  {
    var q := (g * k) / p;
    if Upper(g, p, k) {
      WitnessDivides(p, g * k + Near(g, p, k), q + 1);
    } else {
      WitnessDivides(p, g * k - Near(g, p, k), q);
    }
  }

  lemma {:induction false} SignedProduct(g: nat, p: nat, n: nat)
    requires p > 0
    ensures Cong(Pow(g, n) * Factorial(n), Sign(g, p, n) * Prod(Nears(g, p, n)), p)
  {
    if n == 0 {
      WitnessDivides(p, 0, 0);
    } else {
      SignedProduct(g, p, n - 1);
      NearCong(g, p, n);
      var x, f, m := Pow(g, n - 1), Factorial(n - 1), Prod(Nears(g, p, n - 1));
      CongMul(g * n, SignedNear(g, p, n), x * f, Sign(g, p, n - 1) * m, p);
      assert (g * n) * (x * f) == Pow(g, n) * Factorial(n) by {
        MulSwap(g, n, x, f);
      }
      assert SignedNear(g, p, n) * (Sign(g, p, n - 1) * m) == Sign(g, p, n) * Prod(Nears(g, p, n)) by {
        assert Nears(g, p, n)[..n - 1] == Nears(g, p, n - 1);
        SignTimes(Sign(g, p, n - 1), m, Near(g, p, n));
      }
    }
  }

  lemma SignTimes(s: int, m: int, near: int)
    ensures near * (s * m) == s * (m * near)
    ensures (-near) * (s * m) == (-s) * (m * near)
  {
    MulAssoc(s, m, near);
    assert near * (s * m) == (s * m) * near;
    assert (-near) * (s * m) == -(near * (s * m));
    assert (-s) * (m * near) == -(s * (m * near));
  }

  lemma MultipleNotDivisible(g: nat, p: nat, k: nat)
    requires IsPrime(p) && !Divides(p, g) && 0 < k < p
    ensures (g * k) % p != 0
  {
    SmallNotDivisible(p, k);
    if Divides(p, g * k) {
      Euclid(p, g, k);
    }
  }

  lemma NearsDistinct(g: nat, p: nat, h: nat)
    requires IsPrime(p) && p == 2 * h + 1 && !Divides(p, g)
    ensures Distinct(Nears(g, p, h)) && Within(Nears(g, p, h), h)
  {
    var s := Nears(g, p, h);
    forall i | 0 <= i < h ensures 1 <= s[i] <= h {
      MultipleNotDivisible(g, p, i + 1);
    }
    forall i, j | 0 <= i < j < h ensures s[i] != s[j] {
      if s[i] == s[j] {
        SameNear(g, p, i + 1, j + 1);
        SmallNotDivisible(p, j - i);
        SmallNotDivisible(p, i + j + 2);
      }
    }
  }

  lemma SameNear(g: nat, p: nat, j: nat, k: nat)
    requires IsPrime(p) && !Divides(p, g) && j <= k
    requires Near(g, p, j) == Near(g, p, k)
    ensures Divides(p, k - j) || Divides(p, j + k)
  {
    NearCong(g, p, j);
    NearCong(g, p, k);
    var x, y := SignedNear(g, p, j), SignedNear(g, p, k);
    if Upper(g, p, j) == Upper(g, p, k) {
      DividesLinear(p, g * k - y, g * j - x, 1, -1);
      assert g * (k - j) == g * k - g * j;
      Euclid(p, g, k - j);
    } else {
      DividesLinear(p, g * j - x, g * k - y, 1, 1);
      assert g * (j + k) == g * j + g * k;
      Euclid(p, g, j + k);
    }
  }

  lemma Gauss(g: nat, p: nat, h: nat)
    requires IsPrime(p) && p == 2 * h + 1 && !Divides(p, g)
    ensures Cong(Pow(g, h), Sign(g, p, h), p)
  {
    SignedProduct(g, p, h);
    NearsDistinct(g, p, h);
    ProdIsFactorial(Nears(g, p, h));
    FactorialNotDivisible(p, h);
    CongCancel(Pow(g, h), Sign(g, p, h), Factorial(h), p);
  }

  /** Euler's criterion with the sign of Gauss's lemma: the power is one exactly for the sign 1. */
  lemma PowerIsSign(g: nat, p: nat, h: nat)
    requires IsPrime(p) && p == 2 * h + 1 && h > 0 && !Divides(p, g)
    ensures Pow(g, h) % p == if Sign(g, p, h) == 1 then 1 else p - 1
  {
    Gauss(g, p, h);
    var q := DividesWitness(p, Pow(g, h) - Sign(g, p, h));
    if Sign(g, p, h) == 1 {
      ModUnique(Pow(g, h), p, q, 1);
    } else {
      ModUnique(Pow(g, h), p, q - 1, p - 1);
    }
  }
}
