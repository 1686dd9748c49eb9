/**
 When a small number g is a square modulo a prime p: the sign of Gauss's lemma depends
 only on p modulo 4g, so that finitely many residues decide.
 */
module QuadraticCharacter {
  import opened Sequences
  import opened NumberTheory
  import opened GaussLemma

  /** The last k for which d * k is at most i * p. */
  function Threshold(d: nat, p: nat, i: nat): nat
    requires d > 0
  {
    (i * p) / d
  }

  /** The first n + 1 thresholds. */
  function Thresholds(d: nat, p: nat, n: nat): (ts: seq<int>)
    requires d > 0
    ensures |ts| == n + 1
    ensures forall i :: 0 <= i <= n ==> ts[i] == Threshold(d, p, i)
  {
    seq(n + 1, i requires 0 <= i => Threshold(d, p, i))
  }

  /** How many k lie between an odd position of ts and the next one. */
  function Crossings(ts: seq<int>): int {
    if ts == [] then 0
    else
      var n := |ts| - 1;
      Crossings(ts[..n]) + if n > 0 && n % 2 == 0 then ts[n] - ts[n - 1] else 0
  }

  lemma ThresholdBounds(d: nat, p: nat, i: nat)
    requires d > 0
    ensures d * Threshold(d, p, i) <= i * p < d * Threshold(d, p, i) + d
  {}

  lemma ThresholdUnique(d: nat, p: nat, i: nat, t: nat)
    requires d > 0 && d * t <= i * p < d * t + d
    ensures Threshold(d, p, i) == t
  {
    ModUnique(i * p, d, t, i * p - d * t);
  }

  lemma MulReflects(x: nat, a: nat, b: nat)
    requires x * a < x * b
    ensures a < b
  {}

  lemma Distribute(x: int, a: int, b: int)
    ensures x * (a + b) == x * a + x * b && (a + b) * x == a * x + b * x
  {}

  lemma ThresholdMonotone(d: nat, p: nat, i: nat)
    requires d > 0
    ensures Threshold(d, p, i) <= Threshold(d, p, i + 1)
  {
    var a, b := Threshold(d, p, i), Threshold(d, p, i + 1);
    ThresholdBounds(d, p, i);
    ThresholdBounds(d, p, i + 1);
    Distribute(p, i, 1);
    Distribute(d, b, 1);
    MulReflects(d, a, b + 1);
  }

  /** A number just above an even or an odd half multiple of p. */
  lemma UpperHalf(n: nat, p: nat, j: nat, odd: bool)
    requires p % 2 == 1 && n % p != 0
    requires var half := 2 * (p * j) + (if odd then p else 0); half < 2 * n <= half + p
    ensures 2 * (n % p) > p <==> odd
  {
    if n == p * j + p {
      Distribute(p, j, 1);
      WitnessDivides(p, n, j + 1);
    }
    ModUnique(n, p, j, n - p * j);
  }

  /** Between thresholds i and i + 1 the remainders are upper exactly when i is odd. */
  lemma UpperBetween(g: nat, p: nat, k: nat, i: nat)
    requires IsPrime(p) && p % 2 == 1 && !Divides(p, g) && 0 < k < p
    requires i * p < 2 * (g * k) <= i * p + p
    ensures Upper(g, p, k) <==> i % 2 == 1
  {
    MultipleNotDivisible(g, p, k);
    var j := i / 2;
    assert i * p == 2 * (p * j) + (if i % 2 == 1 then p else 0) by {
      Distribute(p, 2 * j, i % 2);
      MulAssoc(2, j, p);
    }
    UpperHalf(g * k, p, j, i % 2 == 1);
  }

  lemma BetweenThresholds(g: nat, p: nat, i: nat, k: nat)
    requires g > 0
    requires Threshold(2 * g, p, i) < k <= Threshold(2 * g, p, i + 1)
    ensures i * p < 2 * (g * k) <= i * p + p
  {
    var d := 2 * g;
    var low, high := Threshold(d, p, i), Threshold(d, p, i + 1);
    ThresholdBounds(d, p, i);
    ThresholdBounds(d, p, i + 1);
    Distribute(d, low, 1);
    Distribute(p, i, 1);
    MulMonotone(d, low + 1, k);
    MulMonotone(d, k, high);
    MulAssoc(2, g, k);
  }

  ghost predicate FlipsOn(flips: seq<bool>, low: int, high: int, flip: bool) {
    0 <= low <= high < |flips| && forall j :: low < j <= high ==> flips[j] == flip
  }

  /** Signs that flip at every k of a run, or at none. */
  lemma {:induction false} SignRun(signs: seq<int>, flips: seq<bool>, low: nat, k: nat, flip: bool)
    requires low <= k < |signs| == |flips|
    requires forall j :: low < j <= k ==> flips[j] == flip
    requires forall j :: low < j <= k ==> signs[j] == if flips[j] then -signs[j - 1] else signs[j - 1]
    ensures signs[k] == if flip && (k - low) % 2 == 1 then -signs[low] else signs[low]
    decreases k
  {
    if k > low {
      SignRun(signs, flips, low, k - 1, flip);
    }
  }

  /** Signs that flip at every k after an odd threshold and at none after an even one. */
  lemma {:induction false} SignAtThreshold(signs: seq<int>, flips: seq<bool>, ts: seq<int>)
    requires |signs| == |flips| && ts != [] && ts[0] == 0 && signs != [] && signs[0] == 1
    requires 0 <= ts[|ts| - 1] < |signs|
    requires forall i :: 0 < i < |ts| ==> FlipsOn(flips, ts[i - 1], ts[i], i % 2 == 0)
    requires forall j :: 0 < j < |signs| ==> signs[j] == if flips[j] then -signs[j - 1] else signs[j - 1]
    ensures signs[ts[|ts| - 1]] == if Crossings(ts) % 2 == 0 then 1 else -1
  {
    var n := |ts| - 1;
    if n > 0 {
      assert FlipsOn(flips, ts[n - 1], ts[n], n % 2 == 0);
      SignAtThreshold(signs, flips, ts[..n]);
      SignRun(signs, flips, ts[n - 1], ts[n], n % 2 == 0);
    }
  }

  lemma ThresholdsBelow(d: nat, p: nat, n: nat, h: nat)
    requires d > 0 && Threshold(d, p, n) == h
    ensures forall i :: 0 <= i <= n ==> Thresholds(d, p, n)[i] <= h
    decreases n
  {
    if n > 0 {
      ThresholdMonotone(d, p, n - 1);
      ThresholdsBelow(d, p, n - 1, Threshold(d, p, n - 1));
      assert forall i :: 0 <= i < n ==> Thresholds(d, p, n)[i] == Thresholds(d, p, n - 1)[i];
    }
  }

  function Signs(g: nat, p: nat, h: nat): (signs: seq<int>)
    requires p > 0
    ensures |signs| == h + 1 && forall k :: 0 <= k <= h ==> signs[k] == Sign(g, p, k)
  {
    seq(h + 1, k requires 0 <= k => Sign(g, p, k))
  }

  function Uppers(g: nat, p: nat, h: nat): (flips: seq<bool>)
    requires p > 0
    ensures |flips| == h + 1 && forall k :: 0 <= k <= h ==> flips[k] == Upper(g, p, k)
  {
    seq(h + 1, k requires 0 <= k => Upper(g, p, k))
  }

  lemma UppersBetween(g: nat, p: nat, h: nat, i: nat, low: nat, high: nat)
    requires IsPrime(p) && p == 2 * h + 1 && g > 0 && !Divides(p, g) && i > 0
    requires low == Threshold(2 * g, p, i - 1) && high == Threshold(2 * g, p, i) && high <= h
    ensures FlipsOn(Uppers(g, p, h), low, high, i % 2 == 0)
  {
    ThresholdMonotone(2 * g, p, i - 1);
    forall j: nat | low < j <= high ensures Uppers(g, p, h)[j] == (i % 2 == 0) {
      UpperInRun(g, p, h, i, j, low, high);
    }
  }

  lemma UpperInRun(g: nat, p: nat, h: nat, i: nat, j: nat, low: nat, high: nat)
    requires IsPrime(p) && p == 2 * h + 1 && g > 0 && !Divides(p, g) && i > 0
    requires low == Threshold(2 * g, p, i - 1) && high == Threshold(2 * g, p, i) && low < j <= high <= h
    ensures Upper(g, p, j) == (i % 2 == 0)
  {
    ParityBefore(i);
    UpperByThreshold(g, p, h, i - 1, j, low, high);
  }

  lemma ParityBefore(i: nat)
    requires i > 0
    ensures (i - 1) % 2 == 1 <==> i % 2 == 0
  {}

  lemma UpperByThreshold(g: nat, p: nat, h: nat, i: nat, k: nat, low: nat, high: nat)
    requires IsPrime(p) && p == 2 * h + 1 && g > 0 && !Divides(p, g)
    requires low == Threshold(2 * g, p, i) && high == Threshold(2 * g, p, i + 1)
    requires low < k <= high <= h
    ensures Upper(g, p, k) <==> i % 2 == 1
  {
    assert i * p < 2 * (g * k) <= i * p + p by {
      BetweenThresholds(g, p, i, k);
    }
    UpperBetween(g, p, k, i);
  }

  lemma SignIsCrossings(g: nat, p: nat, h: nat)
    requires IsPrime(p) && p == 2 * h + 1 && g > 0 && !Divides(p, g)
    ensures Sign(g, p, h) == if Crossings(Thresholds(2 * g, p, g)) % 2 == 0 then 1 else -1
  {
    var ts := Thresholds(2 * g, p, g);
    assert Threshold(2 * g, p, g) == h by {
      MulAssoc(g, 2, h);
      Distribute(g, 2 * h, 1);
      ThresholdUnique(2 * g, p, g, h);
    }
    ThresholdUnique(2 * g, p, 0, 0);
    ThresholdsBelow(2 * g, p, g, h);
    forall i | 0 < i <= g ensures FlipsOn(Uppers(g, p, h), ts[i - 1], ts[i], i % 2 == 0) {
      UppersBetween(g, p, h, i, ts[i - 1], ts[i]);
    }
    SignAtThreshold(Signs(g, p, h), Uppers(g, p, h), ts);
  }

  // ---- dependence on p modulo 4g ----

  lemma ThresholdShift(d: nat, c: nat, t: nat, i: nat)
    requires d > 0
    ensures Threshold(d, d * (2 * t) + c, i) == i * (2 * t) + Threshold(d, c, i)
  {
    var u := Threshold(d, c, i);
    ThresholdBounds(d, c, i);
    Distribute(i, d * (2 * t), c);
    MulAssoc(i, d, 2 * t);
    MulAssoc(d, i, 2 * t);
    Distribute(d, i * (2 * t), u);
    ThresholdUnique(d, d * (2 * t) + c, i, i * (2 * t) + u);
  }

  /** Even changes of the thresholds keep the parity of the crossings. */
  lemma {:induction false} CrossingsParity(ts: seq<int>, us: seq<int>)
    requires |ts| == |us|
    requires forall i :: 0 <= i < |ts| ==> (ts[i] - us[i]) % 2 == 0
    ensures (Crossings(ts) - Crossings(us)) % 2 == 0
  {
    if ts != [] {
      CrossingsParity(ts[..|ts| - 1], us[..|us| - 1]);
    }
  }

  lemma ThresholdParity(d: nat, p: nat, c: nat, t: nat, i: nat)
    requires d > 0 && p == d * (2 * t) + c
    ensures (Threshold(d, p, i) - Threshold(d, c, i)) % 2 == 0
  {
    ThresholdShift(d, c, t, i);
    EvenProduct(i, t);
  }

  lemma CrossingsResidue(d: nat, p: nat, c: nat, t: nat, n: nat)
    requires d > 0 && p == d * (2 * t) + c
    ensures (Crossings(Thresholds(d, p, n)) - Crossings(Thresholds(d, c, n))) % 2 == 0
  {
    var ts, us := Thresholds(d, p, n), Thresholds(d, c, n);
    forall i | 0 <= i <= n ensures (ts[i] - us[i]) % 2 == 0 {
      ThresholdParity(d, p, c, t, i);
    }
    CrossingsParity(ts, us);
  }

  lemma SameParity(a: int, b: int)
    requires (a - b) % 2 == 0
    ensures a % 2 == b % 2
  {}

  /** The sign for p is decided by any c that differs from p by a multiple of 4g. */
  lemma SignByResidue(g: nat, p: nat, h: nat, t: nat, c: nat)
    requires IsPrime(p) && p == 2 * h + 1 && g > 0 && !Divides(p, g)
    requires p == (2 * g) * (2 * t) + c
    ensures Sign(g, p, h) == if Crossings(Thresholds(2 * g, c, g)) % 2 == 0 then 1 else -1
  {
    SignIsCrossings(g, p, h);
    CrossingsResidue(2 * g, p, c, t, g);
    SameParity(Crossings(Thresholds(2 * g, p, g)), Crossings(Thresholds(2 * g, c, g)));
  }

  lemma EvenProduct(i: nat, t: nat)
    ensures (i * (2 * t)) % 2 == 0
  {
    MulAssoc(i, 2, t);
    MulAssoc(2, i, t);
    assert i * (2 * t) == 2 * (i * t);
  }

  // ---- the residues that matter ----

  lemma {:induction false} CrossingsTwoMore(ts: seq<int>)
    requires |ts| >= 3 && |ts| % 2 == 1
    ensures Crossings(ts) == Crossings(ts[..|ts| - 2]) + ts[|ts| - 1] - ts[|ts| - 2]
  {
    assert ts[..|ts| - 1][..|ts| - 2] == ts[..|ts| - 2];
  }

  lemma Crossings3(ts: seq<int>)
    requires |ts| == 3 || |ts| == 4
    ensures Crossings(ts) == ts[2] - ts[1]
  {
    CrossingsTwoMore(ts[..3]);
    assert ts[..3][..1] == [ts[0]] && [ts[0]][..0] == [];
    if |ts| == 3 {
      assert ts[..3] == ts;
    }
  }

  lemma Crossings6(ts: seq<int>)
    requires |ts| == 6
    ensures Crossings(ts) == ts[2] - ts[1] + (ts[4] - ts[3])
  {
    CrossingsTwoMore(ts[..5]);
    assert ts[..5][..3] == ts[..3];
    Crossings3(ts[..3]);
  }

  lemma Crossings8(ts: seq<int>)
    requires |ts| == 8
    ensures Crossings(ts) == ts[2] - ts[1] + (ts[4] - ts[3]) + (ts[6] - ts[5])
  {
    CrossingsTwoMore(ts[..7]);
    assert ts[..7][..5] == ts[..6][..5];
    Crossings6(ts[..6]);
  }

  lemma Residues2(c: nat)
    requires c < 8 && c % 4 == 3
    ensures Crossings(Thresholds(4, c, 2)) % 2 == 0 <==> c == 7
  {
    Crossings3(Thresholds(4, c, 2));
  }

  lemma Residues3()
    ensures Crossings(Thresholds(6, 11, 3)) % 2 == 0
  {
    Crossings3(Thresholds(6, 11, 3));
  }

  lemma Residues5(c: nat)
    requires c < 20 && c % 4 == 3 && c % 5 != 0
    ensures Crossings(Thresholds(10, c, 5)) % 2 == 0 <==> c % 5 == 1 || c % 5 == 4
  {
    Crossings6(Thresholds(10, c, 5));
  }

  lemma Residues7(c: nat)
    requires c < 28 && c % 4 == 3 && c % 7 != 0
    ensures Crossings(Thresholds(14, c, 7)) % 2 == 0 <==> c % 7 == 3 || c % 7 == 5 || c % 7 == 6
  {
    var ts := Thresholds(14, c, 7);
    Crossings8(ts);
    assert ts[1] == c / 14 && ts[2] == 2 * c / 14 && ts[3] == 3 * c / 14;
    assert ts[4] == 4 * c / 14 && ts[5] == 5 * c / 14 && ts[6] == 6 * c / 14;
    assert c in {3, 11, 15, 19, 23, 27};
  }
}
