/**
 Rounding to floating-point numbers with 53 significant bits, to the nearest one and in a
 tie to the even one, as IEEE 754 does it. Exponents are not bounded.
 */
module Doubles {

  /** Between these two, neighbours are one apart. */
  const LOW: real := 4503599627370496.0
  const HIGH: real := 9007199254740992.0

  function NearestEven(r: real): (n: int)
    ensures n as real - 0.5 <= r <= n as real + 0.5
  {
    var f := r.Floor;
    var d := r - f as real;
    if d < 0.5 || (d == 0.5 && f % 2 == 0) then f else f + 1
  }

  /** Doubling and halving change the exponent only. */
  function RoundPositive(x: real): real
    requires x > 0.0
    decreases if x >= HIGH then x.Floor else (LOW / x).Floor
  {
    if x >= HIGH then
      2.0 * RoundPositive(x / 2.0)
    else if x < LOW then
      SmallerTurns(x);
      RoundPositive(2.0 * x) / 2.0
    else NearestEven(x) as real
  }

  lemma SmallerTurns(x: real)
    requires 0.0 < x < LOW
    ensures 0 <= (LOW / (2.0 * x)).Floor < (LOW / x).Floor
  {
    var z := LOW / x;
    assert z * x == LOW;
    assert z > 1.0 by {
      if z <= 1.0 {
        ProductAtMost(z, x);
      }
    }
    assert LOW / (2.0 * x) == z / 2.0;
  }

  lemma ProductAtMost(z: real, x: real)
    requires z <= 1.0 && x > 0.0
    ensures z * x <= x
  {}

  function Round(x: real): real {
    if x > 0.0 then RoundPositive(x) else if x < 0.0 then -RoundPositive(-x) else 0.0
  }

  function Abs(x: real): real {
    if x < 0.0 then -x else x
  }

  /** One part in 2^53. */
  function Part(x: real): real {
    x / 9007199254740992.0
  }

  lemma {:induction false} PositiveError(x: real)
    requires x > 0.0
    ensures x - Part(x) <= RoundPositive(x) <= x + Part(x)
    decreases if x >= HIGH then x.Floor else (LOW / x).Floor
  {
    if x >= HIGH {
      PositiveError(x / 2.0);
    } else if x < LOW {
      SmallerTurns(x);
      PositiveError(2.0 * x);
    }
  }

  /** Rounding is off by at most one part in 2^53. */
  lemma RoundError(x: real)
    ensures Abs(Round(x) - x) <= Part(Abs(x))
  {
    if x > 0.0 {
      PositiveError(x);
    } else if x < 0.0 {
      PositiveError(-x);
    }
  }

  // ---- exact values ----

  function Doubled(x: real, n: nat): real {
    if n == 0 then x else 2.0 * Doubled(x, n - 1)
  }

  lemma {:induction false} DoubledGrows(x: real, n: nat)
    requires x > 0.0
    ensures Doubled(x, n) >= x
  {
    if n > 0 {
      DoubledGrows(x, n - 1);
    }
  }

  lemma {:induction false} DoubledFirst(x: real, n: nat)
    ensures Doubled(2.0 * x, n) == 2.0 * Doubled(x, n)
  {
    if n > 0 {
      DoubledFirst(x, n - 1);
    }
  }

  /** A number that becomes whole by doubling it into the range is not changed. */
  lemma {:induction false} WholeIsExact(x: real, n: nat)
    requires x > 0.0 && LOW <= Doubled(x, n) < HIGH && Doubled(x, n).Floor as real == Doubled(x, n)
    ensures RoundPositive(x) == x
    decreases n
  {
    if n > 0 {
      DoubledFirst(x, n - 1);
      DoubledGrows(x, n - 1);
      WholeIsExact(2.0 * x, n - 1);
    }
  }

  /** Far above the range, rounding is rounding of what halving brings into the range. */
  lemma {:induction false} RoundAbove(y: real, n: nat)
    requires LOW <= y < HIGH
    ensures Doubled(y, n) > 0.0 && RoundPositive(Doubled(y, n)) == Doubled(NearestEven(y) as real, n)
  {
    if n > 0 {
      DoubledGrows(y, n - 1);
      RoundAbove(y, n - 1);
    }
  }
}
