/**
 The check of Diffie-Hellman parameters (DhHandshake.cpp, check_config): the generator is
 tested by one remainder of the prime, instead of by exponentiation.
 */
module DhConfig {
  import opened Bytes
  import opened NumberTheory
  import opened GaussLemma
  import opened QuadraticCharacter

  /** Both p and (p - 1) / 2 are prime. */
  predicate SafePrime(p: nat) {
    IsPrime(p) && IsPrime((p - 1) / 2)
  }

  predicate HasBits(p: nat, bits: nat) {
    bits > 0 && Pow(2, bits - 1) <= p < Pow(2, bits)
  }

  /** The remainder test for the generator. */
  predicate ModOk(p: nat, g: int) {
    match g
    case 2 => p % 8 == 7
    case 3 => p % 3 == 2
    case 4 => true
    case 5 => p % 5 == 1 || p % 5 == 4
    case 6 => p % 24 == 19 || p % 24 == 23
    case 7 => p % 7 == 3 || p % 7 == 5 || p % 7 == 6
    case _ => false
  }

  /** What the check is for: g is a square modulo the safe prime p of 2048 bits. */
  predicate GoodConfig(p: nat, g: int) {
    && HasBits(p, 2048)
    && SafePrime(p)
    && 2 <= g <= 7
    && Pow(g, (p - 1) / 2) % p == 1
  }

  // ---- safe primes ----

  lemma SafePrimeResidues(p: nat)
    requires SafePrime(p) && p > 15
    ensures p % 4 == 3 && p % 3 == 2 && p % 5 != 0 && p % 7 != 0
    ensures p == 2 * ((p - 1) / 2) + 1
  {
    var h := (p - 1) / 2;
    assert !Divides(2, p) && !Divides(3, p) && !Divides(5, p) && !Divides(7, p);
    assert !Divides(2, h) && !Divides(3, h);
    HalfResidues(p, h);
  }

  lemma HalfResidues(p: nat, h: nat)
    requires p % 2 != 0 && h == (p - 1) / 2
    ensures p == 2 * h + 1
    ensures h % 2 != 0 ==> p % 4 == 3
    ensures h % 3 != 0 && p % 3 != 0 ==> p % 3 == 2
  {
    HalfOfOdd(p, h);
    HalfModFour(h);
    HalfModThree(h);
  }

  lemma HalfOfOdd(p: nat, h: nat)
    requires p % 2 != 0 && h == (p - 1) / 2
    ensures p == 2 * h + 1
  {}

  lemma HalfModFour(h: nat)
    ensures h % 2 != 0 ==> (2 * h + 1) % 4 == 3
  {
    var q := h / 2;
    if h % 2 != 0 {
      assert h == 2 * q + 1;
      ModUnique(2 * h + 1, 4, q, 3);
    }
  }

  lemma HalfModThree(h: nat)
    ensures h % 3 != 0 && (2 * h + 1) % 3 != 0 ==> (2 * h + 1) % 3 == 2
  {
    var q, r := h / 3, h % 3;
    assert h == 3 * q + r;
    if r == 1 {
      ModUnique(2 * h + 1, 3, 2 * q + 1, 0);
    } else if r == 2 {
      ModUnique(2 * h + 1, 3, 2 * q + 1, 2);
    }
  }

  lemma PrimeNotBelow(p: nat, g: nat)
    requires 0 < g < p
    ensures !Divides(p, g)
  {
    SmallNotDivisible(p, g);
  }

  /** The remainder test decides squareness, for every safe prime above 15. */
  lemma ModOkIsSquare(p: nat, g: nat)
    requires SafePrime(p) && p > 15 && 2 <= g <= 7
    ensures ModOk(p, g) <==> Pow(g, (p - 1) / 2) % p == 1
  {
    var h := (p - 1) / 2;
    SafePrimeResidues(p);
    PrimeNotBelow(p, g);
    PowerIsSign(g, p, h);
    match g {
      case 2 => Sign2(p, h);
      case 3 => Sign3(p, h);
      case 4 => Power4(p, h);
      case 5 => Sign5(p, h);
      case 6 => Power6(p, h);
      case 7 => Sign7(p, h);
    }
  }

  /** The sign is decided by the crossings for the remainder of p modulo 4g. */
  lemma SignByCrossings(p: nat, h: nat, g: nat, t: nat, c: nat)
    requires IsPrime(p) && p == 2 * h + 1 && 0 < g < p
    requires p == (2 * g) * (2 * t) + c
    ensures Sign(g, p, h) == 1 <==> Crossings(Thresholds(2 * g, c, g)) % 2 == 0
  {
    PrimeNotBelow(p, g);
    SignByResidue(g, p, h, t, c);
  }

  lemma Sign2(p: nat, h: nat)
    requires IsPrime(p) && p == 2 * h + 1 && p > 7 && p % 4 == 3
    ensures Sign(2, p, h) == 1 <==> p % 8 == 7
  {
    var t, c := Split8(p);
    Sign2At(p, h, t, c);
  }

  lemma Split8(p: nat) returns (t: nat, c: nat)
    ensures p == 8 * t + c && c < 8 && c % 4 == p % 4 && c == p % 8
  {
    t, c := p / 8, p - 8 * (p / 8);
    ModUnique(p, 4, 2 * t + c / 4, c % 4);
    ModUnique(p, 8, t, c);
  }

  lemma Sign2At(p: nat, h: nat, t: nat, c: nat)
    requires IsPrime(p) && p == 2 * h + 1 && p > 7
    requires p == 8 * t + c && c % 4 == 3 && c < 8
    ensures Sign(2, p, h) == 1 <==> c == 7
  {
    SignByCrossings(p, h, 2, t, c);
    Residues2(c);
  }

  lemma Sign3(p: nat, h: nat)
    requires IsPrime(p) && p == 2 * h + 1 && p > 7 && p % 4 == 3 && p % 3 == 2
    ensures Sign(3, p, h) == 1
  {
    var t, c := Split12(p);
    Sign3At(p, h, t, c);
  }

  lemma Split12(p: nat) returns (t: nat, c: nat)
    ensures p == 12 * t + c && c < 12 && c % 4 == p % 4 && c % 3 == p % 3
  {
    t, c := p / 12, p - 12 * (p / 12);
    ModUnique(p, 4, 3 * t + c / 4, c % 4);
    ModUnique(p, 3, 4 * t + c / 3, c % 3);
  }

  lemma Sign3At(p: nat, h: nat, t: nat, c: nat)
    requires IsPrime(p) && p == 2 * h + 1 && p > 7
    requires p == 12 * t + c && c % 4 == 3 && c < 12 && c % 3 == 2
    ensures Sign(3, p, h) == 1
  {
    SignByCrossings(p, h, 3, t, c);
    Residues3();
  }

  lemma Sign5(p: nat, h: nat)
    requires IsPrime(p) && p == 2 * h + 1 && p > 7 && p % 4 == 3 && p % 5 != 0
    ensures Sign(5, p, h) == 1 <==> p % 5 == 1 || p % 5 == 4
  {
    var t, c := Split20(p);
    Sign5At(p, h, t, c);
  }

  lemma Split20(p: nat) returns (t: nat, c: nat)
    ensures p == 20 * t + c && c < 20 && c % 4 == p % 4 && c % 5 == p % 5
  {
    t, c := p / 20, p - 20 * (p / 20);
    ModUnique(p, 4, 5 * t + c / 4, c % 4);
    ModUnique(p, 5, 4 * t + c / 5, c % 5);
  }

  lemma Sign5At(p: nat, h: nat, t: nat, c: nat)
    requires IsPrime(p) && p == 2 * h + 1 && p > 7
    requires p == 20 * t + c && c % 4 == 3 && c < 20 && c % 5 != 0
    ensures Sign(5, p, h) == 1 <==> c % 5 == 1 || c % 5 == 4
  {
    SignByCrossings(p, h, 5, t, c);
    Residues5(c);
  }

  lemma Sign7(p: nat, h: nat)
    requires IsPrime(p) && p == 2 * h + 1 && p > 7 && p % 4 == 3 && p % 7 != 0
    ensures Sign(7, p, h) == 1 <==> p % 7 == 3 || p % 7 == 5 || p % 7 == 6
  {
    var t, c := Split28(p);
    Sign7At(p, h, t, c);
  }

  lemma Split28(p: nat) returns (t: nat, c: nat)
    ensures p == 28 * t + c && c < 28 && c % 4 == p % 4 && c % 7 == p % 7
  {
    t, c := p / 28, p - 28 * (p / 28);
    ModUnique(p, 4, 7 * t + c / 4, c % 4);
    ModUnique(p, 7, 4 * t + c / 7, c % 7);
  }

  lemma Sign7At(p: nat, h: nat, t: nat, c: nat)
    requires IsPrime(p) && p == 2 * h + 1 && p > 7
    requires p == 28 * t + c && c % 4 == 3 && c < 28 && c % 7 != 0
    ensures Sign(7, p, h) == 1 <==> c % 7 == 3 || c % 7 == 5 || c % 7 == 6
  {
    SignByCrossings(p, h, 7, t, c);
    Residues7(c);
  }

  /** 4 is a square whatever the prime. */
  lemma Power4(p: nat, h: nat)
    requires IsPrime(p) && p == 2 * h + 1 && p > 7
    ensures Pow(4, h) % p == 1
  {
    PrimeNotBelow(p, 2);
    Gauss(2, p, h);
    CongMul(Pow(2, h), Sign(2, p, h), Pow(2, h), Sign(2, p, h), p);
    PowProduct(2, 2, h);
    OneRemainder(Pow(4, h), p);
  }

  lemma OneRemainder(n: nat, p: nat)
    requires p > 1 && Cong(n, 1, p)
    ensures n % p == 1
  {
    var q := DividesWitness(p, n - 1);
    ModUnique(n, p, q, 1);
  }

  lemma MinusOneRemainder(n: nat, p: nat)
    requires p > 2 && Cong(n, -1, p)
    ensures n % p == p - 1
  {
    var q := DividesWitness(p, n + 1);
    ModUnique(n, p, q - 1, p - 1);
  }

  /** 6 is a square exactly when 2 and 3 are both squares or both not. */
  lemma SignProduct(p: nat, h: nat)
    requires IsPrime(p) && p == 2 * h + 1 && p > 7
    ensures Cong(Pow(6, h), Sign(2, p, h) * Sign(3, p, h), p)
  {
    PrimeNotBelow(p, 2);
    PrimeNotBelow(p, 3);
    Gauss(2, p, h);
    Gauss(3, p, h);
    CongMul(Pow(2, h), Sign(2, p, h), Pow(3, h), Sign(3, p, h), p);
    PowProduct(2, 3, h);
  }

  lemma Power6(p: nat, h: nat)
    requires IsPrime(p) && p == 2 * h + 1 && p > 7 && p % 4 == 3 && p % 3 == 2
    ensures Pow(6, h) % p == 1 <==> p % 24 == 19 || p % 24 == 23
  {
    SignProduct(p, h);
    Sign3(p, h);
    assert Sign(2, p, h) * Sign(3, p, h) == Sign(2, p, h);
    PlusOrMinus(Pow(6, h), p, Sign(2, p, h));
    Sign2(p, h);
    Residues24(p);
  }

  lemma Residues24(p: nat)
    requires p % 4 == 3 && p % 3 == 2
    ensures p % 8 == 7 <==> p % 24 == 19 || p % 24 == 23
  {
    var t, c := p / 24, p - 24 * (p / 24);
    ModUnique(p, 24, t, c);
    ModUnique(p, 8, 3 * t + c / 8, c % 8);
    ModUnique(p, 4, 6 * t + c / 4, c % 4);
    ModUnique(p, 3, 8 * t + c / 3, c % 3);
    SmallResidues24(c);
  }

  lemma SmallResidues24(c: nat)
    requires c < 24 && c % 4 == 3 && c % 3 == 2
    ensures c % 8 == 7 <==> c == 19 || c == 23
  {}

  lemma PlusOrMinus(n: nat, p: nat, sign: int)
    requires p > 2 && (sign == 1 || sign == -1) && Cong(n, sign, p)
    ensures n % p == 1 <==> sign == 1
  {
    if sign == 1 {
      OneRemainder(n, p);
    } else {
      MinusOneRemainder(n, p);
    }
  }

  // ---- the subgroup generated by g ----

  lemma PowerRemainders(p: nat, g: nat, k: nat, d: nat)
    requires p > 1 && d > 0 && Pow(g, d) % p == 1
    ensures Pow(g, k) % p == Pow(g, k % d) % p
  {
    PowerByRemainder(p, g, k, d, k / d, k % d);
  }

  lemma PowerByRemainder(p: nat, g: nat, k: nat, d: nat, q: nat, r: nat)
    requires p > 1 && Pow(g, d) % p == 1 && k == d * q + r
    ensures Pow(g, k) % p == Pow(g, r) % p
  {
    PowerShift(p, g, d, q, r);
    SameRemainder(Pow(g, k), Pow(g, r), p);
  }

  /** Adding multiples of d to the exponent changes nothing when g^d is one. */
  lemma PowerShift(p: nat, g: nat, d: nat, q: nat, r: nat)
    requires p > 1 && Pow(g, d) % p == 1
    ensures Cong(Pow(g, d * q + r), Pow(g, r), p)
  {
    PowAdd(g, d * q, r);
    PowMul(g, d, q);
    CongMod(Pow(g, d), p);
    PowCong(Pow(g, d), 1, q, p);
    PowOne(q);
    CongRefl(Pow(g, r), p);
    CongMul(Pow(Pow(g, d), q), 1, Pow(g, r), Pow(g, r), p);
  }

  lemma CongRefl(a: int, p: nat)
    requires p > 0
    ensures Cong(a, a, p)
  {
    WitnessDivides(p, 0, 0);
  }

  lemma {:induction false} PowOne(n: nat)
    ensures Pow(1, n) == 1
  {
    if n > 0 {
      PowOne(n - 1);
    }
  }

  lemma SameRemainder(a: nat, b: nat, p: nat)
    requires p > 0 && Cong(a, b, p)
    ensures a % p == b % p
  {
    var q := DividesWitness(p, a - b);
    var r := b / p;
    assert a == p * (q + r) + b % p by {
      assert p * (q + r) == p * q + p * r;
    }
    ModUnique(a, p, q + r, b % p);
  }

  /** A power of g that is one has an exponent divisible by the prime q, if g^q is one and g is not. */
  lemma PrimeOrder(p: nat, g: nat, q: nat, k: nat)
    requires p > 1 && IsPrime(q) && Pow(g, q) % p == 1 && g % p != 1
    ensures Pow(g, k) % p == 1 <==> Divides(q, k)
  {
    PowerRemainders(p, g, k, q);
    assert Pow(g, 0) % p == 1 by {
      ModUnique(1, p, 0, 1);
    }
    OrderIsPrime(p, g, q, k % q);
  }

  /** The least exponent at which the power is one divides q, and is not 1. */
  lemma OrderIsPrime(p: nat, g: nat, q: nat, r: nat)
    requires p > 1 && IsPrime(q) && Pow(g, q) % p == 1 && g % p != 1 && r < q
    ensures r > 0 ==> Pow(g, r) % p != 1
  {
    var d := LeastOrder(p, g, q);
    assert PowerIsOne(p, g, q % d) == (Pow(g, q % d) % p == 1);
    assert PowerIsOne(p, g, r) == (Pow(g, r) % p == 1);
    assert 2 <= d < q ==> !Divides(d, q);
    assert Pow(g, 1) == g;
    assert d != 1;
    PowerRemainders(p, g, q, d);
  }

  predicate PowerIsOne(p: nat, g: nat, k: nat)
    requires p > 1
  {
    Pow(g, k) % p == 1
  }

  lemma LeastOrder(p: nat, g: nat, bound: nat) returns (d: nat)
    requires p > 1 && bound > 0 && Pow(g, bound) % p == 1
    ensures 0 < d <= bound && Pow(g, d) % p == 1
    ensures forall j: nat :: 0 < j < d ==> !PowerIsOne(p, g, j)
  {
    d := bound;
    while exists j: nat :: 0 < j < d && PowerIsOne(p, g, j)
      invariant 0 < d <= bound && Pow(g, d) % p == 1
      decreases d
    {
      var j: nat :| 0 < j < d && PowerIsOne(p, g, j);
      d := j;
    }
  }

  lemma {:induction false} ManyBits(bits: nat)
    ensures Pow(2, bits) > bits
  {
    if bits > 0 {
      ManyBits(bits - 1);
    }
  }

  lemma BitsBound(p: nat, bits: nat)
    requires HasBits(p, bits) && bits > 16
    ensures p > 15
  {
    ManyBits(bits - 1);
  }

  /** An accepted generator has exactly the prime order (p - 1) / 2. */
  lemma GoodConfigOrder(p: nat, g: nat, k: nat)
    requires GoodConfig(p, g)
    ensures Pow(g, k) % p == 1 <==> Divides((p - 1) / 2, k)
  {
    BitsBound(p, 2048);
    ModUnique(g, p, 0, g);
    PrimeOrder(p, g, (p - 1) / 2, k);
  }

  // ---- the check itself ----

  datatype Status = Ok | NotBits | BadMod | KnownBad | NotPrime | HalfNotPrime

  /** The answers that a client remembers about primes. */
  class DhCallback {
    var good: set<seq<Byte>>
    var bad: set<seq<Byte>>

    /** Only safe primes are remembered as good, and no safe prime as bad. */
    ghost predicate Truthful()
      reads this
    {
      && (forall s :: s in good ==> SafePrime(FromBinary(s)))
      && (forall s :: s in bad ==> !SafePrime(FromBinary(s)))
    }

    constructor ()
      ensures Truthful() && good == {} && bad == {}
    {
      good, bad := {}, {};
    }

    /** 1 for a good prime, 0 for a bad one, -1 for an unknown one. */
    function IsGoodPrime(primeStr: seq<Byte>): int
      reads this
    {
      if primeStr in good then 1 else if primeStr in bad then 0 else -1
    }

    method AddGoodPrime(primeStr: seq<Byte>)
      modifies this
      ensures good == old(good) + {primeStr} && bad == old(bad)
    {
      good := good + {primeStr};
    }

    method AddBadPrime(primeStr: seq<Byte>)
      modifies this
      ensures bad == old(bad) + {primeStr} && good == old(good)
    {
      bad := bad + {primeStr};
    }
  }

  /** Accepts exactly the good configurations, with or without remembered primes, and what
      it remembers stays true. */
  method CheckConfig(primeStr: seq<Byte>, g: int, callback: DhCallback?) returns (status: Status)
    requires callback != null ==> callback.Truthful()
    modifies if callback == null then {} else {callback}
    ensures callback != null ==> callback.Truthful()
    ensures status == Ok <==> GoodConfig(FromBinary(primeStr), g)
    ensures status == NotBits <==> !HasBits(FromBinary(primeStr), 2048)
    ensures status == BadMod <==> HasBits(FromBinary(primeStr), 2048) && !ModOk(FromBinary(primeStr), g)
    ensures callback != null && status in {Ok, KnownBad, NotPrime, HalfNotPrime} ==>
              (if status == Ok then primeStr in callback.good else primeStr in callback.bad)
    ensures callback != null ==>
              old(callback.good) <= callback.good <= old(callback.good) + {primeStr} &&
              old(callback.bad) <= callback.bad <= old(callback.bad) + {primeStr}
  {
    var prime := FromBinary(primeStr);
    if !HasBits(prime, 2048) {
      return NotBits;
    }
    BitsBound(prime, 2048);
    if !ModOk(prime, g) {
      if 2 <= g <= 7 && SafePrime(prime) {
        ModOkIsSquare(prime, g);
      }
      return BadMod;
    }
    if SafePrime(prime) {
      ModOkIsSquare(prime, g);
    }
    var isGoodPrime := -1;
    if callback != null {
      isGoodPrime := callback.IsGoodPrime(primeStr);
    }
    if isGoodPrime != -1 {
      return if isGoodPrime != 0 then Ok else KnownBad;
    }
    if !IsPrime(prime) {
      if callback != null {
        callback.AddBadPrime(primeStr);
      }
      return NotPrime;
    }
    var halfPrime := (prime - 1) / 2;
    if !IsPrime(halfPrime) {
      if callback != null {
        callback.AddBadPrime(primeStr);
      }
      return HalfNotPrime;
    }
    if callback != null {
      callback.AddGoodPrime(primeStr);
    }
    status := Ok;
  }

  // ---- the exchanged values ----

  /** Both exchanged values are at least 2^(2048 - 64) away from 0 and from p. */
  predicate DhCheck(p: nat, ga: nat, gb: nat) {
    var left := Pow(2, 2048 - 64);
    left <= ga && ga <= p - left && left <= gb && gb <= p - left
  }

  /** Accepted values lie strictly between 1 and p - 1, so that none is trivial. */
  lemma DhCheckExcludesTrivial(p: nat, ga: nat, gb: nat)
    requires DhCheck(p, ga, gb)
    ensures 1 < ga < p - 1 && 1 < gb < p - 1
  {
    ManyBits(2048 - 64);
  }

  /** Both sides compute the same key. */
  lemma SharedKey(p: nat, g: nat, a: nat, b: nat)
    requires p > 0
    ensures Pow(Pow(g, a) % p, b) % p == Pow(Pow(g, b) % p, a) % p
  {
    CongMod(Pow(g, a), p);
    CongMod(Pow(g, b), p);
    PowCong(Pow(g, a) % p, Pow(g, a), b, p);
    PowCong(Pow(g, b) % p, Pow(g, b), a, p);
    SameRemainder(Pow(Pow(g, a) % p, b), Pow(Pow(g, a), b), p);
    SameRemainder(Pow(Pow(g, b) % p, a), Pow(Pow(g, b), a), p);
    PowMul(g, a, b);
    PowMul(g, b, a);
    assert a * b == b * a;
  }
}
