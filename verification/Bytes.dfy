/** Bytes, words of 32 bits, and the big-endian numbers that bytes spell. */
module Bytes {
  type Byte = b: nat | b < 256

  const WORD: nat := 0x1_0000_0000

  type Word = w: nat | w < WORD

  /** The conversion to an unsigned number of 32 bits. */
  function Low32(n: nat): Word {
    n % WORD
  }

  /** The number that the bytes spell, most significant byte first. */
  function FromBinary(bytes: seq<Byte>): nat {
    if bytes == [] then 0 else FromBinary(bytes[..|bytes| - 1]) * 256 + bytes[|bytes| - 1]
  }

  function Pow2(n: nat): (r: nat)
    ensures r > 0
  {
    if n == 0 then 1 else 2 * Pow2(n - 1)
  }

  /** The exclusive or of the n low bits of two numbers. */
  function Xor(a: nat, b: nat, n: nat): (r: nat)
    ensures r < Pow2(n)
  {
    if n == 0 then 0 else 2 * Xor(a / 2, b / 2, n - 1) + (a % 2 + b % 2) % 2
  }

  lemma {:induction false} XorTwice(a: nat, b: nat, n: nat)
    requires a < Pow2(n)
    ensures Xor(Xor(a, b, n), b, n) == a
  {
    if n > 0 {
      var high := Xor(a / 2, b / 2, n - 1);
      XorTwice(a / 2, b / 2, n - 1);
      XorLowBit(a, b, high);
      assert Xor(a, b, n) == 2 * high + (a % 2 + b % 2) % 2;
    }
  }

  lemma XorLowBit(a: nat, b: nat, high: nat)
    ensures var r := 2 * high + (a % 2 + b % 2) % 2; r / 2 == high && (r % 2 + b % 2) % 2 == a % 2
  {}

  function XorByte(a: Byte, b: Byte): Byte {
    assert Pow2(8) == 256;
    Xor(a, b, 8)
  }

  function XorBytes(a: seq<Byte>, b: seq<Byte>): (r: seq<Byte>)
    requires |a| == |b|
    ensures |r| == |a|
  {
    seq(|a|, i requires 0 <= i < |a| => XorByte(a[i], b[i]))
  }

  lemma XorBytesTwice(a: seq<Byte>, b: seq<Byte>)
    requires |a| == |b|
    ensures XorBytes(XorBytes(a, b), b) == a
  {
    assert Pow2(8) == 256;
    forall i | 0 <= i < |a| ensures XorByte(XorByte(a[i], b[i]), b[i]) == a[i] {
      XorTwice(a[i], b[i], 8);
    }
  }

  /** The bytes that spell the number, without leading zeros. */
  function ToBinary(n: nat): seq<Byte> {
    if n == 0 then [] else ToBinary(n / 256) + [n % 256]
  }

  lemma {:induction false} FromToBinary(n: nat)
    ensures FromBinary(ToBinary(n)) == n
  {
    if n > 0 {
      FromToBinary(n / 256);
      assert ToBinary(n)[..|ToBinary(n)| - 1] == ToBinary(n / 256);
    }
  }
}
