/**
 The primitive encodings of the TL runtime (tl_storers.h, tl_parsers.h): 32-bit words,
 their bits, and length-prefixed strings padded to multiples of four bytes.
 */
module TlBytes {
  import opened Bytes

  const SIGN: nat := 0x8000_0000

  /** What is left of the input after a successful fetch; an error is never forgotten. */
  datatype Parsed<T> = Parsed(value: T, rest: seq<Byte>) | Failed

  // ---- words ----

  function StoreInt(w: Word): (r: seq<Byte>)
    ensures |r| == 4
  {
    [w % 256, w / 256 % 256, w / 256 / 256 % 256, w / 256 / 256 / 256]
  }

  /** The number of up to four bytes, least significant first. */
  function Spell(b0: nat, b1: nat, b2: nat, b3: nat): nat {
    b0 + 256 * (b1 + 256 * (b2 + 256 * b3))
  }

  function ReadInt(b: seq<Byte>): Word
    requires |b| >= 4
  {
    Spell(b[0], b[1], b[2], b[3])
  }

  function FetchInt(b: seq<Byte>): Parsed<Word> {
    if |b| < 4 then Failed else Parsed(ReadInt(b), b[4..])
  }

  lemma Digits(w: nat)
    ensures Spell(w % 256, w / 256 % 256, w / 256 / 256 % 256, w / 256 / 256 / 256) == w
    ensures Spell(w % 256, w / 256 % 256, w / 256 / 256, 0) == w
  {}

  lemma IntRoundTrip(w: Word, rest: seq<Byte>)
    ensures FetchInt(StoreInt(w) + rest) == Parsed(w, rest)
  {
    var b := StoreInt(w) + rest;
    assert b[4..] == rest;
    Digits(w);
  }

  /** A value of a fixed number of bytes, copied as it is. */
  function FetchRaw(b: seq<Byte>, n: nat): Parsed<seq<Byte>> {
    if |b| < n then Failed else Parsed(b[..n], b[n..])
  }

  // ---- bits ----

  predicate TestBit(w: nat, bit: nat) {
    if bit == 0 then w % 2 == 1 else TestBit(w / 2, bit - 1)
  }

  /** w | (on << bit) */
  function SetBit(w: nat, bit: nat, on: bool): nat {
    if bit == 0 then (if on then w / 2 * 2 + 1 else w)
    else SetBit(w / 2, bit - 1, on) * 2 + w % 2
  }

  lemma {:induction false} SetBitTests(w: nat, bit: nat, on: bool, other: nat)
    ensures TestBit(SetBit(w, bit, on), other) <==> TestBit(w, other) || (on && other == bit)
  {
    if bit > 0 && other > 0 {
      SetBitTests(w / 2, bit - 1, on, other - 1);
    }
  }

  lemma {:induction false} SetBitKnown(w: nat, bit: nat)
    ensures SetBit(w, bit, TestBit(w, bit)) == w
  {
    if bit > 0 {
      SetBitKnown(w / 2, bit - 1);
    }
  }

  lemma {:induction false} SetBitFits(w: nat, bit: nat, on: bool, width: nat)
    requires w < Pow2(width) && bit < width
    ensures SetBit(w, bit, on) < Pow2(width)
  {
    Halves(w, Pow2(width - 1));
    if bit > 0 {
      SetBitFits(w / 2, bit - 1, on, width - 1);
    }
  }

  lemma Halves(w: nat, q: nat)
    requires w < 2 * q
    ensures w / 2 < q && w / 2 * 2 + 1 < 2 * q && w % 2 < 2
  {}

  lemma WordIsPow2()
    ensures Pow2(32) == WORD
  {
    assert Pow2(8) == 256;
    assert Pow2(16) == 65536;
    assert Pow2(24) == 16777216;
  }

  type Bit = b: nat | b < 32

  function SetWordBit(w: Word, bit: Bit, on: bool): (r: Word)
    ensures r == SetBit(w, bit, on)
  {
    WordIsPow2();
    SetBitFits(w, bit, on, 32);
    SetBit(w, bit, on)
  }

  // ---- strings ----

  function Zeros(n: nat): (r: seq<Byte>)
    ensures |r| == n
  {
    seq(n, i => 0)
  }

  function Padding(n: nat): nat {
    (4 - n % 4) % 4
  }

  /** Nothing is stored of a string of 2^32 bytes or more: the program ends. */
  predicate StringFits(n: nat) {
    n < WORD
  }

  function StringHeader(n: nat): seq<Byte>
    requires StringFits(n)
  {
    if n < 254 then [n]
    else if n < 16777216 then [254, n % 256, n / 256 % 256, n / 256 / 256]
    else [255] + StoreInt(n) + [0, 0, 0]
  }

  function StoreString(s: seq<Byte>): seq<Byte>
    requires StringFits(|s|)
  {
    var header := StringHeader(|s|);
    header + s + Zeros(Padding(|header| + |s|))
  }

  /** The length that TlStorerCalcLength counts for a string. */
  function StringLength(n: nat): nat {
    var add := if n < 254 then n + 1 else if n < 16777216 then n + 4 else n + 8;
    (add + 3) / 4 * 4
  }

  function FetchString(b: seq<Byte>): Parsed<seq<Byte>> {
    if |b| < 4 then Failed
    else if b[0] < 254 then
      var n: nat := b[0];
      Body(b, 1, n, 4 + n / 4 * 4)
    else if b[0] == 254 then
      var n := Spell(b[1], b[2], b[3], 0);
      Body(b, 4, n, 4 + (n + 3) / 4 * 4)
    else if |b| < 8 then Failed
    else
      var n := ReadInt(b[1..]) + 0x1_0000_0000 * Spell(b[5], b[6], b[7], 0);
      Body(b, 8, n, 8 + (n + 3) / 4 * 4)
  }

  /** The string at `start`, if the input reaches to `end`. */
  function Body(b: seq<Byte>, start: nat, n: nat, end: nat): Parsed<seq<Byte>>
    requires start + n <= end
  {
    if |b| < end then Failed else Parsed(b[start..start + n], b[end..])
  }

  lemma BodyOf(header: seq<Byte>, s: seq<Byte>, pad: nat, rest: seq<Byte>, end: nat)
    requires end == |header| + |s| + pad
    ensures Body(header + s + Zeros(pad) + rest, |header|, |s|, end) == Parsed(s, rest)
  {
    var b := header + s + Zeros(pad) + rest;
    assert b[|header|..|header| + |s|] == s;
    assert b[end..] == rest;
  }

  lemma StringStoredLength(s: seq<Byte>)
    requires StringFits(|s|)
    ensures |StoreString(s)| == StringLength(|s|)
  {}

  /** The parser, told the bounds of the string, cuts out what the storer has put there. */
  lemma StoredBody(s: seq<Byte>, rest: seq<Byte>, b: seq<Byte>, start: nat, end: nat)
    requires StringFits(|s|) && b == StoreString(s) + rest
    requires start == |StringHeader(|s|)| && end == start + |s| + Padding(start + |s|)
    ensures |b| >= end && Body(b, start, |s|, end) == Parsed(s, rest)
    ensures |b| >= start && b[..start] == StringHeader(|s|)
  {
    var header := StringHeader(|s|);
    assert b == header + s + Zeros(Padding(start + |s|)) + rest;
    BodyOf(header, s, Padding(start + |s|), rest, end);
  }

  lemma StringRoundTrip(s: seq<Byte>, rest: seq<Byte>)
    requires StringFits(|s|)
    ensures FetchString(StoreString(s) + rest) == Parsed(s, rest)
  {
    var n := |s|;
    var b := StoreString(s) + rest;
    var start := |StringHeader(n)|;
    var end := start + n + Padding(start + n);
    StoredBody(s, rest, b, start, end);
    HeaderReads(n, b);
    assert start == (if n < 254 then 1 else if n < 16777216 then 4 else 8);
    assert end == if n < 254 then 4 + n / 4 * 4 else start + (n + 3) / 4 * 4 by {
      Ends(n);
    }
  }

  lemma HeaderReads(n: nat, b: seq<Byte>)
    requires StringFits(n) && |b| >= |StringHeader(n)| && b[..|StringHeader(n)|] == StringHeader(n)
    ensures n < 254 ==> b[0] == n
    ensures 254 <= n < 16777216 ==> b[0] == 254 && Spell(b[1], b[2], b[3], 0) == n
    ensures n >= 16777216 ==> b[0] == 255 && ReadInt(b[1..]) == n && b[5] == b[6] == b[7] == 0
  {
    var h := b[..|StringHeader(n)|];
    assert forall i :: 0 <= i < |h| ==> b[i] == h[i];
    Digits(n);
  }

  lemma Ends(n: nat)
    ensures 4 + n / 4 * 4 == 1 + n + Padding(1 + n)
    ensures 4 + (n + 3) / 4 * 4 == 4 + n + Padding(4 + n)
    ensures 8 + (n + 3) / 4 * 4 == 8 + n + Padding(8 + n)
  {
    var r := n % 4;
    assert (n + 3) / 4 == n / 4 + if r == 0 then 0 else 1;
    assert (1 + n) % 4 == (1 + r) % 4 && (4 + n) % 4 == r && (8 + n) % 4 == r;
  }
}
