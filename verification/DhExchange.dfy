/**
 What one side of a Diffie-Hellman exchange computes and remembers (DhHandshake.h,
 DhHandshake.cpp), and how it is stored. Random numbers are arguments, big numbers are
 naturals and hashes are any functions.
 */
module DhExchange {
  import opened Sequences
  import opened Bytes
  import opened TlBytes
  import opened NumberTheory
  import opened DhConfig

  type Data = seq<Byte>

  function ModExp(g: nat, e: nat, p: nat): nat {
    if p == 0 then 0 else Pow(g, e) % p
  }

  function SignedInt(w: Word): int {
    if w < SIGN then w else w - WORD
  }

  /** A key of 256 bytes, with leading zeros. */
  function KeyBytes(n: nat): Data {
    var b := ToBinary(n);
    if |b| <= 256 then Zeros(256 - |b|) + b else b
  }

  datatype Dh = Dh(primeStr: Data, prime: nat, g: nat, gInt: Word, b: nat, gb: nat, ga: nat,
                   gaHash: Data, hasGaHash: bool, okGaHash: bool, hasConfig: bool, hasGa: bool)

  const FRESH := Dh([], 0, 0, 0, 0, 0, 0, [], false, false, false, false)

  function SetConfig(d: Dh, g: Word, primeStr: Data, b: nat): Dh {
    var prime := FromBinary(primeStr);
    d.(hasConfig := true, prime := prime, primeStr := primeStr, b := b, gInt := g, g := g, gb := ModExp(g, b, prime))
  }

  function SetGaHash(d: Dh, hash: Data): Dh {
    d.(hasGaHash := true, okGaHash := false, gaHash := hash)
  }

  function SetGa(sha256: Data -> Data, d: Dh, gaStr: Data): Dh {
    d.(hasGa := true, ga := FromBinary(gaStr), okGaHash := if d.hasGaHash then sha256(gaStr) == d.gaHash else d.okGaHash)
  }

  predicate Ready(d: Dh) {
    d.hasGa && d.hasConfig
  }

  datatype Verdict = Accepted | HashMismatch | BadConfig | NotBetween

  function Checks(d: Dh, skipConfigCheck: bool): Verdict {
    if d.hasGaHash && !d.okGaHash then HashMismatch
    else if !skipConfigCheck && !GoodConfig(d.prime, SignedInt(d.gInt)) then BadConfig
    else if DhCheck(d.prime, d.ga, d.gb) then Accepted
    else NotBetween
  }

  function SharedNumber(d: Dh): nat {
    ModExp(d.ga, d.b, d.prime)
  }

  /** The stored prime is the one that is used, and so is the generator. */
  predicate Consistent(d: Dh) {
    && (d.hasConfig ==> d.prime == FromBinary(d.primeStr) && d.g == d.gInt && d.gb == ModExp(d.g, d.b, d.prime))
    && (!d.hasConfig ==> d.primeStr == [] && d.prime == d.g == d.gInt == d.b == d.gb == 0)
    && (!d.hasGa ==> d.ga == 0)
    && (!d.hasGaHash ==> !d.okGaHash && d.gaHash == [])
  }

  lemma {:induction false} BytesOf(n: nat, k: nat)
    requires n < Pow(256, k)
    ensures |ToBinary(n)| <= k
  {
    if n > 0 {
      BytesOf(n / 256, k - 1);
    }
  }

  lemma {:induction false} BitsOfBytes(k: nat)
    ensures Pow(2, 8 * k) == Pow(256, k)
  {
    if k > 0 {
      BitsOfBytes(k - 1);
      PowAdd(2, 8 * (k - 1), 8);
      assert Pow(2, 8) == 256 by {
        PowAdd(2, 4, 4);
      }
    }
  }

  /** Accepted values have at most 256 bytes. */
  lemma PublicValueFits(d: Dh)
    requires HasBits(d.prime, 2048) && d.gb < d.prime
    ensures |ToBinary(d.gb)| <= 256 && |KeyBytes(SharedNumber(d))| == 256
  {
    BitsOfBytes(256);
    BytesOf(d.gb, 256);
    BytesOf(SharedNumber(d), 256);
  }

  // ---- two sides of one exchange ----

  /** One side commits to its value first and the other one checks the hash; both sides then
      reach the same verdict and the same key, whatever the parameters are. */
  lemma BothSides(sha256: Data -> Data, g: Word, primeStr: Data, a: nat, b: nat, skip: bool)
    ensures var prime := FromBinary(primeStr);
      var valueA, valueB := ToBinary(ModExp(g, a, prime)), ToBinary(ModExp(g, b, prime));
      var alice := SetGa(sha256, SetConfig(FRESH, g, primeStr, a), valueB);
      var bob := SetGa(sha256, SetConfig(SetGaHash(FRESH, sha256(valueA)), g, primeStr, b), valueA);
      Checks(alice, skip) == Checks(bob, skip) && SharedNumber(alice) == SharedNumber(bob)
  {
    var prime := FromBinary(primeStr);
    FromToBinary(ModExp(g, a, prime));
    FromToBinary(ModExp(g, b, prime));
    if prime > 0 {
      SharedKey(prime, g, a, b);
    }
  }

  /** After a commitment, the checks find a mismatch exactly for values with another hash. */
  lemma CommitmentHolds(sha256: Data -> Data, d: Dh, hash: Data, g: Word, primeStr: Data, b: nat, gaStr: Data, skip: bool)
    ensures var e := SetGa(sha256, SetConfig(SetGaHash(d, hash), g, primeStr, b), gaStr);
      Checks(e, skip) == HashMismatch <==> sha256(gaStr) != hash
  {}

  // ---- storing and parsing ----

  predicate Storable(d: Dh) {
    && StringFits(|d.primeStr|) && StringFits(|ToBinary(d.b)|) && StringFits(|ToBinary(d.gb)|)
    && StringFits(|ToBinary(d.ga)|)
  }

  function Flags(d: Dh): Word {
    (if d.hasConfig then 1 else 0) + if d.hasGa then 2 else 0
  }

  function StoreConfig(d: Dh): Data
    requires Storable(d)
  {
    StoreString(d.primeStr) + (StoreString(ToBinary(d.b)) + (StoreInt(d.gInt) + StoreString(ToBinary(d.gb))))
  }

  function ConfigPart(d: Dh): Data
    requires Storable(d)
  {
    if d.hasConfig then StoreConfig(d) else []
  }

  function GaPart(d: Dh): Data
    requires Storable(d)
  {
    if d.hasGa then StoreString(ToBinary(d.ga)) else []
  }

  function Store(d: Dh): Data
    requires Storable(d)
  {
    StoreInt(Flags(d)) + (ConfigPart(d) + GaPart(d))
  }

  /** A parser that has failed once reads zeros and empty strings. */
  datatype Reader = Reader(bytes: Data, failed: bool)

  function ReadWord(r: Reader): (Word, Reader) {
    match FetchInt(r.bytes)
    case Parsed(w, rest) => if r.failed then (0, Reader([], true)) else (w, Reader(rest, false))
    case Failed => (0, Reader([], true))
  }

  function ReadText(r: Reader): (Data, Reader) {
    match FetchString(r.bytes)
    case Parsed(s, rest) => if r.failed then ([], Reader([], true)) else (s, Reader(rest, false))
    case Failed => ([], Reader([], true))
  }

  function ParseConfig(d: Dh, r: Reader): (Dh, Reader) {
    var (primeStr, r1) := ReadText(r);
    var (b, r2) := ReadText(r1);
    var (g, r3) := ReadWord(r2);
    var (gb, r4) := ReadText(r3);
    (d.(primeStr := primeStr, prime := FromBinary(primeStr), b := FromBinary(b), gInt := g, g := g, gb := FromBinary(gb)), r4)
  }

  function ParseGa(d: Dh, r: Reader): (Dh, Reader) {
    var (ga, r1) := ReadText(r);
    (d.(ga := FromBinary(ga)), r1)
  }

  function ParseParts(d: Dh, r: Reader): (Dh, Reader) {
    var (d2, r2) := if d.hasConfig then ParseConfig(d, r) else (d, r);
    if d2.hasGa then ParseGa(d2, r2) else (d2, r2)
  }

  function Parse(d: Dh, r: Reader): (Dh, Reader) {
    var (flags, r1) := ReadWord(r);
    ParseParts(d.(hasConfig := d.hasConfig || flags % 2 == 1, hasGa := d.hasGa || flags / 2 % 2 == 1), r1)
  }

  /** What is left after storing and parsing: the hash of the other side's value is not stored. */
  function Reloaded(d: Dh): Dh {
    d.(gaHash := [], hasGaHash := false, okGaHash := false)
  }

  lemma TextReads(s: Data, rest: Data)
    requires StringFits(|s|)
    ensures ReadText(Reader(StoreString(s) + rest, false)) == (s, Reader(rest, false))
  {
    StringRoundTrip(s, rest);
  }

  lemma WordReads(w: Word, rest: Data)
    ensures ReadWord(Reader(StoreInt(w) + rest, false)) == (w, Reader(rest, false))
  {
    IntRoundTrip(w, rest);
  }

  lemma ConfigParses(d: Dh, e: Dh, rest: Data)
    requires Storable(d) && Consistent(d) && d.hasConfig
    ensures ParseConfig(e, Reader(StoreConfig(d) + rest, false))
         == (e.(primeStr := d.primeStr, prime := d.prime, b := d.b, gInt := d.gInt, g := d.g, gb := d.gb), Reader(rest, false))
  {
    var gb := StoreString(ToBinary(d.gb));
    var g := StoreInt(d.gInt) + gb;
    var b := StoreString(ToBinary(d.b)) + g;
    Associate(StoreString(d.primeStr), b, rest);
    Associate(StoreString(ToBinary(d.b)), g, rest);
    Associate(StoreInt(d.gInt), gb, rest);
    TextReads(d.primeStr, b + rest);
    TextReads(ToBinary(d.b), g + rest);
    WordReads(d.gInt, gb + rest);
    TextReads(ToBinary(d.gb), rest);
    FromToBinary(d.b);
    FromToBinary(d.gb);
  }

  lemma GaParses(d: Dh, e: Dh, rest: Data)
    requires Storable(d)
    ensures ParseGa(e, Reader(StoreString(ToBinary(d.ga)) + rest, false)) == (e.(ga := d.ga), Reader(rest, false))
  {
    TextReads(ToBinary(d.ga), rest);
    FromToBinary(d.ga);
  }

  lemma FlagsRead(d: Dh)
    ensures Flags(d) % 2 == 1 <==> d.hasConfig
    ensures Flags(d) / 2 % 2 == 1 <==> d.hasGa
  {}

  lemma PartsParse(d: Dh, rest: Data)
    requires Storable(d) && Consistent(d)
    ensures ParseParts(FRESH.(hasConfig := d.hasConfig, hasGa := d.hasGa), Reader(ConfigPart(d) + (GaPart(d) + rest), false))
         == (Reloaded(d), Reader(rest, false))
  {
    var start := FRESH.(hasConfig := d.hasConfig, hasGa := d.hasGa);
    var tail := GaPart(d) + rest;
    var middle := Reloaded(d).(ga := 0);
    if d.hasConfig {
      ConfigParses(d, start, tail);
    } else {
      assert [] + tail == tail;
    }
    if d.hasGa {
      GaParses(d, middle, rest);
    } else {
      assert [] + rest == rest;
    }
  }

  /** Parsing restores everything but the hash, and reads no byte more. */
  lemma StoreThenParse(d: Dh, rest: Data)
    requires Storable(d) && Consistent(d)
    ensures Parse(FRESH, Reader(Store(d) + rest, false)) == (Reloaded(d), Reader(rest, false))
  {
    Associate(StoreInt(Flags(d)), ConfigPart(d) + GaPart(d), rest);
    Associate(ConfigPart(d), GaPart(d), rest);
    WordReads(Flags(d), ConfigPart(d) + (GaPart(d) + rest));
    FlagsRead(d);
    PartsParse(d, rest);
  }

  /** A stored and parsed exchange that has both values has the same key, and reaches the same
      verdict exactly when no mismatch of the hash was known. */
  lemma ReloadedChecks(d: Dh, skip: bool)
    requires Ready(d)
    ensures SharedNumber(Reloaded(d)) == SharedNumber(d)
    ensures Checks(Reloaded(d), skip) == Checks(d, skip) <==> !(d.hasGaHash && !d.okGaHash)
  {}

  /** When the other value comes after storing and parsing, the verdict is the same exactly if
      the value does not break a commitment. */
  lemma RevealedAfterReload(sha256: Data -> Data, d: Dh, gaStr: Data, skip: bool)
    requires d.hasConfig
    ensures Checks(SetGa(sha256, Reloaded(d), gaStr), skip) == Checks(SetGa(sha256, d, gaStr), skip)
       <==> !(d.hasGaHash && sha256(gaStr) != d.gaHash)
  {}

  /** The exchange of the side that has got the hash and waits for the value. */
  function Committed(hash: Data, g: Word, primeStr: Data, b: nat): Dh {
    SetConfig(SetGaHash(FRESH, hash), g, primeStr, b)
  }

  /** A whole run: the hash comes, the exchange is stored and parsed, the value comes, the
      checks are made. They end as they would have without storing exactly if the value has
      that hash, and they never find a mismatch. */
  lemma CommitStoreParseReveal(sha256: Data -> Data, hash: Data, g: Word, primeStr: Data, b: nat, gaStr: Data,
                               rest: Data, skip: bool)
    requires Storable(Committed(hash, g, primeStr, b))
    ensures var d := Committed(hash, g, primeStr, b);
      var (e, r) := Parse(FRESH, Reader(Store(d) + rest, false));
      && r == Reader(rest, false) && e.hasConfig && !e.hasGa
      && Checks(SetGa(sha256, e, gaStr), skip) != HashMismatch
      && (Checks(SetGa(sha256, e, gaStr), skip) == Checks(SetGa(sha256, d, gaStr), skip) <==> sha256(gaStr) == hash)
  {
    var d := Committed(hash, g, primeStr, b);
    StoreThenParse(d, rest);
    RevealedAfterReload(sha256, d, gaStr, skip);
  }

  /** An exchange that loses its commitment: the value has another hash than was announced. */
  lemma LostCommitment()
    ensures var d, sha256 := Committed([1], 3, [7], 1), (x: Data) => Zeros(32);
      && Checks(SetGa(sha256, d, [2]), true) == HashMismatch
      && Checks(SetGa(sha256, Reloaded(d), [2]), true) != HashMismatch
  {}
}
