/**
 One side of a Diffie-Hellman exchange as the object that is set up step by step
 (DhHandshake.h, DhHandshake.cpp); each method does what DhExchange says.
 */
module DhHandshake {
  import opened Sequences
  import opened Bytes
  import opened TlBytes
  import opened DhConfig
  import opened DhExchange

  class DhHandshake {
    const sha256: Data -> Data
    var primeStr: Data
    var prime: nat
    var g: nat
    var gInt: Word
    var b: nat
    var gb: nat
    var ga: nat
    var gaHash: Data
    var hasGaHash: bool
    var okGaHash: bool
    var hasConfig: bool
    var hasGa: bool

    function View(): Dh
      reads this
    {
      Dh(primeStr, prime, g, gInt, b, gb, ga, gaHash, hasGaHash, okGaHash, hasConfig, hasGa)
    }

    constructor (sha256: Data -> Data)
      ensures this.sha256 == sha256 && View() == FRESH && Consistent(View())
    {
      this.sha256 := sha256;
      primeStr, prime, g, gInt, b, gb, ga := [], 0, 0, 0, 0, 0, 0;
      gaHash, hasGaHash, okGaHash, hasConfig, hasGa := [], false, false, false, false;
    }

    method SetConfig(g: Word, primeStr: Data, b: nat)
      requires Consistent(View())
      modifies this
      ensures View() == DhExchange.SetConfig(old(View()), g, primeStr, b) && Consistent(View())
    {
      hasConfig := true;
      prime := FromBinary(primeStr);
      this.primeStr := primeStr;
      this.b := b;
      gInt := g;
      this.g := gInt;
      gb := ModExp(this.g, this.b, prime);
    }

    /** The hash comes before the value. */
    method SetGaHash(hash: Data)
      requires Consistent(View()) && !hasGa
      modifies this
      ensures View() == DhExchange.SetGaHash(old(View()), hash) && Consistent(View())
    {
      hasGaHash := true;
      okGaHash := false;
      gaHash := hash;
    }

    method SetGa(gaStr: Data)
      requires Consistent(View())
      modifies this
      ensures View() == DhExchange.SetGa(sha256, old(View()), gaStr) && Consistent(View())
    {
      hasGa := true;
      if hasGaHash {
        okGaHash := sha256(gaStr) == gaHash;
      }
      ga := FromBinary(gaStr);
    }

    /** Without the check of the configuration, the prime must be known to have 2048 bits. */
    method RunChecks(skipConfigCheck: bool, callback: DhCallback?) returns (verdict: Verdict)
      requires Ready(View()) && Consistent(View())
      requires skipConfigCheck ==> HasBits(prime, 2048)
      requires callback != null ==> callback.Truthful()
      modifies if callback == null then {} else {callback}
      ensures callback != null ==> callback.Truthful()
      ensures verdict == Checks(View(), skipConfigCheck)
    {
      if hasGaHash && !okGaHash {
        return HashMismatch;
      }
      if !skipConfigCheck {
        var status := CheckConfig(primeStr, SignedInt(gInt), callback);
        if status != Ok {
          return BadConfig;
        }
      }
      verdict := if DhCheck(prime, ga, gb) then Accepted else NotBetween;
    }

    /** What is sent to the other side. */
    function GetGb(): Data
      requires hasConfig
      reads this
    {
      ToBinary(gb)
    }

    method GenKey() returns (key: Data)
      requires Ready(View())
      ensures key == KeyBytes(SharedNumber(View()))
    {
      key := KeyBytes(ModExp(ga, b, prime));
    }

    method Store() returns (bytes: Data)
      requires Storable(View())
      ensures bytes == DhExchange.Store(View())
    {
      var flags: Word := 0;
      if hasConfig {
        flags := flags + 1;
      }
      if hasGa {
        flags := flags + 2;
      }
      bytes := StoreInt(flags);
      ghost var config, value := [], [];
      if hasConfig {
        JoinFive(bytes, StoreString(primeStr), StoreString(ToBinary(b)), StoreInt(gInt), StoreString(ToBinary(gb)));
        config := StoreConfig(View());
        bytes := bytes + StoreString(primeStr) + StoreString(ToBinary(b)) + StoreInt(gInt) + StoreString(ToBinary(gb));
      }
      assert bytes == StoreInt(flags) + config;
      if hasGa {
        value := StoreString(ToBinary(ga));
        bytes := bytes + StoreString(ToBinary(ga));
      }
      assert bytes == StoreInt(flags) + config + value;
      Associate(StoreInt(flags), config, value);
    }

    method Parse(r: Reader) returns (rest: Reader)
      modifies this
      ensures (View(), rest) == DhExchange.Parse(old(View()), r)
    {
      var (flags, r1) := ReadWord(r);
      if flags % 2 == 1 {
        hasConfig := true;
      }
      if flags / 2 % 2 == 1 {
        hasGa := true;
      }
      rest := r1;
      if hasConfig {
        rest := ParseParameters(rest);
      }
      if hasGa {
        var (value, r2) := ReadText(rest);
        ga := FromBinary(value);
        rest := r2;
      }
    }

    method ParseParameters(r: Reader) returns (rest: Reader)
      modifies this
      ensures (View(), rest) == ParseConfig(old(View()), r)
    {
      var (str, r1) := ReadText(r);
      primeStr := str;
      prime := FromBinary(primeStr);
      var (bStr, r2) := ReadText(r1);
      b := FromBinary(bStr);
      var (gWord, r3) := ReadWord(r2);
      gInt := gWord;
      g := gInt;
      var (gbStr, r4) := ReadText(r3);
      gb := FromBinary(gbStr);
      rest := r4;
    }
  }

  lemma JoinFive(f: Data, a: Data, b: Data, c: Data, d: Data)
    ensures f + a + b + c + d == f + (a + (b + (c + d)))
  {}
}
