/**
 Secrets of proxies and the links that carry them (ProxySecret.cpp, ProxySecret.h, with
 the codecs of tdutils): one secret, two ways to spell it, and a reader that tries one
 codec after the other. Characters are their ASCII codes.
 */
module ProxySecret {
  import opened Bytes

  datatype Result<T> = Ok(value: T) | Error

  // ---- hexadecimal digits (section 8 of RFC 4648) ----

  function HexChar(d: nat): Byte
    requires d < 16
  {
    if d < 10 then 48 + d else 87 + d
  }

  /** 16 for what is no digit. */
  function HexValue(c: Byte): nat {
    if 48 <= c <= 57 then c - 48
    else if 97 <= c <= 102 then c - 87
    else if 65 <= c <= 70 then c - 55
    else 16
  }

  function HexEncode(b: seq<Byte>): seq<Byte> {
    if b == [] then [] else [HexChar(b[0] / 16), HexChar(b[0] % 16)] + HexEncode(b[1..])
  }

  function HexDecode(s: seq<Byte>): Result<seq<Byte>> {
    if |s| % 2 != 0 then Error else HexPairs(s)
  }

  function HexPairs(s: seq<Byte>): Result<seq<Byte>> {
    if |s| < 2 then Ok([])
    else if HexValue(s[0]) == 16 || HexValue(s[1]) == 16 then Error
    else
      match HexPairs(s[2..])
      case Ok(more) => Ok([HexValue(s[0]) * 16 + HexValue(s[1])] + more)
      case Error => Error
  }

  // ---- base 64 (sections 4 and 5 of RFC 4648) ----

  function Character(url: bool, v: nat): Byte
    requires v < 64
  {
    if v < 26 then 65 + v else if v < 52 then 71 + v else if v < 62 then v - 4
    else if v == 62 then (if url then 45 else 43) else (if url then 95 else 47)
  }

  /** 64 for what is no character of the alphabet. */
  function CharacterValue(url: bool, c: Byte): nat {
    if 65 <= c <= 90 then c - 65
    else if 97 <= c <= 122 then c - 71
    else if 48 <= c <= 57 then c + 4
    else if c == (if url then 45 else 43) then 62
    else if c == (if url then 95 else 47) then 63
    else 64
  }

  const PAD: Byte := 61

  function Base64UrlEncode(b: seq<Byte>): seq<Byte> {
    if b == [] then []
    else if |b| == 1 then [Character(true, b[0] / 4), Character(true, b[0] % 4 * 16)]
    else if |b| == 2 then
      [Character(true, b[0] / 4), Character(true, b[0] % 4 * 16 + b[1] / 16), Character(true, b[1] % 16 * 4)]
    else
      [Character(true, b[0] / 4), Character(true, b[0] % 4 * 16 + b[1] / 16),
       Character(true, b[1] % 16 * 4 + b[2] / 64), Character(true, b[2] % 64)] + Base64UrlEncode(b[3..])
  }

  function Unpadded(s: seq<Byte>): (r: seq<Byte>)
    ensures |r| <= |s|
  {
    if s == [] || s[|s| - 1] != PAD then s else Unpadded(s[..|s| - 1])
  }

  function Base64Decode(url: bool, s: seq<Byte>): Result<seq<Byte>> {
    var t := Unpadded(s);
    var padding := |s| - |t|;
    if padding >= 3 then Error
    else if (!url || padding > 0) && |s| % 4 != 0 then Error
    else if url && |t| % 4 == 1 then Error
    else Groups(url, t)
  }

  /** Groups of four characters, the last of which may have two or three. */
  function Groups(url: bool, s: seq<Byte>): Result<seq<Byte>>
    requires |s| % 4 != 1
  {
    if s == [] then Ok([])
    else
      var v0, v1 := CharacterValue(url, s[0]), CharacterValue(url, s[1]);
      if v0 == 64 || v1 == 64 then Error
      else if |s| == 2 then
        if v1 % 16 != 0 then Error else Ok([v0 * 4 + v1 / 16])
      else
        var v2 := CharacterValue(url, s[2]);
        if v2 == 64 then Error
        else if |s| == 3 then
          if v2 % 4 != 0 then Error else Ok([v0 * 4 + v1 / 16, v1 % 16 * 16 + v2 / 4])
        else
          var v3 := CharacterValue(url, s[3]);
          if v3 == 64 then Error
          else
            match Groups(url, s[4..])
            case Ok(more) => Ok([v0 * 4 + v1 / 16, v1 % 16 * 16 + v2 / 4, v2 % 4 * 64 + v3] + more)
            case Error => Error
  }

  // ---- secrets ----

  const MAX_DOMAIN_LENGTH: nat := 182

  predicate Supported(raw: seq<Byte>) {
    |raw| == 16 || (|raw| == 17 && raw[0] == 0xdd) || (|raw| >= 18 && raw[0] == 0xee)
  }

  function FromBinary(raw: seq<Byte>, truncate: bool): Result<seq<Byte>> {
    if |raw| > 17 + MAX_DOMAIN_LENGTH && !truncate then Error
    else
      var secret := if |raw| > 17 + MAX_DOMAIN_LENGTH then raw[..17 + MAX_DOMAIN_LENGTH] else raw;
      if Supported(secret) then Ok(secret) else Error
  }

  predicate EmulateTls(secret: seq<Byte>) {
    |secret| >= 17 && secret[0] == 0xee
  }

  function GetEncodedSecret(secret: seq<Byte>): seq<Byte> {
    if EmulateTls(secret) then Base64UrlEncode(secret) else HexEncode(secret)
  }

  function FromLink(link: seq<Byte>, truncate: bool): Result<seq<Byte>> {
    var hex := HexDecode(link);
    var url := if hex.Error? then Base64Decode(true, link) else hex;
    var decoded := if url.Error? then Base64Decode(false, link) else url;
    match decoded
    case Ok(raw) => FromBinary(raw, truncate)
    case Error => Error
  }

  // ---- round trips ----

  lemma HexByte(x: Byte)
    ensures var h, l := HexValue(HexChar(x / 16)), HexValue(HexChar(x % 16));
      h < 16 && l < 16 && h * 16 + l == x
  {}

  lemma HexStep(x: Byte, s: seq<Byte>, b: seq<Byte>)
    requires HexPairs(s) == Ok(b)
    ensures HexPairs([HexChar(x / 16), HexChar(x % 16)] + s) == Ok([x] + b)
  {
    var t := [HexChar(x / 16), HexChar(x % 16)] + s;
    assert t[2..] == s;
    HexByte(x);
  }

  lemma {:induction false} HexPairsRoundTrip(b: seq<Byte>)
    ensures HexPairs(HexEncode(b)) == Ok(b) && |HexEncode(b)| == 2 * |b|
  {
    if b != [] {
      HexPairsRoundTrip(b[1..]);
      HexStep(b[0], HexEncode(b[1..]), b[1..]);
      assert [b[0]] + b[1..] == b;
    }
  }

  lemma HexRoundTrip(b: seq<Byte>)
    ensures HexDecode(HexEncode(b)) == Ok(b)
  {
    HexPairsRoundTrip(b);
    Even(|HexEncode(b)|, |b|);
  }

  lemma Even(m: nat, n: nat)
    requires m == 2 * n
    ensures m % 2 == 0
  {}

  /** Hexadecimal digits of both cases, and nothing else, are read. */
  lemma HexValueReads(c: Byte)
    ensures HexValue(c) < 16 <==> exists d: nat :: d < 16 && (c == HexChar(d) || (d >= 10 && c == HexChar(d) - 32))
  {
    if HexValue(c) < 16 {
      var d := HexValue(c);
      assert c == HexChar(d) || (d >= 10 && c == HexChar(d) - 32);
    }
  }

  lemma CharacterRoundTrip(v: nat)
    requires v < 64
    ensures CharacterValue(true, Character(true, v)) == v && Character(true, v) != PAD
  {}

  lemma GroupStep(x: Byte, y: Byte, z: Byte, s: seq<Byte>, b: seq<Byte>)
    requires |s| % 4 != 1 && Groups(true, s) == Ok(b)
    ensures var t := [Character(true, x / 4), Character(true, x % 4 * 16 + y / 16),
                      Character(true, y % 16 * 4 + z / 64), Character(true, z % 64)] + s;
      |t| % 4 != 1 && Groups(true, t) == Ok([x, y, z] + b)
  {
    var t := [Character(true, x / 4), Character(true, x % 4 * 16 + y / 16),
              Character(true, y % 16 * 4 + z / 64), Character(true, z % 64)] + s;
    assert t[4..] == s;
    FullGroup(x, y, z);
  }

  lemma LastOne(x: Byte)
    ensures Groups(true, Base64UrlEncode([x])) == Ok([x])
  {
    ShortGroup(x, 0);
  }

  lemma LastTwo(x: Byte, y: Byte)
    ensures Groups(true, Base64UrlEncode([x, y])) == Ok([x, y])
  {
    ShortGroup(x, y);
  }

  lemma {:induction false} GroupsRoundTrip(b: seq<Byte>)
    ensures |Base64UrlEncode(b)| % 4 != 1
    ensures Groups(true, Base64UrlEncode(b)) == Ok(b)
  {
    if |b| >= 3 {
      GroupsRoundTrip(b[3..]);
      GroupStep(b[0], b[1], b[2], Base64UrlEncode(b[3..]), b[3..]);
      assert [b[0], b[1], b[2]] + b[3..] == b;
    } else if |b| == 2 {
      LastTwo(b[0], b[1]);
      assert b == [b[0], b[1]];
    } else if |b| == 1 {
      LastOne(b[0]);
      assert b == [b[0]];
    }
  }

  /** No padding is written, and none is taken for padding. */
  lemma {:induction false} NeverPadded(b: seq<Byte>)
    ensures var s := Base64UrlEncode(b); b != [] ==> s != [] && s[|s| - 1] != PAD
  {
    if |b| > 3 {
      NeverPadded(b[3..]);
    } else if |b| == 3 {
      CharacterRoundTrip(b[2] % 64);
      assert Base64UrlEncode(b[3..]) == [];
    } else if |b| == 2 {
      CharacterRoundTrip(b[1] % 16 * 4);
    } else if |b| == 1 {
      CharacterRoundTrip(b[0] % 4 * 16);
    }
  }

  lemma FullGroup(x: Byte, y: Byte, z: Byte)
    ensures var v0, v1, v2, v3 := x / 4, x % 4 * 16 + y / 16, y % 16 * 4 + z / 64, z % 64;
      && v0 < 64 && v1 < 64 && v2 < 64 && v3 < 64
      && CharacterValue(true, Character(true, v0)) == v0 && CharacterValue(true, Character(true, v1)) == v1
      && CharacterValue(true, Character(true, v2)) == v2 && CharacterValue(true, Character(true, v3)) == v3
      && v0 * 4 + v1 / 16 == x && v1 % 16 * 16 + v2 / 4 == y && v2 % 4 * 64 + v3 == z
  {}

  lemma ShortGroup(x: Byte, y: Byte)
    ensures var v0, v1, v2 := x / 4, x % 4 * 16 + y / 16, y % 16 * 4;
      && v0 < 64 && v1 < 64 && v2 < 64 && v2 % 4 == 0
      && CharacterValue(true, Character(true, v0)) == v0 && CharacterValue(true, Character(true, v1)) == v1
      && CharacterValue(true, Character(true, v2)) == v2 && Character(true, v2) != PAD
      && v0 * 4 + v1 / 16 == x && v1 % 16 * 16 + v2 / 4 == y
  {}

  lemma Base64RoundTrip(b: seq<Byte>)
    ensures Base64Decode(true, Base64UrlEncode(b)) == Ok(b)
  {
    GroupsRoundTrip(b);
    NeverPadded(b);
  }

  /** The first byte 0xee makes the second character one of g to v, which is no digit. */
  lemma TlsLinkIsNotHex(secret: seq<Byte>)
    requires |secret| >= 2 && secret[0] == 0xee
    ensures |Base64UrlEncode(secret)| >= 2 && 103 <= Base64UrlEncode(secret)[1] <= 118
    ensures HexDecode(Base64UrlEncode(secret)) == Error
  {
    var v := 32 + secret[1] / 16;
    assert 32 <= v < 48;
    assert Base64UrlEncode(secret)[1] == Character(true, v);
  }

  /** Every secret that is accepted can be put into a link and read back, truncated or not. */
  lemma LinkRoundTrip(raw: seq<Byte>, truncate: bool, again: bool)
    requires FromBinary(raw, truncate).Ok?
    ensures var secret := FromBinary(raw, truncate).value;
      FromLink(GetEncodedSecret(secret), again) == Ok(secret)
  {
    var secret := FromBinary(raw, truncate).value;
    assert Supported(secret) && |secret| <= 17 + MAX_DOMAIN_LENGTH;
    if EmulateTls(secret) {
      TlsLinkIsNotHex(secret);
      Base64RoundTrip(secret);
    } else {
      HexRoundTrip(secret);
    }
  }
}
