/**
 What is encrypted during the key exchange (Handshake.cpp, KDF.cpp): the inner data of
 both sides and the two ways of wrapping it. Hashes and ciphers are any functions that
 satisfy the laws below.
 */
module HandshakeData {
  import opened Sequences
  import opened Wrappers
  import opened Bytes
  import opened TlBytes

  type Data = seq<Byte>

  datatype Crypto = Crypto(sha1: Data -> Data, sha256: Data -> Data,
                           encrypt: (Data, Data, Data) -> Data, decrypt: (Data, Data, Data) -> Data,
                           rsaEncrypt: Data -> Option<Data>, rsaDecrypt: Data -> Data)

  /** Hashes have their lengths and decryption undoes encryption. */
  ghost predicate Lawful(c: Crypto) {
    && (forall x :: |c.sha1(x)| == 20)
    && (forall x :: |c.sha256(x)| == 32)
    && (forall k, iv, x :: |x| % 16 == 0 ==> |c.encrypt(k, iv, x)| == |x| && c.decrypt(k, iv, c.encrypt(k, iv, x)) == x)
    && (forall x :: c.rsaEncrypt(x).Some? ==> c.rsaDecrypt(c.rsaEncrypt(x).value) == x)
  }

  /** The laws ask for nothing impossible: ciphers that change nothing satisfy them. */
  lemma LawsCanHold() returns (c: Crypto)
    ensures Lawful(c)
  {
    c := Crypto(x => Zeros(20), x => Zeros(32), (k, iv, x) => x, (k, iv, x) => x, x => Some(x), x => x);
  }

  // ---- RSA_PAD ----

  function Reverse(s: Data): (r: Data)
    ensures |r| == |s|
  {
    seq(|s|, i requires 0 <= i < |s| => s[|s| - 1 - i])
  }

  lemma ReverseTwice(s: Data)
    ensures Reverse(Reverse(s)) == s
  {}

  /** The padded data, reversed, with a hash that depends on the key, encrypted with that
      key, which is hidden behind a hash of the result. */
  function RsaPad(c: Crypto, data: Data, aesKey: Data): Data
    requires |aesKey| == 32
  {
    var encrypted := c.encrypt(aesKey, Zeros(32), Reverse(data) + c.sha256(aesKey + data));
    var hash := c.sha256(encrypted);
    if |hash| == 32 then XorBytes(aesKey, hash) + encrypted else encrypted
  }

  function RsaUnpad(c: Crypto, padded: Data): Option<Data> {
    if |padded| != 256 then None
    else
      var hash := c.sha256(padded[32..]);
      if |hash| != 32 then None
      else
        var aesKey := XorBytes(padded[..32], hash);
        var inner := c.decrypt(aesKey, Zeros(32), padded[32..]);
        if |inner| != 224 then None
        else
          var data := Reverse(inner[..192]);
          if c.sha256(aesKey + data) == inner[192..] then Some(data) else None
  }

  lemma RsaPadRoundTrip(c: Crypto, data: Data, aesKey: Data)
    requires Lawful(c) && |data| == 192 && |aesKey| == 32
    ensures |RsaPad(c, data, aesKey)| == 256
    ensures RsaUnpad(c, RsaPad(c, data, aesKey)) == Some(data)
  {
    var inner := Reverse(data) + c.sha256(aesKey + data);
    assert |inner| == 224;
    var encrypted := c.encrypt(aesKey, Zeros(32), inner);
    var hash := c.sha256(encrypted);
    var padded := XorBytes(aesKey, hash) + encrypted;
    assert padded[..32] == XorBytes(aesKey, hash) && padded[32..] == encrypted;
    XorBytesTwice(aesKey, hash);
    assert inner[..192] == Reverse(data) && inner[192..] == c.sha256(aesKey + data);
    ReverseTwice(data);
  }

  // ---- inner data ----

  /** The fields of a TL object, and what a reader expects of them. */
  datatype Field = IntF(word: Word) | TextF(text: Data) | RawF(raw: Data)

  datatype Shape = IntS | TextS | RawS(size: nat)

  function ShapeOf(f: Field): Shape {
    match f case IntF(_) => IntS case TextF(_) => TextS case RawF(raw) => RawS(|raw|)
  }

  predicate FieldFits(f: Field) {
    f.TextF? ==> StringFits(|f.text|)
  }

  predicate FieldsFit(fields: seq<Field>) {
    forall i :: 0 <= i < |fields| ==> FieldFits(fields[i])
  }

  function StoreField(f: Field): Data
    requires FieldFits(f)
  {
    match f case IntF(w) => StoreInt(w) case TextF(text) => StoreString(text) case RawF(raw) => raw
  }

  function StoreFields(fields: seq<Field>): Data
    requires FieldsFit(fields)
  {
    if fields == [] then [] else StoreField(fields[0]) + StoreFields(fields[1..])
  }

  function FetchField(shape: Shape, b: Data): Parsed<Field> {
    match shape
    case IntS => (match FetchInt(b) case Parsed(w, rest) => Parsed(IntF(w), rest) case Failed => Failed)
    case TextS => (match FetchString(b) case Parsed(text, rest) => Parsed(TextF(text), rest) case Failed => Failed)
    case RawS(n) => (match FetchRaw(b, n) case Parsed(raw, rest) => Parsed(RawF(raw), rest) case Failed => Failed)
  }

  /** The fields in order, each of the shape expected. */
  function FetchFields(shapes: seq<Shape>, b: Data): (r: Parsed<seq<Field>>)
    ensures r.Parsed? ==> |r.value| == |shapes| && forall i :: 0 <= i < |shapes| ==> SameKind(r.value[i], shapes[i])
  {
    if shapes == [] then Parsed([], b)
    else
      match FetchField(shapes[0], b)
      case Failed => Failed
      case Parsed(f, rest) =>
        match FetchFields(shapes[1..], rest)
        case Failed => Failed
        case Parsed(more, left) => Parsed([f] + more, left)
  }

  predicate SameKind(f: Field, shape: Shape) {
    match shape case IntS => f.IntF? case TextS => f.TextF? case RawS(n) => f.RawF? && |f.raw| == n
  }

  function Shapes(fields: seq<Field>): seq<Shape> {
    seq(|fields|, i requires 0 <= i < |fields| => ShapeOf(fields[i]))
  }

  lemma FieldRoundTrip(f: Field, rest: Data)
    requires FieldFits(f)
    ensures FetchField(ShapeOf(f), StoreField(f) + rest) == Parsed(f, rest)
  {
    match f {
      case IntF(w) => IntRoundTrip(w, rest);
      case TextF(text) => StringRoundTrip(text, rest);
      case RawF(raw) => assert (raw + rest)[..|raw|] == raw && (raw + rest)[|raw|..] == rest;
    }
  }

  lemma ShapesTail(fields: seq<Field>)
    requires fields != []
    ensures Shapes(fields)[0] == ShapeOf(fields[0]) && Shapes(fields)[1..] == Shapes(fields[1..])
  {}

  lemma {:induction false} FieldsRoundTrip(fields: seq<Field>, rest: Data)
    requires FieldsFit(fields)
    ensures FetchFields(Shapes(fields), StoreFields(fields) + rest) == Parsed(fields, rest)
  {
    if fields == [] {
      assert [] + rest == rest;
    } else {
      FieldsRoundTrip(fields[1..], rest);
      FieldRoundTrip(fields[0], StoreFields(fields[1..]) + rest);
      Associate(StoreField(fields[0]), StoreFields(fields[1..]), rest);
      ShapesTail(fields);
      HeadAndTail(fields);
    }
  }

  datatype PqInner = PqInner(pq: Data, p: Data, q: Data, nonce: Data, serverNonce: Data, newNonce: Data,
                             dc: Word, expiresIn: Option<Word>)

  const PQ_MAIN: Word := 0xa9f55f95
  const PQ_TEMP: Word := 0x56fddf88

  predicate PqFits(d: PqInner) {
    && StringFits(|d.pq|) && StringFits(|d.p|) && StringFits(|d.q|)
    && |d.nonce| == 16 && |d.serverNonce| == 16 && |d.newNonce| == 32
  }

  function PqShapes(temp: bool): seq<Shape> {
    [TextS, TextS, TextS, RawS(16), RawS(16), RawS(32), IntS] + if temp then [IntS] else []
  }

  function PqFields(d: PqInner): seq<Field> {
    [TextF(d.pq), TextF(d.p), TextF(d.q), RawF(d.nonce), RawF(d.serverNonce), RawF(d.newNonce), IntF(d.dc)]
    + if d.expiresIn.Some? then [IntF(d.expiresIn.value)] else []
  }

  function StorePq(d: PqInner): Data
    requires PqFits(d)
  {
    var fields := PqFields(d);
    PqFieldsFit(d);
    StoreInt(if d.expiresIn.Some? then PQ_TEMP else PQ_MAIN) + StoreFields(fields)
  }

  lemma PqFieldsFit(d: PqInner)
    requires PqFits(d)
    ensures FieldsFit(PqFields(d)) && Shapes(PqFields(d)) == PqShapes(d.expiresIn.Some?)
  {
    assert FieldFits(TextF(d.pq)) && FieldFits(TextF(d.p)) && FieldFits(TextF(d.q));
  }

  function PqOf(f: seq<Field>): PqInner
    requires |f| == 7 || (|f| == 8 && f[7].IntF?)
    requires f[0].TextF? && f[1].TextF? && f[2].TextF? && f[3].RawF? && f[4].RawF? && f[5].RawF? && f[6].IntF?
  {
    PqInner(f[0].text, f[1].text, f[2].text, f[3].raw, f[4].raw, f[5].raw, f[6].word,
            if |f| == 8 then Some(f[7].word) else None)
  }

  /** The fields of either kind of inner data, and random padding after them. */
  function PqBody(temp: bool, b: Data): Option<PqInner> {
    match FetchFields(PqShapes(temp), b)
    case Failed => None
    case Parsed(f, _) =>
      var shapes := PqShapes(temp);
      assert SameKind(f[0], shapes[0]) && SameKind(f[1], shapes[1]) && SameKind(f[2], shapes[2])
        && SameKind(f[3], shapes[3]) && SameKind(f[4], shapes[4]) && SameKind(f[5], shapes[5])
        && SameKind(f[6], shapes[6]) && (temp ==> SameKind(f[7], shapes[7]));
      Some(PqOf(f))
  }

  /** What the server reads. */
  function ParsePq(b: Data): Option<PqInner> {
    match FetchInt(b)
    case Failed => None
    case Parsed(id, rest) => if id == PQ_MAIN || id == PQ_TEMP then PqBody(id == PQ_TEMP, rest) else None
  }

  lemma PqFromFields(d: PqInner, b: Data, rest: Data)
    requires FetchFields(PqShapes(d.expiresIn.Some?), b) == Parsed(PqFields(d), rest)
    ensures PqBody(d.expiresIn.Some?, b) == Some(d)
  {}

  lemma PqById(id: Word, b: Data)
    requires id == PQ_MAIN || id == PQ_TEMP
    ensures ParsePq(StoreInt(id) + b) == PqBody(id == PQ_TEMP, b)
  {
    IntRoundTrip(id, b);
  }

  lemma PqRoundTrip(d: PqInner, rest: Data)
    requires PqFits(d)
    ensures ParsePq(StorePq(d) + rest) == Some(d)
  {
    var id := if d.expiresIn.Some? then PQ_TEMP else PQ_MAIN;
    PqFieldsFit(d);
    var b := StoreFields(PqFields(d)) + rest;
    FieldsRoundTrip(PqFields(d), rest);
    PqFromFields(d, b, rest);
    PqById(id, b);
    Associate(StoreInt(id), StoreFields(PqFields(d)), rest);
  }

  datatype ServerInner = ServerInner(nonce: Data, serverNonce: Data, g: Word, prime: Data, ga: Data, time: Word)

  const SERVER_INNER: Word := 0xb5890dba

  predicate ServerFits(d: ServerInner) {
    |d.nonce| == 16 && |d.serverNonce| == 16 && StringFits(|d.prime|) && StringFits(|d.ga|)
  }

  const SERVER_SHAPES: seq<Shape> := [RawS(16), RawS(16), IntS, TextS, TextS, IntS]

  function ServerFields(d: ServerInner): seq<Field> {
    [RawF(d.nonce), RawF(d.serverNonce), IntF(d.g), TextF(d.prime), TextF(d.ga), IntF(d.time)]
  }

  lemma ServerFieldsFit(d: ServerInner)
    requires ServerFits(d)
    ensures FieldsFit(ServerFields(d)) && Shapes(ServerFields(d)) == SERVER_SHAPES
  {
    assert FieldFits(TextF(d.prime)) && FieldFits(TextF(d.ga));
  }

  function StoreServer(d: ServerInner): Data
    requires ServerFits(d)
  {
    ServerFieldsFit(d);
    StoreInt(SERVER_INNER) + StoreFields(ServerFields(d))
  }

  /** The inner data of the server and what follows it. */
  function ParseServer(b: Data): Parsed<ServerInner> {
    match FetchInt(b)
    case Failed => Failed
    case Parsed(id, more) =>
      if id != SERVER_INNER then Failed
      else
        match FetchFields(SERVER_SHAPES, more)
        case Failed => Failed
        case Parsed(f, rest) =>
          assert SameKind(f[0], RawS(16)) && SameKind(f[1], RawS(16)) && SameKind(f[2], IntS)
            && SameKind(f[3], TextS) && SameKind(f[4], TextS) && SameKind(f[5], IntS);
          Parsed(ServerInner(f[0].raw, f[1].raw, f[2].word, f[3].text, f[4].text, f[5].word), rest)
  }

  lemma ServerRoundTrip(d: ServerInner, rest: Data)
    requires ServerFits(d)
    ensures ParseServer(StoreServer(d) + rest) == Parsed(d, rest)
  {
    ServerFieldsFit(d);
    var b := StoreFields(ServerFields(d)) + rest;
    Associate(StoreInt(SERVER_INNER), StoreFields(ServerFields(d)), rest);
    IntRoundTrip(SERVER_INNER, b);
    FieldsRoundTrip(ServerFields(d), rest);
  }

  datatype ClientInner = ClientInner(nonce: Data, serverNonce: Data, retryId: Data, gb: Data)

  const CLIENT_INNER: Word := 0x6643b654

  predicate ClientFits(d: ClientInner) {
    |d.nonce| == 16 && |d.serverNonce| == 16 && |d.retryId| == 8 && StringFits(|d.gb|)
  }

  const CLIENT_SHAPES: seq<Shape> := [RawS(16), RawS(16), RawS(8), TextS]

  function ClientFields(d: ClientInner): seq<Field> {
    [RawF(d.nonce), RawF(d.serverNonce), RawF(d.retryId), TextF(d.gb)]
  }

  lemma ClientFieldsFit(d: ClientInner)
    requires ClientFits(d)
    ensures FieldsFit(ClientFields(d)) && Shapes(ClientFields(d)) == CLIENT_SHAPES
  {
    assert FieldFits(TextF(d.gb));
  }

  function StoreClient(d: ClientInner): Data
    requires ClientFits(d)
  {
    ClientFieldsFit(d);
    StoreInt(CLIENT_INNER) + StoreFields(ClientFields(d))
  }

  function ParseClient(b: Data): Parsed<ClientInner> {
    match FetchInt(b)
    case Failed => Failed
    case Parsed(id, more) =>
      if id != CLIENT_INNER then Failed
      else
        match FetchFields(CLIENT_SHAPES, more)
        case Failed => Failed
        case Parsed(f, rest) =>
          assert SameKind(f[0], RawS(16)) && SameKind(f[1], RawS(16)) && SameKind(f[2], RawS(8)) && SameKind(f[3], TextS);
          Parsed(ClientInner(f[0].raw, f[1].raw, f[2].raw, f[3].text), rest)
  }

  lemma ClientRoundTrip(d: ClientInner, rest: Data)
    requires ClientFits(d)
    ensures ParseClient(StoreClient(d) + rest) == Parsed(d, rest)
  {
    ClientFieldsFit(d);
    var b := StoreFields(ClientFields(d)) + rest;
    Associate(StoreInt(CLIENT_INNER), StoreFields(ClientFields(d)), rest);
    IntRoundTrip(CLIENT_INNER, b);
    FieldsRoundTrip(ClientFields(d), rest);
  }

  // ---- data with its hash, under the temporary key ----

  function TmpKey(c: Crypto, serverNonce: Data, newNonce: Data): Data {
    var h := c.sha1(serverNonce + newNonce);
    c.sha1(newNonce + serverNonce) + if |h| >= 12 then h[..12] else h
  }

  function TmpIv(c: Crypto, serverNonce: Data, newNonce: Data): Data {
    var h := c.sha1(serverNonce + newNonce);
    (if |h| >= 12 then h[12..] else []) + c.sha1(newNonce + newNonce) + if |newNonce| >= 4 then newNonce[..4] else newNonce
  }

  /** SHA1(data) + data + padding, encrypted. */
  function Seal(c: Crypto, serverNonce: Data, newNonce: Data, data: Data, pad: Data): Data {
    c.encrypt(TmpKey(c, serverNonce, newNonce), TmpIv(c, serverNonce, newNonce), c.sha1(data) + data + pad)
  }

  function Unseal(c: Crypto, serverNonce: Data, newNonce: Data, sealed: Data): Data {
    c.decrypt(TmpKey(c, serverNonce, newNonce), TmpIv(c, serverNonce, newNonce), sealed)
  }

  /** Padding to whole blocks of 16 bytes. */
  predicate Pads(c: Crypto, data: Data, pad: Data) {
    |pad| < 16 && |c.sha1(data) + data + pad| % 16 == 0
  }

  lemma SealRoundTrip(c: Crypto, serverNonce: Data, newNonce: Data, data: Data, pad: Data)
    requires Lawful(c) && Pads(c, data, pad)
    ensures |Seal(c, serverNonce, newNonce, data, pad)| % 16 == 0
    ensures Unseal(c, serverNonce, newNonce, Seal(c, serverNonce, newNonce, data, pad)) == c.sha1(data) + data + pad
  {}

  /** The hash in front must be that of the bytes between it and the padding. */
  function OpenServer(c: Crypto, serverNonce: Data, newNonce: Data, sealed: Data): Option<ServerInner> {
    var answer := Unseal(c, serverNonce, newNonce, sealed);
    if |answer| < 20 then None
    else
      match ParseServer(answer[20..])
      case Failed => None
      case Parsed(inner, rest) =>
        if |rest| >= 16 || |rest| > |answer| - 20 || c.sha1(answer[20..|answer| - |rest|]) != answer[..20] then None
        else Some(inner)
  }

  function OpenClient(c: Crypto, serverNonce: Data, newNonce: Data, sealed: Data): Option<ClientInner> {
    var answer := Unseal(c, serverNonce, newNonce, sealed);
    if |answer| < 20 then None
    else
      match ParseClient(answer[20..])
      case Failed => None
      case Parsed(inner, rest) =>
        if |rest| >= 16 || |rest| > |answer| - 20 || c.sha1(answer[20..|answer| - |rest|]) != answer[..20] then None
        else Some(inner)
  }

  lemma Parts(hash: Data, data: Data, pad: Data)
    ensures var answer := hash + data + pad;
      && answer[..|hash|] == hash && answer[|hash|..] == data + pad
      && answer[|hash|..|answer| - |pad|] == data
  {}

  lemma OpenServerRoundTrip(c: Crypto, d: ServerInner, serverNonce: Data, newNonce: Data, pad: Data)
    requires Lawful(c) && ServerFits(d) && Pads(c, StoreServer(d), pad)
    ensures OpenServer(c, serverNonce, newNonce, Seal(c, serverNonce, newNonce, StoreServer(d), pad)) == Some(d)
  {
    SealRoundTrip(c, serverNonce, newNonce, StoreServer(d), pad);
    Parts(c.sha1(StoreServer(d)), StoreServer(d), pad);
    ServerRoundTrip(d, pad);
  }

  lemma OpenClientRoundTrip(c: Crypto, d: ClientInner, serverNonce: Data, newNonce: Data, pad: Data)
    requires Lawful(c) && ClientFits(d) && Pads(c, StoreClient(d), pad)
    ensures OpenClient(c, serverNonce, newNonce, Seal(c, serverNonce, newNonce, StoreClient(d), pad)) == Some(d)
  {
    SealRoundTrip(c, serverNonce, newNonce, StoreClient(d), pad);
    Parts(c.sha1(StoreClient(d)), StoreClient(d), pad);
    ClientRoundTrip(d, pad);
  }
}
