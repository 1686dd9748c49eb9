/**
 The key exchange with an honest server, as the protocol describes it: both sides end with
 the same key and the same salt, however often queries are sent and served again.
 */
module HonestHandshake {
  import opened Wrappers
  import opened Bytes
  import opened TlBytes
  import opened NumberTheory
  import DhConfig
  import opened DhExchange
  import opened HandshakeData
  import opened Handshake

  /** The secrets and parameters of the server. */
  datatype Server = Server(serverNonce: Nonce, pq: Data, p: Data, q: Data, fingerprints: seq<nat>, fingerprint: nat,
                           g: Word, prime: Data, a: nat, time: Word, pad: Data)

  /** What the server has learnt in this exchange. */
  datatype Session = Session(newNonce: Option<Secret>, key: Data, salt: Data)

  function Prime(s: Server): nat {
    FromBinary(s.prime)
  }

  function PublicA(s: Server): nat {
    ModExp(s.g, s.a, Prime(s))
  }

  function Answer(s: Server, nonce: Nonce): ServerInner {
    ServerInner(nonce, s.serverNonce, s.g, s.prime, ToBinary(PublicA(s)), s.time)
  }

  /** The server's answer to a query, and what it knows afterwards; None if it does not answer. */
  function Serve(c: Crypto, s: Server, st: Session, q: Query): Option<(Reply, Session)>
    requires |s.pad| == 15
  {
    match q
    case ReqPq(nonce) => Some((Pq(nonce, s.serverNonce, s.pq, s.fingerprints), st))
    case ReqDhParams(nonce, serverNonce, _, _, _, encrypted) => ServeDhParams(c, s, st, nonce, serverNonce, encrypted)
    case SetClientDhParams(nonce, serverNonce, encrypted) => ServeClientParams(c, s, st, nonce, serverNonce, encrypted)
  }

  function Inner(c: Crypto, encrypted: Data): Option<PqInner> {
    match RsaUnpad(c, c.rsaDecrypt(encrypted))
    case Some(data) => ParsePq(data)
    case None => None
  }

  function ServeDhParams(c: Crypto, s: Server, st: Session, nonce: Nonce, serverNonce: Nonce, encrypted: Data)
    : Option<(Reply, Session)>
    requires |s.pad| == 15
  {
    match Inner(c, encrypted)
    case None => None
    case Some(inner) =>
      if serverNonce != s.serverNonce || inner.nonce != nonce || inner.serverNonce != serverNonce || inner.pq != s.pq
         || |inner.newNonce| != 32 || !ServerFits(Answer(s, nonce)) then None
      else
        var data := StoreServer(Answer(s, nonce));
        Some((DhParams(nonce, serverNonce, Seal(c, serverNonce, inner.newNonce, data, PadFor(data, s.pad))),
              st.(newNonce := Some(inner.newNonce))))
  }

  function ServeClientParams(c: Crypto, s: Server, st: Session, nonce: Nonce, serverNonce: Nonce, encrypted: Data)
    : Option<(Reply, Session)>
  {
    match st.newNonce
    case None => None
    case Some(newNonce) =>
      match OpenClient(c, serverNonce, newNonce, encrypted)
      case None => None
      case Some(inner) =>
        if serverNonce != s.serverNonce || inner.nonce != nonce || inner.serverNonce != serverNonce then None
        else
          var key := KeyBytes(ModExp(FromBinary(inner.gb), s.a, Prime(s)));
          Some((GenOk(nonce, serverNonce, NewNonceHash(c, newNonce, key)),
                st.(key := key, salt := Salt(newNonce, serverNonce))))
  }

  /** A query that arrives again gets the same answer and teaches the server nothing new. */
  lemma ServeTwice(c: Crypto, s: Server, st: Session, q: Query)
    requires |s.pad| == 15 && Serve(c, s, st, q).Some?
    ensures Serve(c, s, Serve(c, s, st, q).value.1, q) == Serve(c, s, st, q)
  {}

  /** The server answers the query that the client waits for, and the client gets the answer. */
  function Deliver(ctx: Context, s: Server, c: Client, st: Session, ch: Chance): (Client, Session)
    requires |s.pad| == 15 && Usable(ch)
  {
    if !Waiting(c) || c.lastQuery.None? then (c, st)
    else
      match Serve(ctx.crypto, s, st, c.lastQuery.value)
      case None => (c, st)
      case Some((reply, st')) => (OnMessage(ctx, c, reply, ch), st')
  }

  /** The client knows the server's key and can factor its number; the parameters are good. */
  ghost predicate Honest(ctx: Context, s: Server) {
    && Lawful(ctx.crypto) && |s.pad| == 15
    && ctx.rsaKey(s.fingerprints) == Some(s.fingerprint) && ctx.factorize(s.pq) == Some((s.p, s.q))
    && StringFits(|s.pq|) && StringFits(|s.p|) && StringFits(|s.q|)
    && StringFits(|s.prime|)
    && DhConfig.GoodConfig(Prime(s), SignedInt(s.g))
  }

  function FirstInner(ctx: Context, s: Server, nonce: Nonce, ch: Chance): PqInner {
    InnerPq(ctx, s.pq, s.p, s.q, nonce, s.serverNonce, ch.newNonce)
  }

  /** The choices of the second step: in time, small enough, and a key for which RSA works. */
  predicate FirstChance(ctx: Context, s: Server, nonce: Nonce, ch: Chance) {
    var inner := FirstInner(ctx, s, nonce, ch);
    && !ch.late && Usable(ch) && PqFits(inner) && |StorePq(inner)| <= 144
    && ctx.crypto.rsaEncrypt(RsaPad(ctx.crypto, Fill(StorePq(inner), ch.fill), ch.aesKey)).Some?
  }

  function PublicB(s: Server, ch: Chance): nat {
    ModExp(s.g, ch.b, Prime(s))
  }

  /** The choices of the third step: in time, and both public values far from the ends. */
  predicate SecondChance(s: Server, ch: Chance) {
    && !ch.late && Usable(ch) && DhConfig.DhCheck(Prime(s), PublicA(s), PublicB(s, ch))
  }

  // ---- the three deliveries ----

  /** Waiting for the answer to a query that carries the client's new nonce. */
  predicate AskedForParams(ctx: Context, s: Server, c: Client) {
    && c.state == ServerDhParams && c.serverNonce == s.serverNonce
    && c.lastQuery.Some? && c.lastQuery.value.ReqDhParams?
    && c.lastQuery.value.nonce == c.nonce && c.lastQuery.value.serverNonce == c.serverNonce
    && Inner(ctx.crypto, c.lastQuery.value.encrypted)
       == Some(InnerPq(ctx, s.pq, s.p, s.q, c.nonce, c.serverNonce, c.newNonce))
  }

  lemma InnerOpens(c: Crypto, inner: PqInner, fill: Data, aesKey: Secret)
    requires Lawful(c) && PqFits(inner) && |StorePq(inner)| <= 144 && |fill| == 192
    requires c.rsaEncrypt(RsaPad(c, Fill(StorePq(inner), fill), aesKey)).Some?
    ensures Inner(c, c.rsaEncrypt(RsaPad(c, Fill(StorePq(inner), fill), aesKey)).value) == Some(inner)
  {
    var data := Fill(StorePq(inner), fill);
    RsaPadRoundTrip(c, data, aesKey);
    PqRoundTrip(inner, fill[|StorePq(inner)|..]);
  }

  lemma DeliverFirst(ctx: Context, s: Server, c: Client, st: Session, ch: Chance)
    requires Honest(ctx, s) && FirstChance(ctx, s, c.nonce, ch)
    requires c.state == ResPq && c.lastQuery == Some(ReqPq(c.nonce))
    ensures var (d, st') := Deliver(ctx, s, c, st, ch);
      AskedForParams(ctx, s, d) && d.nonce == c.nonce && d.newNonce == ch.newNonce && st' == st
  {
    InnerOpens(ctx.crypto, FirstInner(ctx, s, c.nonce, ch), ch.fill, ch.aesKey);
  }

  function Mine(s: Server, c: Client, ch: Chance): ClientInner {
    ClientInner(c.nonce, c.serverNonce, Zeros(8), ToBinary(PublicB(s, ch)))
  }

  /** Waiting for the confirmation of the key g^ab. */
  predicate SentParams(ctx: Context, s: Server, c: Client, st: Session, ch: Chance) {
    && Usable(ch) && ClientFits(Mine(s, c, ch))
    && c.state == DhGenResponse && c.serverNonce == s.serverNonce && st.newNonce == Some(c.newNonce)
    && c.lastQuery == Some(SetClientDhParams(c.nonce, c.serverNonce,
         Seal(ctx.crypto, c.serverNonce, c.newNonce, StoreClient(Mine(s, c, ch)), PadFor(StoreClient(Mine(s, c, ch)), ch.pad))))
    && c.authKey == KeyBytes(ModExp(PublicA(s), ch.b, Prime(s))) && c.serverSalt == Salt(c.newNonce, c.serverNonce)
  }

  lemma ValueFits(s: Server, e: nat)
    requires DhConfig.HasBits(Prime(s), 2048)
    ensures StringFits(|ToBinary(ModExp(s.g, e, Prime(s)))|)
  {
    PublicValueFits(SetConfig(FRESH, s.g, s.prime, e));
  }

  /** The client's side of the exchange finds nothing wrong. */
  lemma SideAccepts(ctx: Context, s: Server, nonce: Nonce, ch: Chance)
    requires Honest(ctx, s) && SecondChance(s, ch)
    ensures var side := Side(ctx, Answer(s, nonce), ch.b);
      && Checks(side, false) == Accepted && side.gb == PublicB(s, ch)
      && SharedNumber(side) == ModExp(PublicA(s), ch.b, Prime(s)) && StringFits(|ToBinary(side.gb)|)
  {
    FromToBinary(PublicA(s));
    ValueFits(s, ch.b);
  }

  lemma AnswerOpens(ctx: Context, s: Server, c: Client)
    requires Honest(ctx, s) && c.serverNonce == s.serverNonce
    ensures ServerFits(Answer(s, c.nonce))
    ensures var data := StoreServer(Answer(s, c.nonce));
      var sealed := Seal(ctx.crypto, c.serverNonce, c.newNonce, data, PadFor(data, s.pad));
      |sealed| % 16 == 0 && OpenServer(ctx.crypto, c.serverNonce, c.newNonce, sealed) == Some(Answer(s, c.nonce))
  {
    ValueFits(s, s.a);
    var data := StoreServer(Answer(s, c.nonce));
    PadForPads(ctx.crypto, data, s.pad);
    SealRoundTrip(ctx.crypto, c.serverNonce, c.newNonce, data, PadFor(data, s.pad));
    OpenServerRoundTrip(ctx.crypto, Answer(s, c.nonce), c.serverNonce, c.newNonce, PadFor(data, s.pad));
  }

  /** What an honest server answers to the second query. */
  function ParamsReply(ctx: Context, s: Server, c: Client): Reply
    requires ServerFits(Answer(s, c.nonce)) && |s.pad| == 15
  {
    var data := StoreServer(Answer(s, c.nonce));
    DhParams(c.nonce, c.serverNonce, Seal(ctx.crypto, c.serverNonce, c.newNonce, data, PadFor(data, s.pad)))
  }

  lemma ServesParams(ctx: Context, s: Server, c: Client, st: Session)
    requires |s.pad| == 15 && AskedForParams(ctx, s, c) && ServerFits(Answer(s, c.nonce))
    ensures Serve(ctx.crypto, s, st, c.lastQuery.value)
         == Some((ParamsReply(ctx, s, c), st.(newNonce := Some(c.newNonce))))
  {}

  lemma OpensParams(ctx: Context, s: Server, c: Client)
    requires Honest(ctx, s) && c.serverNonce == s.serverNonce && ServerFits(Answer(s, c.nonce))
    ensures Opened(ctx, c, ParamsReply(ctx, s, c), false) == Some(Answer(s, c.nonce))
  {
    AnswerOpens(ctx, s, c);
  }

  /** The client's reaction to that answer. */
  lemma TakesParams(ctx: Context, s: Server, c: Client, ch: Chance, gb: Data, key: Data)
    requires Honest(ctx, s) && SecondChance(s, ch) && ServerFits(Answer(s, c.nonce))
    requires c.state == ServerDhParams && c.serverNonce == s.serverNonce
    requires StringFits(|gb|) && gb == ToBinary(PublicB(s, ch)) && key == KeyBytes(ModExp(PublicA(s), ch.b, Prime(s)))
    ensures OnMessage(ctx, c, ParamsReply(ctx, s, c), ch) == AwaitConfirmation(ctx, c, gb, key, ch.pad)
  {
    OpensParams(ctx, s, c);
    SideAccepts(ctx, s, c.nonce, ch);
    AfterOpening(ctx, c, ParamsReply(ctx, s, c), ch, Some(Answer(s, c.nonce)));
  }

  lemma DeliverSecond(ctx: Context, s: Server, c: Client, st: Session, ch: Chance)
    requires Honest(ctx, s) && SecondChance(s, ch) && AskedForParams(ctx, s, c)
    ensures var (d, st') := Deliver(ctx, s, c, st, ch); SentParams(ctx, s, d, st', ch)
  {
    var gb := ToBinary(PublicB(s, ch));
    var key := KeyBytes(ModExp(PublicA(s), ch.b, Prime(s)));
    ValueFits(s, s.a);
    ValueFits(s, ch.b);
    ServesParams(ctx, s, c, st);
    TakesParams(ctx, s, c, ch, gb, key);
    ConfirmationAwaited(ctx, s, c, st.(newNonce := Some(c.newNonce)), ch, gb, key);
  }

  lemma ConfirmationAwaited(ctx: Context, s: Server, c: Client, st: Session, ch: Chance, gb: Data, key: Data)
    requires Usable(ch) && c.serverNonce == s.serverNonce && st.newNonce == Some(c.newNonce)
    requires StringFits(|gb|) && gb == ToBinary(PublicB(s, ch)) && key == KeyBytes(ModExp(PublicA(s), ch.b, Prime(s)))
    ensures SentParams(ctx, s, AwaitConfirmation(ctx, c, gb, key, ch.pad), st, ch)
  {}

  lemma MineOpens(ctx: Context, s: Server, c: Client, st: Session, ch: Chance)
    requires Lawful(ctx.crypto) && SentParams(ctx, s, c, st, ch)
    ensures OpenClient(ctx.crypto, c.serverNonce, c.newNonce, c.lastQuery.value.encrypted) == Some(Mine(s, c, ch))
  {
    var data := StoreClient(Mine(s, c, ch));
    PadForPads(ctx.crypto, data, ch.pad);
    OpenClientRoundTrip(ctx.crypto, Mine(s, c, ch), c.serverNonce, c.newNonce, PadFor(data, ch.pad));
  }

  /** (g^a)^b and (g^b)^a are the same key. */
  lemma KeysAgree(s: Server, b: nat)
    ensures ModExp(ModExp(s.g, b, Prime(s)), s.a, Prime(s)) == ModExp(PublicA(s), b, Prime(s))
  {
    if Prime(s) > 0 {
      DhConfig.SharedKey(Prime(s), s.g, s.a, b);
    }
  }

  lemma DeliverThird(ctx: Context, s: Server, c: Client, st: Session, ch: Chance, last: Chance)
    requires Honest(ctx, s) && Usable(last) && SentParams(ctx, s, c, st, ch)
    ensures var (d, st') := Deliver(ctx, s, c, st, last);
      d.state == Finish && d.authKey == st'.key && d.serverSalt == st'.salt
  {
    MineOpens(ctx, s, c, st, ch);
    FromToBinary(PublicB(s, ch));
    KeysAgree(s, ch.b);
  }

  // ---- a whole exchange ----

  /** The client sends its query again and the answer is lost, or the answer gets through. */
  datatype Move = Resuming(ch: Chance) | Delivering(ch: Chance)

  predicate AllUsable(moves: seq<Move>) {
    forall i :: 0 <= i < |moves| ==> Usable(moves[i].ch)
  }

  /** What the server knows once it has got the query that the client waits for. */
  function Heard(ctx: Context, s: Server, c: Client, st: Session): Session
    requires |s.pad| == 15
  {
    if !Waiting(c) || c.lastQuery.None? then st
    else
      match Serve(ctx.crypto, s, st, c.lastQuery.value)
      case None => st
      case Some((_, st')) => st'
  }

  /** It does not matter to a delivery that the query was there before. */
  lemma HeardBefore(ctx: Context, s: Server, c: Client, st: Session, ch: Chance)
    requires |s.pad| == 15 && Usable(ch)
    ensures Deliver(ctx, s, c, Heard(ctx, s, c, st), ch) == Deliver(ctx, s, c, st, ch)
  {
    if Waiting(c) && c.lastQuery.Some? && Serve(ctx.crypto, s, st, c.lastQuery.value).Some? {
      ServeTwice(ctx.crypto, s, st, c.lastQuery.value);
    }
  }

  function Play(ctx: Context, s: Server, c: Client, st: Session, moves: seq<Move>): (Client, Session)
    requires |s.pad| == 15 && AllUsable(moves)
    decreases |moves|
  {
    if moves == [] then (c, st)
    else
      match moves[0]
      case Resuming(ch) =>
        var d := Resume(c, ch);
        Play(ctx, s, d, Heard(ctx, s, d, st), moves[1..])
      case Delivering(ch) =>
        var (d, st') := Deliver(ctx, s, c, st, ch);
        Play(ctx, s, d, st', moves[1..])
  }

  predicate OnlyResumes(moves: seq<Move>) {
    forall i :: 0 <= i < |moves| ==> moves[i].Resuming?
  }

  lemma PlayDelivery(ctx: Context, s: Server, c: Client, st: Session, ch: Chance, more: seq<Move>)
    requires |s.pad| == 15 && Usable(ch) && AllUsable(more)
    ensures AllUsable([Delivering(ch)] + more)
    ensures var (d, st') := Deliver(ctx, s, c, st, ch);
      Play(ctx, s, c, st, [Delivering(ch)] + more) == Play(ctx, s, d, st', more)
  {
    assert ([Delivering(ch)] + more)[1..] == more;
  }

  /** It does not matter to what follows a delivery either. */
  lemma HeardPlays(ctx: Context, s: Server, c: Client, st: Session, tail: seq<Move>)
    requires |s.pad| == 15 && AllUsable(tail) && tail != [] && tail[0].Delivering?
    ensures Play(ctx, s, c, Heard(ctx, s, c, st), tail) == Play(ctx, s, c, st, tail)
  {
    var ch, more := tail[0].ch, tail[1..];
    assert tail == [Delivering(ch)] + more;
    HeardBefore(ctx, s, c, st, ch);
    PlayDelivery(ctx, s, c, st, ch, more);
    PlayDelivery(ctx, s, c, Heard(ctx, s, c, st), ch, more);
  }

  lemma PlayResume(ctx: Context, s: Server, c: Client, st: Session, moves: seq<Move>)
    requires |s.pad| == 15 && AllUsable(moves) && moves != [] && moves[0].Resuming?
    ensures AllUsable(moves[1..])
    ensures var d := Resume(c, moves[0].ch); Play(ctx, s, c, st, moves) == Play(ctx, s, d, Heard(ctx, s, d, st), moves[1..])
  {}

  lemma UsableBoth(a: seq<Move>, b: seq<Move>)
    requires AllUsable(a) && AllUsable(b)
    ensures AllUsable(a + b)
  {}

  lemma PlayAgain(ctx: Context, s: Server, c: Client, st: Session, moves: seq<Move>)
    requires |s.pad| == 15 && AllUsable(moves) && moves != [] && moves[0].Resuming?
    requires Waiting(c) && c.lastQuery.Some?
    ensures AllUsable(moves[1..])
    ensures Play(ctx, s, c, st, moves) == Play(ctx, s, c, Heard(ctx, s, c, st), moves[1..])
  {
    assert Resume(c, moves[0].ch) == c;
    PlayResume(ctx, s, c, st, moves);
  }

  /** Queries that are served any number of times before an answer gets through change nothing. */
  lemma {:induction false} ResumesKeep(ctx: Context, s: Server, c: Client, st: Session, again: seq<Move>, tail: seq<Move>)
    requires |s.pad| == 15 && Again(again) && AllUsable(tail) && Waiting(c) && c.lastQuery.Some?
    requires tail != [] && tail[0].Delivering?
    ensures AllUsable(again + tail)
    ensures Play(ctx, s, c, st, again + tail) == Play(ctx, s, c, st, tail)
    decreases |again|
  {
    UsableBoth(again, tail);
    if again == [] {
      assert again + tail == tail;
    } else {
      assert (again + tail)[1..] == again[1..] + tail;
      PlayAgain(ctx, s, c, st, again + tail);
      ResumesKeep(ctx, s, c, Heard(ctx, s, c, st), again[1..], tail);
      HeardPlays(ctx, s, c, st, tail);
    }
  }

  /** The moves of an exchange: queries are sent, and served, any number of times before each answer. */
  function Exchange(start: Chance, r1: seq<Move>, one: Chance, r2: seq<Move>, two: Chance, r3: seq<Move>, three: Chance)
    : seq<Move>
  {
    [Resuming(start)] + (r1 + ([Delivering(one)] + (r2 + ([Delivering(two)] + (r3 + ([Delivering(three)] + []))))))
  }

  predicate Again(moves: seq<Move>) {
    AllUsable(moves) && OnlyResumes(moves)
  }

  /** An exchange with an honest server, from any start, ends with equal keys and equal salts. */
  lemma EndsWithEqualKeys(ctx: Context, s: Server, c: Client, st: Session, start: Chance,
                          r1: seq<Move>, one: Chance, r2: seq<Move>, two: Chance, r3: seq<Move>, three: Chance)
    requires Honest(ctx, s) && c.state == Start && Again(r1) && Again(r2) && Again(r3)
    requires Usable(start) && FirstChance(ctx, s, start.nonce, one) && SecondChance(s, two) && Usable(three)
    ensures AllUsable(Exchange(start, r1, one, r2, two, r3, three))
    ensures var (d, st') := Play(ctx, s, c, st, Exchange(start, r1, one, r2, two, r3, three));
      d.state == Finish && d.authKey == st'.key && d.serverSalt == st'.salt
  {
    var c1 := Resume(c, start);
    var (c2, st2) := Deliver(ctx, s, c1, st, one);
    DeliverFirst(ctx, s, c1, st, one);
    var (c3, st3) := Deliver(ctx, s, c2, st2, two);
    DeliverSecond(ctx, s, c2, st2, two);
    DeliverThird(ctx, s, c3, st3, two, three);
    PlayAll(ctx, s, c, st, start, r1, one, r2, two, r3, three);
  }

  lemma PlayAll(ctx: Context, s: Server, c: Client, st: Session, start: Chance,
                r1: seq<Move>, one: Chance, r2: seq<Move>, two: Chance, r3: seq<Move>, three: Chance)
    requires |s.pad| == 15 && Again(r1) && Again(r2) && Again(r3)
    requires Usable(start) && Usable(one) && Usable(two) && Usable(three)
    requires var c1 := Resume(c, start);
      var (c2, st2) := Deliver(ctx, s, c1, st, one);
      var (c3, st3) := Deliver(ctx, s, c2, st2, two);
      && Waiting(c1) && c1.lastQuery.Some? && Waiting(c2) && c2.lastQuery.Some? && Waiting(c3) && c3.lastQuery.Some?
    ensures AllUsable(Exchange(start, r1, one, r2, two, r3, three))
    ensures var c1 := Resume(c, start);
      var (c2, st2) := Deliver(ctx, s, c1, st, one);
      var (c3, st3) := Deliver(ctx, s, c2, st2, two);
      Play(ctx, s, c, st, Exchange(start, r1, one, r2, two, r3, three)) == Deliver(ctx, s, c3, st3, three)
  {
    var c1 := Resume(c, start);
    var (c2, st2) := Deliver(ctx, s, c1, st, one);
    var (c3, st3) := Deliver(ctx, s, c2, st2, two);
    var m3 := [Delivering(three)] + [];
    PlayDelivery(ctx, s, c3, st3, three, []);
    ResumesKeep(ctx, s, c3, st3, r3, m3);
    var m2 := [Delivering(two)] + (r3 + m3);
    PlayDelivery(ctx, s, c2, st2, two, r3 + m3);
    ResumesKeep(ctx, s, c2, st2, r2, m2);
    var m1 := [Delivering(one)] + (r2 + m2);
    PlayDelivery(ctx, s, c1, st, one, r2 + m2);
    PlayStart(ctx, s, c, st, start, r1, m1);
  }

  /** The first query is sent, and then any number of times again, before an answer gets through. */
  lemma PlayStart(ctx: Context, s: Server, c: Client, st: Session, start: Chance, again: seq<Move>, tail: seq<Move>)
    requires |s.pad| == 15 && Again(again) && Usable(start) && AllUsable(tail) && tail != [] && tail[0].Delivering?
    requires Waiting(Resume(c, start)) && Resume(c, start).lastQuery.Some?
    ensures AllUsable([Resuming(start)] + (again + tail))
    ensures Play(ctx, s, c, st, [Resuming(start)] + (again + tail)) == Play(ctx, s, Resume(c, start), st, tail)
  {
    var d := Resume(c, start);
    ResumesKeep(ctx, s, d, Heard(ctx, s, d, st), again, tail);
    UsableBoth([Resuming(start)], again + tail);
    assert ([Resuming(start)] + (again + tail))[1..] == again + tail;
    PlayResume(ctx, s, c, st, [Resuming(start)] + (again + tail));
    HeardPlays(ctx, s, d, st, tail);
  }
}
