/**
 The creation of an authorization key (Handshake.cpp, DhHandshake.cpp): the client as a
 machine of five states, and an honest server as the protocol describes it. Random
 choices of a step, and whether its deadline has passed, are its arguments.
 */
module Handshake {
  import opened Wrappers
  import opened Bytes
  import opened TlBytes
  import opened NumberTheory
  import DhConfig
  import opened DhExchange
  import opened HandshakeData

  type Nonce = d: Data | |d| == 16 witness [0, 0, 0, 0, 0, 0, 0, 0, 0, 0, 0, 0, 0, 0, 0, 0]

  type Secret = d: Data | |d| == 32
    witness [0, 0, 0, 0, 0, 0, 0, 0, 0, 0, 0, 0, 0, 0, 0, 0, 0, 0, 0, 0, 0, 0, 0, 0, 0, 0, 0, 0, 0, 0, 0, 0]

  datatype State = Start | ResPq | ServerDhParams | DhGenResponse | Finish

  datatype Query =
    | ReqPq(nonce: Nonce)
    | ReqDhParams(nonce: Nonce, serverNonce: Nonce, p: Data, q: Data, fingerprint: nat, encrypted: Data)
    | SetClientDhParams(nonce: Nonce, serverNonce: Nonce, encrypted: Data)

  /** What may arrive; `Garbage` is anything that is not the expected kind of answer. */
  datatype Reply =
    | Pq(nonce: Nonce, serverNonce: Nonce, pq: Data, fingerprints: seq<nat>)
    | DhParams(nonce: Nonce, serverNonce: Nonce, encryptedAnswer: Data)
    | GenOk(nonce: Nonce, serverNonce: Nonce, hash: Data)
    | GenRetry
    | GenFail
    | Garbage

  /** What the handshake is given: ciphers, a factorization, the known RSA keys, and whether
      the key is to be temporary. */
  datatype Context = Context(crypto: Crypto, factorize: Data -> Option<(Data, Data)>,
                             rsaKey: seq<nat> -> Option<nat>, dcId: Word, expiresIn: Option<Word>)

  datatype Client = Client(state: State, nonce: Nonce, serverNonce: Nonce, newNonce: Secret,
                           lastQuery: Option<Query>, authKey: Data, serverSalt: Data)

  /** The random choices of one step. */
  datatype Chance = Chance(late: bool, nonce: Nonce, newNonce: Secret, fill: Data, aesKey: Secret, b: nat, pad: Data)

  predicate Usable(ch: Chance) {
    |ch.fill| == 192 && |ch.pad| == 15
  }

  /** An error keeps what the failed step has learnt. */
  datatype Step = Next(client: Client) | Error(client: Client)

  function Clear(c: Client): Client {
    c.(lastQuery := None, state := Start)
  }

  // ---- the pieces of the messages ----

  function InnerPq(ctx: Context, pq: Data, p: Data, q: Data, nonce: Nonce, serverNonce: Nonce, newNonce: Secret): PqInner {
    PqInner(pq, p, q, nonce, serverNonce, newNonce, ctx.dcId, ctx.expiresIn)
  }

  /** Random bytes make the data 192 bytes long. */
  function Fill(data: Data, fill: Data): Data
    requires |data| <= 144 && |fill| == 192
  {
    data + fill[|data|..]
  }

  /** The padding that makes hash and data whole blocks. */
  function PadFor(data: Data, pad: Data): Data
    requires |pad| == 15
  {
    pad[..(16 - (20 + |data|) % 16) % 16]
  }

  lemma PadForPads(c: Crypto, data: Data, pad: Data)
    requires |pad| == 15 && |c.sha1(data)| == 20
    ensures Pads(c, data, PadFor(data, pad))
  {}

  function Salt(newNonce: Secret, serverNonce: Nonce): Data {
    XorBytes(newNonce[..8], serverNonce[..8])
  }

  function NewNonceHash(c: Crypto, newNonce: Secret, key: Data): Data {
    var aux := c.sha1(key);
    var h := c.sha1(newNonce + [1] + if |aux| >= 8 then aux[..8] else aux);
    if |h| >= 4 then h[4..] else h
  }

  // ---- the client ----

  function OnStart(c: Client, ch: Chance): Step {
    if c.state != Start then Error(Clear(c))
    else Next(c.(nonce := ch.nonce, lastQuery := Some(ReqPq(ch.nonce)), state := ResPq))
  }

  /** What the client learns from the answer, and what is to be encrypted and the key for it,
      if the answer is acceptable. */
  function CheckPq(ctx: Context, c: Client, reply: Reply, ch: Chance): (r: (Client, Option<(PqInner, nat)>))
    ensures r.1.Some? ==> PqFits(r.1.value.0) && |StorePq(r.1.value.0)| <= 144
  {
    if ch.late || !reply.Pq? || reply.nonce != c.nonce then (c, None)
    else
      var d := c.(serverNonce := reply.serverNonce);
      match (ctx.rsaKey(reply.fingerprints), ctx.factorize(reply.pq))
      case (Some(fingerprint), Some((p, q))) =>
        var inner := InnerPq(ctx, reply.pq, p, q, c.nonce, reply.serverNonce, ch.newNonce);
        (d.(newNonce := ch.newNonce), if !PqFits(inner) || |StorePq(inner)| > 144 then None else Some((inner, fingerprint)))
      case _ => (d, None)
  }

  function OnResPq(ctx: Context, c: Client, reply: Reply, ch: Chance): Step
    requires Usable(ch)
  {
    match CheckPq(ctx, c, reply, ch)
    case (d, None) => Error(d)
    case (d, Some((inner, fingerprint))) =>
      match ctx.crypto.rsaEncrypt(RsaPad(ctx.crypto, Fill(StorePq(inner), ch.fill), ch.aesKey))
      case Some(encrypted) => Next(AwaitDhParams(d, inner, fingerprint, encrypted))
      case None => Error(d)
  }

  function AwaitDhParams(d: Client, inner: PqInner, fingerprint: nat, encrypted: Data): Client {
    d.(state := ServerDhParams,
       lastQuery := Some(ReqDhParams(d.nonce, d.serverNonce, inner.p, inner.q, fingerprint, encrypted)))
  }

  /** The key of the padding plays no part in the check, and any key that RSA takes completes the step. */
  lemma AnyKeyWorks(ctx: Context, c: Client, reply: Reply, ch: Chance, key: Secret, encrypted: Data)
    requires Usable(ch) && CheckPq(ctx, c, reply, ch).1.Some?
    requires ctx.crypto.rsaEncrypt(RsaPad(ctx.crypto, Fill(StorePq(CheckPq(ctx, c, reply, ch).1.value.0), ch.fill), key))
          == Some(encrypted)
    ensures var (d, checked) := CheckPq(ctx, c, reply, ch);
      OnResPq(ctx, c, reply, ch.(aesKey := key)) == Next(AwaitDhParams(d, checked.value.0, checked.value.1, encrypted))
  {
    assert CheckPq(ctx, c, reply, ch.(aesKey := key)) == CheckPq(ctx, c, reply, ch);
  }

  /** What the server has encrypted, if it belongs to this exchange. */
  function Opened(ctx: Context, c: Client, reply: Reply, late: bool): Option<ServerInner> {
    if late || !reply.DhParams? || reply.nonce != c.nonce || reply.serverNonce != c.serverNonce then None
    else if |reply.encryptedAnswer| % 16 != 0 then None
    else
      match OpenServer(ctx.crypto, c.serverNonce, c.newNonce, reply.encryptedAnswer)
      case None => None
      case Some(inner) => if inner.nonce != c.nonce || inner.serverNonce != c.serverNonce then None else Some(inner)
  }

  /** The client's side of the exchange of keys. */
  function Side(ctx: Context, inner: ServerInner, b: nat): Dh {
    SetGa(ctx.crypto.sha256, SetConfig(FRESH, inner.g, inner.prime, b), inner.ga)
  }

  function OnServerDhParams(ctx: Context, c: Client, reply: Reply, ch: Chance): Step
    requires Usable(ch)
  {
    match Opened(ctx, c, reply, ch.late)
    case None => Error(c)
    case Some(inner) =>
      var side := Side(ctx, inner, ch.b);
      if Checks(side, false) != Accepted then Error(c)
      else
        PublicValueFits(side);
        Next(AwaitConfirmation(ctx, c, ToBinary(side.gb), KeyBytes(SharedNumber(side)), ch.pad))
  }

  lemma AfterOpening(ctx: Context, c: Client, reply: Reply, ch: Chance, answer: Option<ServerInner>)
    requires Usable(ch) && Opened(ctx, c, reply, ch.late) == answer
    ensures answer.None? ==> OnServerDhParams(ctx, c, reply, ch) == Error(c)
    ensures answer.Some? && Checks(Side(ctx, answer.value, ch.b), false) != Accepted ==>
              OnServerDhParams(ctx, c, reply, ch) == Error(c)
    ensures answer.Some? && Checks(Side(ctx, answer.value, ch.b), false) == Accepted ==>
              var side := Side(ctx, answer.value, ch.b);
              && StringFits(|ToBinary(side.gb)|)
              && OnServerDhParams(ctx, c, reply, ch)
                 == Next(AwaitConfirmation(ctx, c, ToBinary(side.gb), KeyBytes(SharedNumber(side)), ch.pad))
  {
    if answer.Some? && Checks(Side(ctx, answer.value, ch.b), false) == Accepted {
      PublicValueFits(Side(ctx, answer.value, ch.b));
    }
  }

  function AwaitConfirmation(ctx: Context, c: Client, gb: Data, key: Data, pad: Data): Client
    requires StringFits(|gb|) && |pad| == 15
  {
    var data := StoreClient(ClientInner(c.nonce, c.serverNonce, Zeros(8), gb));
    var sealed := Seal(ctx.crypto, c.serverNonce, c.newNonce, data, PadFor(data, pad));
    c.(lastQuery := Some(SetClientDhParams(c.nonce, c.serverNonce, sealed)), authKey := key,
       serverSalt := Salt(c.newNonce, c.serverNonce), state := DhGenResponse)
  }

  function OnDhGenResponse(ctx: Context, c: Client, reply: Reply): Step {
    if !reply.GenOk? || reply.nonce != c.nonce || reply.serverNonce != c.serverNonce then Error(c)
    else if reply.hash != NewNonceHash(ctx.crypto, c.newNonce, c.authKey) then Error(c)
    else Next(c.(state := Finish))
  }

  predicate Waiting(c: Client) {
    c.state == ResPq || c.state == ServerDhParams || c.state == DhGenResponse
  }

  function StepOf(ctx: Context, c: Client, reply: Reply, ch: Chance): Step
    requires Usable(ch) && Waiting(c)
  {
    match c.state
    case ResPq => OnResPq(ctx, c, reply, ch)
    case ServerDhParams => OnServerDhParams(ctx, c, reply, ch)
    case _ => OnDhGenResponse(ctx, c, reply)
  }

  /** A message is delivered only while one is awaited; every error starts all over. */
  function OnMessage(ctx: Context, c: Client, reply: Reply, ch: Chance): Client
    requires Usable(ch) && Waiting(c)
  {
    match StepOf(ctx, c, reply, ch)
    case Next(d) => d
    case Error(d) => Clear(d)
  }

  /** Sends the last query again; from the start it sends the first one. */
  function Resume(c: Client, ch: Chance): Client {
    if c.state == Start then OnStart(c, ch).client
    else if c.state == Finish || c.lastQuery.None? then Clear(c)
    else c
  }

  // ---- every run, with any messages ----

  datatype Event = Resumed(ch: Chance) | Received(reply: Reply, ch: Chance) | Cleared

  predicate Possible(c: Client, e: Event) {
    e.Received? ==> Waiting(c) && Usable(e.ch)
  }

  function React(ctx: Context, c: Client, e: Event): Client
    requires Possible(c, e)
  {
    match e
    case Resumed(ch) => Resume(c, ch)
    case Received(reply, ch) => OnMessage(ctx, c, reply, ch)
    case Cleared => Clear(c)
  }

  /** A waiting client remembers the query it waits for, with the nonces it has agreed on. */
  predicate Remembers(c: Client) {
    match c.state
    case ResPq => c.lastQuery == Some(ReqPq(c.nonce))
    case ServerDhParams =>
      c.lastQuery.Some? && c.lastQuery.value.ReqDhParams? && c.lastQuery.value.nonce == c.nonce
      && c.lastQuery.value.serverNonce == c.serverNonce
    case DhGenResponse =>
      c.lastQuery.Some? && c.lastQuery.value.SetClientDhParams? && c.lastQuery.value.nonce == c.nonce
      && c.lastQuery.value.serverNonce == c.serverNonce && c.serverSalt == Salt(c.newNonce, c.serverNonce)
    case _ => true
  }

  function Rank(s: State): nat {
    match s case Start => 0 case ResPq => 1 case ServerDhParams => 2 case DhGenResponse => 3 case Finish => 4
  }

  /** One event keeps the state, moves one step on, or starts all over. */
  lemma OneStep(ctx: Context, c: Client, e: Event)
    requires Possible(c, e) && Remembers(c)
    ensures var d := React(ctx, c, e);
      && Remembers(d)
      && (d.state == Start || d == c || Rank(d.state) == Rank(c.state) + 1)
      && (d.state == Finish && d != c ==> e.Received? && e.reply.GenOk?)
      && (d.state == Finish && d != c ==> e.reply.hash == NewNonceHash(ctx.crypto, d.newNonce, d.authKey))
  {}

  ghost predicate ReactsAt(ctx: Context, states: seq<Client>, events: seq<Event>, i: nat)
    requires |states| == |events| + 1 && i < |events|
  {
    Possible(states[i], events[i]) && states[i + 1] == React(ctx, states[i], events[i])
  }

  ghost predicate IsRun(ctx: Context, states: seq<Client>, events: seq<Event>) {
    && |states| == |events| + 1 && states[0].state == Start
    && forall i: nat :: i < |events| ==> ReactsAt(ctx, states, events, i)
  }

  lemma {:induction false} RunRemembers(ctx: Context, states: seq<Client>, events: seq<Event>, i: nat)
    requires IsRun(ctx, states, events) && i < |states|
    ensures Remembers(states[i])
  {
    if i > 0 {
      RunRemembers(ctx, states, events, i - 1);
      assert ReactsAt(ctx, states, events, i - 1);
      OneStep(ctx, states[i - 1], events[i - 1]);
    }
  }

  /** No state is reached but through all states before it, in order, since the last start. */
  lemma {:induction false} InOrder(ctx: Context, states: seq<Client>, events: seq<Event>, i: nat, r: nat) returns (j: nat)
    requires IsRun(ctx, states, events) && i < |states| && r <= Rank(states[i].state)
    ensures j <= i && Rank(states[j].state) == r
    ensures forall k: nat :: j < k <= i ==> Rank(states[k].state) >= r && (r > 0 ==> states[k].state != Start)
  {
    if Rank(states[i].state) == r {
      j := i;
    } else {
      RunRemembers(ctx, states, events, i);
      assert i > 0;
      RunRemembers(ctx, states, events, i - 1);
      assert ReactsAt(ctx, states, events, i - 1);
      OneStep(ctx, states[i - 1], events[i - 1]);
      j := InOrder(ctx, states, events, i - 1, r);
    }
  }
}
