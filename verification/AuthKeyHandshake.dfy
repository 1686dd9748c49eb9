/**
 The handshake as the object that the connection drives (Handshake.h, Handshake.cpp): its
 fields are updated step by step, and every call does what the machine of Handshake does.
 */
module AuthKeyHandshake {
  import opened Wrappers
  import opened Bytes
  import opened TlBytes
  import opened HandshakeData
  import opened Handshake
  import opened DhConfig
  import opened DhExchange
  import opened DhHandshake

  predicate Works(c: Crypto, data: Data, aesKey: Secret) {
    c.rsaEncrypt(RsaPad(c, data, aesKey)).Some?
  }

  /** RSA takes the data padded with one of the keys. */
  ghost predicate OneWorks(c: Crypto, data: Data, keys: seq<Secret>) {
    exists i :: 0 <= i < |keys| && Works(c, data, keys[i])
  }

  class AuthKeyHandshake {
    const context: Context
    var state: State
    var nonce: Nonce
    var serverNonce: Nonce
    var newNonce: Secret
    var lastQuery: Option<Query>
    var authKey: Data
    var serverSalt: Data

    function View(): Client
      reads this
    {
      Client(state, nonce, serverNonce, newNonce, lastQuery, authKey, serverSalt)
    }

    constructor (context: Context, nonce: Nonce, newNonce: Secret)
      ensures this.context == context && state == Start && lastQuery == None && Remembers(View())
    {
      this.context := context;
      state := Start;
      this.nonce, serverNonce, this.newNonce := nonce, nonce, newNonce;
      lastQuery := None;
      authKey, serverSalt := [], [];
    }

    method Clear()
      modifies this
      ensures View() == Handshake.Clear(old(View()))
    {
      lastQuery := None;
      state := Start;
    }

    /** The result is whether the step succeeded. */
    method OnStart(ch: Chance) returns (ok: bool)
      modifies this
      ensures ok <==> old(state) == Start
      ensures View() == Handshake.OnStart(old(View()), ch).client
    {
      if state != Start {
        Clear();
        return false;
      }
      nonce := ch.nonce;
      lastQuery := Some(ReqPq(nonce));
      state := ResPq;
      ok := true;
    }

    /** Tries one random key after the other until RSA takes the padded data; one of the keys
        that are drawn works. */
    method PadAndEncrypt(data: Data, keys: seq<Secret>) returns (aesKey: Secret, encrypted: Data)
      requires |data| == 192
      requires OneWorks(context.crypto, data, keys)
      ensures aesKey in keys && context.crypto.rsaEncrypt(RsaPad(context.crypto, data, aesKey)) == Some(encrypted)
    {
      var i := 0;
      while true
        invariant i <= |keys|
        invariant forall j :: 0 <= j < i ==> !Works(context.crypto, data, keys[j])
        decreases |keys| - i
      {
        aesKey := keys[i];
        var result := context.crypto.rsaEncrypt(RsaPad(context.crypto, data, aesKey));
        if result.Some? {
          return aesKey, result.value;
        }
        i := i + 1;
      }
    }

    /** What is learnt from an answer is kept even if it turns out not to be acceptable. */
    method CheckPq(reply: Reply, ch: Chance) returns (r: Option<(PqInner, nat)>)
      modifies this
      ensures (View(), r) == Handshake.CheckPq(context, old(View()), reply, ch)
    {
      if ch.late || !reply.Pq? || reply.nonce != nonce {
        return None;
      }
      serverNonce := reply.serverNonce;
      var rsaKey := context.rsaKey(reply.fingerprints);
      if rsaKey.None? {
        return None;
      }
      var factors := context.factorize(reply.pq);
      if factors.None? {
        return None;
      }
      var (p, q) := factors.value;
      newNonce := ch.newNonce;
      var inner := InnerPq(context, reply.pq, p, q, nonce, serverNonce, newNonce);
      if !PqFits(inner) || |StorePq(inner)| > 144 {
        return None;
      }
      r := Some((inner, rsaKey.value));
    }

    /** If the answer is acceptable, one of the keys that are drawn works for the data. */
    ghost predicate KeysSuffice(reply: Reply, ch: Chance, keys: seq<Secret>)
      requires Usable(ch)
      reads this
    {
      var checked := Handshake.CheckPq(context, View(), reply, ch).1;
      checked.Some? ==> OneWorks(context.crypto, Fill(StorePq(checked.value.0), ch.fill), keys)
    }

    /** The key with which padding ended is the one of the step's random choices. */
    method OnResPq(reply: Reply, ch: Chance, keys: seq<Secret>) returns (ok: bool, aesKey: Secret)
      requires Usable(ch) && KeysSuffice(reply, ch, keys)
      modifies this
      ensures var step := Handshake.OnResPq(context, old(View()), reply, ch.(aesKey := aesKey));
        (ok <==> step.Next?) && View() == step.client
    {
      aesKey := ch.aesKey;
      var checked := CheckPq(reply, ch);
      if checked.None? {
        return false, aesKey;
      }
      var (inner, fingerprint) := checked.value;
      var encrypted;
      aesKey, encrypted := PadAndEncrypt(Fill(StorePq(inner), ch.fill), keys);
      AnyKeyWorks(context, old(View()), reply, ch, aesKey, encrypted);
      RequestParams(inner, fingerprint, encrypted);
      ok := true;
    }

    method RequestParams(inner: PqInner, fingerprint: nat, encrypted: Data)
      modifies this
      ensures View() == AwaitDhParams(old(View()), inner, fingerprint, encrypted)
    {
      Send(ReqDhParams(nonce, serverNonce, inner.p, inner.q, fingerprint, encrypted));
      state := ServerDhParams;
    }

    /** The query is remembered until it is answered. */
    method Send(query: Query)
      modifies this`lastQuery
      ensures lastQuery == Some(query)
    {
      lastQuery := Some(query);
    }

    /** What the server has encrypted, if it belongs to this exchange. */
    method OpenAnswer(reply: Reply, late: bool) returns (r: Option<ServerInner>)
      ensures r == Opened(context, View(), reply, late)
    {
      if late || !reply.DhParams? || reply.nonce != nonce || reply.serverNonce != serverNonce {
        return None;
      }
      if |reply.encryptedAnswer| % 16 != 0 {
        return None;
      }
      var answer := OpenServer(context.crypto, serverNonce, newNonce, reply.encryptedAnswer);
      if answer.None? {
        return None;
      }
      if answer.value.nonce != nonce || answer.value.serverNonce != serverNonce {
        return None;
      }
      r := answer;
    }

    method OnServerDhParams(reply: Reply, ch: Chance, callback: DhCallback?) returns (ok: bool)
      requires Usable(ch) && (callback != null ==> callback.Truthful())
      modifies this, if callback == null then {} else {callback}
      ensures callback != null ==> callback.Truthful()
      ensures var step := Handshake.OnServerDhParams(context, old(View()), reply, ch);
        (ok <==> step.Next?) && View() == step.client
    {
      var answer := OpenAnswer(reply, ch.late);
      AfterOpening(context, View(), reply, ch, answer);
      if answer.None? {
        return false;
      }
      var gb, key;
      ok, gb, key := ExchangeKeys(answer.value, ch.b, callback);
      if ok {
        SendParams(gb, key, ch.pad);
      }
    }

    method ExchangeKeys(inner: ServerInner, b: nat, callback: DhCallback?) returns (ok: bool, gb: Data, key: Data)
      requires callback != null ==> callback.Truthful()
      modifies if callback == null then {} else {callback}
      ensures callback != null ==> callback.Truthful()
      ensures ok <==> Checks(Side(context, inner, b), false) == Accepted
      ensures ok ==> StringFits(|gb|) && gb == ToBinary(Side(context, inner, b).gb)
      ensures ok ==> key == KeyBytes(SharedNumber(Side(context, inner, b)))
    {
      var handshake := new DhHandshake(context.crypto.sha256);
      handshake.SetConfig(inner.g, inner.prime, b);
      handshake.SetGa(inner.ga);
      var verdict := handshake.RunChecks(false, callback);
      if verdict != Accepted {
        return false, [], [];
      }
      PublicValueFits(handshake.View());
      ok := true;
      gb := handshake.GetGb();
      key := handshake.GenKey();
    }

    method SendParams(gb: Data, key: Data, pad: Data)
      requires StringFits(|gb|) && |pad| == 15
      modifies this
      ensures View() == AwaitConfirmation(context, old(View()), gb, key, pad)
    {
      var data := StoreClient(ClientInner(nonce, serverNonce, Zeros(8), gb));
      var sealed := Seal(context.crypto, serverNonce, newNonce, data, PadFor(data, pad));
      Send(SetClientDhParams(nonce, serverNonce, sealed));
      authKey := key;
      serverSalt := Salt(newNonce, serverNonce);
      state := DhGenResponse;
    }

    method OnDhGenResponse(reply: Reply) returns (ok: bool)
      modifies this
      ensures var step := Handshake.OnDhGenResponse(context, old(View()), reply);
        (ok <==> step.Next?) && View() == step.client
    {
      if !reply.GenOk? || reply.nonce != nonce || reply.serverNonce != serverNonce {
        return false;
      }
      if reply.hash != NewNonceHash(context.crypto, newNonce, authKey) {
        return false;
      }
      state := Finish;
      ok := true;
    }

    /** Called only while a message is awaited; any error starts all over. */
    method OnMessage(reply: Reply, ch: Chance, keys: seq<Secret>, callback: DhCallback?) returns (ok: bool, aesKey: Secret)
      requires Waiting(View()) && Usable(ch) && (state == ResPq ==> KeysSuffice(reply, ch, keys))
      requires callback != null ==> callback.Truthful()
      modifies this, if callback == null then {} else {callback}
      ensures callback != null ==> callback.Truthful()
      ensures View() == Handshake.OnMessage(context, old(View()), reply, ch.(aesKey := aesKey))
      ensures ok <==> StepOf(context, old(View()), reply, ch.(aesKey := aesKey)).Next?
    {
      aesKey := ch.aesKey;
      if state == ResPq {
        ok, aesKey := OnResPq(reply, ch, keys);
      } else if state == ServerDhParams {
        ok := OnServerDhParams(reply, ch, callback);
      } else {
        ok := OnDhGenResponse(reply);
      }
      if !ok {
        Clear();
      }
    }

    method Resume(ch: Chance)
      modifies this
      ensures View() == Handshake.Resume(old(View()), ch)
    {
      if state == Start {
        var _ := OnStart(ch);
      } else if state == Finish || lastQuery.None? {
        Clear();
      }
    }
  }
}
