/**
 The state of a session with a server (AuthData.h, AuthData.cpp): the estimate of the
 server's clock, salts, and the checks on incoming packets.
 */
module Session {
  import opened Bytes
  import opened Doubles
  import opened MessageIds
  import Filter = DuplicateChecker

  datatype ServerSalt = ServerSalt(salt: nat, validSince: real, validUntil: real)

  // ---- salts ----

  predicate IsDue(s: ServerSalt, serverTime: real) {
    s.validSince < serverTime
  }

  /** The salts that stay for later; they are taken from the back. */
  function Kept(future: seq<ServerSalt>, serverTime: real): seq<ServerSalt> {
    if future == [] || !IsDue(future[|future| - 1], serverTime) then future
    else Kept(future[..|future| - 1], serverTime)
  }

  function SaltAt(salt: ServerSalt, future: seq<ServerSalt>, serverTime: real): ServerSalt
    decreases |future|
  {
    if future == [] || !IsDue(future[|future| - 1], serverTime) then salt
    else SaltAt(future[|future| - 1], future[..|future| - 1], serverTime)
  }

  /** Latest first. */
  predicate Descending(salts: seq<ServerSalt>) {
    forall i, j :: 0 <= i < j < |salts| ==> salts[i].validSince >= salts[j].validSince
  }

  /** Looking at the salts in between does not matter: the salt depends on the time alone. */
  lemma {:induction false} SaltsCompose(salt: ServerSalt, future: seq<ServerSalt>, earlier: real, later: real)
    requires earlier <= later
    ensures Kept(Kept(future, earlier), later) == Kept(future, later)
    ensures SaltAt(SaltAt(salt, future, earlier), Kept(future, earlier), later) == SaltAt(salt, future, later)
    decreases |future|
  {
    if future != [] && IsDue(future[|future| - 1], earlier) {
      SaltsCompose(future[|future| - 1], future[..|future| - 1], earlier, later);
    }
  }

  /** Of salts sorted latest first, exactly those not due are kept, and the salt in use is
      the one that became due last, or the old one if none is due. */
  lemma {:induction false} SaltIsLatestDue(salt: ServerSalt, future: seq<ServerSalt>, serverTime: real)
    requires Descending(future)
    ensures var k := |Kept(future, serverTime)|;
      && k <= |future| && Kept(future, serverTime) == future[..k]
      && (forall i :: 0 <= i < |future| ==> (IsDue(future[i], serverTime) <==> i >= k))
      && SaltAt(salt, future, serverTime) == if k < |future| then future[k] else salt
    decreases |future|
  {
    var n := |future| - 1;
    if future != [] && IsDue(future[n], serverTime) {
      SaltIsLatestDue(future[n], future[..n], serverTime);
      var k := |Kept(future, serverTime)|;
      assert Kept(future, serverTime) == Kept(future[..n], serverTime) == future[..n][..k] == future[..k];
      forall i | 0 <= i < |future| ensures IsDue(future[i], serverTime) <==> i >= k {
        if i < n {
          assert future[..n][i] == future[i];
        }
      }
    }
  }

  function InsertSalt(salts: seq<ServerSalt>, s: ServerSalt): seq<ServerSalt> {
    if salts == [] || salts[0].validSince <= s.validSince then [s] + salts
    else [salts[0]] + InsertSalt(salts[1..], s)
  }

  lemma {:induction false} InsertKeepsOrder(salts: seq<ServerSalt>, s: ServerSalt)
    requires Descending(salts)
    ensures Descending(InsertSalt(salts, s)) && multiset(InsertSalt(salts, s)) == multiset(salts) + multiset{s}
  {
    if salts != [] && salts[0].validSince > s.validSince {
      InsertKeepsOrder(salts[1..], s);
      assert salts == [salts[0]] + salts[1..];
      forall x | x in InsertSalt(salts[1..], s) ensures x.validSince <= salts[0].validSince {
        assert x in multiset(InsertSalt(salts[1..], s));
      }
    }
  }

  method LatestFirst(salts: seq<ServerSalt>) returns (sorted: seq<ServerSalt>)
    ensures multiset(sorted) == multiset(salts) && Descending(sorted)
  {
    sorted := [];
    for i := 0 to |salts|
      invariant multiset(sorted) == multiset(salts[..i]) && Descending(sorted)
    {
      InsertKeepsOrder(sorted, salts[i]);
      sorted := InsertSalt(sorted, salts[i]);
      assert salts[..i + 1] == salts[..i] + [salts[i]];
    }
    assert salts[..|salts|] == salts;
  }

  // ---- the clock of the server ----

  /** Less than this is no progress. */
  function Step(): real {
    Round(0.0001)
  }

  /** The estimate only grows once it has been made. */
  function Difference(wasUpdated: bool, difference: real, diff: real): real {
    if !wasUpdated || Round(difference + Step()) < diff then diff else difference
  }

  predicate IsValidInbound(id: nat, serverTime: real) {
    Round(serverTime - 300.0) < IdTime(id) < Round(serverTime + 30.0)
  }

  function Seconds(id: nat): nat {
    id / WORD
  }

  /** What a packet says about the clock of the server. */
  function Correction(id: nat, now: real): real {
    Round(Seconds(id) as real - now)
  }

  lemma SecondsBelow(id: nat)
    ensures Seconds(id) as real <= id as real / 4294967296.0 < Seconds(id) as real + 1.0
  {
    var s := id / WORD;
    assert s * WORD <= id < s * WORD + WORD;
    assert (s * WORD) as real == s as real * 4294967296.0;
  }

  /** The estimate is hardly below the correction. */
  lemma DifferenceBelow(wasUpdated: bool, difference: real, diff: real)
    requires Abs(diff) <= 2199023255552.0
    ensures Difference(wasUpdated, difference, diff) >= diff - 0.01
  {
    RoundError(0.0001);
    RoundError(difference + Step());
  }

  lemma SumBelow(difference: real, now: real, least: real)
    requires difference + now >= least && Abs(least) <= 8589934592.0
    ensures Round(difference + now) >= least - 0.01
  {
    RoundError(difference + now);
  }

  /** A packet corrects the estimate before its own identifier is compared with it, so no
      packet is ever found to be too new: only packets from the past are refused. Clocks are
      within 2^40 seconds. */
  lemma NeverTooNew(wasUpdated: bool, difference: real, id: nat, now: real)
    requires id < 0x1_0000_0000_0000_0000 && Abs(now) <= 1099511627776.0
    ensures var serverTime := Round(Difference(wasUpdated, difference, Correction(id, now)) + now);
      IsValidInbound(id, serverTime) <==> Round(serverTime - 300.0) < IdTime(id)
  {
    SecondsBelow(id);
    var sec := Seconds(id) as real;
    RoundError(sec - now);
    var d := Difference(wasUpdated, difference, Correction(id, now));
    DifferenceBelow(wasUpdated, difference, Correction(id, now));
    SumBelow(d, now, sec - 0.1);
    RoundError(id as real);
    SumBelow(Round(d + now), 30.0, sec + 29.0);
  }

  // ---- packets ----

  datatype Verdict = Accepted | OtherSession | EvenId | Seen(status: Filter.Status) | OutOfTime

  class AuthData {
    var serverTimeDifferenceWasUpdated: bool
    var serverTimeDifference: real
    var serverSalt: ServerSalt
    var futureSalts: seq<ServerSalt>
    var lastMessageId: nat
    var seqNo: nat
    var sessionId: nat
    const duplicateChecker: Filter.MessageIdDuplicateChecker

    ghost predicate Valid()
      reads this, duplicateChecker, duplicateChecker.savedMessageIds
    {
      duplicateChecker.Valid() && lastMessageId % 4 == 0 && seqNo % 2 == 0
    }

    constructor (salt: ServerSalt, sessionId: nat)
      ensures Valid() && lastMessageId == 0 && seqNo == 0 && this.sessionId == sessionId
      ensures duplicateChecker.Ids() == [] && duplicateChecker.maxSize == 1000
    {
      serverTimeDifferenceWasUpdated := false;
      serverTimeDifference := 0.0;
      serverSalt := salt;
      futureSalts := [];
      lastMessageId := 0;
      seqNo := 0;
      this.sessionId := sessionId;
      duplicateChecker := new Filter.MessageIdDuplicateChecker(1000);
    }

    function GetServerTime(now: real): real
      reads this
    {
      Round(serverTimeDifference + now)
    }

    method NextMessageId(now: real, rx: Random) returns (id: nat)
      requires Valid() && GetServerTime(now) >= 0.0
      modifies this`lastMessageId
      ensures Valid() && lastMessageId == id == MessageIds.NextMessageId(old(lastMessageId), GetServerTime(now), rx)
      ensures id > old(lastMessageId) && id % 4 == 0
    {
      NextId(lastMessageId, GetServerTime(now), rx);
      id := FromClock(GetServerTime(now), rx);
      if lastMessageId >= id {
        id := lastMessageId + 8 * (rx / BLOCK + 1);
      }
      lastMessageId := id;
    }

    method NextSeqNo(isContentRelated: bool) returns (res: nat)
      requires Valid()
      modifies this`seqNo
      ensures Valid() && (res, seqNo) == MessageIds.NextSeqNo(old(seqNo), isContentRelated)
    {
      res := seqNo;
      if isContentRelated {
        res := OrOne(res);
        seqNo := seqNo + 2;
      }
    }

    method UpdateSalt(now: real)
      modifies this`serverSalt, this`futureSalts
      ensures futureSalts == Kept(old(futureSalts), GetServerTime(now))
      ensures serverSalt == SaltAt(old(serverSalt), old(futureSalts), GetServerTime(now))
    {
      var serverTime := GetServerTime(now);
      while futureSalts != [] && futureSalts[|futureSalts| - 1].validSince < serverTime
        invariant Kept(futureSalts, serverTime) == Kept(old(futureSalts), serverTime)
        invariant SaltAt(serverSalt, futureSalts, serverTime) == SaltAt(old(serverSalt), old(futureSalts), serverTime)
        decreases |futureSalts|
      {
        serverSalt := futureSalts[|futureSalts| - 1];
        futureSalts := futureSalts[..|futureSalts| - 1];
      }
    }

    /** Sorting leaves some arrangement of the salts, latest first. */
    method SetFutureSalts(salts: seq<ServerSalt>, now: real)
      modifies this`serverSalt, this`futureSalts
      ensures salts == [] ==> serverSalt == old(serverSalt) && futureSalts == old(futureSalts)
      ensures salts != [] ==>
                exists sorted :: multiset(sorted) == multiset(salts) && Descending(sorted)
                  && futureSalts == Kept(sorted, GetServerTime(now))
                  && serverSalt == SaltAt(old(serverSalt), sorted, GetServerTime(now))
    {
      if salts == [] {
        return;
      }
      futureSalts := LatestFirst(salts);
      ghost var sorted := futureSalts;
      UpdateSalt(now);
    }

    method UpdateServerTimeDifference(diff: real) returns (updated: bool)
      modifies this`serverTimeDifference, this`serverTimeDifferenceWasUpdated
      ensures serverTimeDifferenceWasUpdated
      ensures serverTimeDifference == Difference(old(serverTimeDifferenceWasUpdated), old(serverTimeDifference), diff)
      ensures updated <==> !old(serverTimeDifferenceWasUpdated) || Round(old(serverTimeDifference) + Step()) < diff
    {
      if !serverTimeDifferenceWasUpdated {
        serverTimeDifferenceWasUpdated := true;
        serverTimeDifference := diff;
        updated := true;
      } else if Round(serverTimeDifference + Step()) < diff {
        serverTimeDifference := diff;
        updated := true;
      } else {
        updated := false;
      }
    }

    /** The identifier of a packet of this session is remembered even if the packet is then
        found to be out of time. */
    method CheckPacket(session: nat, id: nat, now: real) returns (verdict: Verdict, timeUpdated: bool)
      requires Valid() && sessionId != 0
      modifies this`serverTimeDifference, this`serverTimeDifferenceWasUpdated
      modifies duplicateChecker, duplicateChecker.savedMessageIds
      ensures Valid()
      ensures var seen := Filter.ArrayCheck(duplicateChecker.maxSize, old(duplicateChecker.Ids()), id);
        var mine := session == sessionId && id % 2 == 1;
        && (duplicateChecker.Ids() == if mine then seen.1 else old(duplicateChecker.Ids()))
        && (verdict == OtherSession <==> session != sessionId)
        && (verdict == EvenId <==> session == sessionId && id % 2 == 0)
        && (verdict.Seen? <==> mine && seen.0 != Filter.Ok) && (verdict.Seen? ==> verdict.status == seen.0)
        && (!(mine && seen.0 == Filter.Ok) ==>
             serverTimeDifference == old(serverTimeDifference) && !timeUpdated
             && serverTimeDifferenceWasUpdated == old(serverTimeDifferenceWasUpdated))
        && (mine && seen.0 == Filter.Ok ==>
             serverTimeDifferenceWasUpdated
             && (timeUpdated <==> !old(serverTimeDifferenceWasUpdated)
                                  || Round(old(serverTimeDifference) + Step()) < Correction(id, now))
             && serverTimeDifference == Difference(old(serverTimeDifferenceWasUpdated), old(serverTimeDifference),
                                                Correction(id, now))
             && (verdict == Accepted <==> IsValidInbound(id, GetServerTime(now))))
    {
      timeUpdated := false;
      if sessionId != session {
        return OtherSession, false;
      }
      if id % 2 == 0 {
        return EvenId, false;
      }
      var status := duplicateChecker.Check(id);
      if status != Filter.Ok {
        return Seen(status), false;
      }
      timeUpdated := UpdateServerTimeDifference(Correction(id, now));
      if serverTimeDifferenceWasUpdated && !IsValidInbound(id, GetServerTime(now)) {
        return OutOfTime, timeUpdated;
      }
      verdict := Accepted;
    }
  }
}
