/**
 Building a packet (CryptoStorer.h, CryptoImpl): the service messages draw their
 identifiers from the session one after the other, and a container, if there is one,
 draws its own last.
 */
module CryptoPacket {
  import opened Bytes
  import opened TlBytes
  import opened PacketStorer
  import opened Container
  import opened MessageIds
  import opened Session

  datatype Built =
    | Built(packet: Storer, mixed: bool, ids: seq<Long>, seqNo: Word, containerId: Long,
            parentId: Long, getInfoId: Long, resendId: Long, pingId: Long)
    | NothingToSend

  /** A container is needed for several messages, and for a query whose identifier is stale. */
  predicate NeedsContainer(r: Request, serverTime: real) {
    Count(r) > 1 || (r.toSend != [] && !IsValidOutbound(r.toSend[0].messageId, serverTime))
  }

  /** The positions of the messages whose identifiers the caller asks for; 0 is no message. */
  function IdAt(ids: seq<Long>, there: bool, i: nat): Long {
    if there && i < |ids| then ids[i] else 0
  }

  function GetInfoIndex(r: Request): nat {
    One(r.toAck != []) + One(r.maxDelay >= 0) + One(r.futureSalts > 0)
  }

  ghost predicate Increasing(ids: seq<Long>, from: nat) {
    && (forall i :: 0 <= i < |ids| ==> ids[i] > from)
    && forall i, j :: 0 <= i < j < |ids| ==> ids[i] < ids[j]
  }

  lemma IncreasingMore(ids: seq<Long>, from: nat, id: Long)
    requires Increasing(ids, from) && id > from && (ids != [] ==> id > ids[|ids| - 1])
    ensures Increasing(ids + [id], from)
  {
    forall i | 0 <= i < |ids| ensures ids[i] < id {
      assert i < |ids| - 1 ==> ids[i] < ids[|ids| - 1];
    }
  }

  lemma NextFits(last: nat, serverTime: real, rx: Random, top: nat)
    requires serverTime >= 0.0 && Ticks(serverTime) + BLOCK <= top && last <= top
    ensures MessageIds.NextMessageId(last, serverTime, rx) <= top + 8192
  {
    ClockBounds(serverTime, rx);
    BumpBounds(rx);
  }

  /** Time enough is left before identifiers of 64 bits run out. */
  ghost predicate InTime(auth: AuthData, now: real, top: nat, calls: nat)
    reads auth
  {
    && auth.GetServerTime(now) >= 0.0 && Ticks(auth.GetServerTime(now)) + BLOCK <= top
    && auth.lastMessageId <= top && top + 8192 * calls < LONG
  }

  method DrawIds(count: nat, auth: AuthData, now: real, ghost top: nat) returns (ids: seq<Long>)
    requires auth.Valid() && InTime(auth, now, top, count + 1)
    modifies auth`lastMessageId
    ensures auth.Valid() && InTime(auth, now, top + 8192 * count, 1)
    ensures |ids| == count && Increasing(ids, old(auth.lastMessageId))
    ensures forall i :: 0 <= i < count ==> ids[i] <= auth.lastMessageId
    ensures auth.lastMessageId >= old(auth.lastMessageId)
  {
    ids := [];
    for i := 0 to count
      invariant auth.Valid() && InTime(auth, now, top + 8192 * i, count + 1 - i)
      invariant |ids| == i && Increasing(ids, old(auth.lastMessageId))
      invariant auth.lastMessageId == if i == 0 then old(auth.lastMessageId) else ids[i - 1]
    {
      var rx: Random := *;
      NextFits(auth.lastMessageId, auth.GetServerTime(now), rx, top + 8192 * i);
      var id := auth.NextMessageId(now, rx);
      IncreasingMore(ids, old(auth.lastMessageId), id);
      ids := ids + [id];
    }
  }

  /** The packet holds all parts of the request, in a container exactly if one is needed. */
  ghost predicate Holds(r: Request, b: Built, serverTime: real) {
    && b.Built? && Count(r) > 0 && |b.ids| == ServiceCount(r)
    && (b.mixed <==> NeedsContainer(r, serverTime))
    && |PartStorers(r, b.ids, b.seqNo)| == Count(r)
    && b.packet == Packet(PartStorers(r, b.ids, b.seqNo), b.mixed, b.containerId, b.seqNo)
  }

  /** The identifiers grow from the last one of the session, the container's is the largest. */
  ghost predicate Numbered(r: Request, b: Built, last: nat) {
    && b.Built? && |b.ids| == ServiceCount(r) && Increasing(b.ids, last)
    && (b.mixed ==> b.containerId > last && forall id :: id in b.ids ==> b.containerId > id)
  }

  /** What the caller is told: the identifier to wait for, and those of single messages. */
  ghost predicate Reported(r: Request, b: Built) {
    && b.Built? && |r.toSend| + |b.ids| > 0
    && b.parentId == (if b.mixed then b.containerId else if r.toSend != [] then r.toSend[0].messageId else b.ids[0])
    && b.getInfoId == IdAt(b.ids, r.getInfo != [], GetInfoIndex(r))
    && b.resendId == IdAt(b.ids, r.resend != [], GetInfoIndex(r) + One(r.getInfo != []))
    && b.pingId == IdAt(b.ids, r.pingId != 0, ServiceCount(r) - One(r.pingId != 0))
  }

  method DrawContainerId(r: Request, auth: AuthData, now: real, mixed: bool, ids: seq<Long>, ghost top: nat)
    returns (id: Long)
    requires auth.Valid() && InTime(auth, now, top, 1)
    requires forall i :: 0 <= i < |ids| ==> ids[i] <= auth.lastMessageId
    modifies auth`lastMessageId
    ensures auth.Valid() && (mixed ==> id > old(auth.lastMessageId) && forall x :: x in ids ==> id > x)
  {
    id := 0;
    if mixed {
      var rx: Random := *;
      NextFits(auth.lastMessageId, auth.GetServerTime(now), rx, top);
      id := auth.NextMessageId(now, rx);
    }
  }

  function Assemble(r: Request, parts: seq<Storer>, ids: seq<Long>, seqNo: Word, mixed: bool, containerId: Long): (b: Built)
    requires |ids| == ServiceCount(r) && |parts| == Count(r) > 0 && (!mixed ==> Count(r) == 1)
  {
    Built(Packet(parts, mixed, containerId, seqNo), mixed, ids, seqNo, containerId,
          if mixed then containerId else if r.toSend != [] then r.toSend[0].messageId else ids[0],
          IdAt(ids, r.getInfo != [], GetInfoIndex(r)),
          IdAt(ids, r.resend != [], GetInfoIndex(r) + One(r.getInfo != [])),
          IdAt(ids, r.pingId != 0, ServiceCount(r) - One(r.pingId != 0)))
  }

  lemma Assembled(r: Request, parts: seq<Storer>, ids: seq<Long>, seqNo: Word, mixed: bool, containerId: Long,
                  last: nat, serverTime: real)
    requires |ids| == ServiceCount(r) && |parts| == Count(r) > 0 && (!mixed ==> Count(r) == 1)
    requires parts == PartStorers(r, ids, seqNo) && (mixed <==> NeedsContainer(r, serverTime))
    requires Increasing(ids, last) && (mixed ==> containerId > last && forall id :: id in ids ==> containerId > id)
    ensures var b := Assemble(r, parts, ids, seqNo, mixed, containerId);
      Holds(r, b, serverTime) && Numbered(r, b, last) && Reported(r, b) && b.seqNo == seqNo
  {}

  /** All that a request draws from the session. */
  method Draw(n: nat, r: Request, auth: AuthData, now: real, ghost top: nat)
    returns (ids: seq<Long>, seqNo: Word, mixed: bool, containerId: Long)
    requires auth.Valid() && auth.seqNo < WORD && InTime(auth, now, top, n + 1)
    modifies auth`lastMessageId, auth`seqNo
    ensures auth.Valid() && auth.seqNo == old(auth.seqNo) == seqNo
    ensures |ids| == n && Increasing(ids, old(auth.lastMessageId))
    ensures mixed <==> NeedsContainer(r, auth.GetServerTime(now))
    ensures mixed ==> containerId > old(auth.lastMessageId) && forall id :: id in ids ==> containerId > id
  {
    ids := DrawIds(n, auth, now, top);
    seqNo := auth.NextSeqNo(false);
    mixed := NeedsContainer(r, auth.GetServerTime(now));
    containerId := DrawContainerId(r, auth, now, mixed, ids, top + 8192 * n);
  }

  method Build(r: Request, auth: AuthData, now: real, ghost top: nat) returns (b: Built)
    requires auth.Valid() && auth.seqNo < WORD && InTime(auth, now, top, ServiceCount(r) + 1)
    modifies auth`lastMessageId, auth`seqNo
    ensures auth.Valid() && auth.seqNo == old(auth.seqNo)
    ensures b == NothingToSend <==> Count(r) == 0
    ensures b.Built? ==> Holds(r, b, auth.GetServerTime(now)) && b.seqNo == old(auth.seqNo)
    ensures b.Built? ==> Numbered(r, b, old(auth.lastMessageId)) && Reported(r, b)
  {
    if Count(r) == 0 {
      return NothingToSend;
    }
    var ids, seqNo, mixed, containerId := Draw(ServiceCount(r), r, auth, now, top);
    var parts := PartStorers(r, ids, seqNo);
    PartsCount(r, ids, seqNo);
    b := Assemble(r, parts, ids, seqNo, mixed, containerId);
    Assembled(r, parts, ids, seqNo, mixed, containerId, old(auth.lastMessageId), auth.GetServerTime(now));
  }

  /** A receiver gets exactly the requested messages, in order. */
  lemma BuiltArrives(r: Request, b: Built, serverTime: real)
    requires Fits(r) && Holds(r, b, serverTime)
    requires 8 + Size(ConcatAll(PartStorers(r, b.ids, b.seqNo))) < WORD
    ensures Storable(b.packet) && Receive(Store(b.packet)) == Received(Messages(r, b.ids, b.seqNo), [])
  {
    FewParts(r);
    RequestArrives(r, b.ids, b.seqNo, b.mixed, b.containerId);
  }

  lemma FewParts(r: Request)
    requires Fits(r)
    ensures Count(r) < SIGN
  {}

  /** With queries that were numbered before, the identifier of a container is greater than
      those of all messages in it. */
  lemma ContainerIsLargest(r: Request, b: Built, last: nat, i: nat)
    requires Fits(r) && Numbered(r, b, last) && b.mixed
    requires forall j :: 0 <= j < |r.toSend| ==> r.toSend[j].messageId <= last
    requires i < |Messages(r, b.ids, b.seqNo)|
    ensures Messages(r, b.ids, b.seqNo)[i].id < b.containerId
  {
    CountIsExact(r, b.ids, b.seqNo);
    MessageIdAt(r, b.ids, b.seqNo, i);
    if i >= |r.toSend| {
      assert b.ids[i - |r.toSend|] in b.ids;
    }
  }
}
