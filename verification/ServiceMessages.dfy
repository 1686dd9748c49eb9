/**
 What the messages of a packet say (CryptoStorer.h, mtproto_api.tl): a receiver that reads
 their bodies finds every service request and every query, with its arguments, in order.
 */
module ServiceMessages {
  import opened Sequences
  import opened Bytes
  import opened TlBytes
  import opened PacketStorer
  import opened Container

  datatype Service =
    | MsgsAck(ids: seq<Long>)
    | HttpWait(maxDelay: Word, waitAfter: Word, maxWait: Word)
    | GetFutureSalts(num: Word)
    | MsgsStateReq(ids: seq<Long>)
    | MsgResendReq(ids: seq<Long>)
    | RpcDropAnswer(id: Long)
    | DestroyAuthKey
    | PingDelayDisconnect(pingId: Long, delay: Word)
    | Unknown

  // ---- the receiver ----

  function FetchLong(b: seq<Byte>): Parsed<Long> {
    if |b| < 8 then Failed else Parsed(ReadLong(b), b[8..])
  }

  function FetchLongs(n: nat, b: seq<Byte>): Parsed<seq<Long>> {
    if n == 0 then Parsed([], b)
    else
      match FetchLong(b)
      case Failed => Failed
      case Parsed(x, rest) =>
        match FetchLongs(n - 1, rest)
        case Failed => Failed
        case Parsed(more, left) => Parsed([x] + more, left)
  }

  /** A boxed vector of identifiers. */
  function FetchIds(b: seq<Byte>): Parsed<seq<Long>> {
    match FetchInt(b)
    case Failed => Failed
    case Parsed(id, more) =>
      if id != VECTOR then Failed
      else
        match FetchInt(more)
        case Failed => Failed
        case Parsed(n, rest) => FetchLongs(n, rest)
  }

  function ThreeWords(b: seq<Byte>): Parsed<(Word, Word, Word)> {
    match FetchInt(b)
    case Failed => Failed
    case Parsed(x, rest) =>
      match FetchInt(rest)
      case Failed => Failed
      case Parsed(y, more) =>
        match FetchInt(more)
        case Failed => Failed
        case Parsed(z, left) => Parsed((x, y, z), left)
  }

  function Finished(p: Parsed<Service>): Service {
    if p.Parsed? && p.rest == [] then p.value else Unknown
  }

  function OfIds(p: Parsed<seq<Long>>, make: seq<Long> -> Service): Parsed<Service> {
    match p case Parsed(ids, rest) => Parsed(make(ids), rest) case Failed => Failed
  }

  /** The message whose constructor has been read. */
  function Arguments(id: Word, b: seq<Byte>): Parsed<Service> {
    if id == 0x62d6b459 then OfIds(FetchIds(b), ids => MsgsAck(ids))
    else if id == 0xda69fb52 then OfIds(FetchIds(b), ids => MsgsStateReq(ids))
    else if id == 0x7d861a08 then OfIds(FetchIds(b), ids => MsgResendReq(ids))
    else if id == 0x9299359f then
      (match ThreeWords(b) case Parsed(w, rest) => Parsed(HttpWait(w.0, w.1, w.2), rest) case Failed => Failed)
    else if id == 0xb921bd04 then
      (match FetchInt(b) case Parsed(n, rest) => Parsed(GetFutureSalts(n), rest) case Failed => Failed)
    else if id == 0x58e4a740 then
      (match FetchLong(b) case Parsed(x, rest) => Parsed(RpcDropAnswer(x), rest) case Failed => Failed)
    else if id == 0xd1435160 then Parsed(DestroyAuthKey, b)
    else if id == 0xf3427b8c then
      (match FetchLong(b)
       case Failed => Failed
       case Parsed(x, more) =>
         match FetchInt(more) case Parsed(t, rest) => Parsed(PingDelayDisconnect(x, t), rest) case Failed => Failed)
    else Failed
  }

  /** A body must be read to its end. */
  function ReadService(b: seq<Byte>): Service {
    match FetchInt(b)
    case Failed => Unknown
    case Parsed(id, rest) => Finished(Arguments(id, rest))
  }

  // ---- what was asked for ----

  function When(b: bool, s: Service): seq<Service> {
    if b then [s] else []
  }

  function Drops(cancel: seq<Long>): seq<Service> {
    seq(|cancel|, i requires 0 <= i < |cancel| => RpcDropAnswer(cancel[i]))
  }

  /** The service requests in a request. */
  function Asked(r: Request): seq<Service> {
    When(r.toAck != [], MsgsAck(r.toAck))
    + When(r.maxDelay >= 0, HttpWait(Signed(r.maxDelay), r.maxAfter, r.maxWait))
    + When(r.futureSalts > 0, GetFutureSalts(Signed(r.futureSalts)))
    + When(r.getInfo != [], MsgsStateReq(r.getInfo))
    + When(r.resend != [], MsgResendReq(r.resend))
    + Drops(r.cancel)
    + When(r.destroyKey, DestroyAuthKey)
    + When(r.pingId != 0, PingDelayDisconnect(r.pingId, r.pingTimeout))
  }

  // ---- reading gives back what was asked for ----

  predicate Reads(bodies: seq<seq<Byte>>, asked: seq<Service>) {
    |bodies| == |asked| && forall i :: 0 <= i < |bodies| ==> ReadService(bodies[i]) == asked[i]
  }

  lemma ReadsBoth(a: seq<seq<Byte>>, b: seq<seq<Byte>>, s: seq<Service>, t: seq<Service>)
    requires Reads(a, s) && Reads(b, t)
    ensures Reads(a + b, s + t)
  {}

  lemma {:induction false} LongsRead(ids: seq<Long>, rest: seq<Byte>)
    ensures FetchLongs(|ids|, StoreLongs(ids) + rest) == Parsed(ids, rest)
  {
    if ids == [] {
      assert [] + rest == rest;
    } else {
      var tail := StoreLongs(ids[1..]);
      Associate(StoreLong(ids[0]), tail, rest);
      LongRoundTrip(ids[0], tail + rest);
      LongsRead(ids[1..], rest);
      HeadAndTail(ids);
    }
  }

  /** The stored vector, and what follows, field by field. */
  function IdFields(ids: seq<Long>, rest: seq<Byte>): seq<Byte>
    requires |ids| < SIGN
  {
    StoreInt(VECTOR) + (StoreInt(|ids|) + (StoreLongs(ids) + rest))
  }

  lemma StoresFields(ids: seq<Long>, rest: seq<Byte>)
    requires |ids| < SIGN
    ensures StoreIds(ids) + rest == IdFields(ids, rest)
  {
    Associate(StoreInt(VECTOR) + StoreInt(|ids|), StoreLongs(ids), rest);
    Associate(StoreInt(VECTOR), StoreInt(|ids|), StoreLongs(ids) + rest);
  }

  lemma IdsRead(ids: seq<Long>, rest: seq<Byte>)
    requires |ids| < SIGN
    ensures FetchIds(IdFields(ids, rest)) == Parsed(ids, rest)
  {
    var tail := StoreLongs(ids) + rest;
    IntRoundTrip(VECTOR, StoreInt(|ids|) + tail);
    IntRoundTrip(|ids|, tail);
    LongsRead(ids, rest);
  }

  lemma ReadsBody(id: Word, arguments: seq<Byte>)
    ensures ReadService(StoreInt(id) + arguments) == Finished(Arguments(id, arguments))
  {
    IntRoundTrip(id, arguments);
  }

  /** The three messages that consist of identifiers. */
  predicate OfList(id: Word, ids: seq<Long>, s: Service) {
    || (id == 0x62d6b459 && s == MsgsAck(ids))
    || (id == 0xda69fb52 && s == MsgsStateReq(ids))
    || (id == 0x7d861a08 && s == MsgResendReq(ids))
  }

  lemma IdsMessageReads(id: Word, ids: seq<Long>, stored: seq<Byte>, s: Service)
    requires FetchIds(stored) == Parsed(ids, [])
    requires OfList(id, ids, s)
    ensures ReadService(StoreInt(id) + stored) == s
  {
    ReadsBody(id, stored);
  }

  lemma ListReads(id: Word, ids: seq<Long>, s: Service)
    requires |ids| < SIGN
    requires OfList(id, ids, s)
    ensures Reads(If(ids != [], StoreInt(id) + StoreIds(ids)), When(ids != [], s))
  {
    StoresFields(ids, []);
    NothingMore(StoreIds(ids));
    IdsRead(ids, []);
    IdsMessageReads(id, ids, StoreIds(ids), s);
  }

  lemma IdsMessages(r: Request)
    requires Fits(r)
    ensures Reads(Acks(r), When(r.toAck != [], MsgsAck(r.toAck)))
    ensures Reads(StateRequests(r), When(r.getInfo != [], MsgsStateReq(r.getInfo)))
    ensures Reads(ResendRequests(r), When(r.resend != [], MsgResendReq(r.resend)))
  {
    ListReads(0x62d6b459, r.toAck, MsgsAck(r.toAck));
    ListReads(0xda69fb52, r.getInfo, MsgsStateReq(r.getInfo));
    ListReads(0x7d861a08, r.resend, MsgResendReq(r.resend));
  }

  lemma WaitReads(r: Request)
    ensures Reads(Waits(r), When(r.maxDelay >= 0, HttpWait(Signed(r.maxDelay), r.maxAfter, r.maxWait)))
  {
    var x, y, z := Signed(r.maxDelay), r.maxAfter, r.maxWait;
    var last := StoreInt(z) + [];
    var two := StoreInt(y) + last;
    var all := StoreInt(x) + two;
    NothingMore(StoreInt(z));
    IntRoundTrip(z, []);
    IntRoundTrip(y, last);
    IntRoundTrip(x, two);
    ReadsBody(0x9299359f, all);
    Associate(StoreInt(0x9299359f), StoreInt(x), StoreInt(y));
    Associate(StoreInt(0x9299359f), StoreInt(x) + StoreInt(y), StoreInt(z));
    Associate(StoreInt(x), StoreInt(y), StoreInt(z));
  }

  lemma SaltsRead(r: Request)
    ensures Reads(SaltRequests(r), When(r.futureSalts > 0, GetFutureSalts(Signed(r.futureSalts))))
  {
    var n := Signed(r.futureSalts);
    NothingMore(StoreInt(n));
    IntRoundTrip(n, []);
    ReadsBody(0xb921bd04, StoreInt(n));
  }

  lemma DropReads(id: Long)
    ensures ReadService(StoreInt(0x58e4a740) + StoreLong(id)) == RpcDropAnswer(id)
  {
    NothingMore(StoreLong(id));
    LongRoundTrip(id, []);
    ReadsBody(0x58e4a740, StoreLong(id));
  }

  lemma DropsTail(cancel: seq<Long>)
    requires cancel != []
    ensures Drops(cancel) == [RpcDropAnswer(cancel[0])] + Drops(cancel[1..])
  {}

  lemma {:induction false} DropsRead(cancel: seq<Long>)
    ensures Reads(CancelBodies(cancel), Drops(cancel))
  {
    if cancel != [] {
      DropReads(cancel[0]);
      DropsRead(cancel[1..]);
      ReadsBoth([StoreInt(0x58e4a740) + StoreLong(cancel[0])], CancelBodies(cancel[1..]),
                [RpcDropAnswer(cancel[0])], Drops(cancel[1..]));
      DropsTail(cancel);
    }
  }

  lemma DestroyReads(r: Request)
    ensures Reads(KeyDestructions(r), When(r.destroyKey, DestroyAuthKey))
  {
    NothingMore(StoreInt(0xd1435160));
    ReadsBody(0xd1435160, []);
  }

  lemma PingArguments(id: Long, delay: Word)
    ensures Arguments(0xf3427b8c, StoreLong(id) + StoreInt(delay)) == Parsed(PingDelayDisconnect(id, delay), [])
  {
    LongRoundTrip(id, StoreInt(delay));
    IntRoundTrip(delay, []);
    NothingMore(StoreInt(delay));
  }

  lemma PingReads(r: Request)
    ensures Reads(Pings(r), When(r.pingId != 0, PingDelayDisconnect(r.pingId, r.pingTimeout)))
  {
    PingArguments(r.pingId, r.pingTimeout);
    ReadsBody(0xf3427b8c, StoreLong(r.pingId) + StoreInt(r.pingTimeout));
    Associate(StoreInt(0xf3427b8c), StoreLong(r.pingId), StoreInt(r.pingTimeout));
  }

  lemma ReadsEight(a: seq<seq<Byte>>, b: seq<seq<Byte>>, c: seq<seq<Byte>>, d: seq<seq<Byte>>,
                   e: seq<seq<Byte>>, f: seq<seq<Byte>>, g: seq<seq<Byte>>, h: seq<seq<Byte>>,
                   s: seq<Service>, t: seq<Service>, u: seq<Service>, v: seq<Service>,
                   w: seq<Service>, x: seq<Service>, y: seq<Service>, z: seq<Service>)
    requires Reads(a, s) && Reads(b, t) && Reads(c, u) && Reads(d, v)
    requires Reads(e, w) && Reads(f, x) && Reads(g, y) && Reads(h, z)
    ensures Reads(a + b + c + d + e + f + g + h, s + t + u + v + w + x + y + z)
  {
    ReadsBoth(a, b, s, t);
    ReadsBoth(a + b, c, s + t, u);
    ReadsBoth(a + b + c, d, s + t + u, v);
    ReadsBoth(a + b + c + d, e, s + t + u + v, w);
    ReadsBoth(a + b + c + d + e, f, s + t + u + v + w, x);
    ReadsBoth(a + b + c + d + e + f, g, s + t + u + v + w + x, y);
    ReadsBoth(a + b + c + d + e + f + g, h, s + t + u + v + w + x + y, z);
  }

  /** Every service request can be read from its message, and there are no other messages. */
  lemma ServicesRead(r: Request)
    requires Fits(r)
    ensures Reads(Services(r), Asked(r))
  {
    IdsMessages(r);
    WaitReads(r);
    SaltsRead(r);
    DropsRead(r.cancel);
    DestroyReads(r);
    PingReads(r);
    ReadsEight(
      Acks(r), Waits(r), SaltRequests(r), StateRequests(r), ResendRequests(r), CancelBodies(r.cancel), KeyDestructions(r), Pings(r),
      When(r.toAck != [], MsgsAck(r.toAck)),
      When(r.maxDelay >= 0, HttpWait(Signed(r.maxDelay), r.maxAfter, r.maxWait)),
      When(r.futureSalts > 0, GetFutureSalts(Signed(r.futureSalts))),
      When(r.getInfo != [], MsgsStateReq(r.getInfo)), When(r.resend != [], MsgResendReq(r.resend)), Drops(r.cancel),
      When(r.destroyKey, DestroyAuthKey), When(r.pingId != 0, PingDelayDisconnect(r.pingId, r.pingTimeout)));
  }

  // ---- queries ----

  /** The identifiers that a query is to wait for, and what follows them. */
  function FetchInvokeAfter(b: seq<Byte>): Parsed<seq<Long>> {
    match FetchInt(b)
    case Failed => Failed
    case Parsed(id, rest) =>
      if id == 0xcb9f372d then FetchLongs(1, rest)
      else if id == 0x3dc4b4f0 then FetchIds(rest)
      else Parsed([], b)
  }

  function FetchData(gzip: bool, b: seq<Byte>): Parsed<seq<Byte>> {
    if !gzip then Parsed(b, [])
    else
      match FetchInt(b)
      case Failed => Failed
      case Parsed(id, rest) => if id == 0x3072cfa1 then FetchString(rest) else Failed
  }

  predicate ReadsQuery(q: Query, b: seq<Byte>) {
    match FetchInvokeAfter(b)
    case Failed => false
    case Parsed(ids, rest) => ids == q.invokeAfter && FetchData(q.gzip, rest) == Parsed(q.packet, [])
  }

  predicate AfterReads(ids: seq<Long>, b: seq<Byte>, rest: seq<Byte>) {
    FetchInvokeAfter(b) == Parsed(ids, rest)
  }

  lemma OneReads(id: Long, rest: seq<Byte>)
    ensures AfterReads([id], StoreInt(0xcb9f372d) + StoreLong(id) + rest, rest)
  {
    Associate(StoreInt(0xcb9f372d), StoreLong(id), rest);
    IntRoundTrip(0xcb9f372d, StoreLong(id) + rest);
    LongsRead([id], rest);
    NothingMore(StoreLong(id));
    assert StoreLongs([id]) == StoreLong(id) + StoreLongs([]);
  }

  lemma ManyRead(ids: seq<Long>, stored: seq<Byte>, rest: seq<Byte>)
    requires FetchIds(stored) == Parsed(ids, rest)
    ensures AfterReads(ids, StoreInt(0x3dc4b4f0) + stored, rest)
  {}

  /** One identifier and several are written in two ways, and both are read again. */
  lemma InvokeAfterReads(ids: seq<Long>, rest: seq<Byte>)
    requires 0 < |ids| < SIGN
    ensures AfterReads(ids, InvokeAfter(ids) + rest, rest)
  {
    if |ids| == 1 {
      assert ids == [ids[0]];
      OneReads(ids[0], rest);
    } else {
      StoresFields(ids, rest);
      IdsRead(ids, rest);
      ManyRead(ids, StoreIds(ids) + rest, rest);
      Associate(StoreInt(0x3dc4b4f0), StoreIds(ids), rest);
    }
  }

  lemma DataReads(q: Query)
    requires Storable(QueryData(q))
    ensures FetchData(q.gzip, Store(QueryData(q))) == Parsed(q.packet, [])
  {
    if q.gzip {
      IntRoundTrip(0x3072cfa1, StoreString(q.packet));
      StringRoundTrip(q.packet, []);
      NothingMore(StoreString(q.packet));
    }
  }

  lemma CutFront(a: seq<Byte>, b: seq<Byte>)
    ensures (a + b)[..|a|] == a && (a + b)[|a|..] == b
  {}

  /** After the header, a query names what it waits for, and then comes its packet; the packet
      of a query that waits for nothing is all that follows. */
  lemma QueryReads(q: Query, header: seq<Byte>)
    requires Storable(QueryBody(q, header)) && |q.invokeAfter| < SIGN
    ensures var body := Store(QueryBody(q, header));
      && |body| >= |header| && body[..|header|] == header
      && (q.invokeAfter != [] ==> ReadsQuery(q, body[|header|..]))
      && (q.invokeAfter == [] ==> FetchData(q.gzip, body[|header|..]) == Parsed(q.packet, []))
  {
    var data := Store(QueryData(q));
    var rest := InvokeAfter(q.invokeAfter) + data;
    StoresInFront(InvokeAfter(q.invokeAfter), QueryData(q));
    StoresInFront(header, Concat(Slice(InvokeAfter(q.invokeAfter)), QueryData(q)));
    CutFront(header, rest);
    DataReads(q);
    if q.invokeAfter == [] {
      assert rest == data;
    } else {
      InvokeAfterReads(q.invokeAfter, data);
    }
  }

  // ---- a whole packet ----

  lemma JoinedRead(r: Request, bodies: seq<seq<Byte>>, asked: seq<Service>, ids: seq<Long>, seqNo: Word, i: nat)
    requires Fits(r) && Reads(bodies, asked) && |ids| == |bodies| && i < |r.toSend| + |bodies|
    ensures var m := (QueryMessages(r) + Container.ServiceMessages(bodies, ids, seqNo))[i];
      if i < |r.toSend| then
        m == Message(r.toSend[i].messageId, r.toSend[i].seqNo, Store(QueryBody(r.toSend[i], r.header)))
      else
        m.id == ids[i - |r.toSend|] && m.seqNo == seqNo && ReadService(m.body) == asked[i - |r.toSend|]
  {}

  /** The messages of a request, in order: the queries as they were numbered, then the service
      requests under the identifiers drawn for them. */
  lemma MessagesRead(r: Request, ids: seq<Long>, seqNo: Word, i: nat)
    requires Fits(r) && |ids| == ServiceCount(r) && i < Count(r)
    ensures |Messages(r, ids, seqNo)| == |r.toSend| + |Asked(r)| == Count(r)
    ensures var m := Messages(r, ids, seqNo)[i];
      if i < |r.toSend| then
        m == Message(r.toSend[i].messageId, r.toSend[i].seqNo, Store(QueryBody(r.toSend[i], r.header)))
      else
        m.id == ids[i - |r.toSend|] && m.seqNo == seqNo && ReadService(m.body) == Asked(r)[i - |r.toSend|]
  {
    ServicesRead(r);
    ServicesCount(r);
    JoinedRead(r, Services(r), Asked(r), ids, seqNo, i);
  }
}
