/**
 Outgoing packets (CryptoStorer.h): queries and service messages, alone or packed into a
 container, and how a receiver takes a packet apart (SessionConnection.cpp,
 parse_message and on_packet_container).
 */
module Container {
  import opened Sequences
  import opened Bytes
  import opened TlBytes
  import opened PacketStorer

  const LONG: nat := 0x1_0000_0000_0000_0000
  const CONTAINER: Word := 0x73f1f8dc
  const VECTOR: Word := 0x1cb5c415

  type Long = x: nat | x < LONG

  function StoreLong(x: Long): (r: seq<Byte>)
    ensures |r| == 8
  {
    StoreInt(x % WORD) + StoreInt(x / WORD)
  }

  function ReadLong(b: seq<Byte>): Long
    requires |b| >= 8
  {
    ReadInt(b) + WORD * ReadInt(b[4..])
  }

  lemma LongRoundTrip(x: Long, rest: seq<Byte>)
    ensures ReadLong(StoreLong(x) + rest) == x && (StoreLong(x) + rest)[8..] == rest
  {
    var b := StoreLong(x) + rest;
    assert b == StoreInt(x % WORD) + (StoreInt(x / WORD) + rest);
    IntRoundTrip(x % WORD, StoreInt(x / WORD) + rest);
    IntRoundTrip(x / WORD, rest);
  }

  function StoreLongs(ids: seq<Long>): (r: seq<Byte>)
    ensures |r| == 8 * |ids|
  {
    if ids == [] then [] else StoreLong(ids[0]) + StoreLongs(ids[1..])
  }

  /** The conversion of a length to a signed number. One that does not fit ends the program, so
      the value for it does not matter. */
  function NarrowCast(n: nat): Word {
    if n < SIGN then n else 0
  }

  /** A vector of identifiers. */
  function StoreIds(ids: seq<Long>): seq<Byte> {
    StoreInt(VECTOR) + StoreInt(NarrowCast(|ids|)) + StoreLongs(ids)
  }

  // ---- what is to be sent ----

  datatype Query = Query(messageId: Long, seqNo: Word, packet: seq<Byte>, gzip: bool, invokeAfter: seq<Long>)

  datatype Request = Request(toSend: seq<Query>, header: seq<Byte>, toAck: seq<Long>,
                             pingId: Long, pingTimeout: Word,
                             maxDelay: int, maxAfter: Word, maxWait: Word, futureSalts: int,
                             getInfo: seq<Long>, resend: seq<Long>, cancel: seq<Long>, destroyKey: bool)

  function Signed(n: int): Word {
    n % WORD
  }

  function InvokeAfter(ids: seq<Long>): seq<Byte> {
    if ids == [] then []
    else if |ids| == 1 then StoreInt(0xcb9f372d) + StoreLong(ids[0])
    else StoreInt(0x3dc4b4f0) + StoreIds(ids)
  }

  function QueryData(q: Query): Storer {
    if q.gzip then Concat(Slice(StoreInt(0x3072cfa1)), Text(q.packet)) else Slice(q.packet)
  }

  function QueryBody(q: Query, header: seq<Byte>): Storer {
    Concat(Slice(header), Concat(Slice(InvokeAfter(q.invokeAfter)), QueryData(q)))
  }

  function If(b: bool, body: seq<Byte>): (r: seq<seq<Byte>>)
    ensures |r| == One(b)
  {
    if b then [body] else []
  }

  function CancelBodies(cancel: seq<Long>): (r: seq<seq<Byte>>)
    ensures |r| == |cancel|
  {
    if cancel == [] then [] else [StoreInt(0x58e4a740) + StoreLong(cancel[0])] + CancelBodies(cancel[1..])
  }

  function Acks(r: Request): seq<seq<Byte>> {
    If(r.toAck != [], StoreInt(0x62d6b459) + StoreIds(r.toAck))
  }

  function Waits(r: Request): seq<seq<Byte>> {
    If(r.maxDelay >= 0, StoreInt(0x9299359f) + StoreInt(Signed(r.maxDelay)) + StoreInt(r.maxAfter) + StoreInt(r.maxWait))
  }

  function SaltRequests(r: Request): seq<seq<Byte>> {
    If(r.futureSalts > 0, StoreInt(0xb921bd04) + StoreInt(Signed(r.futureSalts)))
  }

  function StateRequests(r: Request): seq<seq<Byte>> {
    If(r.getInfo != [], StoreInt(0xda69fb52) + StoreIds(r.getInfo))
  }

  function ResendRequests(r: Request): seq<seq<Byte>> {
    If(r.resend != [], StoreInt(0x7d861a08) + StoreIds(r.resend))
  }

  function KeyDestructions(r: Request): seq<seq<Byte>> {
    If(r.destroyKey, StoreInt(0xd1435160))
  }

  function Pings(r: Request): seq<seq<Byte>> {
    If(r.pingId != 0, StoreInt(0xf3427b8c) + StoreLong(r.pingId) + StoreInt(r.pingTimeout))
  }

  /** The service messages, in the order in which they are numbered and written. */
  function Services(r: Request): seq<seq<Byte>> {
    Acks(r) + Waits(r) + SaltRequests(r) + StateRequests(r) + ResendRequests(r) + CancelBodies(r.cancel)
    + KeyDestructions(r) + Pings(r)
  }

  function One(b: bool): nat {
    if b then 1 else 0
  }

  /** cnt_ */
  function Count(r: Request): nat {
    |r.toSend| + ServiceCount(r)
  }

  function ServiceCount(r: Request): nat {
    One(r.toAck != []) + One(r.pingId != 0) + One(r.maxDelay >= 0) + One(r.futureSalts > 0)
    + One(r.getInfo != []) + One(r.resend != []) + |r.cancel| + One(r.destroyKey)
  }

  // ---- messages ----

  datatype Message = Message(id: Long, seqNo: Word, body: seq<Byte>)

  function MessageStorer(id: Long, seqNo: Word, body: Storer): Storer {
    Sized(StoreLong(id) + StoreInt(seqNo), body)
  }

  /** The storers of all parts, queries first. */
  function QueryStorers(r: Request): (s: seq<Storer>)
    ensures |s| == |r.toSend|
  {
    seq(|r.toSend|, i requires 0 <= i < |r.toSend| =>
      MessageStorer(r.toSend[i].messageId, r.toSend[i].seqNo, QueryBody(r.toSend[i], r.header)))
  }

  function ServiceStorers(bodies: seq<seq<Byte>>, ids: seq<Long>, seqNo: Word): (s: seq<Storer>)
    requires |ids| == |bodies|
    ensures |s| == |bodies|
  {
    seq(|bodies|, i requires 0 <= i < |bodies| => MessageStorer(ids[i], seqNo, Slice(bodies[i])))
  }

  function ConcatAll(parts: seq<Storer>): Storer {
    if parts == [] then Slice([]) else Concat(parts[0], ConcatAll(parts[1..]))
  }

  function PartStorers(r: Request, ids: seq<Long>, seqNo: Word): seq<Storer>
    requires |ids| == ServiceCount(r)
  {
    ServicesCount(r);
    QueryStorers(r) + ServiceStorers(Services(r), ids, seqNo)
  }

  lemma PartsCount(r: Request, ids: seq<Long>, seqNo: Word)
    requires |ids| == ServiceCount(r)
    ensures |PartStorers(r, ids, seqNo)| == Count(r)
  {
    ServicesCount(r);
  }

  /** The packet: a container around all parts, or the only part. */
  function Packet(parts: seq<Storer>, mixed: bool, containerId: Long, seqNo: Word): Storer
    requires !mixed ==> |parts| == 1
  {
    if mixed then
      MessageStorer(containerId, seqNo, ContainerBody(parts))
    else parts[0]
  }

  // ---- the receiver ----

  datatype Received<T> = Received(value: T, rest: seq<Byte>) | BadPacket

  function ParseMessage(b: seq<Byte>): Received<Message> {
    if |b| < 16 then BadPacket
    else
      var size := ReadInt(b[12..]);
      if size % 4 != 0 || |b| - 16 < size then BadPacket
      else Received(Message(ReadLong(b), ReadInt(b[8..]), b[16..16 + size]), b[16 + size..])
  }

  /** All messages in a message, taking containers apart; what follows the last message of a
      container is not looked at. */
  function Unpack(m: Message): Received<seq<Message>>
    decreases |m.body|, 0
  {
    if |m.body| < 4 then BadPacket
    else if ReadInt(m.body) != CONTAINER then Received([m], [])
    else if |m.body| < 8 then BadPacket
    else
      var n := ReadInt(m.body[4..]);
      UnpackAll(if n < SIGN then n else 0, m.body[8..])
  }

  function UnpackAll(n: nat, b: seq<Byte>): Received<seq<Message>>
    decreases |b|, 1, n
  {
    if n == 0 then Received([], b)
    else
      match ParseMessage(b)
      case BadPacket => BadPacket
      case Received(m, rest) =>
        match Unpack(m)
        case BadPacket => BadPacket
        case Received(first, _) =>
          match UnpackAll(n - 1, rest)
          case BadPacket => BadPacket
          case Received(more, left) => Received(first + more, left)
  }

  function Receive(b: seq<Byte>): Received<seq<Message>> {
    match ParseMessage(b)
    case BadPacket => BadPacket
    case Received(m, _) => Unpack(m)
  }

  // ---- what is sent is what arrives ----

  function StoredMessage(m: Message): seq<Byte>
    requires |m.body| < WORD
  {
    StoreLong(m.id) + StoreInt(m.seqNo) + StoreInt(|m.body|) + m.body
  }

  /** A number of bytes that is a number of 32-bit words. */
  predicate Whole(n: nat) {
    n == 0 || (n >= 4 && Whole(n - 4))
  }

  lemma {:induction false} WholeIsMultiple(n: nat)
    ensures Whole(n) <==> n % 4 == 0
  {
    if n >= 4 {
      WholeIsMultiple(n - 4);
    }
  }

  lemma WholeSum(m: nat, n: nat)
    requires Whole(m) && Whole(n)
    ensures Whole(m + n)
  {
    WholeIsMultiple(m);
    WholeIsMultiple(n);
    WholeIsMultiple(m + n);
  }

  lemma JoinWhole(a: seq<Byte>, b: seq<Byte>)
    requires Whole(|a|) && Whole(|b|)
    ensures Whole(|a + b|)
  {
    WholeSum(|a|, |b|);
    assert |a + b| == |a| + |b|;
  }

  /** A message that a receiver takes as it is: its length is a multiple of four, and it is
      not itself a container. */
  predicate Plain(m: Message) {
    4 <= |m.body| < WORD && Whole(|m.body|) && ReadInt(m.body) != CONTAINER
  }

  lemma ParseStored(m: Message, rest: seq<Byte>)
    requires |m.body| < WORD
    ensures ParseMessage(StoredMessage(m) + rest) == if Whole(|m.body|) then Received(m, rest) else BadPacket
  {
    var b := StoredMessage(m) + rest;
    var afterId := StoreInt(m.seqNo) + (StoreInt(|m.body|) + (m.body + rest));
    assert b == StoreLong(m.id) + afterId;
    LongRoundTrip(m.id, afterId);
    IntRoundTrip(m.seqNo, StoreInt(|m.body|) + (m.body + rest));
    IntRoundTrip(|m.body|, m.body + rest);
    assert b[8..] == afterId && b[12..] == StoreInt(|m.body|) + (m.body + rest) && b[16..] == m.body + rest;
    assert b[16..16 + |m.body|] == m.body && b[16 + |m.body|..] == rest;
    WholeIsMultiple(|m.body|);
  }

  predicate ParsesTo(chunk: seq<Byte>, m: Message, tail: seq<Byte>) {
    ParseMessage(chunk + tail) == Received(m, tail)
  }

  /** Bytes that a receiver reads as the message, whatever follows them. */
  ghost predicate IsChunk(chunk: seq<Byte>, m: Message) {
    Whole(|chunk|) && Plain(m) && forall tail :: ParsesTo(chunk, m, tail)
  }

  ghost predicate IsPart(part: Storer, m: Message) {
    Storable(part) && IsChunk(Store(part), m)
  }

  lemma StoresMessage(id: Long, seqNo: Word, body: Storer)
    requires Storable(body) && |Store(body)| < WORD
    ensures Store(MessageStorer(id, seqNo, body)) == StoredMessage(Message(id, seqNo, Store(body)))
  {
    SizeIsLength(body);
    assert Low32(Size(body)) == |Store(body)| by {
      CountIsWhole(Size(body));
    }
  }

  lemma CountIsWhole(n: nat)
    requires n < WORD
    ensures Low32(n) == n
  {}

  lemma StoredIsChunk(m: Message)
    requires Plain(m)
    ensures IsChunk(StoredMessage(m), m)
  {
    JoinWhole(StoreLong(m.id) + StoreInt(m.seqNo) + StoreInt(|m.body|), m.body);
    forall tail ensures ParsesTo(StoredMessage(m), m, tail) {
      ParseStored(m, tail);
    }
  }

  lemma PartOf(id: Long, seqNo: Word, body: Storer)
    requires Storable(body) && Plain(Message(id, seqNo, Store(body)))
    ensures IsPart(MessageStorer(id, seqNo, body), Message(id, seqNo, Store(body)))
  {
    StoresMessage(id, seqNo, body);
    StoredIsChunk(Message(id, seqNo, Store(body)));
  }

  ghost predicate AreParts(parts: seq<Storer>, messages: seq<Message>) {
    |parts| == |messages| && forall i: nat :: i < |parts| ==> IsPart(parts[i], messages[i])
  }

  /** One message after the other, and then the rest. */
  predicate Reads(b: seq<Byte>, messages: seq<Message>, rest: seq<Byte>) {
    if messages == [] then b == rest
    else
      match ParseMessage(b)
      case Received(m, tail) => m == messages[0] && Plain(m) && Reads(tail, messages[1..], rest)
      case BadPacket => false
  }

  lemma UnpackPlain(m: Message)
    requires Plain(m)
    ensures Unpack(m) == Received([m], [])
  {}

  lemma UnpackNext(n: nat, b: seq<Byte>, m: Message, tail: seq<Byte>, more: seq<Message>, rest: seq<Byte>)
    requires ParseMessage(b) == Received(m, tail) && Unpack(m) == Received([m], [])
    requires UnpackAll(n, tail) == Received(more, rest)
    ensures UnpackAll(n + 1, b) == Received([m] + more, rest)
  {}

  lemma {:induction false} ReadsUnpacks(b: seq<Byte>, messages: seq<Message>, rest: seq<Byte>)
    requires Reads(b, messages, rest)
    ensures UnpackAll(|messages|, b) == Received(messages, rest)
  {
    if messages != [] {
      var m, tail := messages[0], ParseMessage(b).rest;
      ReadsUnpacks(tail, messages[1..], rest);
      UnpackPlain(m);
      UnpackNext(|messages| - 1, b, m, tail, messages[1..], rest);
      HeadAndTail(messages);
    }
  }

  ghost predicate AreChunks(chunks: seq<seq<Byte>>, messages: seq<Message>) {
    |chunks| == |messages| && forall i: nat :: i < |chunks| ==> IsChunk(chunks[i], messages[i])
  }

  lemma {:induction false} JoinIsWhole(chunks: seq<seq<Byte>>)
    requires forall i :: 0 <= i < |chunks| ==> Whole(|chunks[i]|)
    ensures Whole(|Join(chunks)|)
  {
    if chunks != [] {
      JoinIsWhole(chunks[1..]);
      JoinWhole(chunks[0], Join(chunks[1..]));
    }
  }

  lemma ReadsNext(chunk: seq<Byte>, m: Message, tail: seq<Byte>, more: seq<Message>, rest: seq<Byte>)
    requires ParsesTo(chunk, m, tail) && Plain(m) && Reads(tail, more, rest)
    ensures Reads(chunk + tail, [m] + more, rest)
  {
    assert ([m] + more)[1..] == more;
  }

  lemma JoinUnfold(chunks: seq<seq<Byte>>, rest: seq<Byte>)
    requires chunks != []
    ensures Join(chunks) + rest == chunks[0] + (Join(chunks[1..]) + rest)
  {}

  lemma {:induction false} ChunksRead(chunks: seq<seq<Byte>>, messages: seq<Message>, rest: seq<Byte>)
    requires AreChunks(chunks, messages)
    ensures Reads(Join(chunks) + rest, messages, rest)
  {
    if chunks == [] {
      assert [] + rest == rest;
    } else {
      var chunk, all, m, more := chunks[0], Join(chunks[1..]), messages[0], messages[1..];
      assert IsChunk(chunk, m) && ParsesTo(chunk, m, all + rest);
      ChunksRead(chunks[1..], more, rest);
      ReadsNext(chunk, m, all + rest, more, rest);
      JoinUnfold(chunks, rest);
      HeadAndTail(messages);
    }
  }

  ghost predicate AllStorable(parts: seq<Storer>) {
    forall i: nat :: i < |parts| ==> Storable(parts[i])
  }

  function Chunks(parts: seq<Storer>): (c: seq<seq<Byte>>)
    requires AllStorable(parts)
    ensures |c| == |parts|
  {
    seq(|parts|, i requires 0 <= i < |parts| => Store(parts[i]))
  }

  lemma {:induction false} StoreJoins(parts: seq<Storer>)
    requires AllStorable(parts)
    ensures Storable(ConcatAll(parts)) && Store(ConcatAll(parts)) == Join(Chunks(parts))
  {
    if parts != [] {
      StoreJoins(parts[1..]);
      assert Chunks(parts)[1..] == Chunks(parts[1..]);
    }
  }

  lemma PartsAreChunks(parts: seq<Storer>, messages: seq<Message>)
    requires AreParts(parts, messages)
    ensures AllStorable(parts) && AreChunks(Chunks(parts), messages)
  {
    forall i: nat | i < |parts| ensures Storable(parts[i]) && IsChunk(Store(parts[i]), messages[i]) {
      assert IsPart(parts[i], messages[i]);
    }
  }

  /** A receiver gets exactly the messages of the packet, in order. */
  lemma PacketArrives(parts: seq<Storer>, messages: seq<Message>, mixed: bool, containerId: Long, seqNo: Word)
    requires AreParts(parts, messages) && (!mixed ==> |parts| == 1)
    requires |parts| < SIGN && 8 + Size(ConcatAll(parts)) < WORD
    ensures Storable(Packet(parts, mixed, containerId, seqNo))
    ensures Receive(Store(Packet(parts, mixed, containerId, seqNo))) == Received(messages, [])
  {
    if mixed {
      ContainerArrives(parts, messages, containerId, seqNo);
    } else {
      assert IsPart(parts[0], messages[0]);
      var chunk := Store(parts[0]);
      assert chunk + [] == chunk && ParsesTo(chunk, messages[0], []);
      assert messages == [messages[0]];
    }
  }

  function ContainerBody(parts: seq<Storer>): Storer {
    Concat(Slice(StoreInt(CONTAINER) + StoreInt(Low32(|parts|))), ConcatAll(parts))
  }

  lemma StoresInFront(head: seq<Byte>, s: Storer)
    requires Storable(s)
    ensures Store(Concat(Slice(head), s)) == head + Store(s)
    ensures |Store(Concat(Slice(head), s))| == |head| + Size(s)
  {
    SizeIsLength(s);
  }

  lemma CountField(n: nat)
    requires n < WORD
    ensures StoreInt(Low32(n)) == StoreInt(n)
  {
    CountIsWhole(n);
  }

  lemma ContainerBytes(parts: seq<Storer>)
    requires AllStorable(parts) && |parts| < SIGN && 8 + Size(ConcatAll(parts)) < WORD
    ensures Storable(ContainerBody(parts)) && |Store(ContainerBody(parts))| < WORD
    ensures Store(ContainerBody(parts)) == StoreInt(CONTAINER) + StoreInt(|parts|) + Join(Chunks(parts))
  {
    StoreJoins(parts);
    CountField(|parts|);
    StoresInFront(StoreInt(CONTAINER) + StoreInt(|parts|), ConcatAll(parts));
  }

  lemma ContainerArrives(parts: seq<Storer>, messages: seq<Message>, containerId: Long, seqNo: Word)
    requires AreParts(parts, messages)
    requires |parts| < SIGN && 8 + Size(ConcatAll(parts)) < WORD
    ensures var packet := MessageStorer(containerId, seqNo, ContainerBody(parts));
      Storable(packet) && Receive(Store(packet)) == Received(messages, [])
  {
    PartsAreChunks(parts, messages);
    ContainerBytes(parts);
    StoresMessage(containerId, seqNo, ContainerBody(parts));
    ContainerReceived(Message(containerId, seqNo, Store(ContainerBody(parts))), Chunks(parts), messages);
  }

  lemma ContainerReceived(m: Message, chunks: seq<seq<Byte>>, messages: seq<Message>)
    requires AreChunks(chunks, messages) && |chunks| < SIGN && |m.body| < WORD
    requires m.body == StoreInt(CONTAINER) + StoreInt(|chunks|) + Join(chunks)
    ensures Receive(StoredMessage(m)) == Received(messages, [])
  {
    var all := Join(chunks);
    ChunksRead(chunks, messages, []);
    forall i | 0 <= i < |chunks| ensures Whole(|chunks[i]|) {
      assert IsChunk(chunks[i], messages[i]);
    }
    JoinIsWhole(chunks);
    assert all + [] == all;
    ReadsUnpacks(all, messages, []);
    JoinWhole(StoreInt(CONTAINER) + StoreInt(|chunks|), all);
    ReceiveStored(m);
    UnpackContainer(m, |chunks|, all);
  }

  lemma ReceiveStored(m: Message)
    requires |m.body| < WORD && Whole(|m.body|)
    ensures Receive(StoredMessage(m)) == Unpack(m)
  {
    ParseStored(m, []);
    assert StoredMessage(m) + [] == StoredMessage(m);
  }

  lemma UnpackContainer(m: Message, n: nat, all: seq<Byte>)
    requires n < SIGN && m.body == StoreInt(CONTAINER) + StoreInt(n) + all
    ensures Unpack(m) == UnpackAll(n, all)
  {
    assert m.body == StoreInt(CONTAINER) + (StoreInt(n) + all);
    IntRoundTrip(CONTAINER, StoreInt(n) + all);
    IntRoundTrip(n, all);
    assert m.body[4..] == StoreInt(n) + all && m.body[8..] == all;
  }

  // ---- the messages of a request ----

  function QueryMessages(r: Request): (m: seq<Message>)
    requires forall i :: 0 <= i < |r.toSend| ==> Storable(QueryBody(r.toSend[i], r.header))
    ensures |m| == |r.toSend|
  {
    seq(|r.toSend|, i requires 0 <= i < |r.toSend| =>
      Message(r.toSend[i].messageId, r.toSend[i].seqNo, Store(QueryBody(r.toSend[i], r.header))))
  }

  function ServiceMessages(bodies: seq<seq<Byte>>, ids: seq<Long>, seqNo: Word): (m: seq<Message>)
    requires |ids| == |bodies|
    ensures |m| == |bodies|
  {
    seq(|bodies|, i requires 0 <= i < |bodies| => Message(ids[i], seqNo, bodies[i]))
  }

  /** The queries handed over are what the layer above may hand over: together with the
      header they fill whole words, and none is a container; lists are not absurdly long. */
  predicate QueryFits(q: Query, header: seq<Byte>) {
    && Storable(QueryBody(q, header)) && Size(QueryBody(q, header)) < WORD
    && Plain(Message(q.messageId, q.seqNo, Store(QueryBody(q, header))))
  }

  predicate Fits(r: Request) {
    && (forall i :: 0 <= i < |r.toSend| ==> QueryFits(r.toSend[i], r.header))
    && |r.toAck| < 0x1000_0000 && |r.getInfo| < 0x1000_0000 && |r.resend| < 0x1000_0000
    && |r.toSend| + |r.cancel| < 0x1000_0000
  }

  function Messages(r: Request, ids: seq<Long>, seqNo: Word): seq<Message>
    requires Fits(r) && |ids| == ServiceCount(r)
  {
    ServicesCount(r);
    QueryMessages(r) + ServiceMessages(Services(r), ids, seqNo)
  }

  /** Queries keep their identifiers, service messages have those that were drawn for them. */
  lemma MessageIdAt(r: Request, ids: seq<Long>, seqNo: Word, i: nat)
    requires Fits(r) && |ids| == ServiceCount(r) && i < Count(r)
    ensures i < |Messages(r, ids, seqNo)|
    ensures Messages(r, ids, seqNo)[i].id == if i < |r.toSend| then r.toSend[i].messageId else ids[i - |r.toSend|]
  {
    ServicesCount(r);
  }

  predicate PlainBody(body: seq<Byte>) {
    4 <= |body| < WORD && Whole(|body|) && ReadInt(body) != CONTAINER
  }

  predicate AllPlainBodies(bodies: seq<seq<Byte>>) {
    forall b :: b in bodies ==> PlainBody(b)
  }

  lemma IdsBody(id: Word, ids: seq<Long>)
    requires |ids| < 0x1000_0000 && id != CONTAINER
    ensures PlainBody(StoreInt(id) + StoreIds(ids))
  {
    var body := StoreInt(id) + StoreIds(ids);
    IdsLength(ids);
    assert |body| == 4 * (3 + 2 * |ids|);
    WordsAreWhole(3 + 2 * |ids|);
    IntRoundTrip(id, StoreIds(ids));
  }

  lemma IdsLength(ids: seq<Long>)
    ensures |StoreIds(ids)| == 8 + 8 * |ids|
  {}

  lemma {:induction false} WordsAreWhole(n: nat)
    ensures Whole(4 * n)
  {
    if n > 0 {
      WordsAreWhole(n - 1);
    }
  }

  lemma ShortBody(id: Word, more: seq<Byte>)
    requires id != CONTAINER && Whole(|more|) && |more| < 64
    ensures PlainBody(StoreInt(id) + more)
  {
    IntRoundTrip(id, more);
  }

  lemma {:induction false} CancelsPlain(cancel: seq<Long>)
    ensures AllPlainBodies(CancelBodies(cancel))
  {
    if cancel != [] {
      ShortBody(0x58e4a740, StoreLong(cancel[0]));
      CancelsPlain(cancel[1..]);
    }
  }

  lemma ServicesPlain(r: Request)
    requires Fits(r)
    ensures AllPlainBodies(Services(r))
  {
    IdsBody(0x62d6b459, r.toAck);
    var wait := StoreInt(Signed(r.maxDelay)) + StoreInt(r.maxAfter) + StoreInt(r.maxWait);
    ShortBody(0x9299359f, wait);
    assert StoreInt(0x9299359f) + wait ==
      StoreInt(0x9299359f) + StoreInt(Signed(r.maxDelay)) + StoreInt(r.maxAfter) + StoreInt(r.maxWait);
    ShortBody(0xb921bd04, StoreInt(Signed(r.futureSalts)));
    IdsBody(0xda69fb52, r.getInfo);
    IdsBody(0x7d861a08, r.resend);
    CancelsPlain(r.cancel);
    ShortBody(0xd1435160, []);
    assert StoreInt(0xd1435160) + [] == StoreInt(0xd1435160);
    ShortBody(0xf3427b8c, StoreLong(r.pingId) + StoreInt(r.pingTimeout));
    assert StoreInt(0xf3427b8c) + (StoreLong(r.pingId) + StoreInt(r.pingTimeout)) ==
      StoreInt(0xf3427b8c) + StoreLong(r.pingId) + StoreInt(r.pingTimeout);
  }

  lemma QueryPart(r: Request, i: nat)
    requires Fits(r) && i < |r.toSend|
    ensures IsPart(QueryStorers(r)[i], QueryMessages(r)[i])
  {
    var q := r.toSend[i];
    assert QueryFits(q, r.header);
    PartOf(q.messageId, q.seqNo, QueryBody(q, r.header));
  }

  lemma ServicePart(bodies: seq<seq<Byte>>, ids: seq<Long>, seqNo: Word, i: nat)
    requires |ids| == |bodies| && i < |ids| && AllPlainBodies(bodies)
    ensures IsPart(ServiceStorers(bodies, ids, seqNo)[i], ServiceMessages(bodies, ids, seqNo)[i])
  {
    assert bodies[i] in bodies && PlainBody(bodies[i]);
    PartOf(ids[i], seqNo, Slice(bodies[i]));
  }

  lemma JoinParts(a: seq<Storer>, b: seq<Storer>, m: seq<Message>, n: seq<Message>)
    requires AreParts(a, m) && AreParts(b, n)
    ensures AreParts(a + b, m + n)
  {}

  lemma PartsOfRequest(r: Request, ids: seq<Long>, seqNo: Word)
    requires Fits(r) && |ids| == ServiceCount(r)
    ensures AreParts(PartStorers(r, ids, seqNo), Messages(r, ids, seqNo))
  {
    ServicesPlain(r);
    var bodies := Services(r);
    forall i: nat | i < |r.toSend| ensures IsPart(QueryStorers(r)[i], QueryMessages(r)[i]) {
      QueryPart(r, i);
    }
    forall i: nat | i < |bodies|
      ensures IsPart(ServiceStorers(bodies, ids, seqNo)[i], ServiceMessages(bodies, ids, seqNo)[i])
    {
      ServicePart(bodies, ids, seqNo, i);
    }
    JoinParts(QueryStorers(r), ServiceStorers(bodies, ids, seqNo), QueryMessages(r), ServiceMessages(bodies, ids, seqNo));
  }

  /** The number written into a container is the number of its messages. */
  lemma CountIsExact(r: Request, ids: seq<Long>, seqNo: Word)
    requires Fits(r) && |ids| == ServiceCount(r)
    ensures Count(r) == |Messages(r, ids, seqNo)| == |PartStorers(r, ids, seqNo)|
  {
    ServicesCount(r);
  }

  lemma ServicesCount(r: Request)
    ensures |Services(r)| == ServiceCount(r)
  {}

  /** Every packet, alone or in a container, decodes to the requested messages in order. */
  lemma RequestArrives(r: Request, ids: seq<Long>, seqNo: Word, mixed: bool, containerId: Long)
    requires Fits(r) && |ids| == ServiceCount(r) && (!mixed ==> Count(r) == 1)
    requires Count(r) < SIGN && 8 + Size(ConcatAll(PartStorers(r, ids, seqNo))) < WORD
    ensures |PartStorers(r, ids, seqNo)| == Count(r)
    ensures var packet := Packet(PartStorers(r, ids, seqNo), mixed, containerId, seqNo);
      Storable(packet) && Receive(Store(packet)) == Received(Messages(r, ids, seqNo), [])
  {
    CountIsExact(r, ids, seqNo);
    PartsOfRequest(r, ids, seqNo);
    PacketArrives(PartStorers(r, ids, seqNo), Messages(r, ids, seqNo), mixed, containerId, seqNo);
  }
}
