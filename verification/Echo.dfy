/**
 The echo benchmark (bench_queue.cpp, QueueBenchmark): a client and a server exchange
 numbered tokens over two sleeping queues. A step of the system is a step of one thread,
 down to single accesses to shared memory inside put and get.
 */
module Echo {
  import opened SpscRing
  import Q = FdQueue
  import opened EchoTokens

  datatype Server = SLoop | SGet | SPut(value: int) | SDone | SFailed
  datatype Client = CCheck | CStart(i: nat) | CStarting(i: nat) | CLoop | CGet | CPut | CDone | CFailed

  /** `serverSeen` and `clientSeen` log what the two calls of get have returned. */
  datatype Echo = Echo(toServer: Q.System, toClient: Q.System,
                       server: Server, serverConn: seq<int>, serverActive: int, serverSeen: seq<int>,
                       client: Client, clientConn: seq<int>, clientActive: int, clientSeen: seq<int>)

  /** The arguments of a run of the benchmark. */
  datatype Load = Load(connections: nat, queries: int)

  function Begin(l: Load, q0: seq<int>, q1: seq<int>): Echo {
    var conn := seq(l.connections, i => 0);
    Echo(Q.Start(q0), Q.Start(q1), SLoop, conn, l.connections, [], CCheck, conn, l.connections, [])
  }

  /** The checks both threads make on a value before they count it. */
  predicate Expected(value: int, conn: seq<int>) {
    0 <= Conn(value) < |conn| && No(value) == conn[Conn(value)]
  }

  function Bump(value: int, conn: seq<int>): seq<int>
    requires Expected(value, conn)
  {
    conn[Conn(value) := conn[Conn(value)] + 1]
  }

  predicate Sized(e: Echo) {
    |e.toServer.ring.q| == SIZE && |e.toClient.ring.q| == SIZE
  }

  function ServerGot(e: Echo, value: int): Echo {
    if Expected(value, e.serverConn) then
      e.(serverConn := Bump(value, e.serverConn), serverSeen := e.serverSeen + [value],
         toClient := e.toClient.(writer := Q.WTest(value, true)), server := SPut(value))
    else
      e.(server := SFailed)
  }

  function ServerStep(l: Load, e: Echo): Echo
    requires Sized(e)
  {
    match e.server
    case SLoop =>
      if e.serverActive > 0 then
        e.(toServer := Q.Apply(e.toServer, Q.CallGet), server := SGet)
      else
        e.(server := SDone)
    case SGet =>
      if e.toServer.reader == Q.RIdle then
        ServerGot(e, e.toServer.result)
      else
        e.(toServer := Q.ReaderStep(e.toServer))
    case SPut(value) =>
      if e.toClient.writer == Q.WIdle then
        e.(serverActive := e.serverActive - (if Continues(value, l.queries) then 0 else 1), server := SLoop)
      else
        e.(toClient := Q.WriterStep(e.toClient))
    case SDone => e
    case SFailed => e
  }

  function ClientGot(l: Load, e: Echo, value: int): Echo {
    if !Expected(value, e.clientConn) then
      e.(client := CFailed)
    else
      var f := e.(clientConn := Bump(value, e.clientConn), clientSeen := e.clientSeen + [value]);
      if Continues(value, l.queries) then
        f.(toServer := e.toServer.(writer := Q.WTest(value + 1, true)), client := CPut)
      else
        f.(clientActive := e.clientActive - 1, client := CLoop)
  }

  function ClientStep(l: Load, e: Echo): Echo
    requires Sized(e)
  {
    match e.client
    case CCheck => e.(client := if l.queries < SHIFT then CStart(0) else CFailed)
    case CStart(i) =>
      if i < l.connections then
        e.(toServer := e.toServer.(writer := Q.WTest(Token(i), true)), client := CStarting(i))
      else
        e.(client := CLoop)
    case CStarting(i) =>
      if e.toServer.writer == Q.WIdle then
        e.(client := CStart(i + 1))
      else
        e.(toServer := Q.WriterStep(e.toServer))
    case CLoop =>
      if e.clientActive > 0 then
        e.(toClient := Q.Apply(e.toClient, Q.CallGet), client := CGet)
      else
        e.(client := CDone)
    case CGet =>
      if e.toClient.reader == Q.RIdle then
        ClientGot(l, e, e.toClient.result)
      else
        e.(toClient := Q.ReaderStep(e.toClient))
    case CPut =>
      if e.toServer.writer == Q.WIdle then
        e.(client := CLoop)
      else
        e.(toServer := Q.WriterStep(e.toServer))
    case CDone => e
    case CFailed => e
  }

  datatype Thread = ServerThread | ClientThread

  /** A thread that has not ended can move unless it sleeps in get or died in put. */
  predicate CanMove(e: Echo, t: Thread) {
    match t
    case ServerThread =>
      && e.server != SDone && e.server != SFailed
      && !(e.server == SGet && Q.Asleep(e.toServer))
      && !(e.server.SPut? && e.toClient.writer == Q.WDead)
    case ClientThread =>
      && e.client != CDone && e.client != CFailed
      && !(e.client == CGet && Q.Asleep(e.toClient))
      && !((e.client == CPut || e.client.CStarting?) && e.toServer.writer == Q.WDead)
  }

  function Step(l: Load, e: Echo, t: Thread): Echo
    requires Sized(e)
  {
    match t
    case ServerThread => ServerStep(l, e)
    case ClientThread => ClientStep(l, e)
  }

  // ---- one queue, seen from the two calls ----

  /** Everything handed to put so far, stored or about to be stored. */
  function Sending(s: Q.System): seq<int> {
    s.history.put +
    match s.writer
    case WTest(val, _) => [val]
    case WLoad(val, _) => [val]
    case WStore(val, _) => [val]
    case _ => []
  }

  /** The reader side of a queue whose calls of get have returned `seen`. */
  ghost predicate Handed(s: Q.System, seen: seq<int>, getting: bool) {
    && s.history.released <= |s.history.taken|
    && match s.reader
       case RIdle =>
         s.history.released == |s.history.taken| &&
         if getting then s.history.taken == seen + [s.result] else s.history.taken == seen
       case RFlush => getting && s.history.taken == seen + [s.result] && s.history.released == |seen|
       case RTest => getting && s.history.taken == seen && s.history.released == |seen|
       case RTake => getting && s.history.taken == seen && s.history.released == |seen|
       case RPoll(get, _) => getting && get && s.history.taken == seen && s.history.released == |seen|
       case RSetFlag(get) => getting && get && s.history.taken == seen && s.history.released == |seen|
       case RCheck(get) => getting && get && s.history.taken == seen && s.history.released == |seen|
       case RRead(get) => getting && get && s.history.taken == seen && s.history.released == |seen|
       case RClear(get) => getting && get && s.history.taken == seen && s.history.released == |seen|
  }

  /** The writer side of a queue on which only put is called, and which never fills up. */
  ghost predicate Putting(s: Q.System, busy: bool) {
    && (s.writer != Q.WIdle ==> busy) && s.writer != Q.WDead
    && (s.writer != Q.WPublish ==> s.history.published == |s.history.put|)
    && match s.writer
       case WTest(_, flush) => flush
       case WLoad(_, flush) => flush
       case WStore(_, flush) => flush
       case _ => true
  }

  lemma ReaderHands(s: Q.System, seen: seq<int>)
    requires Q.Inv(s) && Handed(s, seen, true) && s.reader != Q.RIdle
    ensures var t := Q.ReaderStep(s);
      && Q.Inv(t) && Handed(t, seen, true)
      && t.writer == s.writer && Sending(t) == Sending(s)
      && t.history.put == s.history.put && t.history.published == s.history.published
  {
    Q.ReaderStepInv(s);
  }

  lemma WriterSends(s: Q.System)
    requires Q.Inv(s) && Putting(s, true) && |Sending(s)| - s.history.released < SIZE
    ensures var t := Q.WriterStep(s);
      && Q.Inv(t) && Putting(t, true) && Sending(t) == Sending(s)
      && t.reader == s.reader && t.result == s.result
      && t.history.taken == s.history.taken && t.history.released == s.history.released
  {
    Q.WriterStepInv(s);
    if s.writer.WLoad? {
      Q.AccessKeeps(s, LoadReads);
    }
  }

  lemma PutSends(s: Q.System, val: int)
    requires Q.Inv(s) && s.writer == Q.WIdle && Putting(s, false)
    ensures var t := s.(writer := Q.WTest(val, true));
      && Q.Inv(t) && Putting(t, true) && Sending(t) == Sending(s) + [val]
  {}

  lemma SeenWasSent(s: Q.System, seen: seq<int>, getting: bool)
    requires Q.Inv(s) && Handed(s, seen, getting)
    ensures seen <= s.history.put <= Sending(s)
    ensures |seen| <= s.history.released + 1 && s.history.released <= |seen| + 1
    ensures s.reader == Q.RIdle && getting ==> seen + [s.result] <= Sending(s)
  {}

  // ---- what every step keeps ----

  ghost predicate Counted(conn: seq<int>, seen: seq<int>, conns: nat) {
    |conn| == conns && forall c: nat :: c < conns ==> conn[c] == Count(seen, c)
  }

  predicate Starting(e: Echo) {
    e.client == CCheck || e.client.CStart? || e.client.CStarting?
  }

  function Started(l: Load, e: Echo): nat {
    match e.client
    case CCheck => 0
    case CStart(i) => i
    case CStarting(i) => i + 1
    case _ => l.connections
  }

  ghost predicate QueuesInv(l: Load, e: Echo) {
    && Q.Inv(e.toServer) && Handed(e.toServer, e.serverSeen, e.server == SGet)
    && Putting(e.toServer, e.client == CPut || e.client.CStarting?)
    && Q.Inv(e.toClient) && Handed(e.toClient, e.clientSeen, e.client == CGet)
    && Putting(e.toClient, e.server.SPut?)
  }

  /** Where the tokens are: the server echoes what it sees, the client sends what it must. */
  ghost predicate TokensInv(l: Load, e: Echo) {
    && InOrder(e.clientSeen, l.connections)
    && Sending(e.toClient) == e.serverSeen
    && Started(l, e) <= l.connections && (Starting(e) ==> e.clientSeen == [])
    && Sending(e.toServer) == Sent(Started(l, e), e.clientSeen, l.queries)
  }

  ghost predicate ServerInv(l: Load, e: Echo) {
    && Counted(e.serverConn, e.serverSeen, l.connections)
    && (e.server.SPut? ==> e.serverSeen != [] && e.serverSeen[|e.serverSeen| - 1] == e.server.value)
    && e.serverActive == l.connections - Finished(e.serverSeen, l.queries)
         + (if e.server.SPut? && !Continues(e.server.value, l.queries) then 1 else 0)
    && (e.server == SGet ==> e.serverActive > 0)
    && (e.server == SDone ==> e.serverActive <= 0) && e.server != SFailed
  }

  ghost predicate ClientInv(l: Load, e: Echo) {
    && Counted(e.clientConn, e.clientSeen, l.connections)
    && e.clientActive == l.connections - Finished(e.clientSeen, l.queries)
    && (e.client == CGet ==> e.clientActive > 0)
    && (e.client == CDone ==> e.clientActive <= 0) && e.client != CFailed
  }

  ghost predicate Inv(l: Load, e: Echo) {
    QueuesInv(l, e) && TokensInv(l, e) && ServerInv(l, e) && ClientInv(l, e)
  }

  predicate Fits(l: Load) {
    l.connections <= MAX_CONNECTIONS && l.queries < SHIFT
  }

  lemma BeginInv(l: Load, q0: seq<int>, q1: seq<int>)
    requires Fits(l) && |q0| == SIZE && |q1| == SIZE
    ensures Inv(l, Begin(l, q0, q1))
  {
    Q.StartInv(q0);
    Q.StartInv(q1);
  }

  lemma SentOrdered(l: Load, e: Echo)
    requires Fits(l) && TokensInv(l, e)
    ensures InOrder(Sending(e.toServer), l.connections)
  {
    if Starting(e) {
      StartsInOrder(Started(l, e), l.connections);
      assert Sent(Started(l, e), [], l.queries) == Starts(Started(l, e));
    } else {
      SentInOrder(e.clientSeen, l.connections, l.queries);
    }
  }

  /** Every value in either queue stays well below the size of the ring. */
  lemma Room(l: Load, e: Echo)
    requires Fits(l) && QueuesInv(l, e) && TokensInv(l, e)
    ensures e.clientSeen <= e.serverSeen <= Sending(e.toServer)
    ensures |Sending(e.toServer)| - e.toServer.history.released < SIZE
    ensures |Sending(e.toClient)| - e.toClient.history.released < SIZE
  {
    SeenWasSent(e.toServer, e.serverSeen, e.server == SGet);
    SeenWasSent(e.toClient, e.clientSeen, e.client == CGet);
    UnderWay(Started(l, e), e.clientSeen, l.queries);
  }

  /** The next value of a queue whose tokens are in order passes the checks. */
  lemma NextExpected(conn: seq<int>, seen: seq<int>, v: int, sent: seq<int>, conns: nat)
    requires Counted(conn, seen, conns) && InOrder(sent, conns) && seen + [v] <= sent
    ensures Expected(v, conn) && Counted(Bump(v, conn), seen + [v], conns)
    ensures InOrder(seen + [v], conns)
  {
    assert OrderAt(sent, conns, |seen|) && sent[..|seen|] == seen;
    PrefixInOrder(seen + [v], sent, conns);
    forall c: nat | c < conns ensures Bump(v, conn)[c] == Count(seen + [v], c) {
      CountAppend(seen, v, c);
    }
  }

  // The branches of the server.

  lemma ServerGotQueues(l: Load, e: Echo, f: Echo)
    requires QueuesInv(l, e) && e.server == SGet && e.toServer.reader == Q.RIdle
    requires f == ServerGot(e, e.toServer.result) && f.server.SPut?
    ensures QueuesInv(l, f) && Sending(f.toClient) == Sending(e.toClient) + [e.toServer.result]
  {
    PutSends(e.toClient, e.toServer.result);
  }

  lemma ServerGotInv(l: Load, e: Echo)
    requires Fits(l) && Inv(l, e) && e.server == SGet && e.toServer.reader == Q.RIdle
    ensures Inv(l, ServerGot(e, e.toServer.result))
  {
    var v := e.toServer.result;
    var f := ServerGot(e, v);
    assert Expected(v, e.serverConn) && Counted(Bump(v, e.serverConn), e.serverSeen + [v], l.connections) by {
      SeenWasSent(e.toServer, e.serverSeen, true);
      SentOrdered(l, e);
      NextExpected(e.serverConn, e.serverSeen, v, Sending(e.toServer), l.connections);
    }
    ServerGotQueues(l, e, f);
    SentAppend(0, e.serverSeen, v, l.queries);
  }

  lemma ServerReadsInv(l: Load, e: Echo)
    requires Fits(l) && Inv(l, e) && e.server == SGet && e.toServer.reader != Q.RIdle
    ensures Inv(l, e.(toServer := Q.ReaderStep(e.toServer)))
  {
    ReaderHands(e.toServer, e.serverSeen);
  }

  /** A step inside a call that only moves a queue along. */
  lemma TokensStay(l: Load, e: Echo, f: Echo)
    requires TokensInv(l, e) && ServerInv(l, e) && ClientInv(l, e)
    requires Sending(f.toServer) == Sending(e.toServer) && Sending(f.toClient) == Sending(e.toClient)
    requires f == e.(toServer := f.toServer, toClient := f.toClient)
    ensures TokensInv(l, f) && ServerInv(l, f) && ClientInv(l, f)
  {}

  lemma ServerWritesQueues(l: Load, e: Echo, t: Q.System)
    requires QueuesInv(l, e) && e.server.SPut?
    requires |Sending(e.toClient)| - e.toClient.history.released < SIZE
    requires t == Q.WriterStep(e.toClient)
    ensures QueuesInv(l, e.(toClient := t)) && Sending(t) == Sending(e.toClient)
  {
    WriterSends(e.toClient);
  }

  lemma ServerWritesInv(l: Load, e: Echo)
    requires Fits(l) && Inv(l, e) && e.server.SPut? && e.toClient.writer != Q.WIdle
    ensures Inv(l, e.(toClient := Q.WriterStep(e.toClient)))
  {
    Room(l, e);
    var t := Q.WriterStep(e.toClient);
    ServerWritesQueues(l, e, t);
    TokensStay(l, e, e.(toClient := t));
  }

  predicate ServerTurns(e: Echo) {
    e.server == SLoop || (e.server.SPut? && e.toClient.writer == Q.WIdle)
  }

  lemma ServerTurnsCounts(l: Load, e: Echo)
    requires Sized(e) && ServerInv(l, e) && ServerTurns(e)
    ensures ServerInv(l, ServerStep(l, e))
  {}

  lemma ServerTurnsTokens(l: Load, e: Echo)
    requires Sized(e) && TokensInv(l, e) && ServerTurns(e)
    ensures TokensInv(l, ServerStep(l, e))
  {
    var f := ServerStep(l, e);
    assert f.client == e.client && f.clientSeen == e.clientSeen && f.serverSeen == e.serverSeen;
    assert Sending(f.toServer) == Sending(e.toServer) && f.toClient == e.toClient;
  }

  lemma ServerTurnsClient(l: Load, e: Echo)
    requires Sized(e) && ClientInv(l, e) && ServerTurns(e)
    ensures ClientInv(l, ServerStep(l, e))
  {}

  lemma ServerTurnsInv(l: Load, e: Echo)
    requires Fits(l) && Inv(l, e)
    requires ServerTurns(e)
    ensures Inv(l, ServerStep(l, e))
  {
    ServerTurnsCounts(l, e);
    ServerTurnsTokens(l, e);
    ServerTurnsClient(l, e);
    QueuesTurn(l, e, ServerStep(l, e));
  }

  /** Moving between calls, and entering get, touches no queue memory. */
  lemma QueuesTurn(l: Load, e: Echo, f: Echo)
    requires QueuesInv(l, e)
    requires (e.server == f.server && e.toServer.reader == f.toServer.reader)
      || (e.server != SGet && f.server == SGet && f.toServer.reader == Q.RTest)
      || (e.server != SGet && f.server != SGet && e.toServer.reader == f.toServer.reader)
    requires (e.client == f.client && e.toClient.reader == f.toClient.reader)
      || (e.client != CGet && f.client == CGet && f.toClient.reader == Q.RTest)
      || (e.client != CGet && f.client != CGet && e.toClient.reader == f.toClient.reader)
    requires f.toServer == e.toServer.(reader := f.toServer.reader)
    requires f.toClient == e.toClient.(reader := f.toClient.reader)
    requires f.serverSeen == e.serverSeen && f.clientSeen == e.clientSeen
    requires f.toServer.writer == Q.WIdle || f.client == e.client
    requires f.toClient.writer == Q.WIdle || f.server == e.server || !e.server.SPut?
    ensures QueuesInv(l, f)
  {}

  lemma ServerStepInv(l: Load, e: Echo)
    requires Fits(l) && Inv(l, e)
    ensures Inv(l, ServerStep(l, e))
  {
    match e.server {
      case SGet =>
        if e.toServer.reader == Q.RIdle {
          ServerGotInv(l, e);
        } else {
          ServerReadsInv(l, e);
        }
      case SPut(_) =>
        if e.toClient.writer == Q.WIdle {
          ServerTurnsInv(l, e);
        } else {
          ServerWritesInv(l, e);
        }
      case SLoop => ServerTurnsInv(l, e);
      case _ =>
    }
  }

  // The branches of the client.

  lemma ClientGotQueues(l: Load, e: Echo, f: Echo)
    requires QueuesInv(l, e) && e.client == CGet && e.toClient.reader == Q.RIdle
    requires f == ClientGot(l, e, e.toClient.result) && f.client != CFailed
    ensures QueuesInv(l, f)
    ensures Sending(f.toServer) ==
            Sending(e.toServer) + if f.client == CPut then [e.toClient.result + 1] else []
  {
    if f.client == CPut {
      PutSends(e.toServer, e.toClient.result + 1);
    }
  }

  lemma ClientGotTokens(l: Load, e: Echo, f: Echo, v: int)
    requires TokensInv(l, e) && ServerInv(l, e) && ClientInv(l, e) && e.client == CGet
    requires Expected(v, e.clientConn) && f == ClientGot(l, e, v)
    requires Counted(Bump(v, e.clientConn), e.clientSeen + [v], l.connections)
    requires InOrder(e.clientSeen + [v], l.connections)
    requires Sending(f.toServer) == Sending(e.toServer) + if f.client == CPut then [v + 1] else []
    ensures TokensInv(l, f) && ServerInv(l, f) && ClientInv(l, f)
  {
    SentAppend(l.connections, e.clientSeen, v, l.queries);
  }

  lemma ClientExpects(l: Load, e: Echo, v: int)
    requires Fits(l) && QueuesInv(l, e) && TokensInv(l, e) && ClientInv(l, e)
    requires e.client == CGet && e.toClient.reader == Q.RIdle && v == e.toClient.result
    ensures Expected(v, e.clientConn)
    ensures Counted(Bump(v, e.clientConn), e.clientSeen + [v], l.connections)
    ensures InOrder(e.clientSeen + [v], l.connections)
  {
    Room(l, e);
    SeenWasSent(e.toClient, e.clientSeen, true);
    SentOrdered(l, e);
    NextExpected(e.clientConn, e.clientSeen, v, Sending(e.toServer), l.connections);
  }

  lemma ClientGotInv(l: Load, e: Echo)
    requires Fits(l) && Inv(l, e) && e.client == CGet && e.toClient.reader == Q.RIdle
    ensures Inv(l, ClientGot(l, e, e.toClient.result))
  {
    var v := e.toClient.result;
    var f := ClientGot(l, e, v);
    ClientExpects(l, e, v);
    ClientGotQueues(l, e, f);
    ClientGotTokens(l, e, f, v);
  }

  lemma ClientStartQueues(l: Load, e: Echo, f: Echo, val: int)
    requires QueuesInv(l, e) && e.client.CStart?
    requires f == e.(toServer := e.toServer.(writer := Q.WTest(val, true)), client := CStarting(e.client.i))
    ensures QueuesInv(l, f) && Sending(f.toServer) == Sending(e.toServer) + [val]
  {
    PutSends(e.toServer, val);
  }

  lemma ClientStartsInv(l: Load, e: Echo)
    requires Fits(l) && Inv(l, e) && e.client.CStart? && e.client.i < l.connections
    ensures Inv(l, ClientStep(l, e))
  {
    var i := e.client.i;
    ClientStartQueues(l, e, ClientStep(l, e), Token(i));
    assert Sent(i + 1, [], l.queries) == Sent(i, [], l.queries) + [Token(i)];
  }

  lemma ClientReadsInv(l: Load, e: Echo)
    requires Fits(l) && Inv(l, e) && e.client == CGet && e.toClient.reader != Q.RIdle
    ensures Inv(l, e.(toClient := Q.ReaderStep(e.toClient)))
  {
    ReaderHands(e.toClient, e.clientSeen);
    TokensStay(l, e, e.(toClient := Q.ReaderStep(e.toClient)));
  }

  lemma ClientWritesQueues(l: Load, e: Echo, t: Q.System)
    requires QueuesInv(l, e) && (e.client == CPut || e.client.CStarting?)
    requires |Sending(e.toServer)| - e.toServer.history.released < SIZE
    requires t == Q.WriterStep(e.toServer)
    ensures QueuesInv(l, e.(toServer := t)) && Sending(t) == Sending(e.toServer)
  {
    WriterSends(e.toServer);
  }

  lemma ClientWritesInv(l: Load, e: Echo)
    requires Fits(l) && Inv(l, e) && (e.client == CPut || e.client.CStarting?)
    requires e.toServer.writer != Q.WIdle
    ensures Inv(l, e.(toServer := Q.WriterStep(e.toServer)))
  {
    Room(l, e);
    var t := Q.WriterStep(e.toServer);
    ClientWritesQueues(l, e, t);
    TokensStay(l, e, e.(toServer := t));
  }

  predicate ClientTurns(l: Load, e: Echo) {
    || e.client == CCheck || e.client == CLoop || (e.client.CStart? && e.client.i >= l.connections)
    || ((e.client == CPut || e.client.CStarting?) && e.toServer.writer == Q.WIdle)
  }

  lemma ClientTurnsTokens(l: Load, e: Echo)
    requires Fits(l) && Sized(e) && TokensInv(l, e) && ClientInv(l, e) && ClientTurns(l, e)
    ensures TokensInv(l, ClientStep(l, e))
  {}

  lemma ClientTurnsServer(l: Load, e: Echo)
    requires Sized(e) && ServerInv(l, e) && ClientTurns(l, e)
    ensures ServerInv(l, ClientStep(l, e))
  {}

  lemma ClientTurnsClient(l: Load, e: Echo)
    requires Fits(l) && Sized(e) && ClientInv(l, e) && ClientTurns(l, e)
    ensures ClientInv(l, ClientStep(l, e))
  {}

  lemma ClientTurnsInv(l: Load, e: Echo)
    requires Fits(l) && Inv(l, e)
    requires ClientTurns(l, e)
    ensures Inv(l, ClientStep(l, e))
  {
    QueuesTurn(l, e, ClientStep(l, e));
    ClientTurnsTokens(l, e);
    ClientTurnsServer(l, e);
    ClientTurnsClient(l, e);
  }

  lemma ClientStepInv(l: Load, e: Echo)
    requires Fits(l) && Inv(l, e)
    ensures Inv(l, ClientStep(l, e))
  {
    match e.client {
      case CGet =>
        if e.toClient.reader == Q.RIdle {
          ClientGotInv(l, e);
        } else {
          ClientReadsInv(l, e);
        }
      case CStart(i) =>
        if i < l.connections {
          ClientStartsInv(l, e);
        } else {
          ClientTurnsInv(l, e);
        }
      case CCheck => ClientTurnsInv(l, e);
      case CLoop => ClientTurnsInv(l, e);
      case CDone =>
      case _ =>
        if e.toServer.writer == Q.WIdle {
          ClientTurnsInv(l, e);
        } else {
          ClientWritesInv(l, e);
        }
    }
  }

  lemma StepInv(l: Load, e: Echo, t: Thread)
    requires Fits(l) && Inv(l, e)
    ensures Inv(l, Step(l, e, t))
  {
    match t {
      case ServerThread => ServerStepInv(l, e);
      case ClientThread => ClientStepInv(l, e);
    }
  }

  // ---- whole runs ----

  ghost predicate StepAt(l: Load, states: seq<Echo>, moves: seq<Thread>, i: nat)
    requires |states| == |moves| + 1 && i < |moves|
  {
    && Sized(states[i]) && CanMove(states[i], moves[i])
    && states[i + 1] == Step(l, states[i], moves[i])
  }

  ghost predicate InvUpTo(l: Load, states: seq<Echo>, n: nat) {
    forall i: nat :: i <= n && i < |states| ==> Inv(l, states[i])
  }

  lemma StepAtInv(l: Load, states: seq<Echo>, moves: seq<Thread>, i: nat)
    requires Fits(l) && |states| == |moves| + 1 && i < |moves| && StepAt(l, states, moves, i)
    requires InvUpTo(l, states, i)
    ensures InvUpTo(l, states, i + 1)
  {
    StepInv(l, states[i], moves[i]);
  }

  /** An interleaving of the two threads from arbitrary initial memory. */
  ghost predicate IsRun(l: Load, states: seq<Echo>, moves: seq<Thread>) {
    && |states| == |moves| + 1
    && Sized(states[0])
    && states[0] == Begin(l, states[0].toServer.ring.q, states[0].toClient.ring.q)
    && forall i: nat :: i < |moves| ==> StepAt(l, states, moves, i)
  }

  lemma {:induction false} RunInvUpTo(l: Load, states: seq<Echo>, moves: seq<Thread>, i: nat)
    requires Fits(l) && IsRun(l, states, moves) && i < |states|
    ensures InvUpTo(l, states, i)
  {
    if i == 0 {
      BeginInv(l, states[0].toServer.ring.q, states[0].toClient.ring.q);
    } else {
      RunInvUpTo(l, states, moves, i - 1);
      assert StepAt(l, states, moves, i - 1);
      StepAtInv(l, states, moves, i - 1);
    }
  }

  /** Every reachable state satisfies the invariant. */
  lemma RunInv(l: Load, states: seq<Echo>, moves: seq<Thread>, i: nat)
    requires Fits(l) && IsRun(l, states, moves) && i < |states|
    ensures Inv(l, states[i])
  {
    RunInvUpTo(l, states, moves, i);
  }

  /** With at most 128 connections and fewer than 2^24 queries on each, no check ever fails
      and no put ever finds its queue full. */
  lemma NoCheckFails(l: Load, states: seq<Echo>, moves: seq<Thread>, i: nat)
    requires Fits(l) && IsRun(l, states, moves) && i < |states|
    ensures states[i].server != SFailed && states[i].client != CFailed
    ensures states[i].toServer.writer != Q.WDead && states[i].toClient.writer != Q.WDead
  {
    RunInv(l, states, moves, i);
  }

  /** The tokens under way are always as many as the connections started and not finished. */
  lemma TokensConserved(l: Load, states: seq<Echo>, moves: seq<Thread>, i: nat)
    requires Fits(l) && IsRun(l, states, moves) && i < |states|
    ensures var e := states[i];
      |Sending(e.toServer)| - |e.clientSeen| == Started(l, e) - Finished(e.clientSeen, l.queries)
    ensures !Starting(states[i]) ==>
      |Sending(states[i].toServer)| - |states[i].clientSeen| == states[i].clientActive
  {
    RunInv(l, states, moves, i);
    UnderWay(Started(l, states[i]), states[i].clientSeen, l.queries);
  }

  /** A sleeping reader whose writer is idle has been given everything. */
  lemma AsleepHasAll(s: Q.System, seen: seq<int>)
    requires Q.Inv(s) && Handed(s, seen, true) && Putting(s, false) && Q.Asleep(s)
    ensures Sending(s) == seen
  {}

  /** Once the client has no open connection, every token has come all the way back. */
  lemma ClientDoneSeenAll(l: Load, e: Echo)
    requires Fits(l) && Inv(l, e) && !Starting(e) && e.clientActive <= 0
    ensures e.clientSeen == e.serverSeen == Sending(e.toServer)
    ensures e.serverActive == if e.server.SPut? && !Continues(e.server.value, l.queries) then 1 else 0
  {
    Room(l, e);
    UnderWay(l.connections, e.clientSeen, l.queries);
  }

  lemma AllIsBack(l: Load, e: Echo)
    requires Fits(l) && Inv(l, e) && !Starting(e)
    requires e.serverSeen == Sending(e.toServer) && e.clientSeen == e.serverSeen
    ensures e.clientActive == 0
  {
    UnderWay(l.connections, e.clientSeen, l.queries);
  }

  /** No deadlock: as long as one of the threads has not ended, some thread can move. */
  lemma NoDeadlock(l: Load, states: seq<Echo>, moves: seq<Thread>, i: nat)
    requires Fits(l) && IsRun(l, states, moves) && i < |states|
    requires states[i].server != SDone || states[i].client != CDone
    ensures CanMove(states[i], ServerThread) || CanMove(states[i], ClientThread)
  {
    var e := states[i];
    RunInv(l, states, moves, i);
    if e.server == SGet && Q.Asleep(e.toServer) && e.client == CDone {
      ClientDoneSeenAll(l, e);
    } else if e.client == CGet && Q.Asleep(e.toClient) && !e.server.SPut? {
      AsleepHasAll(e.toClient, e.clientSeen);
      if e.server == SGet && Q.Asleep(e.toServer) {
        AsleepHasAll(e.toServer, e.serverSeen);
        AllIsBack(l, e);
      }
    }
  }

  /** When the client ends, each connection has had all its replies, numbered from 0 in
      order, and the server has seen exactly the same tokens. */
  lemma EndsWithAllAnswered(l: Load, states: seq<Echo>, moves: seq<Thread>, i: nat)
    requires Fits(l) && IsRun(l, states, moves) && i < |states|
    requires states[i].client == CDone
    ensures states[i].serverSeen == states[i].clientSeen
    ensures InOrder(states[i].clientSeen, l.connections)
    ensures |states[i].clientConn| == l.connections
    ensures forall c: nat :: c < l.connections ==>
      states[i].clientConn[c] == Count(states[i].clientSeen, c) == Quota(l.queries)
  {
    var e := states[i];
    RunInv(l, states, moves, i);
    ClientDoneSeenAll(l, e);
    forall c: nat | c < l.connections ensures Count(e.clientSeen, c) == Quota(l.queries) {
      AllAnswered(e.clientSeen, l.connections, l.queries, c);
    }
  }
}
