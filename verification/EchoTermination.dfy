/**
 Every run of the echo benchmark is finite (bench_queue.cpp, QueueBenchmark). Each get polls
 a bounded number of times before it sleeps, each put wakes a sleeper at most once, and the
 quotas bound how many tokens are ever sent.
 */
module EchoTermination {
  import Q = FdQueue
  import opened Echo
  import opened EchoTokens

  /** The most tokens that either queue ever carries. */
  function Tokens(l: Load): nat {
    l.connections * Quota(l.queries)
  }

  // ---- how many tokens there are ----

  function CountsBelow(s: seq<int>, conns: nat): nat {
    if conns == 0 then 0 else CountsBelow(s, conns - 1) + Count(s, conns - 1)
  }

  lemma {:induction false} CountsAppend(s: seq<int>, v: int, conns: nat)
    ensures CountsBelow(s + [v], conns) == CountsBelow(s, conns) + if 0 <= Conn(v) < conns then 1 else 0
  {
    if conns > 0 {
      CountsAppend(s, v, conns - 1);
      CountAppend(s, v, conns - 1);
    }
  }

  lemma {:induction false} CountsOfNothing(conns: nat)
    ensures CountsBelow([], conns) == 0
  {
    if conns > 0 {
      CountsOfNothing(conns - 1);
    }
  }

  /** Every token is counted for its connection. */
  lemma {:induction false} CountsAreAll(s: seq<int>, conns: nat)
    requires InOrder(s, conns)
    ensures CountsBelow(s, conns) == |s|
  {
    if s == [] {
      CountsOfNothing(conns);
    } else {
      var n := |s| - 1;
      assert OrderAt(s, conns, n) && s == s[..n] + [s[n]];
      PrefixInOrder(s[..n], s, conns);
      CountsAreAll(s[..n], conns);
      CountsAppend(s[..n], s[n], conns);
    }
  }

  lemma {:induction false} CountsWithin(s: seq<int>, conns: nat, quota: nat)
    requires forall c: nat :: c < conns ==> Count(s, c) <= quota
    ensures CountsBelow(s, conns) <= conns * quota
  {
    if conns > 0 {
      CountsWithin(s, conns - 1, quota);
      assert conns * quota == (conns - 1) * quota + quota;
    }
  }

  /** No more tokens are sent, in either direction, than the quotas allow. */
  lemma SentWithin(l: Load, e: Echo)
    requires Fits(l) && Inv(l, e)
    ensures |e.clientSeen| <= |e.serverSeen| <= Tokens(l)
  {
    var sent := Sent(Started(l, e), e.clientSeen, l.queries);
    Room(l, e);
    SentOrdered(l, e);
    CountsAreAll(sent, l.connections);
    forall c: nat | c < l.connections ensures Count(sent, c) <= Quota(l.queries) {
      SentCount(Started(l, e), e.clientSeen, l.connections, l.queries, c);
    }
    CountsWithin(sent, l.connections, Quota(l.queries));
  }

  // ---- what is left to do inside the calls ----

  function WriterWork(w: Q.Writer): nat {
    match w
    case WTest(_, _) => 8
    case WLoad(_, _) => 7
    case WStore(_, _) => 6
    case WPublish => 5
    case WCheck => 4
    case WNotify => 3
    case WIdle => 0
    case WDead => 0
  }

  /** The accesses until the call returns or the reader sleeps. */
  function ReaderWork(r: Q.Reader): nat {
    match r
    case RTest => Q.PATIENCE + 8
    case RPoll(_, tries) => if tries < Q.PATIENCE then Q.PATIENCE - tries + 7 else 7
    case RSetFlag(_) => 6
    case RCheck(_) => 5
    case RRead(_) => 4
    case RClear(_) => 3
    case RTake => 2
    case RFlush => 1
    case RIdle => 0
  }

  /** A notification gives a sleeper two more accesses: one to wake up and one to look. */
  function QueueWork(s: Q.System): nat {
    WriterWork(s.writer) + ReaderWork(s.reader) + 2 * s.fd
  }

  lemma ReaderWorks(s: Q.System)
    requires Q.Inv(s) && s.reader != Q.RIdle && !Q.Asleep(s)
    ensures QueueWork(Q.ReaderStep(s)) < QueueWork(s)
  {}

  lemma WriterWorks(s: Q.System)
    requires Q.Inv(s) && s.writer != Q.WIdle && s.writer != Q.WDead
    ensures QueueWork(Q.WriterStep(s)) < QueueWork(s)
  {}

  // ---- what is left to do between the calls ----

  /** A whole get, with the step that calls it. */
  const ROUND: nat := Q.PATIENCE + 10

  /** What one more token costs a thread: a get and a put. */
  const TOKEN: nat := ROUND + 9

  function ServerWork(s: Server): nat {
    match s
    case SLoop => ROUND
    case SGet => 1
    case SPut(_) => ROUND + 1
    case SDone => 0
    case SFailed => 0
  }

  /** How many connections the client has yet to begin with. */
  function ToStart(l: Load, i: nat): nat {
    if i < l.connections then l.connections - i else 0
  }

  function ClientWork(l: Load, c: Client): nat {
    match c
    case CCheck => ROUND + 2 + 11 * l.connections
    case CStart(i) => ROUND + 1 + 11 * ToStart(l, i)
    case CStarting(i) => ROUND + 2 + 11 * ToStart(l, i + 1)
    case CLoop => ROUND
    case CGet => 1
    case CPut => ROUND + 1
    case CDone => 0
    case CFailed => 0
  }

  /** What a thread still has to do for tokens that it has not seen. */
  function TokensWork(tokens: nat, seen: seq<int>): int {
    TOKEN * (tokens - |seen|)
  }

  function Work(l: Load, e: Echo, tokens: nat): int {
    TokensWork(tokens, e.serverSeen) + TokensWork(tokens, e.clientSeen)
    + ServerWork(e.server) + ClientWork(l, e.client) + QueueWork(e.toServer) + QueueWork(e.toClient)
  }

  lemma WorkLeft(l: Load, e: Echo, tokens: nat)
    requires |e.serverSeen| <= tokens && |e.clientSeen| <= tokens
    ensures Work(l, e, tokens) >= 0
  {}

  lemma ServerWorks(l: Load, e: Echo, tokens: nat)
    requires Q.Inv(e.toServer) && Q.Inv(e.toClient) && CanMove(e, ServerThread)
    requires ServerStep(l, e).server != SFailed
    ensures Work(l, ServerStep(l, e), tokens) < Work(l, e, tokens)
  {
    if e.server == SGet && e.toServer.reader != Q.RIdle {
      ReaderWorks(e.toServer);
    } else if e.server.SPut? && e.toClient.writer != Q.WIdle {
      WriterWorks(e.toClient);
    }
  }

  predicate ClientInCall(e: Echo) {
    || (e.client == CGet && e.toClient.reader != Q.RIdle)
    || ((e.client == CPut || e.client.CStarting?) && e.toServer.writer != Q.WIdle)
  }

  lemma ClientWorksInCall(l: Load, e: Echo, tokens: nat)
    requires Q.Inv(e.toServer) && Q.Inv(e.toClient) && CanMove(e, ClientThread) && ClientInCall(e)
    ensures Work(l, ClientStep(l, e), tokens) < Work(l, e, tokens)
  {
    if e.client == CGet {
      ReaderWorks(e.toClient);
    } else {
      WriterWorks(e.toServer);
    }
  }

  lemma ClientWorks(l: Load, e: Echo, tokens: nat)
    requires Sized(e) && CanMove(e, ClientThread) && !ClientInCall(e) && ClientStep(l, e).client != CFailed
    ensures Work(l, ClientStep(l, e), tokens) < Work(l, e, tokens)
  {}

  // ---- whole runs ----

  /** A step that a thread can make leaves less to do. */
  lemma StepWorks(l: Load, e: Echo, t: Thread, tokens: nat)
    requires Fits(l) && Inv(l, e) && CanMove(e, t)
    ensures Work(l, Step(l, e, t), tokens) < Work(l, e, tokens)
  {
    StepInv(l, e, t);
    match t {
      case ServerThread => ServerWorks(l, e, tokens);
      case ClientThread =>
        if ClientInCall(e) {
          ClientWorksInCall(l, e, tokens);
        } else {
          ClientWorks(l, e, tokens);
        }
    }
  }

  lemma {:induction false} WorkShrinks(l: Load, states: seq<Echo>, moves: seq<Thread>, i: nat, tokens: nat)
    requires Fits(l) && IsRun(l, states, moves) && i < |states|
    ensures Work(l, states[i], tokens) + i <= Work(l, states[0], tokens)
  {
    if i > 0 {
      WorkShrinks(l, states, moves, i - 1, tokens);
      RunInv(l, states, moves, i - 1);
      assert StepAt(l, states, moves, i - 1);
      StepWorks(l, states[i - 1], moves[i - 1], tokens);
    }
  }

  /** How many steps any run takes at most. */
  function Bound(l: Load): nat {
    2 * (TOKEN * Tokens(l)) + 11 * l.connections + 2 * ROUND + 2
  }

  lemma WorkAtFirst(l: Load, q0: seq<int>, q1: seq<int>, tokens: nat)
    ensures Work(l, Begin(l, q0, q1), tokens) == 2 * (TOKEN * tokens) + 11 * l.connections + 2 * ROUND + 2
  {}

  /** However the two threads are interleaved, a run takes no more steps than this. */
  lemma EveryRunEnds(l: Load, states: seq<Echo>, moves: seq<Thread>)
    requires Fits(l) && IsRun(l, states, moves)
    ensures |moves| <= Bound(l)
  {
    var tokens := Tokens(l);
    WorkShrinks(l, states, moves, |moves|, tokens);
    RunInv(l, states, moves, |moves|);
    SentWithin(l, states[|moves|]);
    WorkLeft(l, states[|moves|], tokens);
    WorkAtFirst(l, states[0].toServer.ring.q, states[0].toClient.ring.q, tokens);
  }

  /** A run that cannot go on has answered every query: both threads have ended, and each
      connection has had its replies in order. */
  lemma EndsAnswered(l: Load, states: seq<Echo>, moves: seq<Thread>)
    requires Fits(l) && IsRun(l, states, moves)
    requires !CanMove(states[|moves|], ServerThread) && !CanMove(states[|moves|], ClientThread)
    ensures var e := states[|moves|];
      && e.server == SDone && e.client == CDone
      && e.serverSeen == e.clientSeen && InOrder(e.clientSeen, l.connections)
      && |e.clientSeen| == Tokens(l)
      && forall c: nat :: c < l.connections ==> Count(e.clientSeen, c) == Quota(l.queries)
  {
    var e := states[|moves|];
    if e.server != SDone || e.client != CDone {
      NoDeadlock(l, states, moves, |moves|);
    }
    EndsWithAllAnswered(l, states, moves, |moves|);
    CountsAreAll(e.clientSeen, l.connections);
    CountsEqual(e.clientSeen, l.connections, Quota(l.queries));
  }

  lemma {:induction false} CountsEqual(s: seq<int>, conns: nat, quota: nat)
    requires forall c: nat :: c < conns ==> Count(s, c) == quota
    ensures CountsBelow(s, conns) == conns * quota
  {
    if conns > 0 {
      CountsEqual(s, conns - 1, quota);
      assert conns * quota == (conns - 1) * quota + quota;
    }
  }
}
