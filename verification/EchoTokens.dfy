/**
 The numbered tokens of the echo benchmark (bench_queue.cpp, QueueBenchmark): which
 tokens the client has sent is a function of the replies it has seen, and that
 function keeps the queries of each connection in order.
 */
module EchoTokens {
  const SHIFT: nat := 0x100_0000

  /** The largest number of connections whose numbers fit beside a query number in 32 bits. */
  const MAX_CONNECTIONS: nat := 128

  function Conn(value: int): int {
    value / SHIFT
  }

  function No(value: int): (no: nat) {
    value % SHIFT
  }

  function Signed32(x: int): int {
    (x + 0x8000_0000) % 0x1_0000_0000 - 0x8000_0000
  }

  /** The first token of a connection. */
  function Token(i: nat): int {
    Signed32(i * SHIFT)
  }

  /** All connections get first tokens that name them exactly if there are at most 128. */
  lemma TokensNameConnections(conns: nat)
    ensures (forall i: nat :: i < conns ==> Conn(Token(i)) == i && No(Token(i)) == 0)
            <==> conns <= MAX_CONNECTIONS
  {
    forall i: nat | i < MAX_CONNECTIONS ensures Conn(Token(i)) == i && No(Token(i)) == 0 {
      assert Token(i) == i * SHIFT;
    }
    assert Token(128) == -0x8000_0000;
    assert Conn(Token(128)) == -128;
  }

  function Starts(n: nat): seq<int> {
    if n == 0 then [] else Starts(n - 1) + [Token(n - 1)]
  }

  predicate Continues(value: int, queries: int) {
    No(value) + 1 < queries
  }

  /** The tokens sent in answer to the replies seen. */
  function Replies(seen: seq<int>, queries: int): seq<int> {
    if seen == [] then []
    else
      var n := |seen| - 1;
      Replies(seen[..n], queries) + if Continues(seen[n], queries) then [seen[n] + 1] else []
  }

  function Sent(started: nat, seen: seq<int>, queries: int): seq<int> {
    Starts(started) + Replies(seen, queries)
  }

  function Count(s: seq<int>, c: int): nat {
    if s == [] then 0
    else Count(s[..|s| - 1], c) + if Conn(s[|s| - 1]) == c then 1 else 0
  }

  /** How many of the connections have had their last reply. */
  function Finished(seen: seq<int>, queries: int): nat {
    if seen == [] then 0
    else
      var n := |seen| - 1;
      Finished(seen[..n], queries) + if Continues(seen[n], queries) then 0 else 1
  }

  predicate OrderAt(s: seq<int>, conns: nat, k: nat)
    requires k < |s|
  {
    0 <= Conn(s[k]) < conns && No(s[k]) == Count(s[..k], Conn(s[k]))
  }

  /** Within each connection the queries are numbered 0, 1, 2, ... */
  ghost predicate InOrder(s: seq<int>, conns: nat) {
    forall k: nat :: k < |s| ==> OrderAt(s, conns, k)
  }

  function Quota(queries: int): nat {
    if queries > 1 then queries else 1
  }

  lemma PrefixInOrder(s: seq<int>, t: seq<int>, conns: nat)
    requires s <= t && InOrder(t, conns)
    ensures InOrder(s, conns)
  {
    forall k: nat | k < |s| ensures OrderAt(s, conns, k) {
      assert OrderAt(t, conns, k) && s[..k] == t[..k];
    }
  }

  lemma CountAppend(s: seq<int>, v: int, c: int)
    ensures Count(s + [v], c) == Count(s, c) + if Conn(v) == c then 1 else 0
  {
    assert (s + [v])[..|s|] == s;
  }

  lemma {:induction false} CountConcat(s: seq<int>, t: seq<int>, c: int)
    ensures Count(s + t, c) == Count(s, c) + Count(t, c)
  {
    if t == [] {
      assert s + t == s;
    } else {
      var n := |t| - 1;
      CountConcat(s, t[..n], c);
      assert s + t == (s + t[..n]) + [t[n]];
      CountAppend(s + t[..n], t[n], c);
    }
  }

  lemma AppendInOrder(s: seq<int>, v: int, conns: nat)
    requires InOrder(s, conns) && 0 <= Conn(v) < conns && No(v) == Count(s, Conn(v))
    ensures InOrder(s + [v], conns)
  {
    forall k: nat | k < |s + [v]| ensures OrderAt(s + [v], conns, k) {
      if k < |s| {
        assert OrderAt(s, conns, k) && (s + [v])[..k] == s[..k];
      } else {
        assert (s + [v])[..k] == s;
      }
    }
  }

  lemma {:induction false} StartsCount(n: nat, c: int)
    requires n <= MAX_CONNECTIONS
    ensures |Starts(n)| == n && Count(Starts(n), c) == if 0 <= c < n then 1 else 0
  {
    if n > 0 {
      StartsCount(n - 1, c);
      TokensNameConnections(n);
      CountAppend(Starts(n - 1), Token(n - 1), c);
    }
  }

  lemma {:induction false} StartsInOrder(n: nat, conns: nat)
    requires n <= conns <= MAX_CONNECTIONS
    ensures InOrder(Starts(n), conns)
  {
    if n > 0 {
      StartsInOrder(n - 1, conns);
      TokensNameConnections(conns);
      StartsCount(n - 1, n - 1);
      AppendInOrder(Starts(n - 1), Token(n - 1), conns);
    }
  }

  lemma NextToken(v: int, queries: int)
    requires queries < SHIFT && Continues(v, queries)
    ensures Conn(v + 1) == Conn(v) && No(v + 1) == No(v) + 1
  {}

  lemma {:induction false} RepliesCount(seen: seq<int>, conns: nat, queries: int, c: int)
    requires InOrder(seen, conns) && queries < SHIFT
    ensures var k := Count(seen, c);
      Count(Replies(seen, queries), c) == if k < Quota(queries) - 1 then k else Quota(queries) - 1
  {
    if seen != [] {
      var n := |seen| - 1;
      PrefixInOrder(seen[..n], seen, conns);
      RepliesCount(seen[..n], conns, queries, c);
      assert OrderAt(seen, conns, n);
      if Continues(seen[n], queries) {
        NextToken(seen[n], queries);
        CountAppend(Replies(seen[..n], queries), seen[n] + 1, c);
      } else {
        assert Replies(seen, queries) == Replies(seen[..n], queries);
      }
    }
  }

  /** Each started connection has been sent one token more than it has answered, up to its quota. */
  lemma SentCount(started: nat, seen: seq<int>, conns: nat, queries: int, c: int)
    requires started <= MAX_CONNECTIONS && InOrder(seen, conns) && queries < SHIFT
    ensures var k := Count(seen, c);
      Count(Sent(started, seen, queries), c) ==
      (if 0 <= c < started then 1 else 0) + if k < Quota(queries) - 1 then k else Quota(queries) - 1
  {
    StartsCount(started, c);
    RepliesCount(seen, conns, queries, c);
    CountConcat(Starts(started), Replies(seen, queries), c);
  }

  lemma SentAppend(started: nat, seen: seq<int>, v: int, queries: int)
    ensures Sent(started, seen + [v], queries) ==
            Sent(started, seen, queries) + if Continues(v, queries) then [v + 1] else []
    ensures Finished(seen + [v], queries) == Finished(seen, queries) + if Continues(v, queries) then 0 else 1
  {
    assert (seen + [v])[..|seen|] == seen;
  }

  lemma {:induction false} SentInOrder(seen: seq<int>, conns: nat, queries: int)
    requires conns <= MAX_CONNECTIONS && queries < SHIFT && InOrder(seen, conns)
    ensures InOrder(Sent(conns, seen, queries), conns)
  {
    if seen == [] {
      StartsInOrder(conns, conns);
      assert Sent(conns, seen, queries) == Starts(conns);
    } else {
      var n := |seen| - 1;
      var v := seen[n];
      PrefixInOrder(seen[..n], seen, conns);
      SentInOrder(seen[..n], conns, queries);
      assert seen == seen[..n] + [v];
      SentAppend(conns, seen[..n], v, queries);
      assert OrderAt(seen, conns, n);
      if Continues(v, queries) {
        NextToken(v, queries);
        SentCount(conns, seen[..n], conns, queries, Conn(v));
        AppendInOrder(Sent(conns, seen[..n], queries), v + 1, conns);
      } else {
        assert Sent(conns, seen, queries) == Sent(conns, seen[..n], queries);
      }
    }
  }

  /** Conservation: the tokens under way are as many as the connections still open. */
  lemma {:induction false} UnderWay(started: nat, seen: seq<int>, queries: int)
    requires started <= MAX_CONNECTIONS
    ensures |Sent(started, seen, queries)| == |seen| + started - Finished(seen, queries)
  {
    if seen == [] {
      StartsCount(started, 0);
    } else {
      var n := |seen| - 1;
      UnderWay(started, seen[..n], queries);
      assert seen == seen[..n] + [seen[n]];
      SentAppend(started, seen[..n], seen[n], queries);
    }
  }

  /** When no token is under way, every connection has had its full number of replies. */
  lemma AllAnswered(seen: seq<int>, conns: nat, queries: int, c: nat)
    requires conns <= MAX_CONNECTIONS && queries < SHIFT && InOrder(seen, conns) && c < conns
    requires Sent(conns, seen, queries) == seen
    ensures Count(seen, c) == Quota(queries)
  {
    SentCount(conns, seen, conns, queries, c);
  }
}
