/**
 The single-producer single-consumer ring of the queue benchmark (bench_queue.cpp,
 BufferQueue). Every operation here is one access to shared memory; the positions are
 32-bit words that wrap around, and each side works on its own stale copy of the
 other side's position.
 */
module SpscRing {
  import opened Bytes

  const SIZE: nat := 1024
  datatype Position = Position(i: Word, localRead: Word, localWrite: Word)

  datatype Ring = Ring(q: seq<int>, writer: Position, reader: Position)

  function Add(w: Word, n: nat): Word {
    (w + n) % WORD
  }

  function Init(q: seq<int>): Ring {
    Ring(q, Position(0, 0, 0), Position(0, 0, 0))
  }

  predicate ReaderEmpty(r: Ring) {
    r.reader.localWrite == r.reader.localRead
  }

  predicate WriterEmpty(r: Ring) {
    r.writer.localWrite == Add(r.writer.localRead, SIZE)
  }

  /** The conversion of a 32-bit word to a signed integer. */
  function Signed(w: Word): int {
    if w < WORD / 2 then w else w - WORD
  }

  function ReaderReady(r: Ring): int {
    Signed((r.reader.localWrite - r.reader.localRead) % WORD)
  }

  function WriterReady(r: Ring): int {
    Signed((r.writer.localRead + SIZE - r.writer.localWrite) % WORD)
  }

  // ---- one shared access each ----

  function Next(r: Ring): int
    requires |r.q| == SIZE
  {
    r.q[r.reader.localRead % SIZE]
  }

  function GetUnsafe(r: Ring): Ring {
    r.(reader := r.reader.(localRead := Add(r.reader.localRead, 1)))
  }

  function FlushReader(r: Ring): Ring {
    r.(reader := r.reader.(i := r.reader.localRead))
  }

  function UpdateReader(r: Ring): Ring {
    r.(reader := r.reader.(localWrite := r.writer.i))
  }

  function PutUnsafe(r: Ring, val: int): Ring
    requires |r.q| == SIZE
  {
    r.(q := r.q[r.writer.localWrite % SIZE := val],
       writer := r.writer.(localWrite := Add(r.writer.localWrite, 1)))
  }

  function FlushWriter(r: Ring): Ring {
    r.(writer := r.writer.(i := r.writer.localWrite))
  }

  function UpdateWriter(r: Ring): Ring {
    r.(writer := r.writer.(localRead := r.reader.i))
  }

  // ---- the unbounded counters behind the words ----

  /** All values ever put and taken, and how far each position has really advanced. */
  datatype History = History(put: seq<int>, taken: seq<int>,
                             published: nat, released: nat, seenWrite: nat, seenRead: nat)

  const NoHistory := History([], [], 0, 0, 0, 0)

  ghost predicate Counters(h: History) {
    && h.seenRead <= h.released <= |h.taken| <= h.seenWrite <= h.published <= |h.put|
    && |h.put| <= h.seenRead + SIZE
  }

  ghost predicate Words(r: Ring, h: History) {
    && r.writer.i == h.published % WORD && r.reader.i == h.released % WORD
    && r.writer.localWrite == |h.put| % WORD && r.writer.localRead == h.seenRead % WORD
    && r.reader.localWrite == h.seenWrite % WORD && r.reader.localRead == |h.taken| % WORD
  }

  /** The slots of all values that are not released yet. */
  ghost predicate Slots(r: Ring, h: History)
    requires |r.q| == SIZE
  {
    forall k: nat :: h.released <= k < |h.put| ==> r.q[k % SIZE] == h.put[k]
  }

  /** The ring with wrapping words refines unbounded counters over a growing log. */
  ghost predicate Refines(r: Ring, h: History) {
    && |r.q| == SIZE
    && Counters(h) && Words(r, h) && Slots(r, h)
    && h.taken <= h.put
  }

  lemma InitRefines(q: seq<int>)
    requires |q| == SIZE
    ensures Refines(Init(q), NoHistory)
  {}

  /** The tests on wrapping words are the tests on the true distances. */
  lemma TestsAreExact(r: Ring, h: History)
    requires Refines(r, h)
    ensures ReaderEmpty(r) <==> |h.taken| == h.seenWrite
    ensures WriterEmpty(r) <==> |h.put| == h.seenRead + SIZE
    ensures ReaderReady(r) == h.seenWrite - |h.taken|
    ensures WriterReady(r) == h.seenRead + SIZE - |h.put|
  {
    WordDistance(|h.taken|, h.seenWrite, r.reader.localRead, r.reader.localWrite);
    AddWords(h.seenRead, SIZE, r.writer.localRead);
    WordDistance(|h.put|, h.seenRead + SIZE, r.writer.localWrite, Add(r.writer.localRead, SIZE));
    DistanceWraps(r.writer.localRead + SIZE, r.writer.localWrite);
  }

  /** Two counters no further apart than the ring can be compared through their words. */
  lemma WordDistance(m: nat, n: nat, u: Word, w: Word)
    requires m <= n <= m + SIZE && u == m % WORD && w == n % WORD
    ensures u == w <==> m == n
    ensures (w - u) % WORD == n - m && Signed((w - u) % WORD) == n - m
  {}

  lemma AddWords(n: nat, k: nat, w: Word)
    requires w == n % WORD
    ensures Add(w, k) == (n + k) % WORD
  {}

  lemma DistanceWraps(w: nat, u: Word)
    ensures (w % WORD - u) % WORD == (w - u) % WORD
  {}

  /** One step of either side. */
  datatype Action = Get | ReleaseReads | LoadWrites | Put(val: int) | PublishWrites | LoadReads

  predicate Enabled(r: Ring, a: Action) {
    match a
    case Get => !ReaderEmpty(r)
    case Put(_) => !WriterEmpty(r)
    case _ => true
  }

  function Apply(r: Ring, a: Action): Ring
    requires |r.q| == SIZE
  {
    match a
    case Get => GetUnsafe(r)
    case ReleaseReads => FlushReader(r)
    case LoadWrites => UpdateReader(r)
    case Put(val) => PutUnsafe(r, val)
    case PublishWrites => FlushWriter(r)
    case LoadReads => UpdateWriter(r)
  }

  /** What the step does to the true counters; `val` is the value read from memory by a Get. */
  function Record(h: History, a: Action, val: int): History {
    match a
    case Get => h.(taken := h.taken + [val])
    case ReleaseReads => h.(released := |h.taken|)
    case LoadWrites => h.(seenWrite := h.published)
    case Put(v) => h.(put := h.put + [v])
    case PublishWrites => h.(published := |h.put|)
    case LoadReads => h.(seenRead := h.released)
  }

  /** Every step keeps the refinement: no unread slot is overwritten and values come out in order. */
  lemma StepRefines(r: Ring, h: History, a: Action)
    requires Refines(r, h) && Enabled(r, a)
    ensures Refines(Apply(r, a), Record(h, a, Next(r)))
  {
    TestsAreExact(r, h);
    match a {
      case Get => GetRefines(r, h);
      case Put(val) => PutRefines(r, h, val);
      case _ =>
    }
  }

  lemma WordIndex(n: nat, w: Word)
    requires w == n % WORD
    ensures w % SIZE == n % SIZE
  {}

  lemma GetRefines(r: Ring, h: History)
    requires Refines(r, h) && |h.taken| < h.seenWrite
    ensures Refines(GetUnsafe(r), Record(h, Get, Next(r)))
  {
    WordIndex(|h.taken|, r.reader.localRead);
    AddWords(|h.taken|, 1, r.reader.localRead);
    assert r.q[|h.taken| % SIZE] == h.put[|h.taken|];
  }

  lemma PutRefines(r: Ring, h: History, val: int)
    requires Refines(r, h) && |h.put| < h.seenRead + SIZE
    ensures Refines(PutUnsafe(r, val), Record(h, Put(val), Next(r)))
  {
    WordIndex(|h.put|, r.writer.localWrite);
    AddWords(|h.put|, 1, r.writer.localWrite);
    forall k: nat | h.released <= k < |h.put| ensures k % SIZE != |h.put| % SIZE {
      DistinctSlots(k, |h.put|);
    }
  }

  lemma DistinctSlots(j: nat, k: nat)
    requires j < k < j + SIZE
    ensures j % SIZE != k % SIZE
  {}

  // ---- whole runs ----

  datatype State = State(ring: Ring, history: History)

  ghost predicate Steps(s: State, a: Action, t: State) {
    && |s.ring.q| == SIZE && Enabled(s.ring, a)
    && t == State(Apply(s.ring, a), Record(s.history, a, Next(s.ring)))
  }

  /** An interleaving of the two sides, in any order and from any initial memory. */
  ghost predicate IsRun(states: seq<State>, actions: seq<Action>) {
    && |states| == |actions| + 1
    && |states[0].ring.q| == SIZE && states[0] == State(Init(states[0].ring.q), NoHistory)
    && forall i: nat :: i < |actions| ==> StepAt(states, actions, i)
  }

  ghost predicate StepAt(states: seq<State>, actions: seq<Action>, i: nat)
    requires |states| == |actions| + 1 && i < |actions|
  {
    Steps(states[i], actions[i], states[i + 1])
  }

  lemma {:induction false} RunRefines(states: seq<State>, actions: seq<Action>, i: nat)
    requires IsRun(states, actions) && i < |states|
    ensures Refines(states[i].ring, states[i].history)
  {
    if i == 0 {
      InitRefines(states[0].ring.q);
    } else {
      RunRefines(states, actions, i - 1);
      assert StepAt(states, actions, i - 1);
      StepRefines(states[i - 1].ring, states[i - 1].history, actions[i - 1]);
    }
  }

  function Puts(actions: seq<Action>): seq<int> {
    if actions == [] then []
    else Puts(actions[..|actions| - 1]) +
         match actions[|actions| - 1] case Put(val) => [val] case _ => []
  }

  /** The values read out of memory by the Get steps of a run. */
  ghost function Gets(states: seq<State>, actions: seq<Action>): seq<int>
    requires |states| == |actions| + 1
    requires forall i :: 0 <= i < |actions| ==> |states[i].ring.q| == SIZE
  {
    if actions == [] then []
    else
      var n := |actions| - 1;
      Gets(states[..n + 1], actions[..n]) + if actions[n] == Get then [Next(states[n].ring)] else []
  }

  lemma {:induction false} HistoryIsTrace(states: seq<State>, actions: seq<Action>)
    requires IsRun(states, actions)
    requires forall i :: 0 <= i < |actions| ==> |states[i].ring.q| == SIZE
    ensures states[|actions|].history.put == Puts(actions)
    ensures states[|actions|].history.taken == Gets(states, actions)
  {
    if actions != [] {
      var n := |actions| - 1;
      var fewer, less := states[..n + 1], actions[..n];
      forall i: nat | i < n ensures StepAt(fewer, less, i) {
        assert StepAt(states, actions, i);
      }
      HistoryIsTrace(fewer, less);
      assert StepAt(states, actions, n);
    }
  }

  /** In every interleaving the values read are a prefix of the values put. */
  lemma FirstInFirstOut(states: seq<State>, actions: seq<Action>)
    requires IsRun(states, actions)
    ensures forall i :: 0 <= i < |actions| ==> |states[i].ring.q| == SIZE
    ensures Gets(states, actions) <= Puts(actions)
  {
    forall i | 0 <= i < |actions| ensures |states[i].ring.q| == SIZE {
      RunRefines(states, actions, i);
    }
    HistoryIsTrace(states, actions);
    RunRefines(states, actions, |actions|);
  }
}
