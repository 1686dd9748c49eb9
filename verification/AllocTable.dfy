/**
 The table of allocation sites shared by all threads (memprof.cpp, get_ht_pos): linear
 probing, insertion by compare-and-swap, and a limit on the load that is tested before
 an insertion but counted after it. One step is one atomic access.
 */
module AllocTable {
  /** HT_MAX_SIZE */
  const TABLE_SIZE: nat := 10_000_000

  /** A slot holds the hash of its allocation site, or 0 while it is free. */
  type Slots = seq<nat>

  /** A search for the slot of a site; `wrapped` says that it has gone past the end once,
      and a forced search may use more than half of the table. The call asked for `asked`. */
  datatype Search = Search(asked: nat, hash: nat, pos: nat, wrapped: bool, force: bool)

  /** Where a thread stands in get_ht_pos. */
  datatype Thread =
    | Idle
    | Probe(search: Search)
    | Half(search: Search)
    | Limit(search: Search)
    | Cas(search: Search)
    | Inc(asked: nat, hash: nat, pos: nat)
    | Done(asked: nat, hash: nat, pos: nat)
    | TooFull
    | Lapped

  /** `unknown` is the hash of the site that stands for all sites without a slot of their own. */
  datatype System = System(slots: Slots, size: nat, threads: seq<Thread>, unknown: nat)

  function Begin(asked: nat, hash: nat, force: bool, n: nat): Thread
    requires n > 0
  {
    Probe(Search(asked, hash, hash % n, false, force))
  }

  function Advance(s: Search, n: nat): Thread {
    if s.pos + 1 < n then Probe(s.(pos := s.pos + 1))
    else if s.wrapped then Lapped
    else Probe(s.(pos := 0, wrapped := true))
  }

  predicate Searching(t: Thread) {
    t.Probe? || t.Half? || t.Limit? || t.Cas?
  }

  /** A thread inside a call whose position lies in the table. */
  predicate CanStep(s: System, i: nat) {
    && i < |s.threads|
    && (s.threads[i].Inc? || (Searching(s.threads[i]) && s.threads[i].search.pos < |s.slots|))
  }

  /** What the thread does with its next access, and where it stands afterwards. */
  function Next(s: System, i: nat): Thread
    requires CanStep(s, i)
  {
    var n := |s.slots|;
    match s.threads[i]
    case Probe(search) =>
      if s.slots[search.pos] == 0 then Half(search)
      else if s.slots[search.pos] == search.hash then Done(search.asked, search.hash, search.pos)
      else Advance(search, n)
    case Half(search) =>
      if s.size <= n / 2 then Cas(search)
      else if search.force then Limit(search)
      else Begin(search.asked, s.unknown, true, n)
    case Limit(search) => if s.size * 10 < n * 7 then Cas(search) else TooFull
    case Cas(search) => if s.slots[search.pos] == 0 then Inc(search.asked, search.hash, search.pos) else Probe(search)
    case Inc(asked, hash, pos) => Done(asked, hash, pos)
  }

  function Step(s: System, i: nat): System
    requires CanStep(s, i)
  {
    var t := s.threads[i];
    s.(slots := if t.Cas? && s.slots[t.search.pos] == 0 then s.slots[t.search.pos := t.search.hash] else s.slots,
       size := if t.Inc? then s.size + 1 else s.size,
       threads := s.threads[i := Next(s, i)])
  }

  /** A thread outside get_ht_pos enters it with any non-zero hash. */
  predicate CanCall(s: System, i: nat, hash: nat) {
    i < |s.threads| && (s.threads[i].Idle? || s.threads[i].Done?) && hash != 0 && |s.slots| > 0
  }

  function Call(s: System, i: nat, hash: nat): System
    requires CanCall(s, i, hash)
  {
    s.(threads := s.threads[i := Begin(hash, hash, false, |s.slots|)])
  }

  // ---- probe paths ----

  /** Slot k is passed on the way from the home slot to slot j. */
  predicate Between(home: nat, j: nat, k: nat) {
    if home <= j then home <= k < j else k >= home || k < j
  }

  /** Slot k has been passed by a probe that started at home. */
  predicate Passed(home: nat, pos: nat, wrapped: bool, k: nat) {
    if wrapped then k >= home || k < pos else home <= k < pos
  }

  ghost predicate NoGap(slots: Slots, j: nat)
    requires j < |slots|
  {
    slots[j] != 0 ==>
      forall k: nat :: k < |slots| && Between(slots[j] % |slots|, j, k) ==> slots[k] != 0
  }

  ghost predicate Unique(slots: Slots) {
    forall i: nat, j: nat :: i < |slots| && j < |slots| && slots[i] != 0 && slots[i] == slots[j] ==> i == j
  }

  ghost predicate TableInv(slots: Slots) {
    && |slots| > 0 && Unique(slots)
    && forall j: nat :: j < |slots| ==> NoGap(slots, j)
  }

  ghost predicate SearchInv(slots: Slots, s: Search)
    requires |slots| > 0
  {
    && s.hash != 0 && s.pos < |slots| && (!s.wrapped ==> s.hash % |slots| <= s.pos)
    && forall k: nat :: k < |slots| && Passed(s.hash % |slots|, s.pos, s.wrapped, k) ==>
         slots[k] != 0 && slots[k] != s.hash
  }

  /** A hash that has a slot is found on the way to the first free slot. */
  lemma NoSlotBeyond(slots: Slots, s: Search, k: nat)
    requires TableInv(slots) && SearchInv(slots, s) && slots[s.pos] == 0 && k < |slots|
    ensures slots[k] != s.hash
  {
    var home := s.hash % |slots|;
    assert NoGap(slots, k);
    assert Between(home, k, s.pos) || Passed(home, s.pos, s.wrapped, s.pos) || Passed(home, s.pos, s.wrapped, k)
      || k == s.pos;
  }

  /** Filling a free slot at the end of a search keeps hashes unique and paths without gaps. */
  lemma InsertKeeps(slots: Slots, s: Search)
    requires TableInv(slots) && SearchInv(slots, s) && slots[s.pos] == 0
    ensures TableInv(slots[s.pos := s.hash])
    ensures forall k: nat :: k < |slots| ==> slots[k] != s.hash
  {
    forall k: nat | k < |slots| ensures slots[k] != s.hash {
      NoSlotBeyond(slots, s, k);
    }
    var filled := slots[s.pos := s.hash];
    var home := s.hash % |slots|;
    forall j: nat | j < |filled| ensures NoGap(filled, j) {
      assert NoGap(slots, j);
      assert !Passed(home, s.pos, s.wrapped, s.pos);
      assert forall k: nat :: k < |slots| && Between(home, s.pos, k) ==> Passed(home, s.pos, s.wrapped, k);
    }
  }

  /** A probe that would wrap around a second time has passed only full slots. */
  lemma LappedIsFull(slots: Slots, s: Search)
    requires |slots| > 0 && SearchInv(slots, s) && s.wrapped && s.pos == |slots| - 1 && slots[s.pos] != 0
    ensures forall k: nat :: k < |slots| ==> slots[k] != 0
  {
    forall k: nat | k < |slots| ensures slots[k] != 0 {
      assert k < s.pos ==> Passed(s.hash % |slots|, s.pos, true, k);
    }
  }

  // ---- counting ----

  function Occupied(slots: Slots): nat {
    if slots == [] then 0
    else Occupied(slots[..|slots| - 1]) + if slots[|slots| - 1] != 0 then 1 else 0
  }

  lemma {:induction false} OccupiedFill(slots: Slots, p: nat, hash: nat)
    requires p < |slots| && slots[p] == 0 && hash != 0
    ensures Occupied(slots[p := hash]) == Occupied(slots) + 1
  {
    var n := |slots| - 1;
    var filled := slots[p := hash];
    if p == n {
      assert filled[..n] == slots[..n];
    } else {
      assert filled[..n] == slots[..n][p := hash];
      OccupiedFill(slots[..n], p, hash);
    }
  }

  lemma {:induction false} OccupiedAll(slots: Slots)
    requires forall k: nat :: k < |slots| ==> slots[k] != 0
    ensures Occupied(slots) == |slots|
  {
    if slots != [] {
      OccupiedAll(slots[..|slots| - 1]);
    }
  }

  /** About to count a slot that it has filled. */
  predicate Counts(t: Thread) {
    t.Inc?
  }

  /** About to fill a slot, having seen the table at most half full. */
  predicate Attempts(t: Thread) {
    t.Cas? && !t.search.force
  }

  function Tally(threads: seq<Thread>, f: Thread -> bool): nat {
    if threads == [] then 0
    else Tally(threads[..|threads| - 1], f) + if f(threads[|threads| - 1]) then 1 else 0
  }

  lemma {:induction false} TallyUpdate(threads: seq<Thread>, f: Thread -> bool, i: nat, t: Thread)
    requires i < |threads|
    ensures Tally(threads[i := t], f) ==
            Tally(threads, f) - (if f(threads[i]) then 1 else 0) + if f(t) then 1 else 0
  {
    var n := |threads| - 1;
    var after := threads[i := t];
    if i == n {
      assert after[..n] == threads[..n];
    } else {
      assert after[..n] == threads[..n][i := t];
      TallyUpdate(threads[..n], f, i, t);
    }
  }

  lemma {:induction false} TallyDisjoint(threads: seq<Thread>)
    ensures Tally(threads, Counts) + Tally(threads, Attempts) <= |threads|
  {
    if threads != [] {
      TallyDisjoint(threads[..|threads| - 1]);
    }
  }

  // ---- what every step keeps ----

  predicate Settled(t: Thread) {
    t.Inc? || t.Done?
  }

  ghost predicate ThreadInv(slots: Slots, unknown: nat, t: Thread)
    requires |slots| > 0
  {
    && (Searching(t) ==> SearchInv(slots, t.search))
    && (Searching(t) ==> t.search.hash == if t.search.force then unknown else t.search.asked)
    && (Settled(t) ==> t.pos < |slots| && slots[t.pos] == t.hash != 0)
    && (Settled(t) ==> t.hash == t.asked || t.hash == unknown)
    && (t.Limit? ==> t.search.force)
  }

  ghost predicate LoadInv(s: System) {
    && Occupied(s.slots) == s.size + Tally(s.threads, Counts)
    && Occupied(s.slots) + Tally(s.threads, Attempts)
       <= |s.slots| / 2 + |s.threads| + if s.unknown in s.slots then 1 else 0
  }

  ghost predicate Inv(s: System) {
    && TableInv(s.slots) && s.unknown != 0 && LoadInv(s)
    && forall i: nat :: i < |s.threads| ==> ThreadInv(s.slots, s.unknown, s.threads[i])
  }

  lemma FillKeepsThread(slots: Slots, p: nat, hash: nat, unknown: nat, t: Thread)
    requires |slots| > 0 && p < |slots| && slots[p] == 0 && ThreadInv(slots, unknown, t)
    ensures ThreadInv(slots[p := hash], unknown, t)
  {}

  lemma AdvanceInv(slots: Slots, unknown: nat, search: Search)
    requires |slots| > 0 && ThreadInv(slots, unknown, Probe(search))
    requires slots[search.pos] != 0 && slots[search.pos] != search.hash
    ensures ThreadInv(slots, unknown, Advance(search, |slots|))
  {}

  lemma NextInv(s: System, i: nat)
    requires Inv(s) && CanStep(s, i)
    ensures ThreadInv(Step(s, i).slots, s.unknown, Next(s, i))
  {
    assert ThreadInv(s.slots, s.unknown, s.threads[i]);
    match s.threads[i] {
      case Probe(search) =>
        if s.slots[search.pos] != 0 && s.slots[search.pos] != search.hash {
          AdvanceInv(s.slots, s.unknown, search);
        }
      case _ =>
    }
  }

  lemma FillLoadInv(s: System, i: nat)
    requires Inv(s) && CanStep(s, i) && s.threads[i].Cas? && s.slots[s.threads[i].search.pos] == 0
    ensures LoadInv(Step(s, i))
  {
    var search := s.threads[i].search;
    assert ThreadInv(s.slots, s.unknown, s.threads[i]);
    var filled := s.slots[search.pos := search.hash];
    assert filled[search.pos] == search.hash;
    if s.unknown in s.slots {
      var k :| 0 <= k < |s.slots| && s.slots[k] == s.unknown;
      assert filled[k] == s.unknown;
    }
    InsertKeeps(s.slots, search);
    OccupiedFill(s.slots, search.pos, search.hash);
    TallyUpdate(s.threads, Counts, i, Next(s, i));
    TallyUpdate(s.threads, Attempts, i, Next(s, i));
  }

  lemma StepLoadInv(s: System, i: nat)
    requires Inv(s) && CanStep(s, i)
    ensures LoadInv(Step(s, i))
  {
    if s.threads[i].Cas? && s.slots[s.threads[i].search.pos] == 0 {
      FillLoadInv(s, i);
    } else {
      TallyUpdate(s.threads, Counts, i, Next(s, i));
      TallyUpdate(s.threads, Attempts, i, Next(s, i));
      TallyDisjoint(Step(s, i).threads);
      assert ThreadInv(s.slots, s.unknown, s.threads[i]);
    }
  }

  lemma StepInv(s: System, i: nat)
    requires Inv(s) && CanStep(s, i)
    ensures Inv(Step(s, i))
  {
    var t := Step(s, i);
    StepLoadInv(s, i);
    NextInv(s, i);
    if t.slots != s.slots {
      var search := s.threads[i].search;
      assert ThreadInv(s.slots, s.unknown, s.threads[i]);
      InsertKeeps(s.slots, search);
      forall j: nat | j < |s.threads| && j != i ensures ThreadInv(t.slots, s.unknown, s.threads[j]) {
        FillKeepsThread(s.slots, search.pos, search.hash, s.unknown, s.threads[j]);
      }
    }
  }

  lemma CallInv(s: System, i: nat, hash: nat)
    requires Inv(s) && CanCall(s, i, hash)
    ensures Inv(Call(s, i, hash))
  {
    TallyUpdate(s.threads, Counts, i, Begin(hash, hash, false, |s.slots|));
    TallyUpdate(s.threads, Attempts, i, Begin(hash, hash, false, |s.slots|));
  }

  // ---- whole runs ----

  datatype Move = Calls(i: nat, hash: nat) | Steps(i: nat)

  ghost predicate MoveAt(states: seq<System>, moves: seq<Move>, k: nat)
    requires |states| == |moves| + 1 && k < |moves|
  {
    match moves[k]
    case Calls(i, hash) => CanCall(states[k], i, hash) && states[k + 1] == Call(states[k], i, hash)
    case Steps(i) => CanStep(states[k], i) && states[k + 1] == Step(states[k], i)
  }

  /** A run of any threads over an empty table of n slots. */
  ghost predicate IsRun(states: seq<System>, moves: seq<Move>, n: nat) {
    && |states| == |moves| + 1 && n > 0
    && states[0].slots == seq(n, k => 0) && states[0].size == 0 && states[0].unknown != 0
    && (forall i: nat :: i < |states[0].threads| ==> states[0].threads[i] == Idle)
    && forall k: nat :: k < |moves| ==> MoveAt(states, moves, k)
  }

  lemma {:induction false} EmptyCounts(slots: Slots, threads: seq<Thread>)
    requires forall k: nat :: k < |slots| ==> slots[k] == 0
    requires forall i: nat :: i < |threads| ==> threads[i] == Idle
    ensures Occupied(slots) == 0 && Tally(threads, Counts) == 0 && Tally(threads, Attempts) == 0
    decreases |slots| + |threads|
  {
    if slots != [] {
      EmptyCounts(slots[..|slots| - 1], threads);
    } else if threads != [] {
      EmptyCounts(slots, threads[..|threads| - 1]);
    }
  }

  lemma {:induction false} RunInv(states: seq<System>, moves: seq<Move>, n: nat, k: nat)
    requires IsRun(states, moves, n) && k < |states|
    ensures Inv(states[k]) && |states[k].slots| == n
    ensures |states[k].threads| == |states[0].threads| && states[k].unknown == states[0].unknown
  {
    if k == 0 {
      EmptyCounts(states[0].slots, states[0].threads);
    } else {
      RunInv(states, moves, n, k - 1);
      assert MoveAt(states, moves, k - 1);
      match moves[k - 1] {
        case Calls(i, hash) => CallInv(states[k - 1], i, hash);
        case Steps(i) => StepInv(states[k - 1], i);
      }
    }
  }

  /** Each site has at most one slot, and its probe path has no free slot before it. */
  lemma OneSlotPerSite(states: seq<System>, moves: seq<Move>, n: nat, k: nat)
    requires IsRun(states, moves, n) && k < |states|
    ensures |states[k].slots| == n && TableInv(states[k].slots)
  {
    RunInv(states, moves, n, k);
  }

  /** A slot once taken belongs to its site forever. */
  lemma {:induction false} SlotsStay(states: seq<System>, moves: seq<Move>, n: nat, j: nat, k: nat, p: nat)
    requires IsRun(states, moves, n) && j <= k < |states|
    requires p < |states[j].slots| && states[j].slots[p] != 0
    ensures p < |states[k].slots| && states[k].slots[p] == states[j].slots[p]
    decreases k
  {
    if j < k {
      SlotsStay(states, moves, n, j, k - 1, p);
      assert MoveAt(states, moves, k - 1);
    }
  }

  predicate Returned(t: Thread, hash: nat) {
    t.Done? && t.hash == hash
  }

  /** The position a call returns is, from then on, the slot of the site it asked for or of
      the unknown site; two calls returning the same site return the same position. */
  lemma ResultStays(states: seq<System>, moves: seq<Move>, n: nat, j: nat, k: nat, i: nat)
    requires IsRun(states, moves, n) && j <= k < |states|
    requires i < |states[j].threads| && states[j].threads[i].Done?
    ensures var t := states[j].threads[i];
      && (t.hash == t.asked || t.hash == states[j].unknown)
      && t.pos < |states[k].slots| && states[k].slots[t.pos] == t.hash
      && forall m: nat :: m < |states[k].threads| && Returned(states[k].threads[m], t.hash) ==>
           states[k].threads[m].pos == t.pos
  {
    RunInv(states, moves, n, j);
    RunInv(states, moves, n, k);
    var t := states[j].threads[i];
    assert ThreadInv(states[j].slots, states[j].unknown, t);
    SlotsStay(states, moves, n, j, k, t.pos);
    forall m: nat | m < |states[k].threads| && Returned(states[k].threads[m], t.hash)
      ensures states[k].threads[m].pos == t.pos
    {
      assert ThreadInv(states[k].slots, states[k].unknown, states[k].threads[m]);
    }
  }

  /** The counter lags behind the table by the insertions under way, so it is exact at rest. */
  lemma CounterLags(states: seq<System>, moves: seq<Move>, n: nat, k: nat)
    requires IsRun(states, moves, n) && k < |states|
    ensures states[k].size + Tally(states[k].threads, Counts) == Occupied(states[k].slots)
    ensures Occupied(states[k].slots) <= n / 2 + |states[k].threads| + 1
  {
    RunInv(states, moves, n, k);
  }

  /** With fewer threads than a fifth of the table, less one, the assertion on the load holds
      and no search goes round the table twice. */
  lemma {:induction false} NeverTooFull(states: seq<System>, moves: seq<Move>, n: nat, k: nat, i: nat)
    requires IsRun(states, moves, n) && k < |states| && 5 * (|states[0].threads| + 1) < n
    requires i < |states[k].threads|
    ensures states[k].threads[i] != TooFull && states[k].threads[i] != Lapped
  {
    if k > 0 {
      RunInv(states, moves, n, k - 1);
      assert MoveAt(states, moves, k - 1);
      NeverTooFull(states, moves, n, k - 1, i);
      if moves[k - 1] == Steps(i) {
        NextFits(states[k - 1], i);
      }
    }
  }

  lemma NextFits(s: System, i: nat)
    requires Inv(s) && CanStep(s, i) && 5 * (|s.threads| + 1) < |s.slots|
    ensures Next(s, i) != TooFull && Next(s, i) != Lapped
  {
    assert ThreadInv(s.slots, s.unknown, s.threads[i]);
    var t := s.threads[i];
    if t.Probe? && t.search.wrapped && t.search.pos == |s.slots| - 1 && s.slots[t.search.pos] != 0 {
      LappedIsFull(s.slots, t.search);
      OccupiedAll(s.slots);
    }
  }

  /** In particular for the ten million slots of the program and fewer than 1,999,999 threads. */
  lemma ProgramNeverTooFull(states: seq<System>, moves: seq<Move>, k: nat, i: nat)
    requires IsRun(states, moves, TABLE_SIZE) && |states[0].threads| < TABLE_SIZE / 5 - 1
    requires k < |states| && i < |states[k].threads|
    ensures states[k].threads[i] != TooFull && states[k].threads[i] != Lapped
  {
    NeverTooFull(states, moves, TABLE_SIZE, k, i);
  }
}
