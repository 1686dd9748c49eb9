/**
 The accounting of the memory profiler with many threads (memprof.cpp): allocation, release
 and the search for a slot take one atomic access at a time, in any interleaving, and a
 block may be freed by another thread than the one that allocated it.
 */
module ConcurrentMemprof {
  import opened Sequences
  import opened Bytes
  import T = AllocTable
  import opened Memprof

  /** Where a thread stands in malloc or free. The block belongs to no one else meanwhile. */
  datatype Call =
    | Outside
    | Locating(hash: nat, address: nat, raw: seq<Byte>)
    | Adding(hash: nat, address: nat, block: Block)
    | Returning(hash: nat, address: nat, block: Block)
    | Subtracting(hash: nat, address: nat, block: Block)
    | Releasing(address: nat)
    | BadHeader(raw: seq<Byte>)
    | Underflow

  /** `heap` holds the blocks in the hands of the program, `sites` the hashes of the sites that
      asked for them. */
  datatype State = State(table: T.System, sizes: seq<nat>, heap: Heap, sites: map<nat, nat>, calls: seq<Call>)

  datatype Move =
    | Malloc(i: nat, hash: nat, address: nat, raw: seq<Byte>)
    | Free(i: nat, address: nat)
    | Probe(i: nat)
    | Go(i: nat)

  predicate Shaped(s: State) {
    |s.calls| == |s.table.threads| && |s.sizes| == |s.table.slots|
  }

  function Address(c: Call): nat {
    match c
    case Locating(_, address, _) => address
    case Adding(_, address, _) => address
    case Returning(_, address, _) => address
    case Subtracting(_, address, _) => address
    case Releasing(address) => address
    case _ => 0
  }

  predicate Holds(c: Call, address: nat) {
    address != 0 && Address(c) == address
  }

  /** The position that a search has returned, in the table. */
  predicate Located(s: State, i: nat) {
    i < |s.table.threads| && s.table.threads[i].Done? && s.table.threads[i].pos < |s.sizes|
  }

  /** The allocator below gives memory that nobody has. A thread frees a block that the program
      has. Within a call each access is taken as it comes. */
  predicate CanMove(s: State, m: Move) {
    && Shaped(s) && m.i < |s.calls|
    && match m
       case Malloc(i, hash, address, raw) =>
         && s.calls[i] == Outside && T.CanCall(s.table, i, hash)
         && address != 0 && address !in s.heap && forall j :: 0 <= j < |s.calls| ==> !Holds(s.calls[j], address)
       case Free(i, address) => s.calls[i] == Outside && address in s.heap && address in s.sites
       case Probe(i) => s.calls[i].Locating? && T.CanStep(s.table, i)
       case Go(i) =>
         match s.calls[i]
         case Locating(_, _, _) => Located(s, i)
         case Adding(_, _, block) => block.pos < |s.sizes|
         case Returning(_, _, _) => true
         case Subtracting(_, _, block) => block.pos < |s.sizes|
         case Releasing(_) => true
         case _ => false
  }

  function Make(s: State, m: Move): State
    requires CanMove(s, m)
  {
    match m
    case Malloc(i, hash, address, raw) =>
      s.(table := T.Call(s.table, i, hash), calls := s.calls[i := Locating(hash, address, raw)])
    case Free(i, address) =>
      s.(heap := s.heap - {address}, sites := s.sites - {address},
         calls := s.calls[i := Subtracting(s.sites[address], address, s.heap[address])])
    case Probe(i) => s.(table := T.Step(s.table, i))
    case Go(i) => Continue(s, i)
  }

  /** The header is complete and its size is tested; the size is added to the slot; the block
      is handed out. In free the size is subtracted and the old value tested; the memory goes
      back to the allocator below. */
  function Continue(s: State, i: nat): State
    requires CanMove(s, Go(i))
  {
    match s.calls[i]
    case Locating(hash, address, raw) =>
      var block := Block(Low32(|raw|), s.table.threads[i].pos, raw);
      s.(calls := s.calls[i := if FitsHeader(|raw|) then Adding(hash, address, block) else BadHeader(raw)])
    case Adding(hash, address, block) =>
      s.(sizes := s.sizes[block.pos := s.sizes[block.pos] + block.size],
         calls := s.calls[i := Returning(hash, address, block)])
    case Returning(hash, address, block) =>
      s.(heap := s.heap[address := block], sites := s.sites[address := hash], calls := s.calls[i := Outside])
    case Subtracting(hash, address, block) =>
      if s.sizes[block.pos] < block.size then s.(calls := s.calls[i := Underflow])
      else
        s.(sizes := s.sizes[block.pos := s.sizes[block.pos] - block.size],
           calls := s.calls[i := Releasing(address)])
    case Releasing(_) => s.(calls := s.calls[i := Outside])
  }

  // ---- what is charged to a slot by threads inside calls ----

  /** A block that is added and not handed out yet, or taken back and not subtracted yet. */
  function Owes(c: Call, m: Measure): nat {
    match c
    case Returning(_, _, block) => Weigh(block, m)
    case Subtracting(_, _, block) => Weigh(block, m)
    case _ => 0
  }

  function Owed(calls: seq<Call>, m: Measure): nat {
    if calls == [] then 0
    else Owed(calls[..|calls| - 1], m) + Owes(calls[|calls| - 1], m)
  }

  lemma {:induction false} OwedUpdate(calls: seq<Call>, m: Measure, i: nat, c: Call)
    requires i < |calls|
    ensures Owed(calls, m) >= Owes(calls[i], m)
    ensures Owed(calls[i := c], m) == Owed(calls, m) - Owes(calls[i], m) + Owes(c, m)
  {
    var n := |calls| - 1;
    if i == n {
      assert calls[i := c][..n] == calls[..n];
    } else {
      assert calls[i := c][..n] == calls[..n][i := c];
      OwedUpdate(calls[..n], m, i, c);
    }
  }

  // ---- what every move keeps ----

  /** A block is charged to the slot of its site, or to that of the unknown site. */
  ghost predicate Charge(slots: seq<nat>, unknown: nat, hash: nat, b: Block) {
    && b.pos < |slots| && slots[b.pos] != 0 && (slots[b.pos] == hash || slots[b.pos] == unknown)
    && b.size == Low32(|b.bytes|) && FitsHeader(|b.bytes|)
  }

  ghost predicate HeapInv(s: State) {
    && s.heap.Keys == s.sites.Keys
    && forall a :: a in s.heap ==> Charge(s.table.slots, s.table.unknown, s.sites[a], s.heap[a])
  }

  /** A thread in the table searches for the site that the call asked for. */
  ghost predicate Searches(t: T.Thread, hash: nat) {
    && (T.Searching(t) ==> t.search.asked == hash) && (T.Settled(t) ==> t.asked == hash)
    && !t.Idle?
  }

  ghost predicate CallInv(s: State, i: nat)
    requires Shaped(s) && i < |s.calls|
  {
    match s.calls[i]
    case Outside => s.table.threads[i].Idle? || s.table.threads[i].Done?
    case Locating(hash, address, _) => address != 0 && Searches(s.table.threads[i], hash)
    case Adding(hash, address, block) =>
      address != 0 && s.table.threads[i].Done? && Charge(s.table.slots, s.table.unknown, hash, block)
    case Returning(hash, address, block) =>
      address != 0 && s.table.threads[i].Done? && Charge(s.table.slots, s.table.unknown, hash, block)
    case Subtracting(hash, address, block) =>
      && address != 0 && (s.table.threads[i].Idle? || s.table.threads[i].Done?)
      && Charge(s.table.slots, s.table.unknown, hash, block)
    case Releasing(address) => address != 0 && (s.table.threads[i].Idle? || s.table.threads[i].Done?)
    case BadHeader(raw) => !FitsHeader(|raw|)
    case Underflow => false
  }

  /** Every block is in one place only. */
  ghost predicate Apart(s: State) {
    && 0 !in s.heap
    && (forall i :: 0 <= i < |s.calls| ==> Address(s.calls[i]) !in s.heap)
    && forall i, j :: 0 <= i < j < |s.calls| && Address(s.calls[i]) != 0 ==> Address(s.calls[i]) != Address(s.calls[j])
  }

  ghost predicate SlotInv(s: State, p: nat)
    requires p < |s.sizes|
  {
    s.sizes[p] == Total(s.heap, ChargedTo(p)) + Owed(s.calls, ChargedTo(p))
  }

  ghost predicate Balanced(s: State) {
    forall p: nat :: p < |s.sizes| ==> SlotInv(s, p)
  }

  ghost predicate Inv(s: State) {
    && Shaped(s) && T.Inv(s.table) && HeapInv(s) && Apart(s) && Balanced(s)
    && forall i: nat :: i < |s.calls| ==> CallInv(s, i)
  }

  // The table moves on.

  /** A step in the table leaves taken slots as they are. */
  lemma ProbeCharge(table: T.System, i: nat, hash: nat, b: Block)
    requires T.CanStep(table, i) && Charge(table.slots, table.unknown, hash, b)
    ensures Charge(T.Step(table, i).slots, table.unknown, hash, b)
  {}

  lemma ProbeSearches(table: T.System, i: nat, hash: nat)
    requires T.CanStep(table, i) && Searches(table.threads[i], hash)
    ensures Searches(T.Step(table, i).threads[i], hash)
  {}

  lemma ProbeInv(s: State, i: nat)
    requires Inv(s) && CanMove(s, Probe(i))
    ensures Inv(Make(s, Probe(i)))
  {
    var t := Make(s, Probe(i));
    T.StepInv(s.table, i);
    forall a | a in s.heap ensures Charge(t.table.slots, t.table.unknown, t.sites[a], t.heap[a]) {
      ProbeCharge(s.table, i, s.sites[a], s.heap[a]);
    }
    forall j: nat | j < |s.calls| ensures CallInv(t, j) {
      assert CallInv(s, j);
      if j == i {
        ProbeSearches(s.table, i, s.calls[i].hash);
      } else if s.calls[j].Adding? || s.calls[j].Returning? || s.calls[j].Subtracting? {
        ProbeCharge(s.table, i, s.calls[j].hash, s.calls[j].block);
      }
    }
    forall p: nat | p < |t.sizes| ensures SlotInv(t, p) {
      assert SlotInv(s, p);
    }
  }

  // The two calls begin.

  lemma CallsStay(s: State, t: State, i: nat)
    requires Shaped(s) && Shaped(t) && i < |s.calls| && |t.calls| == |s.calls|
    requires t.table.slots == s.table.slots && t.table.unknown == s.table.unknown
    requires forall j: nat :: j < |s.calls| && j != i ==> t.calls[j] == s.calls[j] && t.table.threads[j] == s.table.threads[j]
    requires forall j: nat :: j < |s.calls| ==> CallInv(s, j)
    requires CallInv(t, i)
    ensures forall j: nat :: j < |t.calls| ==> CallInv(t, j)
  {
    forall j: nat | j < |t.calls| ensures CallInv(t, j) {
      assert CallInv(s, j);
    }
  }

  lemma MallocInv(s: State, m: Move)
    requires Inv(s) && m.Malloc? && CanMove(s, m)
    ensures Inv(Make(s, m))
  {
    var t := Make(s, m);
    T.CallInv(s.table, m.i, m.hash);
    CallsStay(s, t, m.i);
    forall p: nat | p < |t.sizes| ensures SlotInv(t, p) {
      assert SlotInv(s, p);
      OwedUpdate(s.calls, ChargedTo(p), m.i, t.calls[m.i]);
    }
  }

  lemma FreeInv(s: State, m: Move)
    requires Inv(s) && m.Free? && CanMove(s, m)
    ensures Inv(Make(s, m))
  {
    var t := Make(s, m);
    assert CallInv(s, m.i);
    CallsStay(s, t, m.i);
    forall p: nat | p < |t.sizes| ensures SlotInv(t, p) {
      assert SlotInv(s, p);
      TotalWithout(s.heap, m.address, ChargedTo(p));
      OwedUpdate(s.calls, ChargedTo(p), m.i, t.calls[m.i]);
    }
  }

  // The accesses inside them.

  lemma LocatedInv(s: State, i: nat)
    requires Inv(s) && CanMove(s, Go(i)) && s.calls[i].Locating?
    ensures Inv(Make(s, Go(i)))
  {
    var t := Make(s, Go(i));
    assert CallInv(s, i) && T.ThreadInv(s.table.slots, s.table.unknown, s.table.threads[i]);
    CallsStay(s, t, i);
    forall p: nat | p < |t.sizes| ensures SlotInv(t, p) {
      assert SlotInv(s, p);
      OwedUpdate(s.calls, ChargedTo(p), i, t.calls[i]);
    }
  }

  lemma AddInv(s: State, i: nat)
    requires Inv(s) && CanMove(s, Go(i)) && s.calls[i].Adding?
    ensures Inv(Make(s, Go(i)))
  {
    var t := Make(s, Go(i));
    assert CallInv(s, i);
    CallsStay(s, t, i);
    forall p: nat | p < |t.sizes| ensures SlotInv(t, p) {
      assert SlotInv(s, p);
      OwedUpdate(s.calls, ChargedTo(p), i, t.calls[i]);
    }
  }

  lemma ReturnInv(s: State, i: nat)
    requires Inv(s) && CanMove(s, Go(i)) && s.calls[i].Returning?
    ensures Inv(Make(s, Go(i)))
  {
    var t := Make(s, Go(i));
    var c := s.calls[i];
    assert CallInv(s, i);
    CallsStay(s, t, i);
    forall p: nat | p < |t.sizes| ensures SlotInv(t, p) {
      assert SlotInv(s, p);
      TotalWith(s.heap, c.address, c.block, ChargedTo(p));
      OwedUpdate(s.calls, ChargedTo(p), i, Outside);
    }
  }

  /** A slot holds at least what is about to be subtracted from it. */
  lemma Covered(s: State, i: nat)
    requires Inv(s) && CanMove(s, Go(i)) && s.calls[i].Subtracting?
    ensures s.sizes[s.calls[i].block.pos] >= s.calls[i].block.size
  {
    var p := s.calls[i].block.pos;
    assert SlotInv(s, p);
    OwedUpdate(s.calls, ChargedTo(p), i, Outside);
  }

  lemma SubtractInv(s: State, i: nat)
    requires Inv(s) && CanMove(s, Go(i)) && s.calls[i].Subtracting?
    ensures Inv(Make(s, Go(i)))
  {
    Covered(s, i);
    var t := Make(s, Go(i));
    assert CallInv(s, i);
    CallsStay(s, t, i);
    forall p: nat | p < |t.sizes| ensures SlotInv(t, p) {
      assert SlotInv(s, p);
      OwedUpdate(s.calls, ChargedTo(p), i, t.calls[i]);
    }
  }

  lemma ReleaseInv(s: State, i: nat)
    requires Inv(s) && CanMove(s, Go(i)) && s.calls[i].Releasing?
    ensures Inv(Make(s, Go(i)))
  {
    var t := Make(s, Go(i));
    assert CallInv(s, i);
    CallsStay(s, t, i);
    forall p: nat | p < |t.sizes| ensures SlotInv(t, p) {
      assert SlotInv(s, p);
      OwedUpdate(s.calls, ChargedTo(p), i, Outside);
    }
  }

  lemma MoveInv(s: State, m: Move)
    requires Inv(s) && CanMove(s, m)
    ensures Inv(Make(s, m))
  {
    match m {
      case Malloc(_, _, _, _) => MallocInv(s, m);
      case Free(_, _) => FreeInv(s, m);
      case Probe(i) => ProbeInv(s, i);
      case Go(i) =>
        match s.calls[i] {
          case Locating(_, _, _) => LocatedInv(s, i);
          case Adding(_, _, _) => AddInv(s, i);
          case Returning(_, _, _) => ReturnInv(s, i);
          case Subtracting(_, _, _) => SubtractInv(s, i);
          case Releasing(_) => ReleaseInv(s, i);
        }
    }
  }

  // ---- whole runs ----

  ghost predicate MoveAt(states: seq<State>, moves: seq<Move>, k: nat)
    requires |states| == |moves| + 1 && k < |moves|
  {
    CanMove(states[k], moves[k]) && states[k + 1] == Make(states[k], moves[k])
  }

  /** No thread is in a call, nothing is allocated, and the table of n slots is empty. */
  ghost predicate Fresh(s: State, n: nat) {
    && n > 0 && s.table.slots == seq(n, k => 0) && s.table.size == 0 && s.table.unknown != 0
    && (forall i: nat :: i < |s.table.threads| ==> s.table.threads[i] == T.Idle)
    && s.sizes == seq(n, k => 0) && s.heap == map[] && s.sites == map[]
    && s.calls == seq(|s.table.threads|, i => Outside)
  }

  ghost predicate IsRun(states: seq<State>, moves: seq<Move>, n: nat) {
    && |states| == |moves| + 1 && Fresh(states[0], n)
    && forall k: nat :: k < |moves| ==> MoveAt(states, moves, k)
  }

  lemma {:induction false} NothingOwed(calls: seq<Call>, m: Measure)
    requires forall i :: 0 <= i < |calls| ==> calls[i] == Outside
    ensures Owed(calls, m) == 0
  {
    if calls != [] {
      NothingOwed(calls[..|calls| - 1], m);
    }
  }

  lemma FreshInv(s: State, n: nat)
    requires Fresh(s, n)
    ensures Inv(s)
  {
    T.EmptyCounts(s.table.slots, s.table.threads);
    forall p: nat | p < |s.sizes| ensures SlotInv(s, p) {
      NothingOwed(s.calls, ChargedTo(p));
    }
  }

  lemma {:induction false} RunInv(states: seq<State>, moves: seq<Move>, n: nat, k: nat)
    requires IsRun(states, moves, n) && k < |states|
    ensures Inv(states[k]) && |states[k].sizes| == n
    ensures |states[k].calls| == |states[0].calls| && states[k].table.unknown == states[0].table.unknown
  {
    if k == 0 {
      FreshInv(states[0], n);
    } else {
      RunInv(states, moves, n, k - 1);
      assert MoveAt(states, moves, k - 1);
      MoveInv(states[k - 1], moves[k - 1]);
    }
  }

  /** In every interleaving each slot carries exactly the blocks that are charged to it: those
      of the program and those that threads are about to hand out or to subtract. */
  lemma SlotsBalance(states: seq<State>, moves: seq<Move>, n: nat, k: nat, p: nat)
    requires IsRun(states, moves, n) && k < |states| && p < n
    ensures |states[k].sizes| == n
    ensures states[k].sizes[p] == Total(states[k].heap, ChargedTo(p)) + Owed(states[k].calls, ChargedTo(p))
  {
    RunInv(states, moves, n, k);
    assert SlotInv(states[k], p);
  }

  /** No slot is ever smaller than what is subtracted from it, and the test of the header fails
      only for a size that does not fit it. */
  lemma NoUnderflow(states: seq<State>, moves: seq<Move>, n: nat, k: nat, i: nat)
    requires IsRun(states, moves, n) && k < |states| && i < |states[k].calls|
    ensures states[k].calls[i] != Underflow
    ensures states[k].calls[i].BadHeader? ==> !FitsHeader(|states[k].calls[i].raw|)
  {
    RunInv(states, moves, n, k);
    assert CallInv(states[k], i);
  }

  /** Each block of the program is charged to the slot of the site that asked for it, or to
      that of the unknown site, whatever other threads have done since. */
  lemma ChargedToSite(states: seq<State>, moves: seq<Move>, n: nat, k: nat, a: nat)
    requires IsRun(states, moves, n) && k < |states| && a in states[k].heap
    ensures a in states[k].sites
    ensures Charge(states[k].table.slots, states[k].table.unknown, states[k].sites[a], states[k].heap[a])
  {
    RunInv(states, moves, n, k);
  }

  predicate Fits(t: T.Thread) {
    t != T.TooFull && t != T.Lapped
  }

  lemma MoveFits(s: State, m: Move, i: nat)
    requires Inv(s) && CanMove(s, m) && 5 * (|s.calls| + 1) < |s.sizes|
    requires i < |s.calls| && Fits(s.table.threads[i])
    ensures i < |Make(s, m).table.threads| && Fits(Make(s, m).table.threads[i])
  {
    if m == Probe(i) {
      T.NextFits(s.table, i);
    }
  }

  /** A thread inside a call is not held up by others. */
  lemma GoesOn(s: State, i: nat)
    requires Inv(s) && i < |s.calls| && Fits(s.table.threads[i])
    requires s.calls[i] != Outside && !s.calls[i].BadHeader?
    ensures CanMove(s, Probe(i)) || CanMove(s, Go(i))
  {
    assert CallInv(s, i) && T.ThreadInv(s.table.slots, s.table.unknown, s.table.threads[i]);
  }

  /** With fewer threads than a fifth of the table, less one, no search fails, and a thread inside
      a call can always go on. */
  lemma {:induction false} NeverStuck(states: seq<State>, moves: seq<Move>, n: nat, k: nat, i: nat)
    requires IsRun(states, moves, n) && k < |states| && 5 * (|states[0].calls| + 1) < n
    requires i < |states[k].calls|
    ensures Shaped(states[k]) && Fits(states[k].table.threads[i])
    ensures states[k].calls[i] == Outside || states[k].calls[i].BadHeader?
         || CanMove(states[k], Probe(i)) || CanMove(states[k], Go(i))
    decreases k
  {
    RunInv(states, moves, n, k);
    if k > 0 {
      RunInv(states, moves, n, k - 1);
      NeverStuck(states, moves, n, k - 1, i);
      assert MoveAt(states, moves, k - 1);
      MoveFits(states[k - 1], moves[k - 1], i);
    }
    if states[k].calls[i] != Outside && !states[k].calls[i].BadHeader? {
      GoesOn(states[k], i);
    }
  }

  // ---- all slots together ----

  ghost predicate AllSlots(heap: Heap, calls: seq<Call>, sizes: seq<nat>) {
    forall p: nat :: p < |sizes| ==> sizes[p] == Total(heap, ChargedTo(p)) + Owed(calls, ChargedTo(p))
  }

  /** The slots without what the last of the threads owes. */
  lemma WithoutLast(heap: Heap, calls: seq<Call>, sizes: seq<nat>, c: Call) returns (before: seq<nat>)
    requires calls != [] && c == calls[|calls| - 1] && (c.Returning? || c.Subtracting?)
    requires c.block.pos < |sizes| && AllSlots(heap, calls, sizes)
    ensures |before| == |sizes| && AllSlots(heap, calls[..|calls| - 1], before)
    ensures sizes == before[c.block.pos := before[c.block.pos] + c.block.size]
  {
    var p := c.block.pos;
    assert Owed(calls, ChargedTo(p)) >= c.block.size;
    before := sizes[p := sizes[p] - c.block.size];
  }

  lemma {:induction false} OwedInSlots(heap: Heap, calls: seq<Call>, sizes: seq<nat>)
    requires forall a :: a in heap ==> heap[a].pos < |sizes|
    requires forall i :: 0 <= i < |calls| && (calls[i].Returning? || calls[i].Subtracting?) ==> calls[i].block.pos < |sizes|
    requires AllSlots(heap, calls, sizes)
    ensures Sum(sizes) == Total(heap, Charged) + Owed(calls, Charged)
    decreases |calls|
  {
    if calls == [] {
      SlotsAddUp(heap, sizes);
    } else {
      var n := |calls| - 1;
      var c := calls[n];
      if c.Returning? || c.Subtracting? {
        var before := WithoutLast(heap, calls, sizes, c);
        OwedInSlots(heap, calls[..n], before);
        SumAdd(before, c.block.pos, c.block.size);
      } else {
        OwedInSlots(heap, calls[..n], sizes);
      }
    }
  }

  /** What get_used_memory_size adds up, in one moment of any run: the blocks of the program and
      those inside calls. */
  lemma SlotsTotal(states: seq<State>, moves: seq<Move>, n: nat, k: nat)
    requires IsRun(states, moves, n) && k < |states|
    ensures Sum(states[k].sizes) == Total(states[k].heap, Charged) + Owed(states[k].calls, Charged)
  {
    RunInv(states, moves, n, k);
    var s := states[k];
    forall i | 0 <= i < |s.calls| && (s.calls[i].Returning? || s.calls[i].Subtracting?)
      ensures s.calls[i].block.pos < |s.sizes|
    {
      assert CallInv(s, i);
    }
    forall p: nat | p < |s.sizes| ensures s.sizes[p] == Total(s.heap, ChargedTo(p)) + Owed(s.calls, ChargedTo(p)) {
      assert SlotInv(s, p);
    }
    OwedInSlots(s.heap, s.calls, s.sizes);
  }

  /** While no thread is inside a call, the slots add up to the bytes that the program holds,
      exactly if each of its blocks is below 2^31 bytes. */
  lemma ExactAtRest(states: seq<State>, moves: seq<Move>, n: nat, k: nat)
    requires IsRun(states, moves, n) && k < |states|
    requires forall i :: 0 <= i < |states[k].calls| ==> states[k].calls[i] == Outside
    ensures Sum(states[k].sizes) == Total(states[k].heap, Held)
            <==> forall a :: a in states[k].heap ==> |states[k].heap[a].bytes| < WORD / 2
  {
    RunInv(states, moves, n, k);
    SlotsTotal(states, moves, n, k);
    NothingOwed(states[k].calls, Charged);
    ChargedIsHeld(states[k].heap);
  }
}
