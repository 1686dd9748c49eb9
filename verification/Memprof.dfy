/**
 The accounting of the memory profiler (memprof.cpp): every allocation is charged to a
 slot of the table of allocation sites, with its size kept in 32 bits, and given back
 when the block is freed. The allocator below supplies addresses and raw memory.
 */
module Memprof {
  import opened Sequences
  import opened AllocTable
  import opened Bytes

  /** The header of a live block and the bytes behind it. */
  datatype Block = Block(size: nat, pos: nat, bytes: seq<Byte>)

  type Heap = map<nat, Block>

  // ---- sums over the live blocks ----

  /** What is added up over the blocks: the sizes charged to one slot, all charged sizes,
      or the bytes really held. */
  datatype Measure = ChargedTo(pos: nat) | Charged | Held

  function Weigh(b: Block, m: Measure): nat {
    match m
    case ChargedTo(pos) => if b.pos == pos then b.size else 0
    case Charged => b.size
    case Held => |b.bytes|
  }

  ghost function Total(heap: Heap, m: Measure): nat
    decreases |heap|
  {
    if heap == map[] then 0
    else
      var a :| a in heap;
      Total(heap - {a}, m) + Weigh(heap[a], m)
  }

  lemma {:induction false} TotalWithout(heap: Heap, a: nat, m: Measure)
    requires a in heap
    ensures Total(heap, m) == Total(heap - {a}, m) + Weigh(heap[a], m)
    decreases |heap|
  {
    var b :| b in heap && Total(heap, m) == Total(heap - {b}, m) + Weigh(heap[b], m);
    if a != b {
      TotalWithout(heap - {b}, a, m);
      TotalWithout(heap - {a}, b, m);
      assert heap - {a} - {b} == heap - {b} - {a};
    }
  }

  lemma TotalWith(heap: Heap, a: nat, b: Block, m: Measure)
    requires a !in heap
    ensures Total(heap[a := b], m) == Total(heap, m) + Weigh(b, m)
  {
    TotalWithout(heap[a := b], a, m);
    assert heap[a := b] - {a} == heap;
  }

  /** A block of 2^32 bytes passes the test of its header and is charged nothing. */
  lemma TruncatedBlock() returns (heap: Heap)
    ensures Headers(heap) && Total(heap, Charged) == 0 && Total(heap, Held) == 0x1_0000_0000
  {
    var block := Block(0, 0, seq(0x1_0000_0000, i => 0));
    heap := map[16 := block];
    TotalWith(map[], 16, block, Charged);
    TotalWith(map[], 16, block, Held);
    assert map[][16 := block] == heap;
  }

  /** Charging every block to one of the slots loses nothing. */
  lemma {:induction false} SlotsAddUp(heap: Heap, s: seq<nat>)
    requires forall a :: a in heap ==> heap[a].pos < |s|
    requires forall p: nat :: p < |s| ==> s[p] == Total(heap, ChargedTo(p))
    ensures Sum(s) == Total(heap, Charged)
    decreases |heap|
  {
    if heap == map[] {
      SumZero(s);
    } else {
      var a :| a in heap;
      ghost var rest := heap - {a};
      ghost var t := seq(|s|, (p: nat) => Total(rest, ChargedTo(p)));
      SlotsAddUp(rest, t);
      TotalWithout(heap, a, Charged);
      forall p: nat | p < |s| ensures s[p] == t[p] + if p == heap[a].pos then heap[a].size else 0 {
        TotalWithout(heap, a, ChargedTo(p));
      }
      SumAdd(t, heap[a].pos, heap[a].size);
      assert s == t[heap[a].pos := t[heap[a].pos] + heap[a].size];
    }
  }

  /** The size of a block fits the signed field of its header. */
  predicate FitsHeader(size: nat) {
    Low32(size) < WORD / 2
  }

  ghost predicate Headers(heap: Heap) {
    forall a :: a in heap ==> heap[a].size == Low32(|heap[a].bytes|) && FitsHeader(|heap[a].bytes|)
  }

  lemma HeaderExact(size: nat)
    ensures Low32(size) <= size
    ensures FitsHeader(size) ==> (Low32(size) == size <==> size < WORD / 2)
  {}

  /** What is charged is what is held, exactly if no live block has 2^31 bytes or more. */
  lemma {:induction false} ChargedIsHeld(heap: Heap)
    requires Headers(heap)
    ensures Total(heap, Charged) <= Total(heap, Held)
    ensures Total(heap, Charged) == Total(heap, Held) <==> forall a :: a in heap ==> |heap[a].bytes| < WORD / 2
    decreases |heap|
  {
    if heap != map[] {
      var a :| a in heap;
      ghost var rest := heap - {a};
      ChargedIsHeld(rest);
      TotalWithout(heap, a, Charged);
      TotalWithout(heap, a, Held);
      HeaderExact(|heap[a].bytes|);
      assert forall b :: b in rest ==> rest[b] == heap[b];
      assert forall b :: b in heap ==> b == a || b in rest;
    }
  }

  /** The bytes realloc copies. */
  function ToCopy(size: nat, charged: nat): nat {
    if Low32(size) < charged then Low32(size) else charged
  }

  function Min(a: nat, b: nat): nat {
    if a < b then a else b
  }

  /** The copy is the common prefix of the two blocks exactly if the smaller is below 2^31
      bytes and the header of the larger does not make it look smaller still. */
  lemma CopiesCommonPrefix(size: nat, held: nat)
    requires FitsHeader(size) && FitsHeader(held)
    ensures ToCopy(size, Low32(held)) <= Min(size, held)
    ensures ToCopy(size, Low32(held)) == Min(size, held) <==>
            Min(size, held) < WORD / 2 && Min(size, held) <= Low32(if size < held then held else size)
  {
    HeaderExact(size);
    HeaderExact(held);
  }

  /** Reallocation between 100 and 2^32 + 5 bytes, either way, keeps five bytes. */
  lemma ReallocLosesBytes()
    ensures FitsHeader(100) && FitsHeader(0x1_0000_0005)
    ensures ToCopy(0x1_0000_0005, Low32(100)) == ToCopy(100, Low32(0x1_0000_0005)) == 5 < Min(100, 0x1_0000_0005)
  {}

  /** The slot of the site is found where it is, or put into a free place. */
  ghost predicate FoundOrPut(before: Slots, after: Slots, hash: nat, pos: nat) {
    && pos < |before|
    && if hash in before then after == before && before[pos] == hash
       else before[pos] == 0 && after == before[pos := hash]
  }

  ghost predicate Roomy(slots: Slots, size: nat, unknown: nat) {
    && |slots| == TABLE_SIZE && unknown != 0 && TableInv(slots) && size == Occupied(slots)
    && size <= TABLE_SIZE / 2 + 1 + if unknown in slots then 1 else 0
  }

  lemma PutKeepsRoomy(slots: Slots, size: nat, unknown: nat, s: Search)
    requires Roomy(slots, size, unknown) && SearchInv(slots, s) && slots[s.pos] == 0
    requires size <= TABLE_SIZE / 2 || s.hash == unknown
    ensures Roomy(slots[s.pos := s.hash], size + 1, unknown) && s.hash !in slots
    ensures size * 10 < TABLE_SIZE * 7
  {
    InsertKeeps(slots, s);
    OccupiedFill(slots, s.pos, s.hash);
    var filled := slots[s.pos := s.hash];
    assert filled[s.pos] == s.hash;
    if unknown in slots {
      var k :| 0 <= k < |slots| && slots[k] == unknown;
      assert filled[k] == unknown;
    }
  }

  lemma NotFull(slots: Slots, size: nat, unknown: nat, s: Search)
    requires Roomy(slots, size, unknown) && SearchInv(slots, s) && slots[s.pos] != 0
    ensures !(s.wrapped && s.pos == TABLE_SIZE - 1)
  {
    if s.wrapped && s.pos == TABLE_SIZE - 1 {
      LappedIsFull(slots, s);
      OccupiedAll(slots);
    }
  }

  lemma MoveOn(slots: Slots, s: Search)
    requires |slots| > 0 && SearchInv(slots, s) && slots[s.pos] != 0 && slots[s.pos] != s.hash
    requires !(s.wrapped && s.pos == |slots| - 1)
    ensures var t := Advance(s, |slots|); t.Probe? && SearchInv(slots, t.search)
  {}

  class Profiler {
    const hashes: array<nat>
    const sizes: array<nat>
    const unknown: nat
    var htSize: nat
    var heap: Heap

    ghost predicate TableValid()
      reads this, hashes
    {
      Roomy(hashes[..], htSize, unknown)
    }

    /** Every slot carries exactly the live blocks charged to it. */
    ghost predicate Balanced()
      reads this, sizes
    {
      && sizes.Length == TABLE_SIZE && Headers(heap)
      && (forall a :: a in heap ==> heap[a].pos < TABLE_SIZE)
      && forall p: nat :: p < TABLE_SIZE ==> sizes[p] == Total(heap, ChargedTo(p))
    }

    /** The hash that a new block of this site is charged to. */
    function Site(hash: nat): nat
      reads this, hashes
    {
      if hash in hashes[..] || htSize <= TABLE_SIZE / 2 then hash else unknown
    }

    ghost predicate Valid()
      reads this, hashes, sizes
    {
      hashes != sizes && TableValid() && Balanced()
    }

    constructor (unknown: nat)
      requires unknown != 0
      ensures Valid() && heap == map[] && fresh(hashes) && fresh(sizes)
    {
      this.unknown := unknown;
      hashes := new nat[TABLE_SIZE](i => 0);
      sizes := new nat[TABLE_SIZE](i => 0);
      htSize := 0;
      heap := map[];
      new;
      EmptyCounts(hashes[..], []);
    }

    method GetHtPos(hash: nat, force: bool) returns (pos: nat)
      requires Valid() && hash != 0 && (force ==> hash == unknown)
      modifies hashes, this`htSize
      ensures Valid()
      ensures var site := if hash in old(hashes[..]) || old(htSize) <= TABLE_SIZE / 2 then hash else unknown;
        FoundOrPut(old(hashes[..]), hashes[..], site, pos)
      decreases if force then 0 else 1
    {
      ghost var slots := hashes[..];
      pos := hash % TABLE_SIZE;
      var wasOverflow := false;
      while true
        invariant hashes[..] == slots && htSize == old(htSize)
        invariant SearchInv(slots, Search(hash, hash, pos, wasOverflow, force))
        decreases if wasOverflow then TABLE_SIZE - pos else 2 * TABLE_SIZE - pos
      {
        ghost var search := Search(hash, hash, pos, wasOverflow, force);
        var posHash := hashes[pos];
        if posHash == 0 {
          forall k: nat | k < |slots| ensures slots[k] != hash {
            NoSlotBeyond(slots, search, k);
          }
          if htSize > TABLE_SIZE / 2 && !force {
            pos := GetHtPos(unknown, true);
            return;
          }
          PutKeepsRoomy(slots, htSize, unknown, search);
          assert htSize * 10 < TABLE_SIZE * 7;
          hashes[pos] := hash;
          htSize := htSize + 1;
          assert hashes[..] == slots[pos := hash];
          return;
        } else if posHash == hash {
          return;
        }
        NotFull(slots, htSize, unknown, search);
        MoveOn(slots, search);
        pos := pos + 1;
        if pos == TABLE_SIZE {
          pos := 0;
          assert !wasOverflow;
          wasOverflow := true;
        }
      }
    }

    /** The allocator below has given `raw` at `address`; the result is whether the process
        survives the test of the header. */
    method Malloc(raw: seq<Byte>, hash: nat, address: nat) returns (alive: bool)
      requires Valid() && hash != 0 && address !in heap
      modifies this, hashes, sizes
      ensures alive <==> FitsHeader(|raw|)
      ensures alive ==> Valid() && heap.Keys == old(heap.Keys) + {address}
      ensures alive ==> heap == old(heap)[address := heap[address]] && heap[address].bytes == raw
      ensures alive ==> hashes[heap[address].pos] == old(Site(hash))
    {
      var pos := GetHtPos(hash, false);
      if Low32(|raw|) >= WORD / 2 {
        return false;
      }
      var block := Block(Low32(|raw|), pos, raw);
      forall p: nat | p < TABLE_SIZE
        ensures Total(heap[address := block], ChargedTo(p)) == sizes[p] + if p == pos then block.size else 0
      {
        TotalWith(heap, address, block, ChargedTo(p));
      }
      sizes[pos] := sizes[pos] + block.size;
      heap := heap[address := block];
      alive := true;
    }

    /** A null pointer, or a block that is live; the slot never holds less than the block. */
    method Free(address: nat)
      requires Valid() && (address == 0 || address in heap)
      modifies this`heap, sizes
      ensures Valid() && heap == old(heap) - if address == 0 then {} else {address}
    {
      if address == 0 {
        return;
      }
      var block := heap[address];
      TotalWithout(heap, address, ChargedTo(block.pos));
      assert sizes[block.pos] >= block.size;
      forall p: nat | p < TABLE_SIZE
        ensures Total(heap - {address}, ChargedTo(p)) == sizes[p] - if p == block.pos then block.size else 0
      {
        TotalWithout(heap, address, ChargedTo(p));
      }
      sizes[block.pos] := sizes[block.pos] - block.size;
      heap := heap - {address};
    }

    /** Moves the block to `target`, where the allocator has given `raw`. */
    method Realloc(address: nat, raw: seq<Byte>, hash: nat, target: nat) returns (alive: bool)
      requires Valid() && hash != 0 && (address == 0 || address in heap)
      requires target != 0 && target !in heap
      modifies this, hashes, sizes
      ensures alive <==> FitsHeader(|raw|)
      ensures alive ==> Valid() && target in heap
      ensures alive ==> heap == (old(heap) - if address == 0 then {} else {address})[target := heap[target]]
      ensures alive ==> hashes[heap[target].pos] == old(Site(hash))
      ensures alive ==>
        var n := if address == 0 then 0 else ToCopy(|raw|, old(heap)[address].size);
        n <= |raw| && |heap[target].bytes| == |raw| && heap[target].bytes[n..] == raw[n..] &&
        (address != 0 ==> n <= |old(heap)[address].bytes| && heap[target].bytes[..n] == old(heap)[address].bytes[..n])
    {
      alive := Malloc(raw, hash, target);
      if !alive || address == 0 {
        return;
      }
      var n := ToCopy(|raw|, heap[address].size);
      CopiesCommonPrefix(|raw|, |heap[address].bytes|);
      WriteBytes(target, heap[address].bytes[..n]);
      Free(address);
    }

    /** Writing into a block leaves all accounts alone. */
    method WriteBytes(address: nat, bytes: seq<Byte>)
      requires Valid() && address in heap && |bytes| <= |heap[address].bytes|
      modifies this`heap
      ensures Valid()
      ensures heap == old(heap)[address := old(heap)[address].(bytes := bytes + old(heap)[address].bytes[|bytes|..])]
    {
      var block := heap[address];
      var filled := block.(bytes := bytes + block.bytes[|bytes|..]);
      forall p: nat | p < TABLE_SIZE
        ensures Total(heap[address := filled], ChargedTo(p)) == Total(heap, ChargedTo(p))
      {
        TotalWithout(heap, address, ChargedTo(p));
        TotalWith(heap - {address}, address, filled, ChargedTo(p));
        assert (heap - {address})[address := filled] == heap[address := filled];
      }
      heap := heap[address := filled];
    }

    /** The sum over all slots is what all live blocks are charged. */
    method UsedMemory() returns (res: nat)
      requires Valid()
      ensures res == Total(heap, Charged)
      ensures res == Total(heap, Held) <==> forall a :: a in heap ==> |heap[a].bytes| < WORD / 2
    {
      res := 0;
      for i := 0 to TABLE_SIZE
        invariant res == Sum(sizes[..i])
      {
        assert sizes[..i + 1][..i] == sizes[..i];
        if sizes[i] != 0 {
          res := res + sizes[i];
        }
      }
      assert sizes[..TABLE_SIZE] == sizes[..];
      SlotsAddUp(heap, sizes[..]);
      ChargedIsHeld(heap);
    }
  }
}
