/**
 The ring queue as the object that the benchmark programs share (bench_queue.cpp,
 BufferQueue): its memory is an array updated in place and its positions are fields.
 The ghost history ties every call to the unbounded counters of SpscRing.
 */
module BufferQueue {
  import opened Bytes
  import opened SpscRing

  class Queue {
    const q: array<int>
    var writer: Position
    var reader: Position
    ghost var history: History

    ghost function View(): Ring
      reads this, q
    {
      Ring(q[..], writer, reader)
    }

    ghost predicate Valid()
      reads this, q
    {
      Refines(View(), history)
    }

    constructor ()
      ensures Valid() && fresh(q) && history == NoHistory
    {
      q := new int[SIZE];
      writer, reader := Position(0, 0, 0), Position(0, 0, 0);
      history := NoHistory;
    }

    method UpdateReader() returns (ready: int)
      requires Valid()
      modifies this
      ensures Valid() && history == Record(old(history), LoadWrites, 0)
      ensures ready == history.published - |history.taken|
    {
      reader := reader.(localWrite := writer.i);
      history := Record(history, LoadWrites, 0);
      assert q[..] == old(q[..]);
      TestsAreExact(View(), history);
      ready := Signed((reader.localWrite - reader.localRead) % WORD);
    }

    method UpdateWriter() returns (ready: int)
      requires Valid()
      modifies this
      ensures Valid() && history == Record(old(history), LoadReads, 0)
      ensures ready == history.released + SIZE - |history.put|
    {
      writer := writer.(localRead := reader.i);
      history := Record(history, LoadReads, 0);
      assert q[..] == old(q[..]);
      TestsAreExact(View(), history);
      ready := Signed((writer.localRead + SIZE - writer.localWrite) % WORD);
    }

    method FlushReader()
      requires Valid()
      modifies this
      ensures Valid() && history == Record(old(history), ReleaseReads, 0)
    {
      reader := reader.(i := reader.localRead);
      history := Record(history, ReleaseReads, 0);
      assert q[..] == old(q[..]);
    }

    method FlushWriter()
      requires Valid()
      modifies this
      ensures Valid() && history == Record(old(history), PublishWrites, 0)
    {
      writer := writer.(i := writer.localWrite);
      history := Record(history, PublishWrites, 0);
      assert q[..] == old(q[..]);
    }

    /** Takes the oldest value not taken yet; the caller has seen that there is one. */
    method GetUnsafe() returns (val: int)
      requires Valid() && |history.taken| < history.seenWrite
      modifies this
      ensures Valid()
      ensures history == Record(old(history), SpscRing.Get, val)
    {
      GetRefines(View(), history);
      val := q[reader.localRead % SIZE];
      reader := reader.(localRead := Add(reader.localRead, 1));
      history := Record(history, SpscRing.Get, val);
      assert q[..] == old(q[..]);
    }

    method PutUnsafe(val: int)
      requires Valid() && |history.put| < history.seenRead + SIZE
      modifies this, q
      ensures Valid() && history == Record(old(history), SpscRing.Put(val), 0)
    {
      PutRefines(View(), history, val);
      q[writer.localWrite % SIZE] := val;
      writer := writer.(localWrite := Add(writer.localWrite, 1));
      history := Record(history, SpscRing.Put(val), 0);
    }

    /** Looks again at the writer's position only when everything seen so far is taken.
        Without a published value the original call does not return. */
    method Get() returns (val: int)
      requires Valid() && |history.taken| < history.published
      modifies this
      ensures Valid()
      ensures history.put == old(history.put) && history.published == old(history.published)
      ensures history.taken == old(history.taken) + [val] && history.taken <= history.put
      ensures history.released == |history.taken|
    {
      TestsAreExact(View(), history);
      if reader.localWrite == reader.localRead {
        var ready := UpdateReader();
        assert ready != 0;
      }
      val := GetUnsafe();
      FlushReader();
    }

    /** The result is whether the process survives: it dies exactly when all slots hold
        values that the reader has not released. */
    method Put(val: int) returns (alive: bool)
      requires Valid()
      modifies this, q
      ensures Valid() && history.taken == old(history.taken) && history.released == old(history.released)
      ensures alive <==> |old(history.put)| - old(history.released) < SIZE
      ensures alive ==> history.put == old(history.put) + [val] && history.published == |history.put|
      ensures !alive ==> history.put == old(history.put) && history.published == old(history.published)
    {
      TestsAreExact(View(), history);
      if writer.localWrite == Add(writer.localRead, SIZE) {
        var ready := UpdateWriter();
        if ready == 0 {
          return false;
        }
      }
      PutUnsafe(val);
      FlushWriter();
      return true;
    }
  }
}
