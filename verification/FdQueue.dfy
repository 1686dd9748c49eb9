/**
 The ring queue with sleep and wake-up (bench_queue.cpp, BufferedFdQueue). The reader
 polls for a while, then raises a flag and sleeps on an event counter; a writer that
 sees the flag bumps the counter. One step is one access to shared memory, and the two
 sides may be interleaved in any way.
 */
module FdQueue {
  import opened SpscRing

  const PATIENCE: nat := 500

  /** Where the writing thread stands inside put, put_noflush or flush_writer. */
  datatype Writer =
    | WIdle
    | WTest(val: int, flush: bool)
    | WLoad(val: int, flush: bool)
    | WStore(val: int, flush: bool)
    | WPublish
    | WCheck
    | WNotify
    | WDead

  /** Where the reading thread stands inside get (`get`) or wait_reader. */
  datatype Reader =
    | RIdle
    | RTest
    | RPoll(get: bool, tries: nat)
    | RSetFlag(get: bool)
    | RCheck(get: bool)
    | RRead(get: bool)
    | RClear(get: bool)
    | RTake
    | RFlush

  /** `result` is what the last get has read. */
  datatype System = System(ring: Ring, history: History, writer: Writer, reader: Reader,
                           waitFlag: bool, fd: nat, result: int)

  function Start(q: seq<int>): System {
    System(Init(q), NoHistory, WIdle, RIdle, false, 0, 0)
  }

  function Access(s: System, a: Action): System
    requires |s.ring.q| == SIZE
  {
    s.(ring := SpscRing.Apply(s.ring, a), history := Record(s.history, a, Next(s.ring)))
  }

  function WriterStep(s: System): System
    requires |s.ring.q| == SIZE
  {
    match s.writer
    case WTest(val, flush) =>
      s.(writer := if WriterEmpty(s.ring) then WLoad(val, flush) else WStore(val, flush))
    case WLoad(val, flush) =>
      var t := Access(s, LoadReads);
      t.(writer := if WriterReady(t.ring) == 0 then WDead else WStore(val, flush))
    case WStore(val, flush) =>
      Access(s, Put(val)).(writer := if flush then WPublish else WIdle)
    case WPublish => Access(s, PublishWrites).(writer := WCheck)
    case WCheck => s.(writer := if s.waitFlag then WNotify else WIdle)
    case WNotify => s.(fd := s.fd + 1, writer := WIdle)
    case WIdle => s
    case WDead => s
  }

  function ReaderStep(s: System): System
    requires |s.ring.q| == SIZE
  {
    match s.reader
    case RTest => s.(reader := if ReaderEmpty(s.ring) then RPoll(true, 0) else RTake)
    case RPoll(get, tries) =>
      if tries + 1 < PATIENCE then
        var t := Access(s, LoadWrites);
        t.(reader := if ReaderReady(t.ring) == 0 then RPoll(get, tries + 1)
                     else if get then RTake else RIdle)
      else
        s.(reader := RSetFlag(get))
    case RSetFlag(get) => s.(waitFlag := true, reader := RCheck(get))
    case RCheck(get) =>
      var t := Access(s, LoadWrites);
      t.(reader := if ReaderReady(t.ring) == 0 then RRead(get) else RClear(get))
    case RRead(get) => if s.fd == 0 then s else s.(fd := 0, reader := RCheck(get))
    case RClear(get) => s.(waitFlag := false, reader := if get then RTake else RIdle)
    case RTake => Access(s, Get).(reader := RFlush, result := Next(s.ring))
    case RFlush => Access(s, ReleaseReads).(reader := RIdle)
    case RIdle => s
  }

  /** The reader cannot move until somebody bumps the event counter. */
  predicate Asleep(s: System) {
    s.reader.RRead? && s.fd == 0
  }

  datatype Event =
    | CallPut(val: int) | CallPutNoflush(val: int) | CallFlushWriter | StepWriter
    | CallGet | CallWaitReader | CallGetUnsafe | CallGetUnsafeFlush | CallFlushReader | StepReader

  /** The operations without a test of their own are called only on a known value. */
  predicate Enabled(s: System, e: Event) {
    match e
    case CallPut(_) | CallPutNoflush(_) | CallFlushWriter => s.writer == WIdle
    case StepWriter => s.writer != WIdle && s.writer != WDead
    case CallGet | CallWaitReader | CallFlushReader => s.reader == RIdle
    case CallGetUnsafe | CallGetUnsafeFlush => s.reader == RIdle && !ReaderEmpty(s.ring)
    case StepReader => s.reader != RIdle && !Asleep(s)
  }

  function Apply(s: System, e: Event): System
    requires |s.ring.q| == SIZE
  {
    match e
    case CallPut(val) => s.(writer := WTest(val, true))
    case CallPutNoflush(val) => s.(writer := WTest(val, false))
    case CallFlushWriter => s.(writer := WPublish)
    case StepWriter => WriterStep(s)
    case CallGet => s.(reader := RTest)
    case CallWaitReader => s.(reader := RPoll(false, 0))
    case CallGetUnsafe => Access(s, Get).(result := Next(s.ring))
    case CallGetUnsafeFlush => s.(reader := RTake)
    case CallFlushReader => Access(s, ReleaseReads)
    case StepReader => ReaderStep(s)
  }

  // ---- what every step keeps ----

  ghost predicate ReaderInv(s: System) {
    && (s.waitFlag <==> s.reader.RCheck? || s.reader.RRead? || s.reader.RClear?)
    && (s.reader.RRead? ==> |s.history.taken| == s.history.seenWrite)
    && (s.reader.RClear? || s.reader.RTake? ==> |s.history.taken| < s.history.seenWrite)
    && (s.reader.RPoll? ==> s.reader.tries < PATIENCE)
  }

  ghost predicate WriterInv(s: System) {
    s.writer.WStore? ==> |s.history.put| < s.history.seenRead + SIZE
  }

  /** A sleeping reader with something left to read is about to be woken. */
  ghost predicate WakeInv(s: System) {
    Asleep(s) && |s.history.taken| < s.history.published ==> s.writer == WCheck || s.writer == WNotify
  }

  ghost predicate Inv(s: System) {
    Refines(s.ring, s.history) && ReaderInv(s) && WriterInv(s) && WakeInv(s)
  }

  lemma StartInv(q: seq<int>)
    requires |q| == SIZE
    ensures Inv(Start(q))
  {
    InitRefines(q);
  }

  lemma AccessKeeps(s: System, a: Action)
    requires Refines(s.ring, s.history) && SpscRing.Enabled(s.ring, a)
    ensures Refines(Access(s, a).ring, Access(s, a).history)
    ensures var t := Access(s, a);
      ReaderReady(t.ring) == t.history.seenWrite - |t.history.taken| &&
      WriterReady(t.ring) == t.history.seenRead + SIZE - |t.history.put|
  {
    StepRefines(s.ring, s.history, a);
    var t := Access(s, a);
    TestsAreExact(t.ring, t.history);
  }

  lemma StoreInv(s: System)
    requires Inv(s) && s.writer.WStore?
    ensures Inv(WriterStep(s))
  {
    TestsAreExact(s.ring, s.history);
    AccessKeeps(s, Put(s.writer.val));
  }

  lemma WriterStepInv(s: System)
    requires Inv(s)
    ensures Inv(WriterStep(s))
  {
    TestsAreExact(s.ring, s.history);
    match s.writer {
      case WLoad(_, _) => AccessKeeps(s, LoadReads);
      case WStore(_, _) => StoreInv(s);
      case WPublish => AccessKeeps(s, PublishWrites);
      case _ =>
    }
  }

  lemma LookInv(s: System)
    requires Inv(s) && (s.reader.RPoll? || s.reader.RCheck?)
    ensures Inv(ReaderStep(s))
  {
    AccessKeeps(s, LoadWrites);
  }

  lemma TakeInv(s: System)
    requires Inv(s) && (s.reader.RTake? || s.reader.RFlush?)
    ensures Inv(ReaderStep(s))
  {
    TestsAreExact(s.ring, s.history);
    AccessKeeps(s, if s.reader.RTake? then Get else ReleaseReads);
  }

  lemma ReaderStepInv(s: System)
    requires Inv(s)
    ensures Inv(ReaderStep(s))
  {
    if s.reader.RPoll? || s.reader.RCheck? {
      LookInv(s);
    } else if s.reader.RTake? || s.reader.RFlush? {
      TakeInv(s);
    } else {
      TestsAreExact(s.ring, s.history);
    }
  }

  lemma StepInv(s: System, e: Event)
    requires Inv(s) && Enabled(s, e)
    ensures Inv(Apply(s, e))
  {
    TestsAreExact(s.ring, s.history);
    match e {
      case StepWriter => WriterStepInv(s);
      case StepReader => ReaderStepInv(s);
      case CallGetUnsafe => AccessKeeps(s, Get);
      case CallFlushReader => AccessKeeps(s, ReleaseReads);
      case _ =>
    }
  }

  // ---- whole runs ----

  ghost predicate StepAt(states: seq<System>, events: seq<Event>, i: nat)
    requires |states| == |events| + 1 && i < |events|
  {
    && |states[i].ring.q| == SIZE && Enabled(states[i], events[i])
    && states[i + 1] == Apply(states[i], events[i])
  }

  ghost predicate IsRun(states: seq<System>, events: seq<Event>) {
    && |states| == |events| + 1
    && |states[0].ring.q| == SIZE && states[0] == Start(states[0].ring.q)
    && forall i: nat :: i < |events| ==> StepAt(states, events, i)
  }

  lemma {:induction false} RunInv(states: seq<System>, events: seq<Event>, i: nat)
    requires IsRun(states, events) && i < |states|
    ensures Inv(states[i])
  {
    if i == 0 {
      StartInv(states[0].ring.q);
    } else {
      RunInv(states, events, i - 1);
      assert StepAt(states, events, i - 1);
      StepInv(states[i - 1], events[i - 1]);
    }
  }

  /** No lost wake-up: while the reader sleeps and the writer has nothing left to do in its
      call, every published value has been taken. */
  lemma NoLostWakeup(states: seq<System>, events: seq<Event>, i: nat)
    requires IsRun(states, events) && i < |states|
    requires Asleep(states[i])
    requires states[i].writer != WCheck && states[i].writer != WNotify
    ensures Inv(states[i]) && |states[i].history.taken| == states[i].history.published
    ensures states[i].history.taken == states[i].history.put[..states[i].history.published]
  {
    RunInv(states, events, i);
  }

  /** If there is something to read, the next two steps of the writer end the sleep. */
  lemma WokenInTwo(states: seq<System>, events: seq<Event>, i: nat)
    requires IsRun(states, events) && i < |states|
    requires Asleep(states[i]) && |states[i].history.taken| < states[i].history.published
    ensures |states[i].ring.q| == SIZE
    ensures var once := WriterStep(states[i]);
      !Asleep(once) || (|once.ring.q| == SIZE && !Asleep(WriterStep(once)))
  {
    RunInv(states, events, i);
  }

  /** A woken reader with something to read leaves the sleeping loop in two steps. */
  lemma WakesUp(states: seq<System>, events: seq<Event>, i: nat)
    requires IsRun(states, events) && i < |states|
    requires states[i].reader.RRead? && states[i].fd > 0
    requires |states[i].history.taken| < states[i].history.published
    ensures |states[i].ring.q| == SIZE
    ensures var looking := ReaderStep(states[i]);
      looking.reader.RCheck? && |looking.ring.q| == SIZE && ReaderStep(looking).reader.RClear?
  {
    RunInv(states, events, i);
    AccessKeeps(ReaderStep(states[i]), LoadWrites);
  }

  /** The fatal error is raised by a writer exactly when it finds all slots taken by
      values that the reader has not released. */
  lemma DiesWhenFull(states: seq<System>, events: seq<Event>, i: nat)
    requires IsRun(states, events) && i < |events|
    requires states[i].writer.WLoad? && events[i] == StepWriter
    ensures states[i + 1].writer == WDead <==>
            |states[i].history.put| - states[i].history.released == SIZE
  {
    RunInv(states, events, i);
    assert StepAt(states, events, i);
    AccessKeeps(states[i], LoadReads);
  }

  /** The values taken by the reader, in order, are the first of those put by the writer. */
  lemma FirstInFirstOut(states: seq<System>, events: seq<Event>, i: nat)
    requires IsRun(states, events) && i < |states|
    ensures states[i].history.taken <= states[i].history.put
    ensures |states[i].history.put| - |states[i].history.taken| <= SIZE
  {
    RunInv(states, events, i);
  }
}
