/**
 The identifiers and sequence numbers of outgoing messages (AuthData.cpp,
 next_message_id; AuthData.h, next_seq_no). Server time is in seconds; an identifier counts
 units of 2^-32 seconds. Multiplication and division by 2^32 are exact for floating-point
 numbers, all other results and conversions are rounded.
 */
module MessageIds {
  import opened Bytes
  import opened Doubles

  /** The low bits that are mixed with random ones. */
  const BLOCK: nat := 0x40_0000

  /** 32 random bits. */
  type Random = Word

  function Mix(a: nat, b: nat): (r: nat)
    ensures r < BLOCK
  {
    assert Pow2(11) == 2048;
    assert Pow2(22) == BLOCK;
    Xor(a, b, 22)
  }

  function Ticks(serverTime: real): int {
    (serverTime * 4294967296.0).Floor
  }

  /** The identifier made from the clock alone. */
  function FromClock(serverTime: real, rx: Random): nat
    requires serverTime >= 0.0
  {
    var t: nat := Ticks(serverTime);
    Rounded(t, Mix(t % BLOCK, rx % BLOCK))
  }

  /** The high bits of t and the bits m, without the lowest two. */
  function Rounded(t: nat, m: nat): nat {
    (t / BLOCK * BLOCK + m) / 4 * 4
  }

  function NextMessageId(last: nat, serverTime: real, rx: Random): nat
    requires serverTime >= 0.0
  {
    var result := FromClock(serverTime, rx);
    if last >= result then last + 8 * (rx / BLOCK + 1) else result
  }

  /** The conversion of an identifier to a floating-point number of seconds is rounded, and
      so are the two bounds. */
  function IdTime(id: nat): real {
    Round(id as real) / 4294967296.0
  }

  predicate IsValidOutbound(id: nat, serverTime: real) {
    Round(serverTime - 150.0) < IdTime(id) < Round(serverTime + 30.0)
  }

  /** One call of next_message_id. */
  datatype Call = Call(serverTime: real, rx: Random)

  predicate Timed(calls: seq<Call>) {
    forall i :: 0 <= i < |calls| ==> calls[i].serverTime >= 0.0
  }

  /** The identifier of the last of the calls, 0 before the first. */
  function LastId(calls: seq<Call>): nat
    requires Timed(calls)
  {
    if calls == [] then 0
    else NextMessageId(LastId(calls[..|calls| - 1]), calls[|calls| - 1].serverTime, calls[|calls| - 1].rx)
  }

  lemma ClockBounds(serverTime: real, rx: Random)
    requires serverTime >= 0.0
    ensures FromClock(serverTime, rx) % 4 == 0
    ensures FromClock(serverTime, rx) <= Ticks(serverTime) + BLOCK - 4
    ensures FromClock(serverTime, rx) > Ticks(serverTime) - BLOCK
  {
    var t := Ticks(serverTime);
    var m := Mix(t % BLOCK, rx % BLOCK);
    BlockBounds(t, m);
    MultipleOfFour(t / BLOCK * BLOCK + m);
  }

  lemma MultipleOfFour(x: nat)
    ensures x / 4 * 4 % 4 == 0
  {}

  lemma BlockBounds(t: nat, m: nat)
    requires m < BLOCK
    ensures t - BLOCK < (t / BLOCK * BLOCK + m) / 4 * 4 <= t + BLOCK - 4
  {
    var b := t / BLOCK;
    assert t - BLOCK < b * BLOCK <= t;
  }

  lemma BumpBounds(rx: Random)
    ensures 8 <= 8 * (rx / BLOCK + 1) <= 8192
  {}

  lemma NextId(last: nat, serverTime: real, rx: Random)
    requires serverTime >= 0.0 && last % 4 == 0
    ensures NextMessageId(last, serverTime, rx) > last && NextMessageId(last, serverTime, rx) % 4 == 0
  {
    ClockBounds(serverTime, rx);
    var bump := rx / BLOCK + 1;
    assert (last + 8 * bump) % 4 == last % 4;
  }

  lemma {:induction false} NextIsLarger(calls: seq<Call>)
    requires Timed(calls) && calls != []
    ensures LastId(calls[..|calls| - 1]) < LastId(calls)
    ensures LastId(calls[..|calls| - 1]) % 4 == 0 && LastId(calls) % 4 == 0
  {
    var n := |calls| - 1;
    var before := calls[..n];
    if n > 0 {
      NextIsLarger(before);
    }
    NextId(LastId(before), calls[n].serverTime, calls[n].rx);
  }

  /** Whatever the clock and the random bits do, identifiers grow and are multiples of 4. */
  lemma {:induction false} StrictlyIncreasing(calls: seq<Call>, i: nat, j: nat)
    requires Timed(calls) && i < j <= |calls|
    ensures LastId(calls[..i]) < LastId(calls[..j]) && LastId(calls[..j]) % 4 == 0
    decreases j
  {
    var upTo := calls[..j];
    NextIsLarger(upTo);
    assert upTo[..j - 1] == calls[..j - 1];
    if i < j - 1 {
      StrictlyIncreasing(calls, i, j - 1);
    }
  }

  // ---- validity at creation ----

  /** The clock of the server is never seen to go back. */
  predicate Monotone(calls: seq<Call>) {
    forall i, j :: 0 <= i < j < |calls| ==> calls[i].serverTime <= calls[j].serverTime
  }

  /** How many identifiers may be issued, however slowly the clock moves. */
  const MAX_IDS: nat := 30 * 0x8_0000 - 512

  lemma TicksMonotone(a: real, b: real)
    requires a <= b
    ensures Ticks(a) <= Ticks(b)
  {}

  lemma {:induction false} IdBounds(calls: seq<Call>)
    requires Timed(calls) && Monotone(calls) && calls != []
    ensures var t := Ticks(calls[|calls| - 1].serverTime);
      t - BLOCK < LastId(calls) <= t + BLOCK - 4 + 8192 * (|calls| - 1)
  {
    var n := |calls| - 1;
    var call := calls[n];
    ClockBounds(call.serverTime, call.rx);
    BumpBounds(call.rx);
    if n > 0 {
      IdBounds(calls[..n]);
      TicksMonotone(calls[n - 1].serverTime, call.serverTime);
    }
  }

  /** Until then identifiers fit 64 bits: 2^32 seconds, in the year 2106. */
  predicate BeforeWrap(serverTime: real) {
    serverTime + 30.0 <= 4294967296.0
  }

  /** An identifier that is not too close to the bounds stays between them when all three are
      rounded. */
  lemma ValidDespiteRounding(id: nat, serverTime: real)
    requires serverTime >= 0.0 && BeforeWrap(serverTime)
    requires serverTime - 1.0 <= id as real / 4294967296.0 <= serverTime + 30.0 - 8192.0 / 4294967296.0
    ensures IsValidOutbound(id, serverTime)
  {
    RoundError(id as real);
    RoundError(serverTime - 150.0);
    RoundError(serverTime + 30.0);
  }

  lemma TicksBelow(serverTime: real)
    ensures Ticks(serverTime) as real / 4294967296.0 <= serverTime
    ensures serverTime < (Ticks(serverTime) + 1) as real / 4294967296.0
  {}

  /** As long as no more identifiers are issued than the protocol leaves room for, each one
      is valid when it is created. */
  lemma ValidWhenCreated(calls: seq<Call>)
    requires Timed(calls) && Monotone(calls) && 0 < |calls| <= MAX_IDS
    requires BeforeWrap(calls[|calls| - 1].serverTime)
    ensures IsValidOutbound(LastId(calls), calls[|calls| - 1].serverTime)
  {
    IdBounds(calls);
    TicksBelow(calls[|calls| - 1].serverTime);
    ValidDespiteRounding(LastId(calls), calls[|calls| - 1].serverTime);
  }

  // ---- and no further ----

  /** A present-day clock that stands still while the random bits are all ones. */
  const NOW: real := 1700000000.0

  function Frozen(n: nat): (calls: seq<Call>)
    ensures |calls| == n && Timed(calls) && Monotone(calls)
    ensures forall i :: 0 <= i < n ==> calls[i] == Call(NOW, 0xffff_ffff)
  {
    seq(n, i => Call(NOW, 0xffff_ffff))
  }

  lemma {:induction false} AllOnes(n: nat)
    ensures Xor(0, Pow2(n) - 1, n) == Pow2(n) - 1
  {
    if n > 0 {
      AllOnes(n - 1);
      assert (Pow2(n) - 1) / 2 == Pow2(n - 1) - 1 && (Pow2(n) - 1) % 2 == 1;
    }
  }

  /** 2^32 times the time. */
  const NOW_TICKS: nat := 7301444403200000000

  lemma MixAllOnes()
    ensures Mix(0, 0x3f_ffff) == BLOCK - 1
  {
    assert Pow2(11) == 2048;
    assert Pow2(22) == BLOCK;
    AllOnes(22);
  }

  /** The clock is at a whole number of blocks. */
  lemma NowIsWhole()
    ensures Ticks(NOW) == NOW_TICKS && NOW_TICKS == 1740800000000 * BLOCK
  {
    assert NOW * 4294967296.0 == NOW_TICKS as real;
  }

  lemma RoundedAllOnes(blocks: nat)
    ensures Rounded(blocks * BLOCK, BLOCK - 1) == blocks * BLOCK + BLOCK - 4
  {
    assert blocks * BLOCK / BLOCK == blocks;
  }

  lemma FrozenClock()
    ensures FromClock(NOW, 0xffff_ffff) == NOW_TICKS + BLOCK - 4
  {
    NowIsWhole();
    MixAllOnes();
    RoundedAllOnes(1740800000000);
  }

  lemma {:induction false} FrozenIds(n: nat)
    requires n > 0
    ensures LastId(Frozen(n)) == NOW_TICKS + BLOCK - 4 + 8192 * (n - 1)
  {
    FrozenClock();
    var calls := Frozen(n);
    assert calls[..n - 1] == Frozen(n - 1);
    if n > 1 {
      FrozenIds(n - 1);
    }
  }

  /** The last identifier, four units before the bound, is rounded onto the bound. */
  lemma RoundedOntoBound()
    ensures IdTime(NOW_TICKS + 30 * WORD - 4) == NOW + 30.0
  {
    var id: nat := NOW_TICKS + 30 * WORD - 4;
    var y := id as real / 1024.0;
    TenDoubled(y);
    RoundAbove(y, 10);
    assert NearestEven(y) == 7130316925829120;
    TenDoubled(NearestEven(y) as real);
  }

  lemma TenDoubled(y: real)
    ensures Doubled(y, 10) == 1024.0 * y
  {
    assert Doubled(y, 1) == 2.0 * y;
    assert Doubled(y, 2) == 4.0 * y;
    assert Doubled(y, 4) == 16.0 * y;
    assert Doubled(y, 6) == 64.0 * y;
    assert Doubled(y, 8) == 256.0 * y;
  }

  lemma MoreDoubled(y: real)
    ensures Doubled(y, 22) == 4194304.0 * y
  {
    TenDoubled(y);
    assert Doubled(y, 12) == 4096.0 * y;
    assert Doubled(y, 14) == 16384.0 * y;
    assert Doubled(y, 16) == 65536.0 * y;
    assert Doubled(y, 18) == 262144.0 * y;
    assert Doubled(y, 20) == 1048576.0 * y;
  }

  lemma BoundIsExact()
    ensures Round(NOW + 30.0) == NOW + 30.0
  {
    MoreDoubled(NOW + 30.0);
    WholeIsExact(NOW + 30.0, 22);
  }

  /** The bound is exact: with one more identifier the last may be refused. */
  lemma OneTooMany()
    ensures BeforeWrap(NOW) && !IsValidOutbound(LastId(Frozen(MAX_IDS + 1)), NOW)
  {
    FrozenIds(MAX_IDS + 1);
    RoundedOntoBound();
    BoundIsExact();
  }

  // ---- sequence numbers ----

  /** n | 1 */
  function OrOne(n: nat): nat {
    if n % 2 == 0 then n + 1 else n
  }

  /** One call of next_seq_no: the number, and the field afterwards. */
  function NextSeqNo(seqNo: nat, content: bool): (nat, nat) {
    if content then (OrOne(seqNo), seqNo + 2) else (seqNo, seqNo)
  }

  function SeqField(contents: seq<bool>): nat {
    if contents == [] then 0 else NextSeqNo(SeqField(contents[..|contents| - 1]), contents[|contents| - 1]).1
  }

  function ContentCount(contents: seq<bool>): nat {
    if contents == [] then 0
    else ContentCount(contents[..|contents| - 1]) + if contents[|contents| - 1] then 1 else 0
  }

  /** A message carries twice the number of content-related messages before it, plus one if
      it is itself content-related. */
  lemma {:induction false} SeqNoCounts(contents: seq<bool>, content: bool)
    ensures SeqField(contents) == 2 * ContentCount(contents)
    ensures NextSeqNo(SeqField(contents), content).0 == 2 * ContentCount(contents) + if content then 1 else 0
  {
    if contents != [] {
      SeqNoCounts(contents[..|contents| - 1], contents[|contents| - 1]);
    }
  }
}
