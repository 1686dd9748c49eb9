/**
 The reader of emulated TLS records (TlsReaderByteFlow.cpp, run by ByteFlow.h): it takes
 the payloads out of a stream of bytes that arrives in arbitrary pieces.
 */
module TlsReader {
  import opened Sequences
  import opened Bytes

  const HEADER: seq<Byte> := [0x17, 0x03, 0x03]

  /** Why reading stops: at least `size` bytes are needed, or the next header is wrong. */
  datatype Stop = Need(size: nat) | BadHeader

  /** The payloads of the complete records in front, what is left, and why reading stops. */
  datatype Scanned = Scanned(output: seq<Byte>, rest: seq<Byte>, stop: Stop)

  function Length(b: seq<Byte>): nat
    requires |b| >= 5
  {
    256 * (b[3] as nat) + b[4]
  }

  function Scan(b: seq<Byte>): Scanned {
    if |b| < 5 then Scanned([], b, Need(5))
    else if b[..3] != HEADER then Scanned([], b, BadHeader)
    else if |b| - 5 < Length(b) then Scanned([], b, Need(5 + Length(b)))
    else
      var n := Length(b);
      var more := Scan(b[5 + n..]);
      Scanned(b[5..5 + n] + more.output, more.rest, more.stop)
  }

  /** Cutting the stream in two changes nothing: what is left of the first part is read
      again in front of the second. */
  lemma ScanPieces(a: seq<Byte>, b: seq<Byte>)
    ensures var first := Scan(a);
      first.stop == BadHeader ==> Scan(a + b) == Scanned(first.output, first.rest + b, BadHeader)
    ensures var first := Scan(a); var second := Scan(first.rest + b);
      first.stop != BadHeader ==> Scan(a + b) == Scanned(first.output + second.output, second.rest, second.stop)
  {
    if Scan(a).stop == BadHeader {
      ScanAfterBad(a, b);
    } else {
      ScanMore(a, b);
    }
  }

  predicate HasRecord(b: seq<Byte>) {
    |b| >= 5 && b[..3] == HEADER && |b| - 5 >= Length(b)
  }

  lemma RecordInFront(a: seq<Byte>, b: seq<Byte>)
    requires HasRecord(a)
    ensures HasRecord(a + b) && Length(a + b) == Length(a)
    ensures var n := Length(a); (a + b)[5..5 + n] == a[5..5 + n] && (a + b)[5 + n..] == a[5 + n..] + b
  {
    assert (a + b)[..3] == a[..3];
  }

  lemma {:induction false} ScanAfterBad(a: seq<Byte>, b: seq<Byte>)
    requires Scan(a).stop == BadHeader
    ensures Scan(a + b) == Scanned(Scan(a).output, Scan(a).rest + b, BadHeader)
  {
    if HasRecord(a) {
      RecordInFront(a, b);
      ScanAfterBad(a[5 + Length(a)..], b);
    } else {
      assert (a + b)[..3] == a[..3];
    }
  }

  lemma {:induction false} ScanMore(a: seq<Byte>, b: seq<Byte>)
    requires Scan(a).stop != BadHeader
    ensures var second := Scan(Scan(a).rest + b);
      Scan(a + b) == Scanned(Scan(a).output + second.output, second.rest, second.stop)
  {
    if HasRecord(a) {
      RecordInFront(a, b);
      var n := Length(a);
      ScanMore(a[5 + n..], b);
      var first := Scan(a[5 + n..]);
      Associate(a[5..5 + n], first.output, Scan(first.rest + b).output);
    }
  }

  /** What is left is an incomplete record or begins with the bad header, and the number of
      bytes asked for is the least with which there is something to do. */
  lemma {:induction false} RestIsStuck(b: seq<Byte>, more: seq<Byte>)
    ensures var s := Scan(b);
      match s.stop
      case BadHeader => |s.rest| >= 5 && s.rest[..3] != HEADER
      case Need(size) =>
        (|s.rest| < size && (|s.rest + more| < size ==> Scan(s.rest + more) == Scanned([], s.rest + more, s.stop)))
  {
    if |b| >= 5 && b[..3] == HEADER && |b| - 5 >= Length(b) {
      RestIsStuck(b[5 + Length(b)..], more);
    } else if |b| >= 5 && b[..3] == HEADER {
      assert (b + more)[..3] == b[..3];
    }
  }

  // ---- records ----

  /** A record: type and version, the length of the payload in two bytes, the payload. */
  function Record(payload: seq<Byte>): seq<Byte>
    requires |payload| < 65536
  {
    HEADER + [|payload| / 256, |payload| % 256] + payload
  }

  predicate AllFit(payloads: seq<seq<Byte>>) {
    forall p :: p in payloads ==> |p| < 65536
  }

  function Records(payloads: seq<seq<Byte>>): seq<Byte>
    requires AllFit(payloads)
  {
    if payloads == [] then [] else Record(payloads[0]) + Records(payloads[1..])
  }

  lemma RecordReads(payload: seq<Byte>, rest: seq<Byte>)
    requires |payload| < 65536
    ensures var b := Record(payload) + rest; var more := Scan(rest);
      Scan(b) == Scanned(payload + more.output, more.rest, more.stop)
  {
    var b := Record(payload) + rest;
    assert b[..3] == HEADER && b[3] == |payload| / 256 && b[4] == |payload| % 256;
    assert b[5..5 + |payload|] == payload && b[5 + |payload|..] == rest;
  }

  /** The payloads of all records in front are put out, in order. */
  lemma {:induction false} RecordsRead(payloads: seq<seq<Byte>>, rest: seq<Byte>)
    requires AllFit(payloads)
    ensures var more := Scan(rest);
      Scan(Records(payloads) + rest) == Scanned(Join(payloads) + more.output, more.rest, more.stop)
  {
    if payloads == [] {
      assert [] + rest == rest && [] + Scan(rest).output == Scan(rest).output;
    } else {
      var tail := Records(payloads[1..]);
      RecordsRead(payloads[1..], rest);
      Associate(Record(payloads[0]), tail, rest);
      RecordReads(payloads[0], tail + rest);
      Associate(payloads[0], Join(payloads[1..]), Scan(rest).output);
    }
  }

  lemma RecordIsThere(b: seq<Byte>)
    requires HasRecord(b)
    ensures var n := Length(b); n < 65536 && b == Record(b[5..5 + n]) + b[5 + n..]
  {
    var n := Length(b);
    assert n / 256 == b[3] && n % 256 == b[4];
    assert b == b[..3] + [b[3], b[4]] + b[5..5 + n] + b[5 + n..];
  }

  /** Every stream is some records and what reading leaves of it; their payloads are put out. */
  lemma {:induction false} StreamIsRecords(b: seq<Byte>) returns (payloads: seq<seq<Byte>>)
    ensures AllFit(payloads) && b == Records(payloads) + Scan(b).rest && Scan(b).output == Join(payloads)
  {
    if HasRecord(b) {
      var n := Length(b);
      RecordIsThere(b);
      var more := StreamIsRecords(b[5 + n..]);
      payloads := [b[5..5 + n]] + more;
      Associate(Record(b[5..5 + n]), Records(more), Scan(b[5 + n..]).rest);
      assert payloads[1..] == more;
    } else {
      payloads := [];
      assert [] + b == b;
    }
  }

  class TlsReaderByteFlow {
    var input: seq<Byte>
    var output: seq<Byte>
    var needSize: nat
    var failed: bool

    constructor ()
      ensures input == [] && output == [] && !failed
    {
      input, output, needSize, failed := [], [], 0, false;
    }

    /** Takes one record; the result is whether there was one. */
    method Loop() returns (again: bool)
      requires !failed
      modifies this
      ensures output + Scan(input).output == old(output) + Scan(old(input)).output
      ensures Scan(input).rest == Scan(old(input)).rest && Scan(input).stop == Scan(old(input)).stop
      ensures again ==> |input| < |old(input)| && !failed
      ensures !again ==> input == old(input) == Scan(input).rest && output == old(output)
      ensures !again ==> (failed <==> Scan(input).stop == BadHeader)
      ensures !again && !failed ==> Scan(input).stop == Need(needSize)
    {
      if |input| < 5 {
        needSize := 5;
        return false;
      }
      if input[..3] != HEADER {
        failed := true;
        return false;
      }
      var len := 256 * (input[3] as nat) + input[4];
      var it := input[5..];
      if |it| < len {
        needSize := 5 + len;
        return false;
      }
      assert it[..len] == input[5..5 + len] && it[len..] == input[5 + len..];
      output := output + it[..len];
      input := it[len..];
      again := true;
    }

    /** More input arrives, and records are taken as long as there are any. */
    method Wakeup(chunk: seq<Byte>)
      modifies this
      ensures input == if old(failed) then old(input) + chunk else Scan(old(input) + chunk).rest
      ensures output == if old(failed) then old(output) else old(output) + Scan(old(input) + chunk).output
      ensures failed <==> old(failed) || Scan(old(input) + chunk).stop == BadHeader
    {
      input := input + chunk;
      if failed {
        return;
      }
      ghost var all := input;
      var again := true;
      while again
        invariant output + Scan(input).output == old(output) + Scan(all).output
        invariant Scan(input).rest == Scan(all).rest && Scan(input).stop == Scan(all).stop
        invariant again ==> !failed
        invariant !again ==> input == Scan(input).rest && (failed <==> Scan(input).stop == BadHeader)
        invariant !again ==> Scan(input).output == []
        decreases again, |input|
      {
        again := Loop();
        RestAlone(input);
      }
      assert output + [] == output;
    }
  }

  lemma {:induction false} RestAlone(b: seq<Byte>)
    ensures |Scan(b).rest| <= |b|
    ensures Scan(b).rest == b ==> Scan(b).output == []
  {
    if |b| >= 5 && b[..3] == HEADER && |b| - 5 >= Length(b) {
      RestAlone(b[5 + Length(b)..]);
    }
  }

  function Concat(chunks: seq<seq<Byte>>): seq<Byte> {
    if chunks == [] then [] else Concat(chunks[..|chunks| - 1]) + chunks[|chunks| - 1]
  }

  /** However the stream is cut into chunks, the output is that of the stream in one piece,
      and what is left is its remainder. */
  method ReadAll(chunks: seq<seq<Byte>>) returns (output: seq<Byte>, rest: seq<Byte>, failed: bool)
    ensures var whole := Scan(Concat(chunks));
      output == whole.output && rest == whole.rest && (failed <==> whole.stop == BadHeader)
  {
    var reader := new TlsReaderByteFlow();
    assert Concat(chunks[..0]) == [];
    for i := 0 to |chunks|
      invariant fresh(reader)
      invariant reader.output == Scan(Concat(chunks[..i])).output && reader.input == Scan(Concat(chunks[..i])).rest
      invariant reader.failed <==> Scan(Concat(chunks[..i])).stop == BadHeader
    {
      assert chunks[..i + 1][..i] == chunks[..i];
      ScanPieces(Concat(chunks[..i]), chunks[i]);
      reader.Wakeup(chunks[i]);
    }
    assert chunks[..|chunks|] == chunks;
    return reader.output, reader.input, reader.failed;
  }
}
