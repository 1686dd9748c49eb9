/**
 The storer of a packet as an object (PacketStorer.h): its size is computed once and kept,
 and its bytes are written through a pointer into a buffer.
 */
module PacketWriter {
  import opened Bytes
  import opened TlBytes
  import opened S = PacketStorer

  /** The size that is not known yet. */
  const NOT_COUNTED: nat := 0xffff_ffff_ffff_ffff

  /** Only the given bytes have changed, from ptr on. */
  predicate Written(before: seq<Byte>, after: seq<Byte>, ptr: nat, bytes: seq<Byte>) {
    && ptr + |bytes| <= |before|
    && after == before[..ptr] + bytes + before[ptr + |bytes|..]
  }

  lemma WrittenTwice(b0: seq<Byte>, b1: seq<Byte>, b2: seq<Byte>, ptr: nat, x: seq<Byte>, y: seq<Byte>)
    requires Written(b0, b1, ptr, x) && Written(b1, b2, ptr + |x|, y)
    ensures Written(b0, b2, ptr, x + y)
  {
    assert b1[..ptr + |x|] == b0[..ptr] + x;
    assert b1[ptr + |x| + |y|..] == b0[ptr + |x + y|..];
  }

  method WriteSlice(bytes: seq<Byte>, buf: array<Byte>, ptr: nat) returns (end: nat)
    requires ptr + |bytes| <= buf.Length
    modifies buf
    ensures end == ptr + |bytes| && Written(old(buf[..]), buf[..], ptr, bytes)
  {
    for i := 0 to |bytes|
      invariant forall k :: 0 <= k < buf.Length ==>
                  buf[k] == if ptr <= k < ptr + i then bytes[k - ptr] else old(buf[k])
    {
      buf[ptr + i] := bytes[i];
    }
    end := ptr + |bytes|;
  }

  /** The header with the length, the string itself and zeros. */
  method WriteString(text: seq<Byte>, buf: array<Byte>, ptr: nat) returns (end: nat)
    requires StringFits(|text|) && ptr + StringLength(|text|) <= buf.Length
    modifies buf
    ensures end == ptr + StringLength(|text|) && Written(old(buf[..]), buf[..], ptr, StoreString(text))
  {
    StringStoredLength(text);
    var header := StringHeader(|text|);
    var zeros := Zeros(Padding(|header| + |text|));
    ghost var b0 := buf[..];
    end := WriteSlice(header, buf, ptr);
    ghost var b1 := buf[..];
    end := WriteSlice(text, buf, end);
    WrittenTwice(b0, b1, buf[..], ptr, header, text);
    ghost var b2 := buf[..];
    end := WriteSlice(zeros, buf, end);
    WrittenTwice(b0, b2, buf[..], ptr, header + text, zeros);
  }

  /** Writes what a storer describes, and gives the position after it. */
  method Write(s: Storer, buf: array<Byte>, ptr: nat) returns (end: nat)
    requires Storable(s) && ptr + Size(s) <= buf.Length
    modifies buf
    ensures end == ptr + Size(s) && Written(old(buf[..]), buf[..], ptr, S.Store(s))
    decreases s
  {
    SizeIsLength(s);
    match s {
      case Slice(bytes) => end := WriteSlice(bytes, buf, ptr);
      case Text(text) => end := WriteString(text, buf, ptr);
      case Concat(first, second) =>
        SizeIsLength(first);
        ghost var b0 := buf[..];
        end := Write(first, buf, ptr);
        ghost var b1 := buf[..];
        end := Write(second, buf, end);
        WrittenTwice(b0, b1, buf[..], ptr, S.Store(first), S.Store(second));
      case Sized(head, body) =>
        var prefix := head + StoreInt(Low32(Size(body)));
        ghost var b0 := buf[..];
        end := WriteSlice(prefix, buf, ptr);
        ghost var b1 := buf[..];
        end := Write(body, buf, end);
        WrittenTwice(b0, b1, buf[..], ptr, prefix, S.Store(body));
    }
  }

  class PacketStorer {
    const impl: Storer
    var size: nat

    ghost predicate Valid()
      reads this
    {
      size != NOT_COUNTED ==> size == Size(impl)
    }

    constructor (impl: Storer)
      ensures Valid() && this.impl == impl
    {
      this.impl := impl;
      size := NOT_COUNTED;
    }

    method GetSize() returns (n: nat)
      requires Valid()
      modifies this`size
      ensures Valid() && n == Size(impl)
    {
      if size != NOT_COUNTED {
        return size;
      }
      size := Size(impl);
      n := size;
    }

    /** A buffer as long as the counted size is filled exactly. */
    method Store(buf: array<Byte>, ptr: nat) returns (written: nat)
      requires Valid() && Storable(impl) && ptr + Size(impl) <= buf.Length
      modifies buf
      ensures Valid() && written == Size(impl)
      ensures Written(old(buf[..]), buf[..], ptr, S.Store(impl))
    {
      var end := Write(impl, buf, ptr);
      written := end - ptr;
    }
  }
}
