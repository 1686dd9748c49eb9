/**
 Storers (PacketStorer.h, StorerBase): the same description of a packet is run twice, once
 to count its bytes and once to write them.
 */
module PacketStorer {
  import opened Bytes
  import opened TlBytes

  /** Messages are nested: `Sized` writes a head, the length of the body and the body. */
  datatype Storer =
    | Slice(bytes: seq<Byte>)
    | Text(text: seq<Byte>)
    | Concat(first: Storer, second: Storer)
    | Sized(head: seq<Byte>, body: Storer)

  predicate Storable(s: Storer) {
    match s
    case Slice(_) => true
    case Text(text) => StringFits(|text|)
    case Concat(first, second) => Storable(first) && Storable(second)
    case Sized(_, body) => Storable(body)
  }

  /** Counting, as TlStorerCalcLength does. */
  function Size(s: Storer): nat {
    match s
    case Slice(bytes) => |bytes|
    case Text(text) => StringLength(|text|)
    case Concat(first, second) => Size(first) + Size(second)
    case Sized(head, body) => |head| + 4 + Size(body)
  }

  /** Writing, as TlStorerUnsafe does; the length field is what counting gives. */
  function Store(s: Storer): seq<Byte>
    requires Storable(s)
  {
    match s
    case Slice(bytes) => bytes
    case Text(text) => StoreString(text)
    case Concat(first, second) => Store(first) + Store(second)
    case Sized(head, body) => head + StoreInt(Low32(Size(body))) + Store(body)
  }

  /** Exactly as many bytes are written as were counted. */
  lemma {:induction false} SizeIsLength(s: Storer)
    requires Storable(s)
    ensures |Store(s)| == Size(s)
  {
    match s {
      case Slice(_) =>
      case Text(text) => StringStoredLength(text);
      case Concat(first, second) =>
        SizeIsLength(first);
        SizeIsLength(second);
      case Sized(_, body) => SizeIsLength(body);
    }
  }
}
