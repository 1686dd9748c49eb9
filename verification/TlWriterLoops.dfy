/**
 The loops that emit a class (tl_generate.cpp, write_constructor_fetch and
 write_constructor_store): field by field, marking in place which variables are set.
 */
module TlWriterLoops {
  import opened Wrappers
  import opened TlSchema
  import opened TlWriter

  method WriteConstructorFetch(s: Schema, c: Combinator) returns (code: Option<seq<FetchLine>>)
    ensures code == GenFetch(s, c)
  {
    var isStored := new bool[c.varCount](i => false);
    assert isStored[..] == NoVars(c);
    var out: seq<FetchLine> := [];
    AppendNone(GenFetch(s, c));
    for i := 0 to |c.args|
      invariant |out| == i
      invariant GenFetch(s, c) == Append(out, GenFetchFrom(s, c.args, i, isStored[..]))
    {
      var line := GenFieldFetch(s, c.args[i], i, isStored[..]);
      if line.None? {
        return None;
      }
      ghost var before := isStored[..];
      if 0 <= c.args[i].varNum < isStored.Length {
        isStored[c.args[i].varNum] := true;
      }
      assert isStored[..] == AfterField(c.args[i], before);
      AppendMore(out, line.value, GenFetchFrom(s, c.args, i + 1, isStored[..]));
      out := out + [line.value];
    }
    var complete := AllSet(isStored);
    assert GenFetchFrom(s, c.args, |c.args|, isStored[..]) == if complete then Some([]) else None;
    assert out + [] == out;
    code := if complete then Some(out) else None;
  }

  method WriteConstructorStore(s: Schema, c: Combinator) returns (code: Option<seq<StoreLine>>)
    ensures code == GenStore(s, c)
  {
    var isStored := new bool[c.varCount](i => false);
    assert isStored[..] == NoVars(c);
    var out: seq<StoreLine> := [];
    AppendNone(GenStore(s, c));
    for i := 0 to |c.args|
      invariant |out| == i
      invariant GenStore(s, c) == Append(out, GenStoreFrom(s, c.args, i, isStored[..]))
    {
      var line := GenFieldStore(s, c.args, i, isStored[..]);
      if line.None? {
        return None;
      }
      ghost var before := isStored[..];
      if 0 <= c.args[i].varNum < isStored.Length {
        isStored[c.args[i].varNum] := true;
      }
      assert isStored[..] == AfterField(c.args[i], before);
      AppendMore(out, line.value, GenStoreFrom(s, c.args, i + 1, isStored[..]));
      out := out + [line.value];
    }
    var complete := AllSet(isStored);
    assert GenStoreFrom(s, c.args, |c.args|, isStored[..]) == if complete then Some([]) else None;
    assert out + [] == out;
    code := if complete then Some(out) else None;
  }

  /** The last assertions of both loops: every variable is set. */
  method AllSet(isStored: array<bool>) returns (all: bool)
    ensures all <==> forall b :: b in isStored[..] ==> b
  {
    for i := 0 to isStored.Length
      invariant forall j :: 0 <= j < i ==> isStored[j]
    {
      if !isStored[i] {
        assert isStored[i] in isStored[..];
        return false;
      }
    }
    all := true;
  }

  function Append<T>(out: seq<T>, more: Option<seq<T>>): Option<seq<T>> {
    match more
    case Some(lines) => Some(out + lines)
    case None => None
  }

  lemma AppendNone<T>(more: Option<seq<T>>)
    ensures Append([], more) == more
  {
    if more.Some? {
      assert [] + more.value == more.value;
    }
  }

  lemma AppendMore<T>(out: seq<T>, line: T, more: Option<seq<T>>)
    ensures more.Some? ==> Append(out, Some([line] + more.value)) == Append(out + [line], more)
  {
    if more.Some? {
      assert out + ([line] + more.value) == out + [line] + more.value;
    }
  }
}
