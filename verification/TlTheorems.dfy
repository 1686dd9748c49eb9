/** What the proofs about generated readers and writers add up to. */
module TlTheorems {
  import opened Wrappers
  import opened Bytes
  import opened TlBytes
  import opened TlSchema
  import opened TlWriter
  import opened TlRuntime
  import opened TlStoreProof
  import opened TlFetchProof

  /** The generated writer writes a value exactly if it is settled; otherwise it tests a
      variable that it has not set. What it writes, followed by anything, the generated reader
      takes back: it returns the normal form and leaves exactly what followed if no word of
      flags is negative and no vector is longer than the bytes that are left, and otherwise
      reports an error. */
  lemma RoundTrip(s: Schema, clean: Clean, t: Tree, v: Value, rest: seq<Byte>, fuel: nat)
    requires Sound(s) && Usable(s, t) && WellTyped(s, t, v) && Depth(v) <= fuel
    ensures var written := RunStore(s, GenFullStoreClass(s, t).value, v);
      && (written.Some? <==> Settled(s, t, v))
      && (written.Some? ==>
            && written.value == Encode(s, t, v)
            && RunFetch(s, clean, GenFullFetchClass(s, t).value, written.value + rest, fuel)
               == if Accepts(s, t, v, |rest|) then Parsed(Normal(s, clean, t, v), rest) else Failed)
  {
    StoreCorrect(s, t, v, GenFullStoreClass(s, t).value);
    FetchCorrect(s, clean, t, v, rest, fuel);
  }

  /** A class without conditional fields `#` has settled values only. */
  lemma {:induction false} PlainIsSettled(s: Schema, t: Tree, v: Value)
    requires WellTyped(s, t, v) && Plain(s)
    ensures Settled(s, t, v)
    decreases v, 1, 0
  {
    match v {
      case VecV(_) => PlainItems(s, t.children[0], v, 0);
      case ObjV(_, _, _) => PlainFields(s, v, 0);
      case _ =>
    }
  }

  /** Every field that a variable guards has an unconditional setter for it. */
  ghost predicate Plain(s: Schema) {
    forall n: TypeName :: PlainClass(s, n)
  }

  ghost predicate PlainClass(s: Schema, n: TypeName) {
    forall c :: c in s(n).constructors ==> PlainArgs(c.args)
  }

  ghost predicate PlainArgs(args: seq<Arg>) {
    forall a :: a in args && a.existVarNum >= 0 ==>
      Setter(args, a.existVarNum) < |args| && args[Setter(args, a.existVarNum)].existVarNum < 0
  }

  lemma {:induction false} PlainItems(s: Schema, t: Tree, v: Value, i: nat)
    requires v.VecV? && i <= |v.items| && WellTypedItems(s, t, v, i) && Plain(s)
    ensures SettledItems(s, t, v, i)
    decreases v, 0, |v.items| - i
  {
    if i < |v.items| {
      PlainIsSettled(s, t, v.items[i]);
      PlainItems(s, t, v, i + 1);
    }
  }

  lemma {:induction false} PlainFields(s: Schema, v: Value, i: nat)
    requires v.ObjV? && HasConstructor(s, v.name, v.ctor) && Plain(s)
    requires |v.fields| == |s(v.name).constructors[v.ctor].args| && i <= |v.fields| && WellTypedFields(s, v, i)
    ensures SettledFields(s, v, i)
    decreases v, 0, |v.fields| - i
  {
    var c := s(v.name).constructors[v.ctor];
    if i < |v.fields| {
      var a := c.args[i];
      assert PlainClass(s, v.name) && c in s(v.name).constructors && PlainArgs(c.args) && a in c.args;
      if !IsFlag(a) && IsPresent(c, v.fields, a) {
        PlainIsSettled(s, a.tree, v.fields[i]);
      }
      PlainFields(s, v, i + 1);
    }
  }

  // ---- flags ----

  /** Some field of type True from i on sets this bit of variable k. */
  ghost predicate SomeFlag(args: seq<Arg>, fields: seq<Value>, k: nat, bit: nat, i: nat) {
    exists j: nat :: i <= j < |args| && FlagAt(args, fields, k, bit, j)
  }

  predicate FlagAt(args: seq<Arg>, fields: seq<Value>, k: nat, bit: nat, j: nat)
    requires j < |args|
  {
    IsFlagOf(args[j], k) && args[j].existVarBit == bit && j < |fields| && fields[j] == BoolV(true)
  }

  /** The stored word is the word of the field or-ed with the bits of its True fields. */
  lemma {:induction false} FlagBits(args: seq<Arg>, fields: seq<Value>, k: nat, w: Word, i: nat, bit: nat)
    requires i <= |args|
    ensures TestBit(WithFlags(args, fields, k, w, i), bit) <==> TestBit(w, bit) || SomeFlag(args, fields, k, bit, i)
    decreases |args| - i
  {
    if i < |args| {
      var on := i < |fields| && fields[i] == BoolV(true);
      var next := if IsFlagOf(args[i], k) then SetWordBit(w, args[i].existVarBit, on) else w;
      FlagBits(args, fields, k, next, i + 1, bit);
      SetBitTests(w, args[i].existVarBit, on, bit);
      assert SomeFlag(args, fields, k, bit, i) <==>
             FlagAt(args, fields, k, bit, i) || SomeFlag(args, fields, k, bit, i + 1);
    }
  }

  /** A field of type True comes back true exactly if its word is present and it, another
      field of the same bit, or the bit in the word itself was set. */
  lemma TrueFieldsSurvive(s: Schema, clean: Clean, v: Value, i: nat)
    requires v.ObjV? && HasConstructor(s, v.name, v.ctor)
    requires |v.fields| == |s(v.name).constructors[v.ctor].args| && i < |v.fields| && WellTypedFields(s, v, i)
    requires IsFlag(s(v.name).constructors[v.ctor].args[i])
    requires var args := s(v.name).constructors[v.ctor].args; var j := Setter(args, args[i].existVarNum);
      j < |args| && v.fields[j].IntV? && (args[j].existVarNum >= 0 ==> Setter(args, args[j].existVarNum) < j)
    ensures var c := s(v.name).constructors[v.ctor]; var k := c.args[i].existVarNum; var bit := c.args[i].existVarBit;
      NormalField(s, clean, v, i)
      == BoolV(SetterPresent(c, v.fields, k)
               && (TestBit(v.fields[Setter(c.args, k)].word, bit) || SomeFlag(c.args, v.fields, k, bit, 0)))
  {
    var c := s(v.name).constructors[v.ctor];
    var k := c.args[i].existVarNum;
    WordOfSetter(c, v.fields, Setter(c.args, k), k);
    FlagBits(c.args, v.fields, k, v.fields[Setter(c.args, k)].word, 0, c.args[i].existVarBit);
    NoBitOfZero(c.args[i].existVarBit);
  }

  lemma {:induction false} NoBitOfZero(bit: nat)
    ensures !TestBit(0, bit)
  {
    if bit > 0 {
      NoBitOfZero(bit - 1);
    }
  }

  // ---- a field `#` that is itself conditional ----

  const FLAGS: Arg := Arg("flags", false, false, 0, -1, 0, TypeNode(true, Nat, []))
  const MORE_FLAGS: Arg := Arg("flags2", false, false, 1, 0, 0, TypeNode(true, Nat, []))
  const NUMBER: Arg := Arg("x", false, false, -1, 1, 0, TypeNode(true, Int, []))

  /** One type with one constructor: flags:# flags2:flags.0?# x:flags2.0?int */
  function Conditional(): Schema {
    n => if n == Custom("T") then TypeDecl(0, false, [Combinator(1, 2, [FLAGS, MORE_FLAGS, NUMBER], true)])
         else TypeDecl(0, false, [])
  }

  const X: StoreLine := StoreField(IfBit(1, 0), 2, StoreBinary)
  const Y: StoreLine := StoreVar(IfBit(0, 0), 1, 1, [], StoreBinary)
  const Z: StoreLine := StoreVar(Always, 0, 0, [], StoreBinary)

  lemma NoTrueFields(k: nat)
    ensures FlagFields([FLAGS, MORE_FLAGS, NUMBER], k, 0) == []
  {
    var args := [FLAGS, MORE_FLAGS, NUMBER];
    assert FlagFields(args, k, 3) == FlagFields(args, k, 2) == FlagFields(args, k, 1) == [];
  }

  lemma ConditionalLines()
    ensures var s := Conditional(); var args := [FLAGS, MORE_FLAGS, NUMBER];
      && GenFieldStore(s, args, 2, [true, true]) == Some(X)
      && GenFieldStore(s, args, 1, [true, false]) == Some(Y)
      && GenFieldStore(s, args, 0, [false, false]) == Some(Z)
  {
    NoTrueFields(0);
    NoTrueFields(1);
  }

  lemma ConditionalCode()
    ensures GenStore(Conditional(), Combinator(1, 2, [FLAGS, MORE_FLAGS, NUMBER], true)) == Some([Z, Y, X])
  {
    var s := Conditional();
    var args := [FLAGS, MORE_FLAGS, NUMBER];
    var v0: Vars := [false, false];
    assert NoVars(Combinator(1, 2, args, true)) == v0;
    assert AfterField(FLAGS, v0) == [true, false] && AfterField(MORE_FLAGS, [true, false]) == [true, true];
    assert AfterField(NUMBER, [true, true]) == [true, true];
    assert [X] + [] == [X] && [Y] + [X] == [Y, X] && [Z] + [Y, X] == [Z, Y, X];
    ConditionalLines();
    assert GenStoreFrom(s, args, 3, [true, true]) == Some([]);
    assert GenStoreFrom(s, args, 2, [true, true]) == Some([X]);
    assert GenStoreFrom(s, args, 1, [true, false]) == Some([Y, X]);
  }

  const FETCH_X: FetchLine := FetchField(IfBit(1, 0), 2, FetchInt)
  const FETCH_Y: FetchLine := FetchVar(IfBit(0, 0), 1, 1, FetchInt)
  const FETCH_Z: FetchLine := FetchVar(Always, 0, 0, FetchInt)

  lemma ConditionalFields()
    ensures var s := Conditional();
      && GenFieldFetch(s, NUMBER, 2, [true, true]) == Some(FETCH_X)
      && GenFieldFetch(s, MORE_FLAGS, 1, [true, false]) == Some(FETCH_Y)
      && GenFieldFetch(s, FLAGS, 0, [false, false]) == Some(FETCH_Z)
  {}

  lemma ConditionalReader()
    ensures GenFetch(Conditional(), Combinator(1, 2, [FLAGS, MORE_FLAGS, NUMBER], true))
            == Some([FETCH_Z, FETCH_Y, FETCH_X])
  {
    var s := Conditional();
    var args := [FLAGS, MORE_FLAGS, NUMBER];
    var v0: Vars := [false, false];
    assert NoVars(Combinator(1, 2, args, true)) == v0;
    assert AfterField(FLAGS, v0) == [true, false] && AfterField(MORE_FLAGS, [true, false]) == [true, true];
    assert AfterField(NUMBER, [true, true]) == [true, true];
    assert [FETCH_X] + [] == [FETCH_X] && [FETCH_Y] + [FETCH_X] == [FETCH_Y, FETCH_X];
    assert [FETCH_Z] + [FETCH_Y, FETCH_X] == [FETCH_Z, FETCH_Y, FETCH_X];
    ConditionalFields();
    assert GenFetchFrom(s, args, 3, [true, true]) == Some([]);
    assert GenFetchFrom(s, args, 2, [true, true]) == Some([FETCH_X]);
    assert GenFetchFrom(s, args, 1, [true, false]) == Some([FETCH_Y, FETCH_X]);
  }

  lemma ConditionalCompiles()
    ensures CodeCompiles(Conditional(), Combinator(1, 2, [FLAGS, MORE_FLAGS, NUMBER], true))
  {
    ConditionalCode();
    ConditionalReader();
    assert LineCompiles(FETCH_X) && LineCompiles(FETCH_Y) && LineCompiles(FETCH_Z);
  }

  lemma ConditionalUsable()
    ensures Usable(Conditional(), TypeNode(true, Custom("T"), []))
  {
    var s, c := Conditional(), Combinator(1, 2, [FLAGS, MORE_FLAGS, NUMBER], true);
    var t := TypeNode(true, Custom("T"), []);
    assert SupportedCount([c]) <= 1;
    assert GenFetchClass(s, t) == Some(FetchObject(t.name)) && GenStoreClass(s, t) == Some(StoreObject);
    assert GenFullFetchClass(s, t) == Some(FetchObject(t.name));
    assert GenFullStoreClass(s, t) == Some(StoreObject);
  }

  lemma ConditionalClass(n: TypeName)
    requires n.Custom?
    ensures ClassCompiles(Conditional(), n)
  {
    ConditionalCompiles();
  }

  /** The schema meets what the theorems ask. */
  lemma ConditionalSound()
    ensures Sound(Conditional()) && Usable(Conditional(), TypeNode(true, Custom("T"), []))
  {
    ConditionalUsable();
    forall n: TypeName | n.Custom? ensures ClassCompiles(Conditional(), n) {
      ConditionalClass(n);
    }
  }

  /** One value of the class for which the writer tests a variable it has not set, and one
      for which it does not. */
  lemma ConditionalFlagsLoseData()
    ensures var s := Conditional();
      var t, u, v := TypeNode(true, Custom("T"), []), [IntV(0), IntV(0), IntV(7)], [IntV(1), IntV(1), IntV(7)];
      && WellTyped(s, t, ObjV(t.name, 0, u)) && WellTyped(s, t, ObjV(t.name, 0, v))
      && RunStore(s, StoreObject, ObjV(t.name, 0, u)) == None
      && RunStore(s, StoreObject, ObjV(t.name, 0, v)) == Some(StoreInt(1) + StoreInt(1) + StoreInt(7))
  {
    var s := Conditional();
    ConditionalCode();
    ConditionalTyped([IntV(0), IntV(0), IntV(7)]);
    ConditionalTyped([IntV(1), IntV(1), IntV(7)]);
    RunObject(s, ObjV(Custom("T"), 0, [IntV(0), IntV(0), IntV(7)]), [Z, Y, X]);
    RunObject(s, ObjV(Custom("T"), 0, [IntV(1), IntV(1), IntV(7)]), [Z, Y, X]);
    UndefinedRun(s, ObjV(Custom("T"), 0, [IntV(0), IntV(0), IntV(7)]));
    DefinedRun(s, ObjV(Custom("T"), 0, [IntV(1), IntV(1), IntV(7)]));
  }

  lemma ConditionalTyped(fields: seq<Value>)
    requires |fields| == 3 && fields[0].IntV? && fields[1].IntV? && fields[2].IntV?
    ensures WellTyped(Conditional(), TypeNode(true, Custom("T"), []), ObjV(Custom("T"), 0, fields))
  {
    var s, v := Conditional(), ObjV(Custom("T"), 0, fields);
    assert IsSupported(s(Custom("T")).constructors[0]);
    assert WellTypedFields(s, v, 3);
    assert WellTypedFields(s, v, 2);
    assert WellTypedFields(s, v, 1);
  }

  lemma RunObject(s: Schema, v: Value, lines: seq<StoreLine>)
    requires v.ObjV? && HasConstructor(s, v.name, v.ctor) && GenStore(s, s(v.name).constructors[v.ctor]) == Some(lines)
    ensures RunStore(s, StoreObject, v) == RunLines(s, lines, 0, v, NothingSet())
  {}

  lemma UndefinedRun(s: Schema, v: Value)
    requires v.ObjV? && v.fields == [IntV(0), IntV(0), IntV(7)]
    ensures RunLines(s, [Z, Y, X], 0, v, NothingSet()) == None
  {
    var lines, env := [Z, Y, X], Assign(NothingSet(), 0, 0);
    assert !TestBit(0, 0);
    assert RunLine(s, X, v, env) == (None, env);
    assert RunLines(s, lines, 2, v, env) == None;
    assert RunLine(s, Y, v, env) == (Some([]), env);
    assert RunLines(s, lines, 1, v, env) == None;
    assert RunLine(s, Z, v, NothingSet()) == (Some(StoreInt(0)), env);
  }

  lemma DefinedRun(s: Schema, v: Value)
    requires v.ObjV? && v.fields == [IntV(1), IntV(1), IntV(7)]
    ensures RunLines(s, [Z, Y, X], 0, v, NothingSet()) == Some(StoreInt(1) + StoreInt(1) + StoreInt(7))
  {
    var lines, one := [Z, Y, X], Assign(NothingSet(), 0, 1);
    var both := Assign(one, 1, 1);
    assert TestBit(1, 0);
    assert StoreInt(7) + [] == StoreInt(7);
    assert RunLine(s, X, v, both) == (Some(StoreInt(7)), both);
    assert RunLines(s, lines, 2, v, both) == Some(StoreInt(7));
    assert RunLine(s, Y, v, one) == (Some(StoreInt(1)), both);
    assert RunLines(s, lines, 1, v, one) == Some(StoreInt(1) + StoreInt(7));
    assert RunLine(s, Z, v, NothingSet()) == (Some(StoreInt(1)), one);
    assert StoreInt(1) + (StoreInt(1) + StoreInt(7)) == StoreInt(1) + StoreInt(1) + StoreInt(7);
  }
}
