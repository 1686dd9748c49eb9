/**
 The generated readers undo the generated writers: run on the serialization of any value,
 followed by anything, the emitted code returns the value's normal form and leaves what
 followed, exactly if it accepts the value.
 */
module TlFetchProof {
  import opened Sequences
  import opened Wrappers
  import opened Bytes
  import opened TlBytes
  import opened TlSchema
  import opened TlWriter
  import opened TlRuntime
  import opened TlStoreProof

  type Clean = seq<Byte> -> seq<Byte>

  /** The built-in types are declared as every schema declares them: `#` has no constructors,
      and Bool does not have exactly one. */
  predicate BuiltIns(s: Schema) {
    s(Nat).constructors == [] && SupportedCount(s(Bool).constructors) != 1
  }

  ghost predicate Sound(s: Schema) {
    Compiles(s) && BuiltIns(s)
  }

  /** A type tree for which both a reader and a writer are emitted and compile. */
  predicate Usable(s: Schema, t: Tree) {
    && t.TypeNode? && GenFullStoreClass(s, t).Some?
    && GenFullFetchClass(s, t).Some? && HasRuntime(GenFullFetchClass(s, t).value)
  }

  function Outcome<T>(ok: bool, v: T, rest: seq<Byte>): Parsed<T> {
    if ok then Parsed(v, rest) else Failed
  }

  lemma {:induction false} ExpectedIsOnly(n: TypeName, constructors: seq<Combinator>)
    requires ExpectedId(n, constructors).Some? && !n.Vector?
    ensures var id := ExpectedId(n, constructors).value;
      (id == 0 && SupportedCount(constructors) == 0) ||
      (id != 0 && SupportedCount(constructors) == 1 && FirstIn(constructors) < |constructors|
       && id == constructors[FirstIn(constructors)].id)
  {
    if constructors != [] {
      ExpectedIsOnly(n, constructors[1..]);
    }
  }

  predicate InFront(s: Schema, t: Tree, v: Value, inner: FetchClass, cls: FetchClass)
    requires t.TypeNode?
  {
    || (cls == inner && Box(s, t, v) == [])
    || (cls.FetchBoxed? && cls.inner == inner && Box(s, t, v) == StoreInt(cls.id))
  }

  /** Reader and writer agree at every node on what stands in front of the content: nothing,
      or a number the reader checks, or a number by which it chooses the constructor. */
  lemma BoxAgrees(s: Schema, t: Tree, v: Value, inner: FetchClass, cls: FetchClass)
    requires BuiltIns(s) && WellTyped(s, t, v) && Usable(s, t)
    requires GenFetchClass(s, t) == Some(inner) && GenFullFetchClass(s, t) == Some(cls)
    ensures t.name.Custom? && SupportedCount(s(t.name).constructors) != 1 ==>
      cls == inner && Box(s, t, v) == StoreInt(s(t.name).constructors[v.ctor].id)
    ensures !(t.name.Custom? && SupportedCount(s(t.name).constructors) != 1) ==>
      InFront(s, t, v, inner, cls)
  {
    if t.name.Custom? && IsTypeBare(s, t.name) {
      OnlyIsFirst(s(t.name).constructors, v.ctor);
    }
    if !t.bare && IsTypeBare(s, t.name) && !t.name.Vector? {
      ExpectedIsOnly(t.name, s(t.name).constructors);
      FirstExists(s(t.name).constructors);
    }
  }

  lemma FetchBoxedInt(s: Schema, clean: Clean, inner: FetchClass, id: Word, b: seq<Byte>, fuel: nat)
    ensures RunFetch(s, clean, FetchBoxed(inner, id), StoreInt(id) + b, fuel) == RunFetch(s, clean, inner, b, fuel)
  {
    IntRoundTrip(id, b);
  }

  /** The reader undoes the writer on v with `rest` behind it. */
  ghost predicate Undone(s: Schema, clean: Clean, t: Tree, v: Value, cls: FetchClass, rest: seq<Byte>, fuel: nat)
    requires WellTyped(s, t, v)
  {
    RunFetch(s, clean, cls, Encode(s, t, v) + rest, fuel)
    == Outcome(Accepts(s, t, v, |rest|), Normal(s, clean, t, v), rest)
  }

  /** Fetch undoes store, at every type and every nesting depth. */
  lemma {:induction false} FetchCorrect(s: Schema, clean: Clean, t: Tree, v: Value, rest: seq<Byte>, fuel: nat)
    requires Sound(s) && WellTyped(s, t, v) && Usable(s, t) && Depth(v) <= fuel
    ensures Undone(s, clean, t, v, GenFullFetchClass(s, t).value, rest, fuel)
    decreases v, 1, 1
  {
    var inner := GenFetchClass(s, t).value;
    BoxAgrees(s, t, v, inner, GenFullFetchClass(s, t).value);
    if t.name.Custom? && SupportedCount(s(t.name).constructors) != 1 {
      FetchSwitch(s, clean, t, v, rest, fuel);
    } else {
      FetchContent(s, clean, t, v, inner, rest, fuel);
      Unbox(s, clean, t, v, inner, GenFullFetchClass(s, t).value, rest, fuel);
    }
  }

  lemma Unbox(s: Schema, clean: Clean, t: Tree, v: Value, inner: FetchClass, cls: FetchClass, rest: seq<Byte>, fuel: nat)
    requires WellTyped(s, t, v) && InFront(s, t, v, inner, cls)
    requires RunFetch(s, clean, inner, Content(s, t, v) + rest, fuel)
             == Outcome(Accepts(s, t, v, |rest|), Normal(s, clean, t, v), rest)
    ensures Undone(s, clean, t, v, cls, rest, fuel)
  {
    var content := Content(s, t, v) + rest;
    if cls == inner && Box(s, t, v) == [] {
      assert [] + Content(s, t, v) == Content(s, t, v);
    } else {
      Associate(StoreInt(cls.id), Content(s, t, v), rest);
      FetchBoxedInt(s, clean, inner, cls.id, content, fuel);
    }
  }

  lemma {:induction false} FetchSwitch(s: Schema, clean: Clean, t: Tree, v: Value, rest: seq<Byte>, fuel: nat)
    requires Sound(s) && WellTyped(s, t, v) && Usable(s, t) && Depth(v) <= fuel
    requires t.name.Custom? && SupportedCount(s(t.name).constructors) != 1
    requires Box(s, t, v) == StoreInt(s(t.name).constructors[v.ctor].id)
    ensures Undone(s, clean, t, v, FetchObject(t.name), rest, fuel)
    decreases v, 1, 0
  {
    FetchBodyCorrect(s, clean, v, s(t.name).constructors[v.ctor], rest, fuel - 1);
    assert ClassCompiles(s, t.name);
    SwitchIsBody(s, clean, t, v, rest, fuel);
  }

  lemma SwitchFinds(constructors: seq<Combinator>, i: nat)
    requires DistinctCases(constructors) && i < |constructors| && IsSupported(constructors[i])
    ensures Switch(constructors, constructors[i].id) == i
  {}

  lemma SwitchIsBody(s: Schema, clean: Clean, t: Tree, v: Value, rest: seq<Byte>, fuel: nat)
    requires WellTyped(s, t, v) && t.name.Custom? && SupportedCount(s(t.name).constructors) != 1 && fuel > 0
    requires DistinctCases(s(t.name).constructors)
    requires Box(s, t, v) == StoreInt(s(t.name).constructors[v.ctor].id)
    requires FetchBody(s, clean, v.name, v.ctor, EncodeFields(s, v, 0) + rest, fuel)
          == Outcome(AcceptsFields(s, v, |rest|, 0), ObjV(v.name, v.ctor, NormalFields(s, clean, v, 0)), rest)
    ensures Undone(s, clean, t, v, FetchObject(t.name), rest, fuel)
  {
    var id := s(t.name).constructors[v.ctor].id;
    Associate(StoreInt(id), Content(s, t, v), rest);
    IntRoundTrip(id, Content(s, t, v) + rest);
    SwitchFinds(s(t.name).constructors, v.ctor);
  }

  lemma {:induction false} FetchContent(s: Schema, clean: Clean, t: Tree, v: Value, inner: FetchClass,
                                        rest: seq<Byte>, fuel: nat)
    requires Sound(s) && WellTyped(s, t, v) && Usable(s, t) && Depth(v) <= fuel && GenFetchClass(s, t) == Some(inner)
    requires t.name.Custom? ==> SupportedCount(s(t.name).constructors) == 1
    ensures RunFetch(s, clean, inner, Content(s, t, v) + rest, fuel)
            == Outcome(Accepts(s, t, v, |rest|), Normal(s, clean, t, v), rest)
    decreases v, 1, 0
  {
    if t.name.Custom? {
      FetchBodyCorrect(s, clean, v, s(t.name).constructors[v.ctor], rest, fuel - 1);
      ContentIsBody(s, clean, t, v, inner, rest, fuel);
    } else if t.name.Vector? {
      FetchVectorCorrect(s, clean, t, v, inner, rest, fuel);
    } else {
      FetchScalar(s, clean, t, v, inner, rest, fuel);
    }
  }

  lemma ContentIsBody(s: Schema, clean: Clean, t: Tree, v: Value, inner: FetchClass, rest: seq<Byte>, fuel: nat)
    requires WellTyped(s, t, v) && t.name.Custom? && GenFetchClass(s, t) == Some(inner) && fuel > 0
    requires SupportedCount(s(t.name).constructors) == 1
    requires FetchBody(s, clean, v.name, v.ctor, EncodeFields(s, v, 0) + rest, fuel)
          == Outcome(AcceptsFields(s, v, |rest|, 0), ObjV(v.name, v.ctor, NormalFields(s, clean, v, 0)), rest)
    ensures RunFetch(s, clean, inner, Content(s, t, v) + rest, fuel)
         == Outcome(Accepts(s, t, v, |rest|), Normal(s, clean, t, v), rest)
  {
    OnlyIsFirst(s(t.name).constructors, v.ctor);
  }

  lemma TrueIsNotStored(s: Schema, t: Tree)
    ensures t.TypeNode? && t.name.True? ==> GenStoreClass(s, t) == None
  {}

  /** A writer is emitted for True only as a flag. */
  lemma NotTrue(s: Schema, t: Tree)
    requires Usable(s, t)
    ensures !t.name.True?
  {
    TrueIsNotStored(s, t);
  }

  lemma ItemsUsable(s: Schema, t: Tree)
    requires Usable(s, t) && t.name.Vector?
    ensures |t.children| == 1 && Usable(s, t.children[0])
    ensures GenFetchClass(s, t) == Some(FetchVector(GenFullFetchClass(s, t.children[0]).value))
  {
    var store, fetch := GenStoreClass(s, t), GenFetchClass(s, t);
    assert store.Some? && fetch.Some?;
    assert |t.children| == 1 && t.children[0].TypeNode?;
    assert GenFullFetchClass(s, t.children[0]).Some? && fetch.value == FetchVector(GenFullFetchClass(s, t.children[0]).value);
    assert HasRuntime(fetch.value);
  }

  lemma FetchScalar(s: Schema, clean: Clean, t: Tree, v: Value, inner: FetchClass, rest: seq<Byte>, fuel: nat)
    requires WellTyped(s, t, v) && Usable(s, t) && GenFetchClass(s, t) == Some(inner)
    requires !t.name.Custom? && !t.name.Vector?
    ensures RunFetch(s, clean, inner, Content(s, t, v) + rest, fuel) == Parsed(Normal(s, clean, t, v), rest)
  {
    var b := Content(s, t, v) + rest;
    match v {
      case IntV(w) => IntRoundTrip(w, rest);
      case RawV(raw) => assert b[..|raw|] == raw && b[|raw|..] == rest;
      case BoolV(on) =>
        NotTrue(s, t);
        IntRoundTrip(if on then BOOL_TRUE else BOOL_FALSE, rest);
      case StrV(text) => StringRoundTrip(text, rest);
      case _ =>
    }
  }

  lemma {:induction false} PartDepth(v: Value, i: nat, k: nat)
    requires i <= k < |Parts(v)|
    ensures Depth(Parts(v)[k]) <= DepthFrom(v, i)
    decreases k - i
  {
    if i < k {
      PartDepth(v, i + 1, k);
    }
  }

  lemma {:induction false} FetchVectorCorrect(s: Schema, clean: Clean, t: Tree, v: Value, inner: FetchClass,
                                              rest: seq<Byte>, fuel: nat)
    requires Sound(s) && WellTyped(s, t, v) && Usable(s, t) && Depth(v) <= fuel && GenFetchClass(s, t) == Some(inner)
    requires t.name.Vector?
    ensures RunFetch(s, clean, inner, Content(s, t, v) + rest, fuel)
            == Outcome(Accepts(s, t, v, |rest|), Normal(s, clean, t, v), rest)
    decreases v, 0, 1
  {
    ItemsUsable(s, t);
    var child := t.children[0];
    forall k: nat | k < |v.items| ensures ItemAlwaysUndone(s, clean, child, v, k, inner.item, fuel) {
      forall tail ensures ItemUndone(s, clean, child, v, k, inner.item, tail, fuel) {
        if WellTyped(s, child, v.items[k]) {
          PartDepth(v, 0, k);
          FetchCorrect(s, clean, child, v.items[k], tail, fuel);
        }
      }
    }
    VectorFromItems(s, clean, t, v, inner.item, rest, fuel);
  }

  ghost predicate ItemUndone(s: Schema, clean: Clean, t: Tree, v: Value, k: nat, cls: FetchClass, tail: seq<Byte>, fuel: nat)
    requires v.VecV? && k < |v.items|
  {
    WellTyped(s, t, v.items[k]) ==> Undone(s, clean, t, v.items[k], cls, tail, fuel)
  }

  ghost predicate ItemAlwaysUndone(s: Schema, clean: Clean, t: Tree, v: Value, k: nat, cls: FetchClass, fuel: nat)
    requires v.VecV? && k < |v.items|
  {
    forall tail :: ItemUndone(s, clean, t, v, k, cls, tail, fuel)
  }

  lemma VectorFromItems(s: Schema, clean: Clean, t: Tree, v: Value, item: FetchClass, rest: seq<Byte>, fuel: nat)
    requires WellTyped(s, t, v) && t.name.Vector?
    requires forall k: nat :: k < |v.items| ==> ItemAlwaysUndone(s, clean, t.children[0], v, k, item, fuel)
    ensures RunFetch(s, clean, FetchVector(item), Content(s, t, v) + rest, fuel)
            == Outcome(Accepts(s, t, v, |rest|), Normal(s, clean, t, v), rest)
  {
    var items := EncodeItems(s, t.children[0], v, 0);
    Associate(StoreInt(|v.items|), items, rest);
    IntRoundTrip(|v.items|, items + rest);
    FetchItemsCorrect(s, clean, t.children[0], v, 0, item, rest, fuel);
  }

  lemma FetchItemsCons(s: Schema, clean: Clean, cls: FetchClass, n: nat, b: seq<Byte>, tail: seq<Byte>, rest: seq<Byte>,
                       fuel: nat, ok: bool, item: Value, more: bool, items: seq<Value>)
    requires RunFetch(s, clean, cls, b, fuel) == Outcome(ok, item, tail)
    requires FetchItems(s, clean, cls, n, tail, fuel) == Outcome(more, items, rest)
    ensures FetchItems(s, clean, cls, n + 1, b, fuel) == Outcome(ok && more, [item] + items, rest)
  {}

  lemma ItemsUnfold(s: Schema, clean: Clean, t: Tree, v: Value, i: nat, after: nat)
    requires v.VecV? && i < |v.items| && WellTypedItems(s, t, v, i)
    ensures EncodeItems(s, t, v, i) == Encode(s, t, v.items[i]) + EncodeItems(s, t, v, i + 1)
    ensures AcceptsItems(s, t, v, after, i)
        <==> Accepts(s, t, v.items[i], |EncodeItems(s, t, v, i + 1)| + after) && AcceptsItems(s, t, v, after, i + 1)
    ensures NormalItems(s, clean, t, v, i) == [Normal(s, clean, t, v.items[i])] + NormalItems(s, clean, t, v, i + 1)
  {}

  lemma FetchItemsHead(s: Schema, clean: Clean, t: Tree, v: Value, i: nat, cls: FetchClass, rest: seq<Byte>, fuel: nat,
                       later: seq<Byte>, more: bool, items: seq<Value>)
    requires v.VecV? && i < |v.items| && WellTypedItems(s, t, v, i) && ItemAlwaysUndone(s, clean, t, v, i, cls, fuel)
    requires later == EncodeItems(s, t, v, i + 1) && more == AcceptsItems(s, t, v, |rest|, i + 1)
    requires items == NormalItems(s, clean, t, v, i + 1)
    requires FetchItems(s, clean, cls, |v.items| - i - 1, later + rest, fuel) == Outcome(more, items, rest)
    ensures FetchItems(s, clean, cls, |v.items| - i, EncodeItems(s, t, v, i) + rest, fuel)
            == Outcome(AcceptsItems(s, t, v, |rest|, i), NormalItems(s, clean, t, v, i), rest)
  {
    var tail := later + rest;
    assert |tail| == |later| + |rest|;
    assert ItemUndone(s, clean, t, v, i, cls, tail, fuel);
    var first := Encode(s, t, v.items[i]);
    FetchItemsCons(s, clean, cls, |v.items| - i - 1, first + tail, tail, rest, fuel,
                   Accepts(s, t, v.items[i], |tail|), Normal(s, clean, t, v.items[i]), more, items);
    Associate(first, later, rest);
    ItemsUnfold(s, clean, t, v, i, |rest|);
  }

  lemma {:induction false} FetchItemsCorrect(s: Schema, clean: Clean, t: Tree, v: Value, i: nat, cls: FetchClass,
                                             rest: seq<Byte>, fuel: nat)
    requires v.VecV? && i <= |v.items| && WellTypedItems(s, t, v, i)
    requires forall k: nat :: k < |v.items| ==> ItemAlwaysUndone(s, clean, t, v, k, cls, fuel)
    ensures FetchItems(s, clean, cls, |v.items| - i, EncodeItems(s, t, v, i) + rest, fuel)
            == Outcome(AcceptsItems(s, t, v, |rest|, i), NormalItems(s, clean, t, v, i), rest)
    decreases |v.items| - i
  {
    if i == |v.items| {
      assert [] + rest == rest;
    } else {
      FetchItemsCorrect(s, clean, t, v, i + 1, cls, rest, fuel);
      FetchItemsHead(s, clean, t, v, i, cls, rest, fuel, EncodeItems(s, t, v, i + 1),
                     AcceptsItems(s, t, v, |rest|, i + 1), NormalItems(s, clean, t, v, i + 1));
    }
  }

  // ---- the bodies of objects ----

  /** The shape of the line for a field. */
  predicate LineFor(a: Arg, i: nat, line: FetchLine) {
    if IsFlag(a) then line == FetchFlag(i, a.existVarNum, a.existVarBit)
    else if a.varNum >= 0 then line == FetchVar(GuardOf(a), a.varNum, i, FetchInt)
    else line.FetchField? && line.guard == GuardOf(a) && line.field == i
  }

  /** The runtime has no class for a boxed True. */
  lemma BoxedTrueHasNoRuntime(s: Schema, t: Tree)
    requires BuiltIns(s) && t.TypeNode?
    ensures t.name.True? && !t.bare && GenFullFetchClass(s, t).Some? ==> !HasRuntime(GenFullFetchClass(s, t).value)
  {}

  /** The line that the generator emits has the shape, and names a class that can be used. */
  lemma GenLine(s: Schema, args: seq<Arg>, i: nat, vars: Vars)
    requires i < |args| && BuiltIns(s)
    requires GenFieldFetch(s, args[i], i, vars).Some? && GenFieldStore(s, args, i, vars).Some?
    requires LineCompiles(GenFieldFetch(s, args[i], i, vars).value)
    ensures var line := GenFieldFetch(s, args[i], i, vars).value;
      && LineFor(args[i], i, line)
      && (args[i].existVarNum >= 0 ==> SetBefore(vars, args[i].existVarNum))
      && (args[i].varNum >= 0 ==> MaySet(vars, args[i]))
      && (line.FetchField? ==> Usable(s, args[i].tree) && line.cls == GenFullFetchClass(s, args[i].tree).value)
  {
    var a := args[i];
    assert !(a.tree.TypeNode? && a.tree.name.Nat?) || GenFullFetchClass(s, a.tree) in {None, Some(FetchInt)};
    BoxedTrueHasNoRuntime(s, a.tree);
  }

  /** The reader undoes the writer on field k of an object, if it takes up bytes of its own. */
  ghost predicate FieldUndone(s: Schema, clean: Clean, v: Value, c: Combinator, k: nat, tail: seq<Byte>, fuel: nat)
    requires v.ObjV? && |v.fields| == |c.args| && k < |c.args|
  {
    IsPresent(c, v.fields, c.args[k]) && WellTyped(s, c.args[k].tree, v.fields[k]) && Usable(s, c.args[k].tree) ==>
      Undone(s, clean, c.args[k].tree, v.fields[k], GenFullFetchClass(s, c.args[k].tree).value, tail, fuel)
  }

  ghost predicate AllUndone(s: Schema, clean: Clean, v: Value, c: Combinator, fuel: nat) {
    v.ObjV? && |v.fields| == |c.args|
    && forall k: nat, tail :: k < |c.args| ==> FieldUndone(s, clean, v, c, k, tail, fuel)
  }

  /** The fields read so far, and the defaults of the others. */
  function Partial(c: Combinator, done: seq<Value>): seq<Value>
    requires |done| <= |c.args|
  {
    done + Defaults(c.args)[|done|..]
  }

  lemma PutNext(c: Combinator, done: seq<Value>, v: Value)
    requires |done| < |c.args|
    ensures Put(Partial(c, done), |done|, v) == Partial(c, done + [v])
    ensures Partial(c, done) == Partial(c, done + [Default(c.args[|done|].tree)])
  {}

  /** One line reads one field and keeps the variables in step; the variable of an absent
      field becomes 0. */
  lemma FetchLineCorrect(s: Schema, clean: Clean, v: Value, c: Combinator, i: nat, line: FetchLine,
                         done: seq<Value>, vars: Vars, env: Env, tail: seq<Byte>, fuel: nat)
    requires IsBody(s, v, c, i) && i < |c.args| && |done| == i && LineFor(c.args[i], i, line)
    requires Agree(c, v.fields, i, vars, env, Some(0))
    requires c.args[i].existVarNum >= 0 ==> SetBefore(vars, c.args[i].existVarNum)
    requires c.args[i].varNum >= 0 ==> MaySet(vars, c.args[i])
    requires line.FetchField? && IsPresent(c, v.fields, c.args[i]) ==>
      Undone(s, clean, c.args[i].tree, v.fields[i], line.cls, tail, fuel)
    ensures ReadLine(s, clean, line, Reading(Partial(c, done), env, EncodeField(s, v, i) + tail), fuel)
      == if !AcceptsField(s, v, |tail|, i) then Broken
         else Reading(Partial(c, done + [NormalField(s, clean, v, i)]), EnvAfter(c, v.fields, i, env, Some(0)), tail)
  {
    var a := c.args[i];
    if a.existVarNum >= 0 {
      GuardTested(c, v.fields, i, vars, env);
    }
    assert [] + tail == tail;
    PutNext(c, done, NormalField(s, clean, v, i));
    if a.varNum >= 0 {
      IntRoundTrip(FlagWord(c, v.fields, a.varNum), tail);
    }
  }

  /** The variable of an absent field is 0, so that all fields that it guards are absent. */
  lemma GuardTested(c: Combinator, fields: seq<Value>, i: nat, vars: Vars, env: Env)
    requires i < |c.args| && |fields| == |c.args| && Agree(c, fields, i, vars, env, Some(0))
    requires c.args[i].existVarNum >= 0 && SetBefore(vars, c.args[i].existVarNum)
    ensures env(c.args[i].existVarNum) == Some(FlagWord(c, fields, c.args[i].existVarNum))
    ensures Test(env, GuardOf(c.args[i])) == Some(IsPresent(c, fields, c.args[i]))
  {
    var k := c.args[i].existVarNum;
    GuardKnown(c, fields, i, vars, env, Some(0));
    assert !SetterPresent(c, fields, k) ==> FlagWord(c, fields, k) == 0;
  }

  lemma ReadLinesStep(s: Schema, clean: Clean, lines: seq<FetchLine>, i: nat, fields: seq<Value>, b: seq<Byte>,
                      env: Env, fuel: nat, ok: bool, r: Reading)
    requires i < |lines| && r.Reading?
    requires ReadLine(s, clean, lines[i], Reading(fields, env, b), fuel) == if ok then r else Broken
    ensures ReadLines(s, clean, lines, i, fields, b, env, fuel) ==
            if ok then ReadLines(s, clean, lines, i + 1, r.fields, r.rest, r.env, fuel) else Failed
  {}

  lemma FieldsUnfold(s: Schema, clean: Clean, v: Value, c: Combinator, i: nat, done: seq<Value>, rest: seq<Byte>)
    requires IsBody(s, v, c, i) && i < |c.args|
    ensures var tail := EncodeFields(s, v, i + 1) + rest;
      && EncodeFields(s, v, i) + rest == EncodeField(s, v, i) + tail
      && (AcceptsFields(s, v, |rest|, i) <==> AcceptsField(s, v, |tail|, i) && AcceptsFields(s, v, |rest|, i + 1))
      && done + NormalFields(s, clean, v, i) == done + [NormalField(s, clean, v, i)] + NormalFields(s, clean, v, i + 1)
  {}

  /** What the generator has still to emit at field i. */
  ghost predicate Emitting(s: Schema, c: Combinator, i: nat, lines: seq<FetchLine>, vars: Vars)
    requires i <= |c.args|
  {
    && BuiltIns(s) && |lines| == |c.args|
    && GenFetchFrom(s, c.args, i, vars) == Some(lines[i..]) && GenStoreFrom(s, c.args, i, vars).Some?
    && forall line :: line in lines ==> LineCompiles(line)
  }

  lemma EmittingStep(s: Schema, c: Combinator, i: nat, lines: seq<FetchLine>, vars: Vars)
    requires i < |c.args| && Emitting(s, c, i, lines, vars)
    ensures Emitting(s, c, i + 1, lines, AfterField(c.args[i], vars))
    ensures LineFor(c.args[i], i, lines[i])
    ensures c.args[i].existVarNum >= 0 ==> SetBefore(vars, c.args[i].existVarNum)
    ensures c.args[i].varNum >= 0 ==> MaySet(vars, c.args[i])
    ensures lines[i].FetchField? ==>
      Usable(s, c.args[i].tree) && lines[i].cls == GenFullFetchClass(s, c.args[i].tree).value
  {
    var line := GenFieldFetch(s, c.args[i], i, vars).value;
    assert lines[i] == lines[i..][0] == line && lines[i..][1..] == lines[i + 1..];
    GenLine(s, c.args, i, vars);
  }

  /** All lines of a body, from field i on. */
  lemma {:induction false} FetchLinesCorrect(s: Schema, clean: Clean, v: Value, c: Combinator, i: nat, lines: seq<FetchLine>,
                                             done: seq<Value>, vars: Vars, env: Env, rest: seq<Byte>, fuel: nat)
    requires IsBody(s, v, c, i) && |done| == i && Emitting(s, c, i, lines, vars)
    requires Agree(c, v.fields, i, vars, env, Some(0))
    requires AllUndone(s, clean, v, c, fuel)
    ensures ReadLines(s, clean, lines, i, Partial(c, done), EncodeFields(s, v, i) + rest, env, fuel)
            == Outcome(AcceptsFields(s, v, |rest|, i), done + NormalFields(s, clean, v, i), rest)
    decreases |c.args| - i
  {
    if i == |c.args| {
      assert [] + rest == rest && Partial(c, done) == done + [];
    } else {
      var a := c.args[i];
      var tail := EncodeFields(s, v, i + 1) + rest;
      EmittingStep(s, c, i, lines, vars);
      assert FieldUndone(s, clean, v, c, i, tail, fuel);
      FetchLineCorrect(s, clean, v, c, i, lines[i], done, vars, env, tail, fuel);
      AgreeSets(c, v.fields, i, vars, env, Some(0));
      var after := EnvAfter(c, v.fields, i, env, Some(0));
      var more := done + [NormalField(s, clean, v, i)];
      FetchLinesCorrect(s, clean, v, c, i + 1, lines, more, AfterField(a, vars), after, rest, fuel);
      FieldsUnfold(s, clean, v, c, i, done, rest);
      ReadLinesStep(s, clean, lines, i, Partial(c, done), EncodeField(s, v, i) + tail, env, fuel,
                    AcceptsField(s, v, |tail|, i), Reading(Partial(c, more), after, tail));
    }
  }

  lemma SoundClass(s: Schema, n: TypeName, c: Combinator)
    requires Sound(s) && n.Custom? && c in s(n).constructors && IsSupported(c)
    ensures CodeCompiles(s, c)
  {
    assert ClassCompiles(s, n);
  }

  lemma {:induction false} FetchBodyCorrect(s: Schema, clean: Clean, v: Value, c: Combinator, rest: seq<Byte>, fuel: nat)
    requires Sound(s) && IsBody(s, v, c, 0) && IsSupported(c) && DepthFrom(v, 0) <= fuel
    ensures FetchBody(s, clean, v.name, v.ctor, EncodeFields(s, v, 0) + rest, fuel + 1)
            == Outcome(AcceptsFields(s, v, |rest|, 0), ObjV(v.name, v.ctor, NormalFields(s, clean, v, 0)), rest)
    decreases v, 0, 2
  {
    SoundClass(s, v.name, c);
    FetchFieldsCorrect(s, clean, v, c, fuel);
    BodyFromLines(s, clean, v, c, rest, fuel);
  }

  lemma {:induction false} FetchFieldsCorrect(s: Schema, clean: Clean, v: Value, c: Combinator, fuel: nat)
    requires Sound(s) && v.ObjV? && |v.fields| == |c.args| && DepthFrom(v, 0) <= fuel
    ensures AllUndone(s, clean, v, c, fuel)
    decreases v, 0, 1
  {
    forall k: nat, tail | k < |c.args| ensures FieldUndone(s, clean, v, c, k, tail, fuel) {
      FetchFieldCorrect(s, clean, v, c, k, tail, fuel);
    }
  }

  lemma {:induction false} FetchFieldCorrect(s: Schema, clean: Clean, v: Value, c: Combinator, k: nat, tail: seq<Byte>, fuel: nat)
    requires Sound(s) && v.ObjV? && |v.fields| == |c.args| && k < |c.args| && DepthFrom(v, 0) <= fuel
    ensures FieldUndone(s, clean, v, c, k, tail, fuel)
    decreases v, 0, 0
  {
    if WellTyped(s, c.args[k].tree, v.fields[k]) && Usable(s, c.args[k].tree) {
      PartDepth(v, 0, k);
      FetchCorrect(s, clean, c.args[k].tree, v.fields[k], tail, fuel);
    }
  }

  lemma BodyFromLines(s: Schema, clean: Clean, v: Value, c: Combinator, rest: seq<Byte>, fuel: nat)
    requires IsBody(s, v, c, 0) && BuiltIns(s) && CodeCompiles(s, c)
    requires AllUndone(s, clean, v, c, fuel)
    ensures FetchBody(s, clean, v.name, v.ctor, EncodeFields(s, v, 0) + rest, fuel + 1)
            == Outcome(AcceptsFields(s, v, |rest|, 0), ObjV(v.name, v.ctor, NormalFields(s, clean, v, 0)), rest)
  {
    var lines := GenFetch(s, c).value;
    assert lines[0..] == lines && Partial(c, []) == Defaults(c.args);
    AgreeAtFirst(c, v.fields, Some(0));
    FetchLinesCorrect(s, clean, v, c, 0, lines, [], NoVars(c), NothingSet(), rest, fuel);
    assert [] + NormalFields(s, clean, v, 0) == NormalFields(s, clean, v, 0);
  }
}
