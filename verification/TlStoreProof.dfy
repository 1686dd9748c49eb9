/**
 The generated writers are correct: run on a well-typed value, the code that the generator
 emits for a type writes exactly the binary serialization of the value if every variable
 that it tests has been set, and otherwise tests one that has not.
 */
module TlStoreProof {
  import opened Wrappers
  import opened Bytes
  import opened TlBytes
  import opened TlSchema
  import opened TlWriter
  import opened TlRuntime

  /** The value of variable k before field i; `unset` is that of a variable whose field was absent. */
  ghost predicate Knows(c: Combinator, fields: seq<Value>, i: nat, vars: Vars, env: Env, unset: Option<Word>, k: nat)
    requires k < |vars|
  {
    if !vars[k] then env(k) == None
    else Setter(c.args, k) < i && env(k) == if SetterPresent(c, fields, k) then Some(FlagWord(c, fields, k)) else unset
  }

  /** The variables set so far hold the words of flags, and all setters so far have run. */
  ghost predicate Agree(c: Combinator, fields: seq<Value>, i: nat, vars: Vars, env: Env, unset: Option<Word>)
    requires i <= |c.args|
  {
    && (forall k: nat :: k < |vars| ==> Knows(c, fields, i, vars, env, unset, k))
    && forall j: nat :: j < i && c.args[j].varNum >= 0 ==> SetBefore(vars, c.args[j].varNum)
  }

  lemma AgreeAtFirst(c: Combinator, fields: seq<Value>, unset: Option<Word>)
    ensures Agree(c, fields, 0, NoVars(c), NothingSet(), unset)
  {}

  lemma {:induction false} OrAllIsWithFlags(args: seq<Arg>, fields: seq<Value>, k: nat, w: Word, i: nat)
    requires i <= |args|
    ensures OrAll(fields, FlagFields(args, k, i), w) == WithFlags(args, fields, k, w, i)
    decreases |args| - i
  {
    if i < |args| {
      var rest := FlagFields(args, k, i + 1);
      if IsFlagOf(args[i], k) {
        assert FlagFields(args, k, i)[1..] == rest;
        var on := i < |fields| && fields[i] == BoolV(true);
        OrAllIsWithFlags(args, fields, k, SetWordBit(w, args[i].existVarBit, on), i + 1);
      } else {
        assert FlagFields(args, k, i) == rest;
        OrAllIsWithFlags(args, fields, k, w, i + 1);
      }
    }
  }

  /** The first line that sets a variable is the only one. */
  lemma SetterIsHere(c: Combinator, fields: seq<Value>, i: nat, vars: Vars, env: Env, unset: Option<Word>)
    requires i < |c.args| && Agree(c, fields, i, vars, env, unset) && MaySet(vars, c.args[i])
    ensures Setter(c.args, c.args[i].varNum) == i
  {
    var j := Setter(c.args, c.args[i].varNum);
    assert j <= i && c.args[j].varNum == c.args[i].varNum;
  }

  /** What is known of the variable that guards a field. */
  lemma GuardKnown(c: Combinator, fields: seq<Value>, i: nat, vars: Vars, env: Env, unset: Option<Word>)
    requires i < |c.args| && Agree(c, fields, i, vars, env, unset)
    requires c.args[i].existVarNum >= 0 && SetBefore(vars, c.args[i].existVarNum)
    ensures Setter(c.args, c.args[i].existVarNum) < i
    ensures var k := c.args[i].existVarNum;
      env(k) == if SetterPresent(c, fields, k) then Some(FlagWord(c, fields, k)) else unset
  {
    assert Knows(c, fields, i, vars, env, unset, c.args[i].existVarNum);
  }

  /** A present setter gives its variable the word of its flags, an absent one gives it 0. */
  lemma WordOfSetter(c: Combinator, fields: seq<Value>, i: nat, k: nat)
    requires i < |c.args| && |fields| == |c.args| && Setter(c.args, k) == i
    requires c.args[i].existVarNum >= 0 ==> Setter(c.args, c.args[i].existVarNum) < i
    ensures SetterPresent(c, fields, k) <==> IsPresent(c, fields, c.args[i])
    ensures FlagWord(c, fields, k)
         == if IsPresent(c, fields, c.args[i]) && fields[i].IntV? then WithFlags(c.args, fields, k, fields[i].word, 0) else 0
  {}

  /** The variables after field i: a present setter sets its variable, an absent one leaves it
      `unset`. */
  function EnvAfter(c: Combinator, fields: seq<Value>, i: nat, env: Env, unset: Option<Word>): Env
    requires i < |c.args|
  {
    var k := c.args[i].varNum;
    if k < 0 then env
    else if IsPresent(c, fields, c.args[i]) then Assign(env, k, FlagWord(c, fields, k))
    else if unset.Some? then Assign(env, k, unset.value)
    else env
  }

  lemma AgreeSets(c: Combinator, fields: seq<Value>, i: nat, vars: Vars, env: Env, unset: Option<Word>)
    requires i < |c.args| && |fields| == |c.args| && Agree(c, fields, i, vars, env, unset)
    requires c.args[i].varNum >= 0 ==> MaySet(vars, c.args[i])
    requires c.args[i].existVarNum >= 0 ==> SetBefore(vars, c.args[i].existVarNum)
    ensures Agree(c, fields, i + 1, AfterField(c.args[i], vars), EnvAfter(c, fields, i, env, unset), unset)
  {
    var a := c.args[i];
    var after, env' := AfterField(a, vars), EnvAfter(c, fields, i, env, unset);
    if a.existVarNum >= 0 {
      GuardKnown(c, fields, i, vars, env, unset);
    }
    if a.varNum >= 0 {
      SetterIsHere(c, fields, i, vars, env, unset);
      WordOfSetter(c, fields, i, a.varNum);
    }
    var next := i + 1;
    forall k: nat | k < |after| ensures Knows(c, fields, next, after, env', unset, k) {
      assert Knows(c, fields, i, vars, env, unset, k);
    }
  }

  lemma BoxIsStored(s: Schema, t: Tree, v: Value, inner: StoreClass, cls: StoreClass)
    requires WellTyped(s, t, v)
    requires GenStoreClass(s, t) == Some(inner) && GenFullStoreClass(s, t) == Some(cls)
    ensures (cls == inner && Box(s, t, v) == [])
      || (exists id :: cls == StoreBoxed(inner, id) && Box(s, t, v) == StoreInt(id))
      || (cls == StoreBoxedUnknown(inner) && v.ObjV? && v.ctor < |s(v.name).constructors|
          && Box(s, t, v) == StoreInt(s(v.name).constructors[v.ctor].id))
  {
    if t.name.Custom? && IsTypeBare(s, t.name) {
      OnlyIsFirst(s(t.name).constructors, v.ctor);
    }
  }

  function Written(settled: bool, bytes: seq<Byte>): Option<seq<Byte>> {
    if settled then Some(bytes) else None
  }

  /** The code emitted for a type writes the serialization of a value exactly if the value is
      settled. */
  lemma {:induction false} StoreCorrect(s: Schema, t: Tree, v: Value, cls: StoreClass)
    requires Compiles(s) && WellTyped(s, t, v) && GenFullStoreClass(s, t) == Some(cls)
    ensures RunStore(s, cls, v) == Written(Settled(s, t, v), Encode(s, t, v))
    decreases v, 1, 1
  {
    var inner := GenStoreClass(s, t).value;
    StoreContent(s, t, v, inner);
    BoxIsStored(s, t, v, inner, cls);
    assert [] + Content(s, t, v) == Content(s, t, v);
  }

  lemma {:induction false} StoreContent(s: Schema, t: Tree, v: Value, inner: StoreClass)
    requires Compiles(s) && WellTyped(s, t, v) && GenStoreClass(s, t) == Some(inner)
    ensures RunStore(s, inner, v) == Written(Settled(s, t, v), Content(s, t, v))
    decreases v, 1, 0
  {
    if t.name.Vector? {
      StoreItems(s, t.children[0], v, inner.item, 0);
    } else if t.name.Custom? {
      var c := s(v.name).constructors[v.ctor];
      assert ClassCompiles(s, v.name) && c in s(v.name).constructors;
      AgreeAtFirst(c, v.fields, None);
      StoreLines(s, v, c, GenStore(s, c).value, 0, NoVars(c), NothingSet());
    }
  }

  lemma {:induction false} StoreItems(s: Schema, t: Tree, v: Value, cls: StoreClass, i: nat)
    requires Compiles(s) && v.VecV? && i <= |v.items| && WellTypedItems(s, t, v, i)
    requires t.TypeNode? && GenFullStoreClass(s, t) == Some(cls)
    ensures RunItems(s, cls, v, i) == Written(SettledItems(s, t, v, i), EncodeItems(s, t, v, i))
    decreases v, 0, |v.items| - i
  {
    if i < |v.items| {
      StoreCorrect(s, t, v.items[i], cls);
      StoreItems(s, t, v, cls, i + 1);
    }
  }

  /** An object of class c whose fields from i on are well-typed. */
  ghost predicate IsBody(s: Schema, v: Value, c: Combinator, i: nat) {
    && v.ObjV? && v.name.Custom? && HasConstructor(s, v.name, v.ctor) && c == s(v.name).constructors[v.ctor]
    && |v.fields| == |c.args| && i <= |v.fields| && WellTypedFields(s, v, i)
  }

  lemma StoreVarCorrect(s: Schema, v: Value, c: Combinator, i: nat, vars: Vars, env: Env)
    requires IsBody(s, v, c, i) && i < |c.args| && Agree(c, v.fields, i, vars, env, None)
    requires c.args[i].varNum >= 0 && IsPresent(c, v.fields, c.args[i])
    requires GenFieldStore(s, c.args, i, vars).Some?
    requires Test(env, GuardOf(c.args[i])) == Some(true)
    requires c.args[i].existVarNum >= 0 ==> Setter(c.args, c.args[i].existVarNum) < i
    ensures var k := c.args[i].varNum; var w := FlagWord(c, v.fields, k);
      RunLine(s, GenFieldStore(s, c.args, i, vars).value, v, env) == (Some(StoreInt(w)), Assign(env, k, w))
  {
    var k := c.args[i].varNum;
    SetterIsHere(c, v.fields, i, vars, env, None);
    WordOfSetter(c, v.fields, i, k);
    assert MaySet(vars, c.args[i]) && WellTyped(s, c.args[i].tree, v.fields[i]);
    OrAllIsWithFlags(c.args, v.fields, k, v.fields[i].word, 0);
    assert GenFullStoreClass(s, c.args[i].tree) == Some(StoreBinary);
  }

  /** One line writes one field and keeps the variables in step, unless it tests a variable
      that was never set or the field itself is not settled. */
  lemma {:induction false} StoreLineCorrect(s: Schema, v: Value, c: Combinator, i: nat, vars: Vars, env: Env)
    requires Compiles(s) && IsBody(s, v, c, i) && i < |c.args| && Agree(c, v.fields, i, vars, env, None)
    requires GenFieldStore(s, c.args, i, vars).Some?
    ensures var (bytes, after) := RunLine(s, GenFieldStore(s, c.args, i, vars).value, v, env);
      && bytes == Written(SettledField(s, v, i), EncodeField(s, v, i))
      && (SettledField(s, v, i) ==> Agree(c, v.fields, i + 1, AfterField(c.args[i], vars), after, None))
    decreases v, 0, |v.fields| - i, 0
  {
    var a := c.args[i];
    AgreeSets(c, v.fields, i, vars, env, None);
    if a.existVarNum >= 0 {
      GuardKnown(c, v.fields, i, vars, env, None);
    }
    if !IsFlag(a) && IsPresent(c, v.fields, a) && (a.existVarNum >= 0 ==> SetterPresent(c, v.fields, a.existVarNum)) {
      if a.varNum >= 0 {
        StoreVarCorrect(s, v, c, i, vars, env);
      } else {
        StoreCorrect(s, a.tree, v.fields[i], GenFullStoreClass(s, a.tree).value);
      }
    }
  }

  lemma {:induction false} StoreLines(s: Schema, v: Value, c: Combinator, lines: seq<StoreLine>, i: nat, vars: Vars, env: Env)
    requires Compiles(s) && IsBody(s, v, c, i) && |lines| == |c.args| && Agree(c, v.fields, i, vars, env, None)
    requires GenStoreFrom(s, c.args, i, vars) == Some(lines[i..])
    ensures RunLines(s, lines, i, v, env) == Written(SettledFields(s, v, i), EncodeFields(s, v, i))
    decreases v, 0, |v.fields| - i, 1
  {
    if i < |v.fields| {
      StoreLineCorrect(s, v, c, i, vars, env);
      var line := GenFieldStore(s, c.args, i, vars).value;
      assert lines[i..][0] == line && lines[i..][1..] == lines[i + 1..];
      var (_, after) := RunLine(s, line, v, env);
      if SettledField(s, v, i) {
        StoreLines(s, v, c, lines, i + 1, AfterField(c.args[i], vars), after);
      }
    }
  }
}
