/**
 Reading and writing again: the normal form that a reader returns is itself well-typed and
 is written with the same bytes, so what one program forwards is what it has received.
 */
module TlRewrite {
  import opened Bytes
  import opened TlBytes
  import opened TlSchema
  import opened TlWriter
  import opened TlRuntime
  import opened TlStoreProof
  import opened TlFetchProof

  predicate VarsAreNat(args: seq<Arg>) {
    forall a :: a in args && a.varNum >= 0 ==> a.tree.TypeNode? && a.tree.name == Nat
  }

  lemma {:induction false} EmittedVarsAreNat(s: Schema, args: seq<Arg>, i: nat, vars: Vars)
    requires i <= |args| && GenStoreFrom(s, args, i, vars).Some?
    ensures VarsAreNat(args[i..])
    decreases |args| - i
  {
    if i < |args| {
      EmittedVarsAreNat(s, args, i + 1, AfterField(args[i], vars));
      assert args[i..] == [args[i]] + args[i + 1..];
      assert GenFieldStore(s, args, i, vars).Some?;
    }
  }

  /** The parser leaves texts alone. */
  ghost predicate Faithful(clean: Clean) {
    forall x :: clean(x) == x
  }

  /** The field that sets variable k of a well-typed object holds a word if it is present. */
  lemma SetterHoldsWord(s: Schema, v: Value, c: Combinator, k: nat)
    requires IsBody(s, v, c, 0) && VarsAreNat(c.args) && SetterPresent(c, v.fields, k)
    ensures v.fields[Setter(c.args, k)].IntV?
  {
    var i := Setter(c.args, k);
    assert c.args[i] in c.args;
    FieldTyped(s, v, c, 0, i);
  }

  lemma {:induction false} FieldTyped(s: Schema, v: Value, c: Combinator, i: nat, k: nat)
    requires IsBody(s, v, c, i) && i <= k < |c.args|
    ensures WellTypedFields(s, v, k)
    ensures IsPresent(c, v.fields, c.args[k]) || IsFlag(c.args[k]) ==> WellTyped(s, c.args[k].tree, v.fields[k])
    decreases k - i
  {
    if i < k {
      FieldTyped(s, v, c, i + 1, k);
    }
  }

  lemma {:induction false} NormalLength(s: Schema, clean: Clean, v: Value, c: Combinator, i: nat)
    requires IsBody(s, v, c, i)
    ensures |NormalFields(s, clean, v, i)| == |c.args| - i
    decreases |c.args| - i
  {
    if i < |c.args| {
      NormalLength(s, clean, v, c, i + 1);
    }
  }

  lemma {:induction false} NormalAt(s: Schema, clean: Clean, v: Value, c: Combinator, i: nat, k: nat)
    requires IsBody(s, v, c, i) && i <= k < |c.args|
    ensures WellTypedFields(s, v, k) && k - i < |NormalFields(s, clean, v, i)|
    ensures NormalFields(s, clean, v, i)[k - i] == NormalField(s, clean, v, k)
    decreases k - i
  {
    if i < k {
      NormalAt(s, clean, v, c, i + 1, k);
      assert NormalFields(s, clean, v, i)[k - i] == NormalFields(s, clean, v, i + 1)[k - (i + 1)];
    }
  }

  /** Or-ing in bits that are set already changes nothing. */
  lemma {:induction false} FlagsKnown(args: seq<Arg>, fields: seq<Value>, k: nat, w: Word, i: nat)
    requires i <= |args| == |fields|
    requires forall j: nat :: i <= j < |args| && IsFlagOf(args[j], k) ==>
      fields[j] == BoolV(TestBit(w, args[j].existVarBit))
    ensures WithFlags(args, fields, k, w, i) == w
    decreases |args| - i
  {
    if i < |args| {
      if IsFlagOf(args[i], k) {
        SetBitKnown(w, args[i].existVarBit);
      }
      FlagsKnown(args, fields, k, w, i + 1);
    }
  }

  /** The word of a present field is in the normal form, with the bits of its True fields. */
  lemma WordInNormal(s: Schema, clean: Clean, v: Value, c: Combinator, k: nat, fields: seq<Value>)
    requires IsBody(s, v, c, 0) && VarsAreNat(c.args) && SetterPresent(c, v.fields, k)
    requires fields == NormalFields(s, clean, v, 0) && |fields| == |c.args|
    ensures var w := FlagWord(c, v.fields, k);
      fields[Setter(c.args, k)] == IntV(w) && WithFlags(c.args, fields, k, w, 0) == w
  {
    var w := FlagWord(c, v.fields, k);
    var i := Setter(c.args, k);
    NormalAt(s, clean, v, c, 0, i);
    forall j: nat | j < |c.args| && IsFlagOf(c.args[j], k)
      ensures fields[j] == BoolV(TestBit(w, c.args[j].existVarBit))
    {
      assert c.args[j] in c.args;
      NormalAt(s, clean, v, c, 0, j);
    }
    FlagsKnown(c.args, fields, k, w, 0);
  }

  /** The normal form carries the same words of flags. */
  lemma {:induction false} SameWords(s: Schema, clean: Clean, v: Value, c: Combinator, k: nat, fields: seq<Value>)
    requires IsBody(s, v, c, 0) && VarsAreNat(c.args)
    requires fields == NormalFields(s, clean, v, 0) && |fields| == |c.args|
    ensures FlagWord(c, fields, k) == FlagWord(c, v.fields, k)
    decreases Setter(c.args, k)
  {
    var i := Setter(c.args, k);
    if i < |c.args| {
      var a := c.args[i];
      if a.existVarNum >= 0 && Setter(c.args, a.existVarNum) < i {
        SameWords(s, clean, v, c, a.existVarNum, fields);
      }
      if SetterPresent(c, v.fields, k) {
        SetterHoldsWord(s, v, c, k);
        WordInNormal(s, clean, v, c, k, fields);
      }
    }
  }

  lemma SamePresence(s: Schema, clean: Clean, v: Value, c: Combinator, a: Arg, fields: seq<Value>)
    requires IsBody(s, v, c, 0) && VarsAreNat(c.args)
    requires fields == NormalFields(s, clean, v, 0) && |fields| == |c.args|
    ensures IsPresent(c, fields, a) <==> IsPresent(c, v.fields, a)
  {
    if a.existVarNum >= 0 {
      SameWords(s, clean, v, c, a.existVarNum, fields);
    }
  }

  lemma SameSetter(s: Schema, clean: Clean, v: Value, c: Combinator, k: nat, fields: seq<Value>)
    requires IsBody(s, v, c, 0) && VarsAreNat(c.args)
    requires fields == NormalFields(s, clean, v, 0) && |fields| == |c.args|
    ensures SetterPresent(c, fields, k) <==> SetterPresent(c, v.fields, k)
  {
    if Setter(c.args, k) < |c.args| {
      SamePresence(s, clean, v, c, c.args[Setter(c.args, k)], fields);
    }
  }

  /** Written again, the value that was read gives the bytes it was read from, and is settled
      exactly if the first one was. */
  lemma {:induction false} WritesTheSame(s: Schema, clean: Clean, t: Tree, v: Value)
    requires Sound(s) && Faithful(clean) && WellTyped(s, t, v)
    ensures WellTyped(s, t, Normal(s, clean, t, v))
    ensures Encode(s, t, Normal(s, clean, t, v)) == Encode(s, t, v)
    ensures Settled(s, t, Normal(s, clean, t, v)) <==> Settled(s, t, v)
    decreases v, 1, 0
  {
    match v {
      case VecV(items) =>
        ItemsLength(s, clean, t.children[0], v, 0);
        WritesSameItems(s, clean, t.children[0], v, NormalItems(s, clean, t.children[0], v, 0), 0);
      case ObjV(n, ctor, _) =>
        WritesSameObject(s, clean, v);
      case _ =>
    }
  }

  lemma {:induction false} ItemsLength(s: Schema, clean: Clean, t: Tree, v: Value, i: nat)
    requires v.VecV? && i <= |v.items| && WellTypedItems(s, t, v, i)
    ensures |NormalItems(s, clean, t, v, i)| == |v.items| - i
    decreases |v.items| - i
  {
    if i < |v.items| {
      ItemsLength(s, clean, t, v, i + 1);
    }
  }

  lemma {:induction false} WritesSameItems(s: Schema, clean: Clean, t: Tree, v: Value, items: seq<Value>, i: nat)
    requires Sound(s) && Faithful(clean) && v.VecV? && i <= |v.items| == |items| && WellTypedItems(s, t, v, i)
    requires items[i..] == NormalItems(s, clean, t, v, i)
    ensures WellTypedItems(s, t, VecV(items), i)
    ensures EncodeItems(s, t, VecV(items), i) == EncodeItems(s, t, v, i)
    ensures SettledItems(s, t, VecV(items), i) <==> SettledItems(s, t, v, i)
    decreases v, 0, |v.items| - i
  {
    if i < |v.items| {
      assert items[i] == items[i..][0] && items[i + 1..] == items[i..][1..];
      WritesTheSame(s, clean, t, v.items[i]);
      WritesSameItems(s, clean, t, v, items, i + 1);
    }
  }

  lemma {:induction false} WritesSameObject(s: Schema, clean: Clean, v: Value)
    requires Sound(s) && Faithful(clean) && v.ObjV? && v.name.Custom? && HasConstructor(s, v.name, v.ctor)
    requires |v.fields| == |s(v.name).constructors[v.ctor].args| && WellTypedFields(s, v, 0)
    ensures var u := ObjV(v.name, v.ctor, NormalFields(s, clean, v, 0));
      && |u.fields| == |v.fields| && WellTypedFields(s, u, 0)
      && EncodeFields(s, u, 0) == EncodeFields(s, v, 0)
      && (SettledFields(s, u, 0) <==> SettledFields(s, v, 0))
    decreases v, 0, |v.fields| + 1
  {
    var c := s(v.name).constructors[v.ctor];
    SoundClass(s, v.name, c);
    EmittedVarsAreNat(s, c.args, 0, NoVars(c));
    assert c.args[0..] == c.args;
    NormalLength(s, clean, v, c, 0);
    WritesSameFields(s, clean, v, c, NormalFields(s, clean, v, 0), 0);
  }

  lemma {:induction false} WritesSameField(s: Schema, clean: Clean, v: Value, c: Combinator, fields: seq<Value>, i: nat)
    requires Sound(s) && Faithful(clean) && IsBody(s, v, c, 0) && i < |c.args| && WellTypedFields(s, v, i)
    requires VarsAreNat(c.args) && fields == NormalFields(s, clean, v, 0) && |fields| == |c.args|
    ensures IsPresent(c, fields, c.args[i]) || IsFlag(c.args[i]) ==> WellTyped(s, c.args[i].tree, fields[i])
    ensures IsPresent(c, fields, c.args[i]) ==> WellTyped(s, c.args[i].tree, v.fields[i])
    ensures var a := c.args[i];
      !IsFlag(a) && IsPresent(c, fields, a) && a.varNum < 0 ==>
        && Encode(s, a.tree, fields[i]) == Encode(s, a.tree, v.fields[i])
        && (Settled(s, a.tree, fields[i]) <==> Settled(s, a.tree, v.fields[i]))
    decreases v, 0, |v.fields| - i, 0
  {
    var a := c.args[i];
    assert a in c.args;
    NormalAt(s, clean, v, c, 0, i);
    SamePresence(s, clean, v, c, a, fields);
    if !IsFlag(a) && IsPresent(c, fields, a) && a.varNum < 0 {
      WritesTheSame(s, clean, a.tree, v.fields[i]);
    }
  }

  lemma {:induction false} WritesSameFields(s: Schema, clean: Clean, v: Value, c: Combinator, fields: seq<Value>, i: nat)
    requires Sound(s) && Faithful(clean) && IsBody(s, v, c, 0) && i <= |c.args| && WellTypedFields(s, v, i)
    requires VarsAreNat(c.args) && fields == NormalFields(s, clean, v, 0) && |fields| == |c.args|
    ensures WellTypedFields(s, ObjV(v.name, v.ctor, fields), i)
    ensures EncodeFields(s, ObjV(v.name, v.ctor, fields), i) == EncodeFields(s, v, i)
    ensures SettledFields(s, ObjV(v.name, v.ctor, fields), i) <==> SettledFields(s, v, i)
    decreases v, 0, |v.fields| - i, 1
  {
    if i < |c.args| {
      var a := c.args[i];
      WritesSameField(s, clean, v, c, fields, i);
      SamePresence(s, clean, v, c, a, fields);
      if a.varNum >= 0 {
        SameWords(s, clean, v, c, a.varNum, fields);
      }
      if a.existVarNum >= 0 {
        SameSetter(s, clean, v, c, a.existVarNum, fields);
      }
      WritesSameFields(s, clean, v, c, fields, i + 1);
    }
  }
}
