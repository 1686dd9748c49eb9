/**
 Type language schemas and the values they describe (tl_core.h), and what the binary
 serialization of a value is according to the TL document: boxed types carry the number
 of their constructor, bare types do not, optional fields depend on a word of flags.
 */
module TlSchema {
  import opened Bytes
  import opened TlBytes

  /** The types the writers know by name, and all others. */
  datatype TypeName =
    | Nat | True | Bool | Int | Int32 | Long | Int53 | Int64 | Double | Int128 | Int256 | Int512
    | String | Bytes | SecureString | SecureBytes | Vector
    | Custom(name: string)

  /** A node of a type tree: a type, bare or boxed, or one of the nodes that the generators
      refuse inside a supported combinator. */
  datatype Tree =
    | TypeNode(bare: bool, name: TypeName, children: seq<Tree>)
    | NatConst(num: int)
    | VarType(varNum: int)
    | VarNum(varNum: int, diff: int)
    | Array

  /** The number of a variable, or -1 for none. */
  type VarRef = k: int | -1 <= k witness -1

  /** A field: `varNum` is the variable it sets, or -1, and it exists if bit `existVarBit`
      of the variable `existVarNum` is set, or always if that is -1. */
  datatype Arg = Arg(name: string, excl: bool, optVar: bool, varNum: VarRef,
                     existVarNum: VarRef, existVarBit: Bit, tree: Tree)

  datatype Combinator = Combinator(id: Word, varCount: nat, args: seq<Arg>, simple: bool)

  datatype TypeDecl = TypeDecl(arity: int, defaultConstructor: bool, constructors: seq<Combinator>)

  /** The declarations of all types; a type that is not declared has no constructors. */
  type Schema = TypeName -> TypeDecl

  // ---- bare and boxed ----

  predicate IsBuiltInSimple(n: TypeName) {
    !n.Nat? && !n.Vector? && !n.Custom?
  }

  /** No field of the combinator has a type variable for its type. */
  predicate IsSupported(c: Combinator) {
    c.simple && forall a :: a in c.args ==> !a.tree.VarType?
  }

  function SupportedCount(constructors: seq<Combinator>): nat {
    if constructors == [] then 0
    else (if IsSupported(constructors[0]) then 1 else 0) + SupportedCount(constructors[1..])
  }

  /** Bare types need no number to choose between constructors. */
  predicate IsTypeBare(s: Schema, n: TypeName) {
    || SupportedCount(s(n).constructors) <= 1
    || (IsBuiltInSimple(n) && !n.Bool?)
    || n.Vector?
  }

  // ---- values ----

  /** The values of the generated classes; the pointer to an object may be null. */
  datatype Value =
    | IntV(word: Word)
    | RawV(raw: seq<Byte>)
    | BoolV(on: bool)
    | StrV(text: seq<Byte>)
    | VecV(items: seq<Value>)
    | ObjV(name: TypeName, ctor: nat, fields: seq<Value>)
    | Null

  /** The bytes of a number that is copied as it is. */
  function RawSize(n: TypeName): nat {
    match n
    case Double => 8
    case Int128 => 16
    case Int256 => 32
    case Int512 => 64
    case _ => 8
  }

  predicate IsWord(n: TypeName) {
    n.Nat? || n.Int? || n.Int32?
  }

  predicate IsRaw(n: TypeName) {
    n.Long? || n.Int53? || n.Int64? || n.Double? || n.Int128? || n.Int256? || n.Int512?
  }

  predicate IsText(n: TypeName) {
    n.String? || n.SecureString?
  }

  predicate IsBytes(n: TypeName) {
    n.Bytes? || n.SecureBytes?
  }

  /** What a field holds before anything is fetched into it. */
  function Default(t: Tree): Value {
    match t
    case TypeNode(_, n, _) =>
      if IsWord(n) then IntV(0)
      else if IsRaw(n) then RawV(Zeros(RawSize(n)))
      else if n.Bool? || n.True? then BoolV(false)
      else if n.Vector? then VecV([])
      else if n.Custom? then Null
      else StrV([])
    case _ => Null
  }

  // ---- flags ----

  /** The field that sets a variable. */
  function Setter(args: seq<Arg>, k: nat): (i: nat)
    ensures i < |args| ==> args[i].varNum == k
    ensures i <= |args| && forall j :: 0 <= j < i ==> args[j].varNum != k
  {
    if args == [] then 0 else if args[0].varNum == k then 0 else 1 + Setter(args[1..], k)
  }

  /** A field of type True that lives in a bit of variable k. */
  predicate IsFlagOf(a: Arg, k: int) {
    a.existVarNum == k && a.tree.TypeNode? && a.tree.name == True && !a.optVar
  }

  /** The word with the bits of all fields of type True from i on. */
  function WithFlags(args: seq<Arg>, fields: seq<Value>, k: nat, w: Word, i: nat): Word
    requires i <= |args|
    decreases |args| - i
  {
    if i == |args| then w
    else if IsFlagOf(args[i], k) then
      var on := i < |fields| && fields[i] == BoolV(true);
      WithFlags(args, fields, k, SetWordBit(w, args[i].existVarBit, on), i + 1)
    else WithFlags(args, fields, k, w, i + 1)
  }

  /** What variable k stands for: its own field and the fields of type True together, or 0 if
      that field is absent; what makes it present must have been set before it. */
  function FlagWord(c: Combinator, fields: seq<Value>, k: nat): Word
    decreases Setter(c.args, k)
  {
    var i := Setter(c.args, k);
    if i >= |c.args| || i >= |fields| || !fields[i].IntV? then 0
    else
      var a := c.args[i];
      if a.existVarNum < 0
         || (Setter(c.args, a.existVarNum) < i && TestBit(FlagWord(c, fields, a.existVarNum), a.existVarBit))
      then WithFlags(c.args, fields, k, fields[i].word, 0)
      else 0
  }

  predicate IsPresent(c: Combinator, fields: seq<Value>, a: Arg) {
    a.existVarNum < 0 || TestBit(FlagWord(c, fields, a.existVarNum), a.existVarBit)
  }

  /** The field that sets variable k is there. */
  predicate SetterPresent(c: Combinator, fields: seq<Value>, k: nat) {
    var i := Setter(c.args, k);
    i < |c.args| && IsPresent(c, fields, c.args[i])
  }

  /** A field that occupies no bytes: it is all in its bit. */
  predicate IsFlag(a: Arg) {
    a.varNum == -1 && a.existVarNum >= 0 && IsFlagOf(a, a.existVarNum)
  }

  // ---- well-typed values, and what is written for them ----

  predicate HasConstructor(s: Schema, n: TypeName, ctor: nat) {
    ctor < |s(n).constructors| && IsSupported(s(n).constructors[ctor])
  }

  /** The values that C++ types allow and that the generated code can store: no null
      pointers where an object is due, no string of 2^32 bytes, no vector of 2^31 items. */
  predicate WellTyped(s: Schema, t: Tree, v: Value)
    decreases v, 1, 0
  {
    && t.TypeNode?
    && var n := t.name;
       if IsWord(n) then v.IntV?
       else if IsRaw(n) then v.RawV? && |v.raw| == RawSize(n)
       else if n.Bool? || n.True? then v.BoolV?
       else if n.Vector? then
         v.VecV? && |v.items| < SIGN && |t.children| == 1 && WellTypedItems(s, t.children[0], v, 0)
       else if n.Custom? then
         && v.ObjV? && v.name == n && HasConstructor(s, n, v.ctor)
         && |v.fields| == |s(n).constructors[v.ctor].args| && WellTypedFields(s, v, 0)
       else v.StrV? && StringFits(|v.text|)
  }

  predicate WellTypedItems(s: Schema, t: Tree, v: Value, i: nat)
    requires v.VecV? && i <= |v.items|
    decreases v, 0, |v.items| - i
  {
    i == |v.items| || (WellTyped(s, t, v.items[i]) && WellTypedItems(s, t, v, i + 1))
  }

  predicate WellTypedFields(s: Schema, v: Value, i: nat)
    requires v.ObjV? && HasConstructor(s, v.name, v.ctor)
    requires |v.fields| == |s(v.name).constructors[v.ctor].args| && i <= |v.fields|
    decreases v, 0, |v.fields| - i
  {
    var c := s(v.name).constructors[v.ctor];
    || i == |v.fields|
    || (&& (IsPresent(c, v.fields, c.args[i]) || IsFlag(c.args[i]) ==> WellTyped(s, c.args[i].tree, v.fields[i]))
        && WellTypedFields(s, v, i + 1))
  }

  /** The constructor number in front of a value. */
  function Box(s: Schema, t: Tree, v: Value): seq<Byte>
    requires t.TypeNode?
  {
    if t.bare || t.name.Nat? || t.name.Bool? then []
    else if t.name.Custom? && v.ObjV? && v.ctor < |s(t.name).constructors| then StoreInt(s(t.name).constructors[v.ctor].id)
    else if FirstSupported(s, t.name) < |s(t.name).constructors| then
      StoreInt(s(t.name).constructors[FirstSupported(s, t.name)].id)
    else []
  }

  function FirstSupported(s: Schema, n: TypeName): nat {
    if n.Vector? then 0 else FirstIn(s(n).constructors)
  }

  function FirstIn(constructors: seq<Combinator>): (i: nat)
    ensures i <= |constructors|
    ensures i < |constructors| ==> IsSupported(constructors[i])
    ensures forall j :: 0 <= j < i ==> !IsSupported(constructors[j])
  {
    if constructors == [] || IsSupported(constructors[0]) then 0 else 1 + FirstIn(constructors[1..])
  }

  lemma {:induction false} FirstExists(constructors: seq<Combinator>)
    ensures FirstIn(constructors) < |constructors| <==> SupportedCount(constructors) > 0
  {
    if constructors != [] && !IsSupported(constructors[0]) {
      FirstExists(constructors[1..]);
    }
  }

  /** The only supported constructor of a type is its first. */
  lemma {:induction false} OnlyIsFirst(constructors: seq<Combinator>, i: nat)
    requires SupportedCount(constructors) <= 1 && i < |constructors| && IsSupported(constructors[i])
    ensures i == FirstIn(constructors) && SupportedCount(constructors) == 1
  {
    if IsSupported(constructors[0]) {
      FirstExists(constructors[1..]);
      assert forall j :: 1 <= j < |constructors| ==> constructors[j] == constructors[1..][j - 1];
    } else {
      OnlyIsFirst(constructors[1..], i - 1);
    }
  }

  const BOOL_FALSE: Word := 0xbc799737
  const BOOL_TRUE: Word := 0x997275b5

  /** The binary serialization of a value of type t. */
  function Encode(s: Schema, t: Tree, v: Value): seq<Byte>
    requires WellTyped(s, t, v)
    decreases v, 1, 1
  {
    Box(s, t, v) + Content(s, t, v)
  }

  function Content(s: Schema, t: Tree, v: Value): seq<Byte>
    requires WellTyped(s, t, v)
    decreases v, 1, 0
  {
    match v
    case IntV(w) => StoreInt(w)
    case RawV(raw) => raw
    case BoolV(on) => if t.name.Bool? then StoreInt(if on then BOOL_TRUE else BOOL_FALSE) else []
    case StrV(text) => StoreString(text)
    case VecV(items) => StoreInt(|items|) + EncodeItems(s, t.children[0], v, 0)
    case ObjV(_, _, _) => EncodeFields(s, v, 0)
  }

  function EncodeItems(s: Schema, t: Tree, v: Value, i: nat): seq<Byte>
    requires v.VecV? && i <= |v.items| && WellTypedItems(s, t, v, i)
    decreases v, 0, |v.items| - i
  {
    if i == |v.items| then [] else Encode(s, t, v.items[i]) + EncodeItems(s, t, v, i + 1)
  }

  function EncodeField(s: Schema, v: Value, i: nat): seq<Byte>
    requires v.ObjV? && HasConstructor(s, v.name, v.ctor)
    requires |v.fields| == |s(v.name).constructors[v.ctor].args| && i < |v.fields| && WellTypedFields(s, v, i)
    decreases v, 0, |v.fields| - i, 0
  {
    var c := s(v.name).constructors[v.ctor];
    var a := c.args[i];
    if IsFlag(a) || !IsPresent(c, v.fields, a) then []
    else if a.varNum >= 0 then StoreInt(FlagWord(c, v.fields, a.varNum))
    else Encode(s, a.tree, v.fields[i])
  }

  function EncodeFields(s: Schema, v: Value, i: nat): seq<Byte>
    requires v.ObjV? && HasConstructor(s, v.name, v.ctor)
    requires |v.fields| == |s(v.name).constructors[v.ctor].args| && i <= |v.fields| && WellTypedFields(s, v, i)
    decreases v, 0, |v.fields| - i, 1
  {
    if i == |v.fields| then [] else EncodeField(s, v, i) + EncodeFields(s, v, i + 1)
  }

  // ---- values whose variables are all set when they are tested ----

  /** In every object that is stored, each field that a bit of a variable guards, and that is
      not itself only a bit, has its variable set: the field of that variable is present. */
  predicate Settled(s: Schema, t: Tree, v: Value)
    requires WellTyped(s, t, v)
    decreases v, 1, 0
  {
    match v
    case VecV(_) => SettledItems(s, t.children[0], v, 0)
    case ObjV(_, _, _) => SettledFields(s, v, 0)
    case _ => true
  }

  predicate SettledItems(s: Schema, t: Tree, v: Value, i: nat)
    requires v.VecV? && i <= |v.items| && WellTypedItems(s, t, v, i)
    decreases v, 0, |v.items| - i
  {
    i == |v.items| || (Settled(s, t, v.items[i]) && SettledItems(s, t, v, i + 1))
  }

  predicate SettledField(s: Schema, v: Value, i: nat)
    requires v.ObjV? && HasConstructor(s, v.name, v.ctor)
    requires |v.fields| == |s(v.name).constructors[v.ctor].args| && i < |v.fields| && WellTypedFields(s, v, i)
    decreases v, 0, |v.fields| - i, 0
  {
    var c := s(v.name).constructors[v.ctor];
    var a := c.args[i];
    || IsFlag(a)
    || (&& (a.existVarNum >= 0 ==> SetterPresent(c, v.fields, a.existVarNum))
        && (IsPresent(c, v.fields, a) && a.varNum < 0 ==> Settled(s, a.tree, v.fields[i])))
  }

  predicate SettledFields(s: Schema, v: Value, i: nat)
    requires v.ObjV? && HasConstructor(s, v.name, v.ctor)
    requires |v.fields| == |s(v.name).constructors[v.ctor].args| && i <= |v.fields| && WellTypedFields(s, v, i)
    decreases v, 0, |v.fields| - i, 1
  {
    i == |v.fields| || (SettledField(s, v, i) && SettledFields(s, v, i + 1))
  }

  // ---- what comes back ----

  /** The value a reader gets: bits of flags both ways, defaults for absent fields, and
      texts as the parser cleans them. */
  function Normal(s: Schema, clean: seq<Byte> -> seq<Byte>, t: Tree, v: Value): Value
    requires WellTyped(s, t, v)
    decreases v, 1, 0
  {
    match v
    case StrV(text) => if IsText(t.name) then StrV(clean(text)) else v
    case VecV(items) => VecV(NormalItems(s, clean, t.children[0], v, 0))
    case ObjV(n, ctor, _) => ObjV(n, ctor, NormalFields(s, clean, v, 0))
    case _ => v
  }

  function NormalItems(s: Schema, clean: seq<Byte> -> seq<Byte>, t: Tree, v: Value, i: nat): seq<Value>
    requires v.VecV? && i <= |v.items| && WellTypedItems(s, t, v, i)
    decreases v, 0, |v.items| - i
  {
    if i == |v.items| then [] else [Normal(s, clean, t, v.items[i])] + NormalItems(s, clean, t, v, i + 1)
  }

  function NormalField(s: Schema, clean: seq<Byte> -> seq<Byte>, v: Value, i: nat): Value
    requires v.ObjV? && HasConstructor(s, v.name, v.ctor)
    requires |v.fields| == |s(v.name).constructors[v.ctor].args| && i < |v.fields| && WellTypedFields(s, v, i)
    decreases v, 0, |v.fields| - i, 0
  {
    var c := s(v.name).constructors[v.ctor];
    var a := c.args[i];
    if IsFlag(a) then BoolV(IsPresent(c, v.fields, a))
    else if !IsPresent(c, v.fields, a) then Default(a.tree)
    else if a.varNum >= 0 then IntV(FlagWord(c, v.fields, a.varNum))
    else Normal(s, clean, a.tree, v.fields[i])
  }

  function NormalFields(s: Schema, clean: seq<Byte> -> seq<Byte>, v: Value, i: nat): seq<Value>
    requires v.ObjV? && HasConstructor(s, v.name, v.ctor)
    requires |v.fields| == |s(v.name).constructors[v.ctor].args| && i <= |v.fields| && WellTypedFields(s, v, i)
    decreases v, 0, |v.fields| - i, 1
  {
    if i == |v.fields| then [] else [NormalField(s, clean, v, i)] + NormalFields(s, clean, v, i + 1)
  }

  /** The reader takes the value, with `after` bytes behind it: no word of flags is negative
      as a signed number, and no vector has more items than there are bytes left. */
  predicate Accepts(s: Schema, t: Tree, v: Value, after: nat)
    requires WellTyped(s, t, v)
    decreases v, 1, 0
  {
    match v
    case VecV(items) =>
      |items| <= |EncodeItems(s, t.children[0], v, 0)| + after && AcceptsItems(s, t.children[0], v, after, 0)
    case ObjV(_, _, _) => AcceptsFields(s, v, after, 0)
    case _ => true
  }

  predicate AcceptsItems(s: Schema, t: Tree, v: Value, after: nat, i: nat)
    requires v.VecV? && i <= |v.items| && WellTypedItems(s, t, v, i)
    decreases v, 0, |v.items| - i
  {
    || i == |v.items|
    || (&& Accepts(s, t, v.items[i], |EncodeItems(s, t, v, i + 1)| + after)
        && AcceptsItems(s, t, v, after, i + 1))
  }

  predicate AcceptsField(s: Schema, v: Value, after: nat, i: nat)
    requires v.ObjV? && HasConstructor(s, v.name, v.ctor)
    requires |v.fields| == |s(v.name).constructors[v.ctor].args| && i < |v.fields| && WellTypedFields(s, v, i)
    decreases v, 0, |v.fields| - i, 0
  {
    var c := s(v.name).constructors[v.ctor];
    var a := c.args[i];
    if IsFlag(a) || !IsPresent(c, v.fields, a) then true
    else if a.varNum >= 0 then FlagWord(c, v.fields, a.varNum) < SIGN
    else Accepts(s, a.tree, v.fields[i], after)
  }

  predicate AcceptsFields(s: Schema, v: Value, after: nat, i: nat)
    requires v.ObjV? && HasConstructor(s, v.name, v.ctor)
    requires |v.fields| == |s(v.name).constructors[v.ctor].args| && i <= |v.fields| && WellTypedFields(s, v, i)
    decreases v, 0, |v.fields| - i, 1
  {
    || i == |v.fields|
    || (AcceptsField(s, v, |EncodeFields(s, v, i + 1)| + after, i) && AcceptsFields(s, v, after, i + 1))
  }

  function Parts(v: Value): seq<Value> {
    if v.VecV? then v.items else if v.ObjV? then v.fields else []
  }

  /** How deep objects are nested in a value. */
  function Depth(v: Value): nat
    decreases v, 1, 0
  {
    (if v.ObjV? then 1 else 0) + DepthFrom(v, 0)
  }

  function DepthFrom(v: Value, i: nat): nat
    requires i <= |Parts(v)|
    decreases v, 0, |Parts(v)| - i
  {
    if i == |Parts(v)| then 0
    else
      var d, e := Depth(Parts(v)[i]), DepthFrom(v, i + 1);
      if d > e then d else e
  }
}
