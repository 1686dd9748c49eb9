/**
 The generator of C++ readers and writers (tl_writer_cpp.cpp, driven by
 tl_generate.cpp). What it emits is kept as small syntax trees instead of text; an
 assertion of the generator that fails is the result None.
 */
module TlWriter {
  import opened Bytes
  import opened Wrappers
  import opened TlBytes
  import opened TlSchema

  /** The classes of td/tl/tl_object_parse.h. There is no class TlFetchTrue: code that names
      it does not compile. */
  datatype FetchClass =
    | FetchInt
    | FetchRaw(name: TypeName)
    | FetchBool
    | FetchTrue
    | FetchText
    | FetchBytes
    | FetchVector(item: FetchClass)
    | FetchObject(name: TypeName)
    | FetchBoxed(inner: FetchClass, id: Word)

  /** The classes of td/tl/tl_object_store.h. */
  datatype StoreClass =
    | StoreBinary
    | StoreBool
    | StoreText
    | StoreVector(item: StoreClass)
    | StoreObject
    | StoreBoxed(inner: StoreClass, id: Word)
    | StoreBoxedUnknown(inner: StoreClass)

  // ---- gen_fetch_class_name, gen_full_fetch_class_name ----

  function GenFetchClass(s: Schema, t: Tree): Option<FetchClass>
    requires t.TypeNode?
    decreases t, 0
  {
    var n := t.name;
    if IsWord(n) then Some(FetchInt)
    else if IsRaw(n) then Some(FetchRaw(n))
    else if n.True? then Some(FetchTrue)
    else if n.Bool? then Some(FetchBool)
    else if IsText(n) then Some(FetchText)
    else if IsBytes(n) then Some(FetchBytes)
    else if n.Vector? then
      if s(n).arity != 1 || |t.children| != 1 || !t.children[0].TypeNode? then None
      else
        match GenFullFetchClass(s, t.children[0])
        case Some(item) => Some(FetchVector(item))
        case None => None
    else if t.children != [] then None
    else Some(FetchObject(n))
  }

  /** The number of the one constructor that counts, 0 if there is none, and an error if
      there are two or its number is 0. */
  function ExpectedId(n: TypeName, constructors: seq<Combinator>): Option<Word> {
    if constructors == [] then Some(0)
    else
      var id, rest := constructors[0].id, ExpectedId(n, constructors[1..]);
      if !n.Vector? && !IsSupported(constructors[0]) then rest
      else if id != 0 && rest == Some(0) then Some(id)
      else None
  }

  function GenFullFetchClass(s: Schema, t: Tree): Option<FetchClass>
    requires t.TypeNode?
    decreases t, 1
  {
    var n := t.name;
    if s(n).defaultConstructor || (t.bare && !IsTypeBare(s, n)) then None
    else
      var expected := if !t.bare && IsTypeBare(s, n) then ExpectedId(n, s(n).constructors) else Some(0);
      match (GenFetchClass(s, t), expected)
      case (Some(inner), Some(id)) => Some(if id == 0 then inner else FetchBoxed(inner, id))
      case _ => None
  }

  // ---- gen_store_class_name, gen_full_store_class_name ----

  function GenStoreClass(s: Schema, t: Tree): Option<StoreClass>
    requires t.TypeNode?
    decreases t, 0
  {
    var n := t.name;
    if IsWord(n) || IsRaw(n) then Some(StoreBinary)
    else if n.Bool? then Some(StoreBool)
    else if n.True? then None
    else if IsText(n) || IsBytes(n) then Some(StoreText)
    else if n.Vector? then
      if s(n).arity != 1 || |t.children| != 1 || !t.children[0].TypeNode? then None
      else
        match GenFullStoreClass(s, t.children[0])
        case Some(item) => Some(StoreVector(item))
        case None => None
    else if t.children != [] then None
    else Some(StoreObject)
  }

  function GenFullStoreClass(s: Schema, t: Tree): Option<StoreClass>
    requires t.TypeNode?
    decreases t, 1
  {
    var n := t.name;
    var constructors := s(n).constructors;
    if s(n).defaultConstructor then None
    else
      match GenStoreClass(s, t)
      case None => None
      case Some(inner) =>
        if t.bare || n.Nat? || n.Bool? then Some(inner)
        else if n.Vector? then
          if constructors == [] then None else Some(StoreBoxed(inner, constructors[0].id))
        else if !IsTypeBare(s, n) then Some(StoreBoxedUnknown(inner))
        else if FirstIn(constructors) < |constructors| then
          Some(StoreBoxed(inner, constructors[FirstIn(constructors)].id))
        else None
  }

  // ---- gen_field_fetch, gen_field_store ----

  /** A test `var & (1 << bit)`, or none. */
  datatype Guard = Always | IfBit(k: nat, bit: Bit)

  /** One line of a generated fetch. A line that sets a variable fails on negative values. */
  datatype FetchLine =
    | FetchFlag(field: nat, k: nat, bit: Bit)
    | FetchVar(guard: Guard, k: nat, field: nat, cls: FetchClass)
    | FetchField(guard: Guard, field: nat, cls: FetchClass)

  /** One line of a generated store; `ors` are the fields or-ed into a variable, with their bits. */
  datatype StoreLine =
    | StoreNothing
    | StoreVar(guard: Guard, k: nat, field: nat, ors: seq<(nat, Bit)>, cls: StoreClass)
    | StoreField(guard: Guard, field: nat, cls: StoreClass)

  function GuardOf(a: Arg): Guard {
    if a.existVarNum >= 0 then IfBit(a.existVarNum, a.existVarBit) else Always
  }

  /** Each variable is either set by an earlier line or still to be set. */
  type Vars = seq<bool>

  predicate SetBefore(vars: Vars, k: int) {
    0 <= k < |vars| && vars[k]
  }

  predicate MaySet(vars: Vars, a: Arg) {
    0 <= a.varNum < |vars| && !vars[a.varNum] && a.tree.TypeNode? && a.tree.name == Nat
  }

  function GenFieldFetch(s: Schema, a: Arg, i: nat, vars: Vars): Option<FetchLine> {
    if !a.tree.TypeNode? || a.excl || a.optVar then None
    else if a.existVarNum != -1 && !SetBefore(vars, a.existVarNum) then None
    else if a.existVarNum != -1 && a.varNum == -1 && a.tree.bare && a.tree.name == True then
      if IsTypeBare(s, True) then Some(FetchFlag(i, a.existVarNum, a.existVarBit)) else None
    else
      match GenFullFetchClass(s, a.tree)
      case None => None
      case Some(cls) =>
        if a.varNum < 0 then Some(FetchField(GuardOf(a), i, cls))
        else if MaySet(vars, a) then Some(FetchVar(GuardOf(a), a.varNum, i, cls))
        else None
  }

  function FlagFields(args: seq<Arg>, k: nat, i: nat): seq<(nat, Bit)>
    requires i <= |args|
    decreases |args| - i
  {
    if i == |args| then []
    else (if IsFlagOf(args[i], k) then [(i, args[i].existVarBit)] else []) + FlagFields(args, k, i + 1)
  }

  function GenFieldStore(s: Schema, args: seq<Arg>, i: nat, vars: Vars): Option<StoreLine>
    requires i < |args|
  {
    var a := args[i];
    if !a.tree.TypeNode? || a.excl || a.optVar then None
    else if a.existVarNum >= 0 && !SetBefore(vars, a.existVarNum) then None
    else if a.existVarNum >= 0 && a.varNum == -1 && a.tree.name == True then Some(StoreNothing)
    else
      match GenFullStoreClass(s, a.tree)
      case None => None
      case Some(cls) =>
        if a.varNum < 0 then Some(StoreField(GuardOf(a), i, cls))
        else if MaySet(vars, a) then Some(StoreVar(GuardOf(a), a.varNum, i, FlagFields(args, a.varNum, 0), cls))
        else None
  }

  // ---- write_constructor_fetch, write_constructor_store ----

  function AfterField(a: Arg, vars: Vars): Vars {
    if 0 <= a.varNum < |vars| then vars[a.varNum := true] else vars
  }

  /** The lines for the fields from i on; at the end every variable must have been set. */
  function GenFetchFrom(s: Schema, args: seq<Arg>, i: nat, vars: Vars): (r: Option<seq<FetchLine>>)
    requires i <= |args|
    ensures r.Some? ==> |r.value| == |args| - i
    decreases |args| - i
  {
    if i == |args| then (if forall b :: b in vars ==> b then Some([]) else None)
    else
      match GenFieldFetch(s, args[i], i, vars)
      case None => None
      case Some(line) =>
        match GenFetchFrom(s, args, i + 1, AfterField(args[i], vars))
        case None => None
        case Some(lines) => Some([line] + lines)
  }

  function GenStoreFrom(s: Schema, args: seq<Arg>, i: nat, vars: Vars): (r: Option<seq<StoreLine>>)
    requires i <= |args|
    ensures r.Some? ==> |r.value| == |args| - i
    decreases |args| - i
  {
    if i == |args| then (if forall b :: b in vars ==> b then Some([]) else None)
    else
      match GenFieldStore(s, args, i, vars)
      case None => None
      case Some(line) =>
        match GenStoreFrom(s, args, i + 1, AfterField(args[i], vars))
        case None => None
        case Some(lines) => Some([line] + lines)
  }

  function NoVars(c: Combinator): Vars {
    seq(c.varCount, i => false)
  }

  function GenFetch(s: Schema, c: Combinator): Option<seq<FetchLine>> {
    GenFetchFrom(s, c.args, 0, NoVars(c))
  }

  function GenStore(s: Schema, c: Combinator): Option<seq<StoreLine>> {
    GenStoreFrom(s, c.args, 0, NoVars(c))
  }
}
