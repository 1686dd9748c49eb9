/**
 What the generated code does: the classes of tl_object_store.h and tl_object_parse.h,
 and the bodies of the generated methods store and fetch, line by line.
 */
module TlRuntime {
  import opened Wrappers
  import opened Bytes
  import opened TlBytes
  import opened TlSchema
  import opened TlWriter

  // ---- store ----

  function Then(a: Option<seq<Byte>>, b: Option<seq<Byte>>): Option<seq<Byte>> {
    if a.Some? && b.Some? then Some(a.value + b.value) else None
  }

  function OrAll(fields: seq<Value>, ors: seq<(nat, Bit)>, w: Word): Word {
    if ors == [] then w
    else
      var on := ors[0].0 < |fields| && fields[ors[0].0] == BoolV(true);
      OrAll(fields, ors[1..], SetWordBit(w, ors[0].1, on))
  }

  /** The local variables of a generated method; None is a variable that was never set. */
  type Env = nat -> Option<Word>

  function NothingSet(): Env {
    k => None
  }

  /** The outcome of a test; a variable that was never set has no value to test. */
  function Test(env: Env, g: Guard): Option<bool> {
    match g
    case Always => Some(true)
    case IfBit(k, bit) => (match env(k) case Some(w) => Some(TestBit(w, bit)) case None => None)
  }

  function Assign(env: Env, k: nat, w: Word): Env {
    (j: nat) => if j == k then Some(w) else env(j)
  }

  /** The bytes written for v, or None if there is no saying what is written: on a null
      pointer, on a string or a vector that is too big, on a variable that was never set. */
  function RunStore(s: Schema, cls: StoreClass, v: Value): Option<seq<Byte>>
    decreases v, 1, cls, 0
  {
    match cls
    case StoreBinary =>
      if v.IntV? then Some(StoreInt(v.word)) else if v.RawV? then Some(v.raw) else None
    case StoreBool =>
      if v.BoolV? then Some(StoreInt(if v.on then BOOL_TRUE else BOOL_FALSE)) else None
    case StoreText =>
      if v.StrV? && StringFits(|v.text|) then Some(StoreString(v.text)) else None
    case StoreVector(item) =>
      if v.VecV? && |v.items| < SIGN then Then(Some(StoreInt(|v.items|)), RunItems(s, item, v, 0)) else None
    case StoreBoxed(inner, id) => Then(Some(StoreInt(id)), RunStore(s, inner, v))
    case StoreBoxedUnknown(inner) =>
      if v.ObjV? && v.ctor < |s(v.name).constructors| then
        Then(Some(StoreInt(s(v.name).constructors[v.ctor].id)), RunStore(s, inner, v))
      else None
    case StoreObject =>
      if v.ObjV? && HasConstructor(s, v.name, v.ctor) then
        match GenStore(s, s(v.name).constructors[v.ctor])
        case Some(lines) => RunLines(s, lines, 0, v, NothingSet())
        case None => None
      else None
  }

  function RunItems(s: Schema, cls: StoreClass, v: Value, i: nat): Option<seq<Byte>>
    requires v.VecV? && i <= |v.items|
    decreases v, 0, |v.items| - i
  {
    if i == |v.items| then Some([])
    else Then(RunStore(s, cls, v.items[i]), RunItems(s, cls, v, i + 1))
  }

  function RunLine(s: Schema, line: StoreLine, v: Value, env: Env): (Option<seq<Byte>>, Env)
    requires v.ObjV?
    decreases v, 0, 0, 0
  {
    match line
    case StoreNothing => (Some([]), env)
    case StoreVar(guard, k, field, ors, cls) =>
      (match Test(env, guard)
       case None => (None, env)
       case Some(holds) =>
         if !holds then (Some([]), env)
         else if field < |v.fields| && v.fields[field].IntV? && cls == StoreBinary then
           var w := OrAll(v.fields, ors, v.fields[field].word);
           (Some(StoreInt(w)), Assign(env, k, w))
         else (None, env))
    case StoreField(guard, field, cls) =>
      (match Test(env, guard)
       case None => (None, env)
       case Some(holds) =>
         if !holds then (Some([]), env)
         else if field < |v.fields| then (RunStore(s, cls, v.fields[field]), env)
         else (None, env))
  }

  function RunLines(s: Schema, lines: seq<StoreLine>, i: nat, v: Value, env: Env): Option<seq<Byte>>
    requires v.ObjV? && i <= |lines|
    decreases v, 0, |lines| - i, 1
  {
    if i == |lines| then Some([])
    else
      var (bytes, after) := RunLine(s, lines[i], v, env);
      Then(bytes, RunLines(s, lines, i + 1, v, after))
  }

  // ---- fetch ----

  /** Parses with objects nested at most `fuel` deep. */
  function RunFetch(s: Schema, clean: seq<Byte> -> seq<Byte>, cls: FetchClass, b: seq<Byte>, fuel: nat): Parsed<Value>
    decreases fuel, 0, cls, 0
  {
    match cls
    case FetchInt =>
      (match TlBytes.FetchInt(b) case Parsed(w, rest) => Parsed(IntV(w), rest) case Failed => Failed)
    case FetchRaw(n) =>
      (match TlBytes.FetchRaw(b, RawSize(n)) case Parsed(raw, rest) => Parsed(RawV(raw), rest) case Failed => Failed)
    case FetchBool =>
      (match TlBytes.FetchInt(b)
       case Parsed(w, rest) =>
         if w == BOOL_TRUE || w == BOOL_FALSE then Parsed(BoolV(w == BOOL_TRUE), rest) else Failed
       case Failed => Failed)
    case FetchTrue => Failed
    case FetchText =>
      (match FetchString(b) case Parsed(text, rest) => Parsed(StrV(clean(text)), rest) case Failed => Failed)
    case FetchBytes =>
      (match FetchString(b) case Parsed(text, rest) => Parsed(StrV(text), rest) case Failed => Failed)
    case FetchVector(item) =>
      (match TlBytes.FetchInt(b)
       case Parsed(n, rest) =>
         if |rest| < n then Failed
         else
           (match FetchItems(s, clean, item, n, rest, fuel)
            case Parsed(items, left) => Parsed(VecV(items), left)
            case Failed => Failed)
       case Failed => Failed)
    case FetchBoxed(inner, id) =>
      (match TlBytes.FetchInt(b)
       case Parsed(w, rest) => if w == id then RunFetch(s, clean, inner, rest, fuel) else Failed
       case Failed => Failed)
    case FetchObject(n) =>
      if fuel == 0 then Failed
      else if SupportedCount(s(n).constructors) == 1 then
        FirstExists(s(n).constructors);
        FetchBody(s, clean, n, FirstIn(s(n).constructors), b, fuel)
      else
        (match TlBytes.FetchInt(b)
         case Parsed(w, rest) =>
           var ctor := Switch(s(n).constructors, w);
           if ctor < |s(n).constructors| then FetchBody(s, clean, n, ctor, rest, fuel) else Failed
         case Failed => Failed)
  }

  /** The case of the switch for a constructor number. */
  function Switch(constructors: seq<Combinator>, id: Word): (i: nat)
    ensures i <= |constructors|
    ensures i < |constructors| ==> IsSupported(constructors[i]) && constructors[i].id == id
    ensures forall j :: 0 <= j < i ==> !(IsSupported(constructors[j]) && constructors[j].id == id)
  {
    if constructors == [] || (IsSupported(constructors[0]) && constructors[0].id == id) then 0
    else 1 + Switch(constructors[1..], id)
  }

  function Defaults(args: seq<Arg>): (r: seq<Value>)
    ensures |r| == |args|
  {
    seq(|args|, i requires 0 <= i < |args| => Default(args[i].tree))
  }

  function FetchBody(s: Schema, clean: seq<Byte> -> seq<Byte>, n: TypeName, ctor: nat, b: seq<Byte>, fuel: nat): Parsed<Value>
    requires fuel > 0 && ctor < |s(n).constructors|
    decreases fuel - 1, 3, 0, 0
  {
    var c := s(n).constructors[ctor];
    match GenFetch(s, c)
    case None => Failed
    case Some(lines) =>
      match ReadLines(s, clean, lines, 0, Defaults(c.args), b, NothingSet(), fuel - 1)
      case Parsed(fields, rest) => Parsed(ObjV(n, ctor, fields), rest)
      case Failed => Failed
  }

  function FetchItems(s: Schema, clean: seq<Byte> -> seq<Byte>, cls: FetchClass, n: nat, b: seq<Byte>, fuel: nat): Parsed<seq<Value>>
    decreases fuel, 0, cls, 1, n
  {
    if n == 0 then Parsed([], b)
    else
      match RunFetch(s, clean, cls, b, fuel)
      case Failed => Failed
      case Parsed(item, rest) =>
        match FetchItems(s, clean, cls, n - 1, rest, fuel)
        case Failed => Failed
        case Parsed(items, left) => Parsed([item] + items, left)
  }

  /** One line: the fields, the variables and the input after it. */
  datatype Reading = Reading(fields: seq<Value>, env: Env, rest: seq<Byte>) | Broken

  function Put(fields: seq<Value>, i: nat, v: Value): seq<Value> {
    if i < |fields| then fields[i := v] else fields
  }

  function ReadLine(s: Schema, clean: seq<Byte> -> seq<Byte>, line: FetchLine, r: Reading, fuel: nat): Reading
    requires r.Reading?
    decreases fuel, 1, 0
  {
    match line
    case FetchFlag(field, k, bit) =>
      (match Test(r.env, IfBit(k, bit))
       case None => Broken
       case Some(on) => r.(fields := Put(r.fields, field, BoolV(on))))
    case FetchVar(guard, k, field, cls) =>
      (match Test(r.env, guard)
       case None => Broken
       case Some(holds) =>
         if !holds then r.(env := Assign(r.env, k, 0))
         else
           (match RunFetch(s, clean, cls, r.rest, fuel)
            case Parsed(v, rest) =>
              if v.IntV? && v.word < SIGN then Reading(Put(r.fields, field, v), Assign(r.env, k, v.word), rest)
              else Broken
            case Failed => Broken))
    case FetchField(guard, field, cls) =>
      (match Test(r.env, guard)
       case None => Broken
       case Some(holds) =>
         if !holds then r
         else
           (match RunFetch(s, clean, cls, r.rest, fuel)
            case Parsed(v, rest) => Reading(Put(r.fields, field, v), r.env, rest)
            case Failed => Broken))
  }

  function ReadLines(s: Schema, clean: seq<Byte> -> seq<Byte>, lines: seq<FetchLine>, i: nat,
                      fields: seq<Value>, b: seq<Byte>, env: Env, fuel: nat): Parsed<seq<Value>>
    requires i <= |lines|
    decreases fuel, 2, |lines| - i
  {
    if i == |lines| then Parsed(fields, b)
    else
      match ReadLine(s, clean, lines[i], Reading(fields, env, b), fuel)
      case Broken => Failed
      case Reading(fields', env', rest) => ReadLines(s, clean, lines, i + 1, fields', rest, env', fuel)
  }

  // ---- what a C++ compiler accepts ----

  predicate HasRuntime(cls: FetchClass) {
    match cls
    case FetchTrue => false
    case FetchVector(item) => HasRuntime(item)
    case FetchBoxed(inner, _) => HasRuntime(inner)
    case _ => true
  }

  predicate LineCompiles(line: FetchLine) {
    line.FetchFlag? || HasRuntime(line.cls)
  }

  predicate CodeCompiles(s: Schema, c: Combinator) {
    && GenStore(s, c).Some?
    && GenFetch(s, c).Some?
    && forall line :: line in GenFetch(s, c).value ==> LineCompiles(line)
  }

  /** No switch has two cases with one number. */
  ghost predicate DistinctCases(constructors: seq<Combinator>) {
    forall i, j :: 0 <= i < j < |constructors| && IsSupported(constructors[i]) && IsSupported(constructors[j]) ==>
      constructors[i].id != constructors[j].id
  }

  ghost predicate ClassCompiles(s: Schema, n: TypeName) {
    && DistinctCases(s(n).constructors)
    && forall c :: c in s(n).constructors && IsSupported(c) ==> CodeCompiles(s, c)
  }

  /** The generator emits code for all classes of the schema, and the code compiles. */
  ghost predicate Compiles(s: Schema) {
    forall n: TypeName :: n.Custom? ==> ClassCompiles(s, n)
  }
}
