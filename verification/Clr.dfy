/** The part of the common language runtime that the parameter-binding compiler relies on: types,
    values, and the instructions of ECMA-335 Partition III that it emits. */
module Clr {
  import opened Options

  datatype Exception =
    | NullReference
    | IndexOutOfRange
    | InvalidCast
    | Argument(what: ClrType)
    | KeyNotFound(what: ClrType)
    | TargetParameterCount(what: ClrType)
    | Raised(id: nat)

  datatype Result<+T> = Ok(value: T) | Err(error: Exception) 
  datatype Primitive =
    | Boolean | Char | SByte | Byte | Int16 | UInt16 | Int32 | UInt32 | Int64 | UInt64
    | Single | Double | IntPtr | UIntPtr

  /** `fromRemote` says that the type has a constructor taking just a Remote. */
  datatype ClrType =
    | ObjectType | StringType | ObjectArray | StringArray | RemoteType | DecimalType
    | Prim(p: Primitive)
    | Struct(id: nat, fromRemote: bool)
    | Class(id: nat, fromRemote: bool)

  predicate IsValueType(t: ClrType) { t.RemoteType? || t.DecimalType? || t.Prim? || t.Struct? }

  predicate HasRemoteConstructor(t: ClrType) { (t.Struct? || t.Class?) && t.fromRemote }

  datatype Param = Param(t: ClrType, source: bool)

  datatype MethodInfo = MethodInfo(id: nat, hasThis: bool, params: seq<Param>, ret: Option<ClrType>)

  /** What the evaluation stack holds: references, 32-bit integers and other unboxed values. */
  datatype Value =
    | Null
    | Object(id: nat)
    | Boxed(t: ClrType, bits: int)
    | Array(elems: seq<Value>)
    | Int(i: int)
    | Raw(t: ClrType, bits: int)

  /** Type tests, conversions, constructors and called methods, about which nothing is assumed
      except that converting to a 16-bit integer leaves an integer on the stack. */
  datatype AnyWorld = World(
    isInst: (ClrType, Value) -> bool,
    unbox: (ClrType, Value) -> Value,
    convert: (Primitive, Value) -> Result<Value>,
    construct: (ClrType, Value) -> Result<Value>,
    isRemote: Value -> Value,
    createRemote: Value -> Value,
    toStrings: Value -> Result<Value>,
    defaultOf: ClrType -> Value,
    box: (ClrType, Value) -> Value,
    invoke: (MethodInfo, Option<Value>, seq<Value>) -> Result<Value>)

  ghost predicate Sane(w: AnyWorld) {
    forall v :: w.convert(UInt16, v).Ok? ==> w.convert(UInt16, v).value.Int?
  }

  /** A world in which nothing fails. */
  function PlainWorld(): AnyWorld {
    World((t, v) => false, (t, v) => Null, (p, v) => Ok(Int(0)), (t, v) => Ok(Null), v => Null, v => Null,
          v => Ok(Null), t => Null, (t, v) => Null, (m, o, a) => Ok(Null))
  }

  type World = w: AnyWorld | Sane(w) ghost witness PlainWorld()

  datatype Helper = IsRemoteInternal | ConvertTo(p: Primitive) | RemoteCreate | ToStringArray

  datatype Instr =
    | Nop | Ldarg(n: nat) | LdcI4S(operand: nat) | LdcI4Zero | Ldnull | LdlocS(n: nat)
    | LdelemRef | Dup | Pop
    | Isinst(t: ClrType) | Castclass(t: ClrType) | UnboxAny(t: ClrType) | Box(t: ClrType)
    | CgtUn
    | BrfalseS(target: nat) | Br(target: nat)
    | CallHelper(f: Helper) | Newobj(t: ClrType) | CallMethod(m: MethodInfo)
    | Ret

  /** A finished body: instructions, label positions and the types of the local variables. */
  datatype Code = Code(instrs: seq<Instr>, labels: map<nat, nat>, locals: seq<ClrType>)

  datatype Outcome = Return(v: Value) | Throw(e: Exception) | Stuck

  /** The one-byte operand of `ldc.i4.s` is signed. */
  function SignedByte(operand: nat): int {
    if operand % 256 < 128 then operand % 256 else operand % 256 - 256
  }

  /** `ldelem.ref` */
  function Element(arr: Value, index: int): Result<Value>
    requires arr.Array? || arr.Null?
  {
    if arr.Null? then Err(NullReference)
    else if 0 <= index < |arr.elems| then Ok(arr.elems[index])
    else Err(IndexOutOfRange)
  }

  function Instance(w: World, t: ClrType, v: Value): bool {
    (v.Object? || v.Boxed? || v.Array?) && w.isInst(t, v)
  }

  function Helped(w: World, f: Helper, v: Value): Result<Value> {
    match f
    case IsRemoteInternal => Ok(w.isRemote(v))
    case ConvertTo(p) => w.convert(p, v)
    case RemoteCreate => Ok(w.createRemote(v))
    case ToStringArray => w.toStrings(v)
  }

  /** What an instruction that neither branches nor returns does to the stack: None when the
      stack does not fit the instruction. */
  function Straight(w: World, locals: seq<ClrType>, args: seq<Value>, i: Instr, s: seq<Value>): Option<Result<seq<Value>>> {
    var n := |s|;
    match i
    case Nop => Some(Ok(s))
    case Ldarg(k) => if k < |args| then Some(Ok(s + [args[k]])) else None
    case LdcI4S(b) => Some(Ok(s + [Int(SignedByte(b))]))
    case LdcI4Zero => Some(Ok(s + [Int(0)]))
    case Ldnull => Some(Ok(s + [Null]))
    case LdlocS(k) => if k < |locals| then Some(Ok(s + [w.defaultOf(locals[k])])) else None
    case LdelemRef =>
      if n >= 2 && s[n - 1].Int? && (s[n - 2].Array? || s[n - 2].Null?)
      then Some(Push(s[..n - 2], Element(s[n - 2], s[n - 1].i))) else None
    case Dup => if n >= 1 then Some(Ok(s + [s[n - 1]])) else None
    case Pop => if n >= 1 then Some(Ok(s[..n - 1])) else None
    case Isinst(t) =>
      if n >= 1 then Some(Ok(s[..n - 1] + [if Instance(w, t, s[n - 1]) then s[n - 1] else Null])) else None
    case Castclass(t) =>
      if n >= 1 then Some(if s[n - 1] == Null || Instance(w, t, s[n - 1]) then Ok(s) else Err(InvalidCast)) else None
    case UnboxAny(t) =>
      if n < 1 then None
      else if s[n - 1] == Null then Some(Err(NullReference))
      else if !Instance(w, t, s[n - 1]) then Some(Err(InvalidCast))
      else Some(Ok(s[..n - 1] + [w.unbox(t, s[n - 1])]))
    case Box(t) => if n >= 1 then Some(Ok(s[..n - 1] + [w.box(t, s[n - 1])])) else None
    case CgtUn =>
      if n >= 2 && s[n - 1].Int? && s[n - 2].Int?
      then Some(Ok(s[..n - 2] + [Int(if AsUnsigned(s[n - 2].i) > AsUnsigned(s[n - 1].i) then 1 else 0)])) else None
    case CallHelper(f) => if n >= 1 then Some(Push(s[..n - 1], Helped(w, f, s[n - 1]))) else None
    case Newobj(t) => if n >= 1 then Some(Push(s[..n - 1], w.construct(t, s[n - 1]))) else None
    case CallMethod(m) =>
      var k := |m.params|;
      var arity := if m.hasThis then k + 1 else k;
      if n < arity then None
      else
        var r := w.invoke(m, if m.hasThis then Some(s[n - arity]) else None, s[n - k..]);
        Some(if m.ret.None? && r.Ok? then Ok(s[..n - arity]) else Push(s[..n - arity], r))
    case _ => None
  }

  function AsUnsigned(i: int): nat { i % 0x1_0000_0000 }

  function Push(s: seq<Value>, r: Result<Value>): Result<seq<Value>> {
    match r case Ok(v) => Ok(s + [v]) case Err(e) => Err(e)
  }

  /** Runs from `pc`; only forward jumps are defined, which is all the compiler emits. */
  function Exec(w: World, c: Code, args: seq<Value>, pc: nat, s: seq<Value>): Outcome
    decreases |c.instrs| - pc, 1
  {
    if pc >= |c.instrs| then Stuck
    else match c.instrs[pc]
      case Ret => if |s| == 1 then Return(s[0]) else Stuck
      case Br(l) => if l in c.labels && c.labels[l] > pc then Exec(w, c, args, c.labels[l], s) else Stuck
      case BrfalseS(l) =>
        if |s| == 0 then Stuck
        else if s[|s| - 1] == Null || s[|s| - 1] == Int(0) then
          if l in c.labels && c.labels[l] > pc then Exec(w, c, args, c.labels[l], s[..|s| - 1]) else Stuck
        else Exec(w, c, args, pc + 1, s[..|s| - 1])
      case _ => Proceed(w, c, args, pc, s)
  }

  /** Executes an instruction that goes on to the next one. */
  function Proceed(w: World, c: Code, args: seq<Value>, pc: nat, s: seq<Value>): Outcome
    requires pc < |c.instrs|
    decreases |c.instrs| - pc, 0
  {
    match Straight(w, c.locals, args, c.instrs[pc], s)
    case None => Stuck
    case Some(Err(e)) => Throw(e)
    case Some(Ok(s')) => Exec(w, c, args, pc + 1, s')
  }

  // ---------------------------------------------------------------- stack shapes

  /** What a verifier knows about a stack slot. */
  datatype Slot = Reference | Integer | ValueOf(t: ClrType)

  function SlotOf(t: ClrType): Slot {
    if !IsValueType(t) then Reference
    else if t.Prim? && t.p in {Boolean, Char, SByte, Byte, Int16, UInt16, Int32, UInt32} then Integer
    else ValueOf(t)
  }

  /** The stack shape after an instruction, when the shape before it fits. */
  function ShapeAfter(argShapes: seq<Slot>, locals: seq<ClrType>, i: Instr, s: seq<Slot>): Option<seq<Slot>> {
    var n := |s|;
    match i
    case Nop => Some(s)
    case Ldarg(k) => if k < |argShapes| then Some(s + [argShapes[k]]) else None
    case LdcI4S(_) => Some(s + [Integer])
    case LdcI4Zero => Some(s + [Integer])
    case Ldnull => Some(s + [Reference])
    case LdlocS(k) => if k < |locals| then Some(s + [SlotOf(locals[k])]) else None
    case LdelemRef => if n >= 2 && s[n - 2..] == [Reference, Integer] then Some(s[..n - 2] + [Reference]) else None
    case Dup => if n >= 1 then Some(s + [s[n - 1]]) else None
    case Pop => if n >= 1 then Some(s[..n - 1]) else None
    case Isinst(_) => if n >= 1 && s[n - 1] == Reference then Some(s) else None
    case Castclass(_) => if n >= 1 && s[n - 1] == Reference then Some(s) else None
    case UnboxAny(t) => if n >= 1 && s[n - 1] == Reference then Some(s[..n - 1] + [SlotOf(t)]) else None
    case Box(t) => if n >= 1 && s[n - 1] == SlotOf(t) then Some(s[..n - 1] + [Reference]) else None
    case CgtUn => if n >= 2 && s[n - 2..] == [Integer, Integer] then Some(s[..n - 2] + [Integer]) else None
    case CallHelper(f) =>
      var (from, to) := match f
        case IsRemoteInternal => (SlotOf(RemoteType), Integer)
        case ConvertTo(p) => (Reference, SlotOf(Prim(p)))
        case RemoteCreate => (Integer, SlotOf(RemoteType))
        case ToStringArray => (Reference, Reference);
      if n >= 1 && s[n - 1] == from then Some(s[..n - 1] + [to]) else None
    case Newobj(t) => if n >= 1 && s[n - 1] == SlotOf(RemoteType) then Some(s[..n - 1] + [SlotOf(t)]) else None
    case CallMethod(m) =>
      var want := (if m.hasThis then [Reference] else []) + ParamShapes(m.params);
      if n >= |want| && s[n - |want|..] == want
      then Some(s[..n - |want|] + (if m.ret.Some? then [SlotOf(m.ret.value)] else [])) else None
    case _ => None
  }

  function ParamShapes(params: seq<Param>): (r: seq<Slot>)
    ensures |r| == |params| && forall k :: 0 <= k < |r| ==> r[k] == SlotOf(params[k].t)
  {
    if params == [] then [] else ParamShapes(params[..|params| - 1]) + [SlotOf(params[|params| - 1].t)]
  }

  /** Around instruction `pc`, `shapes` assigns every successor the shape the instruction leaves:
      in particular every jump reaches its label with the shape recorded there. */
  ghost predicate ShapedAt(argShapes: seq<Slot>, c: Code, shapes: seq<seq<Slot>>, pc: nat)
    requires pc < |c.instrs| && |shapes| == |c.instrs| + 1
  {
    var s, n := shapes[pc], |shapes[pc]|;
    match c.instrs[pc]
    case Ret => s == [Reference]
    case Br(l) => l in c.labels && pc < c.labels[l] < |shapes| && shapes[c.labels[l]] == s
    case BrfalseS(l) =>
      && n >= 1 && s[n - 1] == Reference && shapes[pc + 1] == s[..n - 1]
      && l in c.labels && pc < c.labels[l] < |shapes| && shapes[c.labels[l]] == s[..n - 1]
    case i => ShapeAfter(argShapes, c.locals, i, s) == Some(shapes[pc + 1])
  }

  /** The code can be given one stack shape per instruction. */
  ghost predicate Verifiable(argShapes: seq<Slot>, c: Code) {
    exists shapes: seq<seq<Slot>> :: |shapes| == |c.instrs| + 1 && shapes[0] == [] &&
      forall pc :: 0 <= pc < |c.instrs| ==> ShapedAt(argShapes, c, shapes, pc)
  }
}
