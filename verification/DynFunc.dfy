/** The compiler that turns a method signature into a body binding dynamic arguments to it. */
module DynFuncCompiler {
  import opened Options
  import opened Clr

  // ---------------------------------------------------------------- direct binding

  /** The value direct binding gives a parameter: source parameters come from the remote, any
      other from `args[index]`. */
  function Bind(w: World, prm: Param, remote: Value, args: Value, index: int): Result<Value>
    requires args.Array? || args.Null?
  {
    if prm.source then
      if prm.t == RemoteType then Ok(remote)
      else if prm.t == Prim(Boolean) then Ok(w.isRemote(remote))
      else w.construct(prm.t, remote)
    else
      match Element(args, index)
      case Err(e) => Err(e)
      case Ok(v) => BindArgument(w, prm.t, v)
  }

  /** Unboxed when it already has the wanted value type, else converted or defaulted; cast when a
      reference type is wanted. */
  function BindArgument(w: World, t: ClrType, v: Value): Result<Value> {
    if IsValueType(t) then
      if Instance(w, t, v) then Ok(w.unbox(t, v))
      else if t.Prim? then w.convert(t.p, v)
      else Ok(w.defaultOf(t))
    else if t == ObjectType || v == Null || Instance(w, t, v) then Ok(v)
    else Err(InvalidCast)
  }

  /** Binds parameters left to right, the first failure winning; `k` counts the arguments already
      used.  With `wrapped`, argument numbers are read as signed bytes. */
  function BindAll(w: World, params: seq<Param>, remote: Value, args: Value, k: nat, wrapped: bool): (r: Result<seq<Value>>)
    requires args.Array? || args.Null?
    ensures r.Ok? ==> |r.value| == |params|
    decreases |params|
  {
    if params == [] then Ok([])
    else
      match Bind(w, params[0], remote, args, if wrapped then SignedByte(k) else k)
      case Err(e) => Err(e)
      case Ok(v) =>
        match BindAll(w, params[1..], remote, args, if params[0].source then k else k + 1, wrapped)
        case Err(e) => Err(e)
        case Ok(vs) => Ok([v] + vs)
  }

  /** Calls the method on bound values and boxes what it returns. */
  function Invoke(w: World, m: MethodInfo, self: Value, bound: Result<seq<Value>>): Outcome {
    match bound
    case Err(e) => Throw(e)
    case Ok(vs) =>
      match w.invoke(m, if m.hasThis then Some(self) else None, vs)
      case Err(e) => Throw(e)
      case Ok(v) => Return(if m.ret.None? then Null else w.box(m.ret.value, v))
  }

  function Frame(m: MethodInfo, self: Value, remote: Value, args: Value): seq<Value> {
    (if m.hasThis then [self] else []) + [remote, args]
  }

  function ArgShapes(m: MethodInfo): seq<Slot> {
    (if m.hasThis then [Reference] else []) + [SlotOf(RemoteType), Reference]
  }

  function RemoteArg(hasThis: bool): nat { if hasThis then 1 else 0 }
  function ArgsArg(hasThis: bool): nat { if hasThis then 2 else 1 }

  function ArgumentCount(params: seq<Param>): nat {
    if params == [] then 0 else ArgumentCount(params[1..]) + (if params[0].source then 0 else 1)
  }

  // ---------------------------------------------------------------- emitted code

  /** The generator: what has been emitted and how many labels were handed out. */
  datatype Gen = Gen(code: Code, nextLabel: nat)

  ghost predicate ValidGen(g: Gen) {
    forall l :: l in g.code.labels ==> l < g.nextLabel && g.code.labels[l] <= |g.code.instrs|
  }

  /** Why a parameter cannot be compiled. */
  function ParamError(prm: Param): Option<Exception> {
    if prm.source then
      if prm.t == RemoteType || prm.t == Prim(Boolean) || HasRemoteConstructor(prm.t) then None
      else Some(Argument(prm.t))
    else if prm.t == Prim(IntPtr) || prm.t == Prim(UIntPtr) then Some(KeyNotFound(prm.t))
    else None
  }

  /** A source parameter is a Remote, a bool, or made from a Remote; any other is no pointer-sized
      integer. */
  predicate Supported(prm: Param) {
    match prm.t
    case RemoteType => true
    case Prim(p) => if prm.source then p == Boolean else p != IntPtr && p != UIntPtr
    case Struct(_, fromRemote) => prm.source ==> fromRemote
    case Class(_, fromRemote) => prm.source ==> fromRemote
    case _ => !prm.source
  }

  /** The error for the first parameter that is not supported. */
  ghost predicate NamesFirstUnsupported(params: seq<Param>, e: Exception) {
    exists i :: 0 <= i < |params| && NamesFirstUnsupportedAt(params, e, i)
  }

  ghost predicate NamesFirstUnsupportedAt(params: seq<Param>, e: Exception, i: nat)
    requires i < |params|
  {
    && !Supported(params[i]) && (forall j :: 0 <= j < i ==> Supported(params[j]))
    && e == if params[i].source then Argument(params[i].t) else KeyNotFound(params[i].t)
  }

  /** How an argument that is not of the wanted value type is replaced. */
  function Fallback(t: ClrType, local: nat): (r: seq<Instr>)
    ensures 1 <= |r| <= 2
  {
    if t.Prim? then [CallHelper(ConvertTo(t.p))] else [Pop, LdlocS(local)]
  }

  function Fetch(hasThis: bool, p: nat): seq<Instr> {
    [Ldarg(ArgsArg(hasThis)), LdcI4S(p % 256), LdelemRef]
  }

  function TypeTest(t: ClrType, diff: nat, done: nat): seq<Instr> {
    [Dup, Isinst(t), BrfalseS(diff), UnboxAny(t), Br(done)]
  }

  /** The generator after one parameter has been compiled; `p` counts the arguments so far. */
  function AddParam(g: Gen, hasThis: bool, prm: Param, p: nat): (r: Gen)
    ensures g.code.instrs <= r.code.instrs
  {
    var c, t, n := g.code, prm.t, |g.code.instrs|;
    if prm.source then
      g.(code := c.(instrs := c.instrs + [Ldarg(RemoteArg(hasThis))] +
        if t == RemoteType then [] else if t == Prim(Boolean) then [CallHelper(IsRemoteInternal)] else [Newobj(t)]))
    else if IsValueType(t) then
      var diff, done := g.nextLabel, g.nextLabel + 1;
      var fallback := Fallback(t, |c.locals|);
      Gen(Code(c.instrs + (Fetch(hasThis, p) + TypeTest(t, diff, done) + fallback),
               c.labels[diff := n + 8][done := n + 8 + |fallback|],
               if t.Prim? then c.locals else c.locals + [t]),
          g.nextLabel + 2)
    else
      g.(code := c.(instrs := c.instrs + (Fetch(hasThis, p) + if t == ObjectType then [] else [Castclass(t)])))
  }

  const EMPTY_GEN := Gen(Code([], map[], []), 0)

  /** The generator after the target (if any) and the first parameters. */
  function AddParams(hasThis: bool, params: seq<Param>): (r: Gen)
    decreases |params|
  {
    if params == [] then
      if hasThis then EMPTY_GEN.(code := EMPTY_GEN.code.(instrs := [Ldarg(0)])) else EMPTY_GEN
    else
      var before := params[..|params| - 1];
      AddParam(AddParams(hasThis, before), hasThis, params[|params| - 1], ArgumentCount(before))
  }

  function Tail(m: MethodInfo): seq<Instr> {
    [CallMethod(m), if m.ret.None? then Ldnull else Box(m.ret.value), Ret]
  }

  function Compiled(m: MethodInfo): Code {
    var c := AddParams(m.hasThis, m.params).code;
    c.(instrs := c.instrs + Tail(m))
  }

  /** The first parameter that cannot be compiled decides the error. */
  function CompileError(params: seq<Param>): Option<Exception>
    decreases |params|
  {
    if params == [] then None
    else if ParamError(params[0]).Some? then ParamError(params[0])
    else CompileError(params[1..])
  }

  lemma {:induction false} CompilesIffSupported(params: seq<Param>)
    ensures CompileError(params).None? <==> forall i :: 0 <= i < |params| ==> Supported(params[i])
    ensures CompileError(params).Some? ==> NamesFirstUnsupported(params, CompileError(params).value)
    decreases |params|
  {
    if params != [] && !Supported(params[0]) {
      assert NamesFirstUnsupportedAt(params, CompileError(params).value, 0);
    } else if params != [] {
      CompilesIffSupported(params[1..]);
      SupportedRest(params);
      if CompileError(params).Some? {
        var e := CompileError(params).value;
        var i :| 0 <= i < |params[1..]| && NamesFirstUnsupportedAt(params[1..], e, i);
        NamesFirstUnsupportedLater(params, e, i);
      }
    }
  }

  lemma SupportedRest(params: seq<Param>)
    requires params != [] && Supported(params[0])
    ensures (forall i :: 0 <= i < |params| ==> Supported(params[i])) <==> forall i :: 0 <= i < |params[1..]| ==> Supported(params[1..][i])
  {
    assert forall i :: 0 < i < |params| ==> params[i] == params[1..][i - 1];
    assert forall i :: 0 <= i < |params[1..]| ==> params[1..][i] == params[i + 1];
  }

  lemma NamesFirstUnsupportedLater(params: seq<Param>, e: Exception, i: nat)
    requires params != [] && Supported(params[0]) && i < |params[1..]| && NamesFirstUnsupportedAt(params[1..], e, i)
    ensures NamesFirstUnsupportedAt(params, e, i + 1)
  {
    assert forall j :: 0 < j < |params| ==> params[j] == params[1..][j - 1];
  }

  // ---------------------------------------------------------------- what direct binding passes on

  /** What a parameter gets: from the remote, or from the argument `x`. */
  ghost predicate Gets(w: World, prm: Param, remote: Value, x: Value, v: Value) {
    match prm.t
    case RemoteType =>
      if prm.source then v == remote else v == if Instance(w, prm.t, x) then w.unbox(prm.t, x) else w.defaultOf(prm.t)
    case Prim(p) =>
      if prm.source && p == Boolean then v == w.isRemote(remote)
      else if prm.source then w.construct(prm.t, remote) == Ok(v)
      else if Instance(w, prm.t, x) then v == w.unbox(prm.t, x) else w.convert(p, x) == Ok(v)
    case DecimalType =>
      if prm.source then w.construct(prm.t, remote) == Ok(v)
      else v == if Instance(w, prm.t, x) then w.unbox(prm.t, x) else w.defaultOf(prm.t)
    case Struct(_, _) =>
      if prm.source then w.construct(prm.t, remote) == Ok(v)
      else v == if Instance(w, prm.t, x) then w.unbox(prm.t, x) else w.defaultOf(prm.t)
    case ObjectType => if prm.source then w.construct(prm.t, remote) == Ok(v) else v == x
    case _ =>
      if prm.source then w.construct(prm.t, remote) == Ok(v) else v == x && (x == Null || Instance(w, prm.t, x))
  }

  /** Each parameter gets the remote, or the argument whose number is the count of the parameters
      before it that take arguments, `k` arguments being used before. */
  ghost predicate EachGets(w: World, params: seq<Param>, remote: Value, args: Value, k: nat, vs: seq<Value>) {
    |vs| == |params| && forall i :: 0 <= i < |params| ==> GetsAt(w, params, remote, args, k, vs, i)
  }

  ghost predicate GetsAt(w: World, params: seq<Param>, remote: Value, args: Value, k: nat, vs: seq<Value>, i: nat)
    requires i < |vs| == |params|
  {
    if params[i].source then Gets(w, params[i], remote, Null, vs[i])
    else
      var n := k + ArgumentCount(params[..i]);
      args.Array? && n < |args.elems| && Gets(w, params[i], remote, args.elems[n], vs[i])
  }

  lemma GetsAtRest(w: World, params: seq<Param>, remote: Value, args: Value, k: nat, vs: seq<Value>, i: nat)
    requires 0 < i < |vs| == |params|
    ensures var next := if params[0].source then k else k + 1;
            GetsAt(w, params, remote, args, k, vs, i) <==> GetsAt(w, params[1..], remote, args, next, vs[1..], i - 1)
  {
    assert params[..i][1..] == params[1..][..i - 1] && params[..i][0] == params[0];
  }

  lemma BindIff(w: World, prm: Param, remote: Value, args: Value, n: nat, v: Value)
    requires args.Array? || args.Null?
    ensures Bind(w, prm, remote, args, n) == Ok(v) <==>
              if prm.source then Gets(w, prm, remote, Null, v)
              else args.Array? && n < |args.elems| && Gets(w, prm, remote, args.elems[n], v)
  {
  }

  /** Direct binding gives these values exactly when they are what each parameter gets. */
  lemma {:induction false} BoundValuesIff(w: World, params: seq<Param>, remote: Value, args: Value, k: nat, vs: seq<Value>)
    requires args.Array? || args.Null?
    ensures BindAll(w, params, remote, args, k, false) == Ok(vs) <==> EachGets(w, params, remote, args, k, vs)
    decreases |params|
  {
    if params != [] && vs != [] {
      var next := if params[0].source then k else k + 1;
      BoundValuesIff(w, params[1..], remote, args, next, vs[1..]);
      BindIff(w, params[0], remote, args, k, vs[0]);
      assert vs == [vs[0]] + vs[1..];
      assert ArgumentCount(params[..0]) == 0;
      if |vs| == |params| {
        forall i | 0 < i < |params|
          ensures GetsAt(w, params, remote, args, k, vs, i) <==> GetsAt(w, params[1..], remote, args, next, vs[1..], i - 1)
        {
          GetsAtRest(w, params, remote, args, k, vs, i);
        }
        FirstAndRest(w, params, remote, args, k, next, vs);
      }
      OneMoreBound(w, params, remote, args, k, next, vs);
    }
  }

  lemma FirstAndRest(w: World, params: seq<Param>, remote: Value, args: Value, k: nat, next: nat, vs: seq<Value>)
    requires 0 < |vs| == |params|
    requires forall i :: 0 < i < |params| ==>
               (GetsAt(w, params, remote, args, k, vs, i) <==> GetsAt(w, params[1..], remote, args, next, vs[1..], i - 1))
    ensures EachGets(w, params, remote, args, k, vs) <==>
              GetsAt(w, params, remote, args, k, vs, 0) && EachGets(w, params[1..], remote, args, next, vs[1..])
  {
    if EachGets(w, params, remote, args, k, vs) {
      forall i | 0 <= i < |params[1..]| ensures GetsAt(w, params[1..], remote, args, next, vs[1..], i) {
        assert GetsAt(w, params, remote, args, k, vs, i + 1);
      }
    }
    if GetsAt(w, params, remote, args, k, vs, 0) && EachGets(w, params[1..], remote, args, next, vs[1..]) {
      forall i | 0 <= i < |params| ensures GetsAt(w, params, remote, args, k, vs, i) {
        assert i > 0 ==> GetsAt(w, params[1..], remote, args, next, vs[1..], i - 1);
      }
    }
  }

  lemma OneMoreBound(w: World, params: seq<Param>, remote: Value, args: Value, k: nat, next: nat, vs: seq<Value>)
    requires params != [] && vs != [] && (args.Array? || args.Null?) && next == if params[0].source then k else k + 1
    ensures BindAll(w, params, remote, args, k, false) == Ok(vs) <==>
              Bind(w, params[0], remote, args, k) == Ok(vs[0]) && BindAll(w, params[1..], remote, args, next, false) == Ok(vs[1..])
  {
    assert vs == [vs[0]] + vs[1..];
  }

  // ---------------------------------------------------------------- the emitting method

  class ILGenerator {
    var instrs: seq<Instr>
    var labels: map<nat, nat>
    var locals: seq<ClrType>
    var nextLabel: nat

    constructor ()
      ensures State() == EMPTY_GEN
    {
      instrs, labels, locals, nextLabel := [], map[], [], 0;
    }

    function State(): Gen
      reads this
    {
      Gen(Code(instrs, labels, locals), nextLabel)
    }

    method Emit(i: Instr)
      modifies this`instrs
      ensures instrs == old(instrs) + [i]
    {
      instrs := instrs + [i];
    }

    /** Emits an opcode with a four-byte operand.  After `ldc.i4.s` only the first byte is the
        operand; the others of a small number are zero, which is the opcode `nop`. */
    method EmitInt(n: nat)
      requires n < 128
      modifies this`instrs
      ensures instrs == old(instrs) + [LdcI4S(n), Nop, Nop, Nop]
    {
      instrs := instrs + [LdcI4S(n), Nop, Nop, Nop];
    }

    method DefineLabel() returns (l: nat)
      modifies this`nextLabel
      ensures l == old(nextLabel) && nextLabel == l + 1
    {
      l := nextLabel;
      nextLabel := nextLabel + 1;
    }

    method MarkLabel(l: nat)
      modifies this`labels
      ensures labels == old(labels)[l := |instrs|]
    {
      labels := labels[l := |instrs|];
    }

    method DeclareLocal(t: ClrType) returns (n: nat)
      modifies this`locals
      ensures n == |old(locals)| && locals == old(locals) + [t]
    {
      n := |locals|;
      locals := locals + [t];
    }
  }

  method EmitFetch(g: ILGenerator, hasThis: bool, p: nat)
    modifies g`instrs
    ensures g.instrs == old(g.instrs) + Fetch(hasThis, p)
  {
    g.Emit(Ldarg(ArgsArg(hasThis)));
    g.Emit(LdcI4S(p % 256));
    g.Emit(LdelemRef);
  }

  method EmitTypeTest(g: ILGenerator, t: ClrType, diff: nat, done: nat)
    modifies g`instrs
    ensures g.instrs == old(g.instrs) + TypeTest(t, diff, done)
  {
    g.Emit(Dup);
    g.Emit(Isinst(t));
    g.Emit(BrfalseS(diff));
    g.Emit(UnboxAny(t));
    g.Emit(Br(done));
  }

  method EmitFallback(g: ILGenerator, t: ClrType)
    modifies g`instrs, g`locals
    ensures g.instrs == old(g.instrs) + Fallback(t, |old(g.locals)|)
    ensures g.locals == if t.Prim? then old(g.locals) else old(g.locals) + [t]
  {
    if t.Prim? {
      g.Emit(CallHelper(ConvertTo(t.p)));
    } else {
      g.Emit(Pop);
      var n := g.DeclareLocal(t);
      g.Emit(LdlocS(n));
    }
  }

  /** Compiles a source parameter, taken from the remote. */
  method EmitSource(g: ILGenerator, hasThis: bool, prm: Param) returns (error: Option<Exception>)
    requires prm.source
    modifies g`instrs
    ensures error == ParamError(prm)
    ensures error.None? ==> g.State() == AddParam(old(g.State()), hasThis, prm, 0)
  {
    var t := prm.t;
    error := None;
    if t == RemoteType {
      g.Emit(Ldarg(RemoteArg(hasThis)));
    } else if t == Prim(Boolean) {
      g.Emit(Ldarg(RemoteArg(hasThis)));
      g.Emit(CallHelper(IsRemoteInternal));
    } else if HasRemoteConstructor(t) {
      g.Emit(Ldarg(RemoteArg(hasThis)));
      g.Emit(Newobj(t));
    } else {
      error := Some(Argument(t));
    }
  }

  /** Compiles the argument of a value type, after it has been fetched. */
  method EmitValue(g: ILGenerator, t: ClrType) returns (error: Option<Exception>)
    requires IsValueType(t)
    modifies g
    ensures error == if t == Prim(IntPtr) || t == Prim(UIntPtr) then Some(KeyNotFound(t)) else None
    ensures error.None? ==> g.State() == AddValue(old(g.State()), t)
  {
    var diff := g.DefineLabel();
    var done := g.DefineLabel();
    EmitTypeTest(g, t, diff, done);
    g.MarkLabel(diff);
    if t == Prim(IntPtr) || t == Prim(UIntPtr) {
      return Some(KeyNotFound(t));
    }
    EmitFallback(g, t);
    g.MarkLabel(done);
    return None;
  }

  /** The generator after the code for a fetched argument of a value type. */
  function AddValue(g: Gen, t: ClrType): Gen {
    var c, n := g.code, |g.code.instrs|;
    var diff, done := g.nextLabel, g.nextLabel + 1;
    var fallback := Fallback(t, |c.locals|);
    Gen(Code(c.instrs + TypeTest(t, diff, done) + fallback,
             c.labels[diff := n + 5][done := n + 5 + |fallback|],
             if t.Prim? then c.locals else c.locals + [t]),
        g.nextLabel + 2)
  }

  lemma FetchThenValue(g: Gen, hasThis: bool, prm: Param, p: nat)
    requires !prm.source && IsValueType(prm.t)
    ensures var fetched := g.(code := g.code.(instrs := g.code.instrs + Fetch(hasThis, p)));
            AddValue(fetched, prm.t) == AddParam(g, hasThis, prm, p)
  {
    var f, tt, fb := Fetch(hasThis, p), TypeTest(prm.t, g.nextLabel, g.nextLabel + 1), Fallback(prm.t, |g.code.locals|);
    assert g.code.instrs + f + tt + fb == g.code.instrs + (f + tt + fb);
  }

  /** Compiles one parameter; `p` counts the arguments so far. */
  method EmitParameter(g: ILGenerator, hasThis: bool, prm: Param, p: nat) returns (error: Option<Exception>)
    modifies g
    ensures error == ParamError(prm)
    ensures error.None? ==> g.State() == AddParam(old(g.State()), hasThis, prm, p)
  {
    if prm.source {
      error := EmitSource(g, hasThis, prm);
      return;
    }
    ghost var before := g.State();
    EmitFetch(g, hasThis, p);
    if IsValueType(prm.t) {
      error := EmitValue(g, prm.t);
      FetchThenValue(before, hasThis, prm, p);
    } else {
      error := None;
      if prm.t != ObjectType {
        g.Emit(Castclass(prm.t));
      }
    }
  }

  /** The parameter loop. */
  method EmitParameters(g: ILGenerator, m: MethodInfo) returns (error: Option<Exception>)
    requires g.State() == EMPTY_GEN
    modifies g
    ensures error == CompileError(m.params)
    ensures error.None? ==> g.State() == AddParams(m.hasThis, m.params)
  {
    if m.hasThis {
      g.Emit(Ldarg(0));
    }
    var i, p := 0, 0;
    while i < |m.params|
      invariant 0 <= i <= |m.params| && p == ArgumentCount(m.params[..i])
      invariant g.State() == AddParams(m.hasThis, m.params[..i])
      invariant CompileError(m.params) == CompileError(m.params[i..])
    {
      var prm := m.params[i];
      assert m.params[i..][0] == prm && m.params[i..][1..] == m.params[i + 1..];
      error := EmitParameter(g, m.hasThis, prm, p);
      if error.Some? {
        return;
      }
      assert m.params[..i + 1][..i] == m.params[..i];
      assert m.params[..i] + [prm] == m.params[..i + 1];
      ArgumentCountSnoc(m.params[..i], prm);
      if !prm.source {
        p := p + 1;
      }
      i := i + 1;
    }
    assert m.params[..i] == m.params;
    error := None;
  }

  lemma {:induction false} ArgumentCountSnoc(params: seq<Param>, prm: Param)
    ensures ArgumentCount(params + [prm]) == ArgumentCount(params) + (if prm.source then 0 else 1)
    decreases |params|
  {
    if params != [] {
      assert (params + [prm])[1..] == params[1..] + [prm];
      ArgumentCountSnoc(params[1..], prm);
    }
  }

  method Emitted(m: MethodInfo) returns (r: Result<Code>)
    ensures r == if CompileError(m.params).Some? then Err(CompileError(m.params).value) else Ok(Compiled(m))
    ensures r.Ok? <==> forall i :: 0 <= i < |m.params| ==> Supported(m.params[i])
    ensures r.Err? ==> NamesFirstUnsupported(m.params, r.error)
  {
    CompilesIffSupported(m.params);
    var g := new ILGenerator();
    var error := EmitParameters(g, m);
    if error.Some? {
      return Err(error.value);
    }
    ghost var body := g.instrs;
    g.Emit(CallMethod(m));
    if m.ret.None? {
      g.Emit(Ldnull);
    } else {
      g.Emit(Box(m.ret.value));
    }
    g.Emit(Ret);
    assert g.instrs == body + Tail(m);
    return Ok(g.State().code);
  }

  // ---------------------------------------------------------------- what the code means

  /** `c` continues what the generator had emitted. */
  ghost predicate Extends(c: Code, g: Gen) {
    && g.code.instrs <= c.instrs
    && g.code.locals <= c.locals
    && forall l :: l in g.code.labels ==> l in c.labels && c.labels[l] == g.code.labels[l]
  }

  /** Goes on at `pc` with one more value on the stack, or stops with its error. */
  function Continue(w: World, c: Code, frame: seq<Value>, pc: nat, s: seq<Value>, r: Result<Value>): Outcome {
    if r.Ok? then Exec(w, c, frame, pc, s + [r.value]) else Throw(r.error)
  }

  lemma SourceRuns(w: World, m: MethodInfo, c: Code, g: Gen, prm: Param, self: Value, remote: Value, args: Value, s: seq<Value>)
    requires prm.source && ParamError(prm).None? && Extends(c, AddParam(g, m.hasThis, prm, 0))
    requires args.Array? || args.Null?
    ensures var n, n' := |g.code.instrs|, |AddParam(g, m.hasThis, prm, 0).code.instrs|;
            var frame := Frame(m, self, remote, args);
            Exec(w, c, frame, n, s) == Continue(w, c, frame, n', s, Bind(w, prm, remote, args, 0))
  {
    var n := |g.code.instrs|;
    var frame := Frame(m, self, remote, args);
    assert c.instrs[n] == AddParam(g, m.hasThis, prm, 0).code.instrs[n];
    assert Exec(w, c, frame, n, s) == Exec(w, c, frame, n + 1, s + [remote]);
    if prm.t != RemoteType {
      assert c.instrs[n + 1] == AddParam(g, m.hasThis, prm, 0).code.instrs[n + 1];
      assert (s + [remote])[..|s|] == s;
      assert Exec(w, c, frame, n + 1, s + [remote]) == Proceed(w, c, frame, n + 1, s + [remote]);
    }
  }

  /** Fetching argument `p` reads the element its operand byte, taken as signed, numbers. */
  lemma FetchRuns(w: World, m: MethodInfo, c: Code, n: nat, p: nat, self: Value, remote: Value, args: Value, s: seq<Value>)
    requires n + 3 <= |c.instrs| && c.instrs[n..n + 3] == Fetch(m.hasThis, p)
    requires args.Array? || args.Null?
    ensures var frame := Frame(m, self, remote, args);
            Exec(w, c, frame, n, s) == Continue(w, c, frame, n + 3, s, Element(args, SignedByte(p)))
  {
    var frame := Frame(m, self, remote, args);
    var f := c.instrs[n..n + 3];
    assert c.instrs[n] == f[0] && c.instrs[n + 1] == f[1] && c.instrs[n + 2] == f[2];
    var s1 := s + [args];
    var s2 := s1 + [Int(SignedByte(p))];
    assert Exec(w, c, frame, n, s) == Exec(w, c, frame, n + 1, s1);
    assert Exec(w, c, frame, n + 1, s1) == Exec(w, c, frame, n + 2, s2);
    assert s2[..|s2| - 2] == s;
    assert Exec(w, c, frame, n + 2, s2) == Proceed(w, c, frame, n + 2, s2);
  }

  /** The test for the wanted type: either the unboxed value is left at `done`, or the argument
      itself at `diff`. */
  lemma TypeTestRuns(w: World, c: Code, frame: seq<Value>, n: nat, t: ClrType, diff: nat, done: nat, s: seq<Value>, v: Value)
    requires n + 5 <= |c.instrs| && c.instrs[n..n + 5] == TypeTest(t, diff, done)
    requires diff in c.labels && c.labels[diff] == n + 5 && done in c.labels && c.labels[done] > n + 5
    ensures Exec(w, c, frame, n, s + [v]) ==
            if Instance(w, t, v) then Exec(w, c, frame, c.labels[done], s + [w.unbox(t, v)])
            else Exec(w, c, frame, n + 5, s + [v])
  {
    var f := c.instrs[n..n + 5];
    assert forall k :: 0 <= k < 5 ==> c.instrs[n + k] == f[k];
    assert c.instrs[n] == Dup && c.instrs[n + 1] == Isinst(t) && c.instrs[n + 2] == BrfalseS(diff);
    assert c.instrs[n + 3] == UnboxAny(t) && c.instrs[n + 4] == Br(done);
    IsinstRuns(w, c, frame, n, t, s, v);
    BranchRuns(w, c, frame, n, t, diff, done, s, v);
  }

  lemma IsinstRuns(w: World, c: Code, frame: seq<Value>, n: nat, t: ClrType, s: seq<Value>, v: Value)
    requires n + 2 < |c.instrs| && c.instrs[n] == Dup && c.instrs[n + 1] == Isinst(t)
    ensures Exec(w, c, frame, n, s + [v]) == Exec(w, c, frame, n + 2, s + [v] + [if Instance(w, t, v) then v else Null])
  {
    var s1 := s + [v];
    var s2 := s1 + [v];
    assert Exec(w, c, frame, n, s1) == Exec(w, c, frame, n + 1, s2);
    assert s2[..|s2| - 1] == s1;
    assert Exec(w, c, frame, n + 1, s2) == Exec(w, c, frame, n + 2, s1 + [if Instance(w, t, v) then v else Null]);
  }

  lemma BranchRuns(w: World, c: Code, frame: seq<Value>, n: nat, t: ClrType, diff: nat, done: nat, s: seq<Value>, v: Value)
    requires n + 5 <= |c.instrs| && c.instrs[n + 2] == BrfalseS(diff) && c.instrs[n + 3] == UnboxAny(t) && c.instrs[n + 4] == Br(done)
    requires diff in c.labels && c.labels[diff] == n + 5 && done in c.labels && c.labels[done] > n + 5
    ensures Exec(w, c, frame, n + 2, s + [v] + [if Instance(w, t, v) then v else Null]) ==
            if Instance(w, t, v) then Exec(w, c, frame, c.labels[done], s + [w.unbox(t, v)])
            else Exec(w, c, frame, n + 5, s + [v])
  {
    var s1 := s + [v];
    var s3 := s1 + [if Instance(w, t, v) then v else Null];
    assert s3[..|s3| - 1] == s1;
    if Instance(w, t, v) {
      assert Exec(w, c, frame, n + 2, s3) == Exec(w, c, frame, n + 3, s1);
      assert s1[..|s1| - 1] == s;
      assert Exec(w, c, frame, n + 3, s1) == Exec(w, c, frame, n + 4, s + [w.unbox(t, v)]);
    }
  }

  /** One compiled parameter does what direct binding does, reading its argument number as a
      signed byte. */
  lemma ParamRuns(w: World, m: MethodInfo, c: Code, g: Gen, prm: Param, p: nat,
                  self: Value, remote: Value, args: Value, s: seq<Value>)
    requires ParamError(prm).None? && Extends(c, AddParam(g, m.hasThis, prm, p)) && ValidGen(g)
    requires args.Array? || args.Null?
    ensures var frame := Frame(m, self, remote, args);
            Exec(w, c, frame, |g.code.instrs|, s) ==
            Continue(w, c, frame, |AddParam(g, m.hasThis, prm, p).code.instrs|, s,
                     Bind(w, prm, remote, args, SignedByte(p)))
  {
    if prm.source {
      SourceRuns(w, m, c, g, prm, self, remote, args, s);
    } else {
      ArgumentRuns(w, m, c, g, prm, p, self, remote, args, s);
    }
  }

  lemma ArgumentRuns(w: World, m: MethodInfo, c: Code, g: Gen, prm: Param, p: nat,
                     self: Value, remote: Value, args: Value, s: seq<Value>)
    requires !prm.source && ParamError(prm).None? && Extends(c, AddParam(g, m.hasThis, prm, p)) && ValidGen(g)
    requires args.Array? || args.Null?
    ensures var frame := Frame(m, self, remote, args);
            Exec(w, c, frame, |g.code.instrs|, s) ==
            Continue(w, c, frame, |AddParam(g, m.hasThis, prm, p).code.instrs|, s,
                     Bind(w, prm, remote, args, SignedByte(p)))
  {
    var n, frame := |g.code.instrs|, Frame(m, self, remote, args);
    FetchComesFirst(c, g, m.hasThis, prm, p);
    FetchRuns(w, m, c, n, p, self, remote, args, s);
    var e := Element(args, SignedByte(p));
    if e.Ok? {
      if IsValueType(prm.t) {
        ValueRuns(w, m.hasThis, c, g, prm, p, frame, s, e.value);
      } else if prm.t != ObjectType {
        assert c.instrs[n + 3] == AddParam(g, m.hasThis, prm, p).code.instrs[n + 3] == Castclass(prm.t);
        assert (s + [e.value])[|s|] == e.value;
        assert Exec(w, c, frame, n + 3, s + [e.value]) == Proceed(w, c, frame, n + 3, s + [e.value]);
      }
    }
  }

  lemma FetchComesFirst(c: Code, g: Gen, hasThis: bool, prm: Param, p: nat)
    requires !prm.source && Extends(c, AddParam(g, hasThis, prm, p))
    ensures var n := |g.code.instrs|; n + 3 <= |c.instrs| && c.instrs[n..n + 3] == Fetch(hasThis, p)
  {
    var n, instrs := |g.code.instrs|, AddParam(g, hasThis, prm, p).code.instrs;
    assert instrs[n] == Fetch(hasThis, p)[0] && instrs[n + 1] == Fetch(hasThis, p)[1] && instrs[n + 2] == Fetch(hasThis, p)[2];
  }

  /** The part of a value-type parameter after the argument has been fetched. */
  lemma ValueRuns(w: World, hasThis: bool, c: Code, g: Gen, prm: Param, p: nat, frame: seq<Value>, s: seq<Value>, v: Value)
    requires !prm.source && IsValueType(prm.t) && Extends(c, AddParam(g, hasThis, prm, p)) && ValidGen(g)
    ensures Exec(w, c, frame, |g.code.instrs| + 3, s + [v]) ==
            Continue(w, c, frame, |AddParam(g, hasThis, prm, p).code.instrs|, s, BindArgument(w, prm.t, v))
  {
    var n, t := |g.code.instrs|, prm.t;
    var diff, done, local := g.nextLabel, g.nextLabel + 1, |g.code.locals|;
    ValueLayout(hasThis, c, g, prm, p);
    TypeTestRuns(w, c, frame, n + 3, t, diff, done, s, v);
    if !Instance(w, t, v) {
      FallbackRuns(w, c, frame, n + 8, t, local, s, v);
    }
  }

  lemma FallbackRuns(w: World, c: Code, frame: seq<Value>, n: nat, t: ClrType, local: nat, s: seq<Value>, v: Value)
    requires IsValueType(t) && n + |Fallback(t, local)| <= |c.instrs| && c.instrs[n] == Fallback(t, local)[0]
    requires !t.Prim? ==> c.instrs[n + 1] == Fallback(t, local)[1] && local < |c.locals| && c.locals[local] == t
    ensures Exec(w, c, frame, n, s + [v]) ==
            Continue(w, c, frame, n + |Fallback(t, local)|, s, if t.Prim? then w.convert(t.p, v) else Ok(w.defaultOf(t)))
  {
    var s1 := s + [v];
    assert s1[..|s1| - 1] == s;
    assert Exec(w, c, frame, n, s1) == Proceed(w, c, frame, n, s1);
    if !t.Prim? {
      assert Exec(w, c, frame, n + 1, s) == Proceed(w, c, frame, n + 1, s);
    }
  }

  lemma ValueLayout(hasThis: bool, c: Code, g: Gen, prm: Param, p: nat)
    requires !prm.source && IsValueType(prm.t) && Extends(c, AddParam(g, hasThis, prm, p)) && ValidGen(g)
    ensures var n, t, fallback := |g.code.instrs|, prm.t, Fallback(prm.t, |g.code.locals|);
            var diff, done := g.nextLabel, g.nextLabel + 1;
            && n + 8 + |fallback| <= |c.instrs|
            && c.instrs[n + 3..n + 8] == TypeTest(t, diff, done)
            && c.instrs[n + 8] == fallback[0] && (!t.Prim? ==> c.instrs[n + 9] == fallback[1])
            && diff in c.labels && c.labels[diff] == n + 8
            && done in c.labels && c.labels[done] == n + 8 + |fallback|
            && (!t.Prim? ==> |g.code.locals| < |c.locals| && c.locals[|g.code.locals|] == t)
  {
    var n, t, g' := |g.code.instrs|, prm.t, AddParam(g, hasThis, prm, p);
    var diff, done, fallback := g.nextLabel, g.nextLabel + 1, Fallback(t, |g.code.locals|);
    assert diff in g'.code.labels && done in g'.code.labels;
    assert g'.code.instrs == g.code.instrs + (Fetch(hasThis, p) + TypeTest(t, diff, done) + fallback);
    assert c.instrs[n + 3..n + 8] == g'.code.instrs[n + 3..n + 8] == TypeTest(t, diff, done);
    assert c.instrs[n + 8] == g'.code.instrs[n + 8] == fallback[0];
    if !t.Prim? {
      assert c.instrs[n + 9] == g'.code.instrs[n + 9] == fallback[1];
      assert c.locals[|g.code.locals|] == g'.code.locals[|g.code.locals|] == t;
    }
  }

  lemma AddParamKeepsValid(g: Gen, hasThis: bool, prm: Param, p: nat)
    requires ValidGen(g)
    ensures ValidGen(AddParam(g, hasThis, prm, p))
    ensures Extends(AddParam(g, hasThis, prm, p).code, g)
  {
  }

  /** What was emitted for a prefix of the parameters stays in place. */
  lemma {:induction false} AddParamsExtends(hasThis: bool, params: seq<Param>, i: nat)
    requires i <= |params|
    ensures ValidGen(AddParams(hasThis, params))
    ensures Extends(AddParams(hasThis, params).code, AddParams(hasThis, params[..i]))
    decreases |params|
  {
    if params == [] {
      assert params[..i] == params;
    } else {
      var before := params[..|params| - 1];
      AddParamsExtends(hasThis, before, if i < |params| then i else 0);
      AddParamKeepsValid(AddParams(hasThis, before), hasThis, params[|params| - 1], ArgumentCount(before));
      if i < |params| {
        assert before[..i] == params[..i];
      } else {
        assert params[..i] == params;
      }
    }
  }

  lemma {:induction false} NoErrorAt(params: seq<Param>, i: nat)
    requires CompileError(params).None? && i < |params|
    ensures ParamError(params[i]).None?
    decreases i
  {
    if i > 0 {
      NoErrorAt(params[1..], i - 1);
    }
  }

  /** The i-th parameter's code, in place in the finished body. */
  lemma ParamRunsAt(w: World, m: MethodInfo, i: nat, self: Value, remote: Value, args: Value, s: seq<Value>)
    requires CompileError(m.params).None? && i < |m.params| && (args.Array? || args.Null?)
    ensures var frame := Frame(m, self, remote, args);
            Exec(w, Compiled(m), frame, |AddParams(m.hasThis, m.params[..i]).code.instrs|, s) ==
            Continue(w, Compiled(m), frame, |AddParams(m.hasThis, m.params[..i + 1]).code.instrs|, s,
                     Bind(w, m.params[i], remote, args, SignedByte(ArgumentCount(m.params[..i]))))
  {
    var next := m.params[..i + 1];
    assert next[..i] == m.params[..i] && next[|next| - 1] == m.params[i] && next[..|next| - 1] == m.params[..i];
    AddParamsExtends(m.hasThis, m.params[..i], 0);
    AddParamsExtends(m.hasThis, m.params, i + 1);
    NoErrorAt(m.params, i);
    ParamRuns(w, m, Compiled(m), AddParams(m.hasThis, m.params[..i]), m.params[i], ArgumentCount(m.params[..i]),
              self, remote, args, s);
  }

  /** `outcome` throws the error of `bound` or is what running from `pc` with its values gives. */
  ghost predicate Pushes(w: World, c: Code, frame: seq<Value>, outcome: Outcome, pc: nat, s: seq<Value>, bound: Result<seq<Value>>) {
    match bound
    case Err(error) => outcome == Throw(error)
    case Ok(values) => outcome == Exec(w, c, frame, pc, s + values)
  }

  lemma PushesOneMore(w: World, c: Code, frame: seq<Value>, outcome: Outcome, next: Outcome, pc: nat, s: seq<Value>,
                      v: Result<Value>, rest: Result<seq<Value>>)
    requires if v.Err? then outcome == Throw(v.error)
             else outcome == next && Pushes(w, c, frame, next, pc, s + [v.value], rest)
    ensures Pushes(w, c, frame, outcome, pc, s, if v.Err? then Err(v.error) else if rest.Err? then rest else Ok([v.value] + rest.value))
  {
    if v.Ok? && rest.Ok? {
      assert s + [v.value] + rest.value == s + ([v.value] + rest.value);
    }
  }

  /** A value that is pushed, and what pushes the rest. */
  lemma PushesThen(w: World, c: Code, frame: seq<Value>, outcome: Outcome, n: nat, pc: nat, s: seq<Value>,
                   v: Result<Value>, rest: Result<seq<Value>>)
    requires outcome == Continue(w, c, frame, n, s, v)
    requires v.Ok? ==> Pushes(w, c, frame, Exec(w, c, frame, n, s + [v.value]), pc, s + [v.value], rest)
    ensures Pushes(w, c, frame, outcome, pc, s, if v.Err? then Err(v.error) else if rest.Err? then rest else Ok([v.value] + rest.value))
  {
    PushesOneMore(w, c, frame, outcome, if v.Ok? then Exec(w, c, frame, n, s + [v.value]) else outcome, pc, s, v, rest);
  }

  lemma BindAllStep(w: World, m: MethodInfo, i: nat, remote: Value, args: Value)
    requires i < |m.params| && (args.Array? || args.Null?)
    ensures var v := Bind(w, m.params[i], remote, args, SignedByte(ArgumentCount(m.params[..i])));
            var rest := BindAll(w, m.params[i + 1..], remote, args, ArgumentCount(m.params[..i + 1]), true);
            BindAll(w, m.params[i..], remote, args, ArgumentCount(m.params[..i]), true) ==
            if v.Err? then Err(v.error) else if rest.Err? then rest else Ok([v.value] + rest.value)
  {
    assert m.params[i..][0] == m.params[i] && m.params[i..][1..] == m.params[i + 1..];
    assert m.params[..i + 1] == m.params[..i] + [m.params[i]];
    ArgumentCountSnoc(m.params[..i], m.params[i]);
  }

  /** From the i-th parameter on, the code binds the remaining parameters in order. */
  lemma {:induction false} ParamsRun(w: World, m: MethodInfo, i: nat, self: Value, remote: Value, args: Value, s: seq<Value>)
    requires CompileError(m.params).None? && i <= |m.params| && (args.Array? || args.Null?)
    ensures var c, frame := Compiled(m), Frame(m, self, remote, args);
            Pushes(w, c, frame, Exec(w, c, frame, |AddParams(m.hasThis, m.params[..i]).code.instrs|, s),
                   |AddParams(m.hasThis, m.params).code.instrs|, s,
                   BindAll(w, m.params[i..], remote, args, ArgumentCount(m.params[..i]), true))
    decreases |m.params| - i
  {
    var c, frame := Compiled(m), Frame(m, self, remote, args);
    var pc, end := |AddParams(m.hasThis, m.params[..i]).code.instrs|, |AddParams(m.hasThis, m.params).code.instrs|;
    if i == |m.params| {
      assert m.params[..i] == m.params;
      assert s + [] == s;
    } else {
      var v := Bind(w, m.params[i], remote, args, SignedByte(ArgumentCount(m.params[..i])));
      var rest := BindAll(w, m.params[i + 1..], remote, args, ArgumentCount(m.params[..i + 1]), true);
      ParamRunsAt(w, m, i, self, remote, args, s);
      BindAllStep(w, m, i, remote, args);
      var outcome := Exec(w, c, frame, pc, s);
      var next := outcome;
      if v.Ok? {
        ParamsRun(w, m, i + 1, self, remote, args, s + [v.value]);
        next := Exec(w, c, frame, |AddParams(m.hasThis, m.params[..i + 1]).code.instrs|, s + [v.value]);
      }
      PushesOneMore(w, c, frame, outcome, next, end, s, v, rest);
    }
  }

  /** Calling and boxing at the end of a body. */
  lemma TailRuns(w: World, m: MethodInfo, c: Code, n: nat, frame: seq<Value>, self: Value, vs: seq<Value>)
    requires n + 3 == |c.instrs| && c.instrs[n..] == Tail(m) && |vs| == |m.params|
    ensures Exec(w, c, frame, n, (if m.hasThis then [self] else []) + vs) == Invoke(w, m, self, Ok(vs))
  {
    var s := (if m.hasThis then [self] else []) + vs;
    var f := c.instrs[n..];
    assert c.instrs[n] == f[0] && c.instrs[n + 1] == f[1] && c.instrs[n + 2] == f[2];
    var r := w.invoke(m, if m.hasThis then Some(self) else None, vs);
    CallRuns(w, m, c, n, frame, self, vs, s);
    if r.Ok? {
      var result := if m.ret.None? then Null else w.box(m.ret.value, r.value);
      var s1 := if m.ret.None? then [] else [r.value];
      assert s1 != [] ==> s1[..0] == [];
      assert Exec(w, c, frame, n + 1, s1) == Proceed(w, c, frame, n + 1, s1) == Exec(w, c, frame, n + 2, [result]);
    }
  }

  lemma CallRuns(w: World, m: MethodInfo, c: Code, n: nat, frame: seq<Value>, self: Value, vs: seq<Value>, s: seq<Value>)
    requires n < |c.instrs| && c.instrs[n] == CallMethod(m) && |vs| == |m.params| && s == (if m.hasThis then [self] else []) + vs
    ensures var r := w.invoke(m, if m.hasThis then Some(self) else None, vs);
            Exec(w, c, frame, n, s) ==
            if r.Err? then Throw(r.error) else Exec(w, c, frame, n + 1, if m.ret.None? then [] else [r.value])
  {
    assert s[|s| - |vs|..] == vs && s[..0] == [];
    var r := w.invoke(m, if m.hasThis then Some(self) else None, vs);
    assert [] + (if r.Ok? then [r.value] else []) == if r.Ok? then [r.value] else [];
    assert Exec(w, c, frame, n, s) == Proceed(w, c, frame, n, s);
  }

  /** Running the compiled body is calling the method with directly bound parameters, failures
      included, except that argument numbers are read as signed bytes. */
  lemma CompiledMeans(w: World, m: MethodInfo, self: Value, remote: Value, args: Value)
    requires CompileError(m.params).None? && (args.Array? || args.Null?)
    ensures Exec(w, Compiled(m), Frame(m, self, remote, args), 0, []) ==
            Invoke(w, m, self, BindAll(w, m.params, remote, args, 0, true))
  {
    var c, frame, s := Compiled(m), Frame(m, self, remote, args), if m.hasThis then [self] else [];
    var start := AddParams(m.hasThis, []).code.instrs;
    AddParamsExtends(m.hasThis, m.params, 0);
    assert m.params[..0] == [] && m.params[0..] == m.params;
    assert start <= c.instrs;
    if m.hasThis {
      assert c.instrs[0] == start[0];
      assert [] + [self] == [self];
    }
    assert Exec(w, c, frame, 0, []) == Exec(w, c, frame, |start|, s);
    ParamsRun(w, m, 0, self, remote, args, s);
    var bound := BindAll(w, m.params, remote, args, 0, true);
    if bound.Ok? {
      var n := |AddParams(m.hasThis, m.params).code.instrs|;
      assert c.instrs[n..] == Tail(m);
      TailRuns(w, m, c, n, frame, self, bound.value);
    }
  }

  // ---------------------------------------------------------------- how many arguments it can number

  const NUMBERABLE: nat := 128

  lemma {:induction false} FewArgumentsBind(w: World, params: seq<Param>, remote: Value, args: Value, k: nat)
    requires (args.Array? || args.Null?) && k + ArgumentCount(params) <= NUMBERABLE
    ensures BindAll(w, params, remote, args, k, true) == BindAll(w, params, remote, args, k, false)
    decreases |params|
  {
    if params != [] {
      FewArgumentsBind(w, params[1..], remote, args, if params[0].source then k else k + 1);
    }
  }

  /** A body with at most 128 numbered parameters, called with the values that its parameters get, passes
      them on and boxes what comes back. */
  lemma CallGoesThrough(w: World, m: MethodInfo, self: Value, remote: Value, args: Value, vs: seq<Value>)
    requires (forall i :: 0 <= i < |m.params| ==> Supported(m.params[i])) && ArgumentCount(m.params) <= NUMBERABLE
    requires (args.Array? || args.Null?) && EachGets(w, m.params, remote, args, 0, vs)
    ensures var answer := w.invoke(m, if m.hasThis then Some(self) else None, vs);
            Exec(w, Compiled(m), if m.hasThis then [self, remote, args] else [remote, args], 0, []) ==
            if answer.Err? then Throw(answer.error)
            else Return(if m.ret.Some? then w.box(m.ret.value, answer.value) else Null)
  {
    CompilesIffSupported(m.params);
    CompiledMeans(w, m, self, remote, args);
    FewArgumentsBind(w, m.params, remote, args, 0);
    BoundValuesIff(w, m.params, remote, args, 0, vs);
    assert Frame(m, self, remote, args) == if m.hasThis then [self, remote, args] else [remote, args];
  }

  /** From the 129th argument on, the number is negative. */
  lemma {:induction false} ManyArgumentsFail(w: World, params: seq<Param>, remote: Value, args: Value, k: nat)
    requires (args.Array? || args.Null?) && k <= NUMBERABLE < k + ArgumentCount(params)
    requires BindAll(w, params, remote, args, k, false).Ok?
    ensures BindAll(w, params, remote, args, k, true) == Err(IndexOutOfRange)
    decreases |params|
  {
    if params[0].source || k < NUMBERABLE {
      var next := if params[0].source then k else k + 1;
      RestBinds(w, params, remote, args, k);
      ManyArgumentsFail(w, params[1..], remote, args, next);
      RestFails(w, params, remote, args, k);
    } else {
      assert Bind(w, params[0], remote, args, SignedByte(k)) == Err(IndexOutOfRange);
    }
  }

  lemma RestBinds(w: World, params: seq<Param>, remote: Value, args: Value, k: nat)
    requires params != [] && (args.Array? || args.Null?) && BindAll(w, params, remote, args, k, false).Ok?
    ensures Bind(w, params[0], remote, args, k).Ok?
    ensures BindAll(w, params[1..], remote, args, if params[0].source then k else k + 1, false).Ok?
  {
  }

  lemma RestFails(w: World, params: seq<Param>, remote: Value, args: Value, k: nat)
    requires params != [] && (args.Array? || args.Null?) && (params[0].source || k < NUMBERABLE)
    requires Bind(w, params[0], remote, args, k).Ok?
    requires BindAll(w, params[1..], remote, args, if params[0].source then k else k + 1, true) == Err(IndexOutOfRange)
    ensures BindAll(w, params, remote, args, k, true) == Err(IndexOutOfRange)
  {
    assert Bind(w, params[0], remote, args, SignedByte(k)).Ok?;
  }

  /** The compiled body agrees with direct binding in every world and on every call. */
  ghost predicate BindsDirectly(m: MethodInfo) {
    forall w: World, self, remote, args: Value :: args.Array? || args.Null? ==>
      Exec(w, Compiled(m), Frame(m, self, remote, args), 0, []) ==
      Invoke(w, m, self, BindAll(w, m.params, remote, args, 0, false))
  }

  lemma {:induction false} PlainWorldBinds(params: seq<Param>, args: Value, k: nat)
    requires args.Array? && k + ArgumentCount(params) <= |args.elems| && forall v :: v in args.elems ==> v == Null
    ensures BindAll(PlainWorld(), params, Null, args, k, false).Ok?
    decreases |params|
  {
    if params != [] {
      assert !params[0].source ==> args.elems[k] in args.elems;
      assert Bind(PlainWorld(), params[0], Null, args, k).Ok?;
      PlainWorldBinds(params[1..], args, if params[0].source then k else k + 1);
    }
  }

  /** Past 128 arguments, every call that direct binding would complete throws instead. */
  lemma ManyArgumentsThrow(w: World, m: MethodInfo, self: Value, remote: Value, args: Value)
    requires CompileError(m.params).None? && (args.Array? || args.Null?)
    requires ArgumentCount(m.params) > NUMBERABLE && BindAll(w, m.params, remote, args, 0, false).Ok?
    ensures Exec(w, Compiled(m), Frame(m, self, remote, args), 0, []) == Throw(IndexOutOfRange)
  {
    CompiledMeans(w, m, self, remote, args);
    ManyArgumentsFail(w, m.params, remote, args, 0);
  }

  /** A compilable signature is bound as direct binding would bind it exactly when it takes at
      most 128 arguments besides its source parameters. */
  lemma BindsDirectlyIffNumberable(m: MethodInfo)
    requires CompileError(m.params).None?
    ensures BindsDirectly(m) <==> ArgumentCount(m.params) <= NUMBERABLE
  {
    if ArgumentCount(m.params) <= NUMBERABLE {
      forall w: World, self, remote, args: Value | args.Array? || args.Null?
        ensures Exec(w, Compiled(m), Frame(m, self, remote, args), 0, []) ==
                Invoke(w, m, self, BindAll(w, m.params, remote, args, 0, false))
      {
        CompiledMeans(w, m, self, remote, args);
        FewArgumentsBind(w, m.params, remote, args, 0);
      }
    } else {
      var w: World := PlainWorld();
      var args := Array(seq(ArgumentCount(m.params), i => Null));
      PlainWorldBinds(m.params, args, 0);
      ManyArgumentsThrow(w, m, Null, Null, args);
      assert Invoke(w, m, Null, BindAll(w, m.params, Null, args, 0, false)).Return?;
    }
  }
}
