/** Remapped command handlers, and the two caches that all wrappers share. */
module DynFuncCommands {
  import opened Sequences
  import opened Options
  import opened Clr
  import opened DynFuncCompiler

  // ---------------------------------------------------------------- remapped binding

  /** Commands are called with (source, arguments, raw text); each parameter picks one of them. */
  function BindCommand(w: World, prm: Param, args: Value): Result<Value>
    requires args.Array? || args.Null?
  {
    if prm.source then
      match Element(args, 0)
      case Err(e) => Err(e)
      case Ok(v) =>
        match w.convert(UInt16, v)
        case Err(e) => Err(e)
        case Ok(n) => BindSource(w, prm.t, n)
    else
      match Element(args, if prm.t == StringType then 2 else 1)
      case Err(e) => Err(e)
      case Ok(v) => if prm.t == StringArray then w.toStrings(v) else Ok(v)
  }

  /** A 16-bit source number as the wanted type. */
  function BindSource(w: World, t: ClrType, n: Value): Result<Value>
    requires n.Int?
  {
    if t == Prim(Boolean) then Ok(Int(if AsUnsigned(n.i) == 0 then 0 else 1))
    else if t.Prim? then Ok(n)
    else if t == RemoteType then Ok(w.createRemote(n))
    else w.construct(t, w.createRemote(n))
  }

  function BindCommandAll(w: World, params: seq<Param>, args: Value): (r: Result<seq<Value>>)
    requires args.Array? || args.Null?
    ensures r.Ok? ==> |r.value| == |params|
    decreases |params|
  {
    if params == [] then Ok([])
    else
      match BindCommand(w, params[0], args)
      case Err(e) => Err(e)
      case Ok(v) =>
        match BindCommandAll(w, params[1..], args)
        case Err(e) => Err(e)
        case Ok(vs) => Ok([v] + vs)
  }

  function CommandError(prm: Param): Option<Exception> {
    if prm.source then
      if prm.t in {Prim(Int32), Prim(UInt32), Prim(UInt16), Prim(Boolean), RemoteType} || HasRemoteConstructor(prm.t)
      then None else Some(Argument(prm.t))
    else if prm.t in {ObjectArray, StringArray, StringType} then None
    else Some(TargetParameterCount(prm.t))
  }

  function CommandCompileError(params: seq<Param>): Option<Exception>
    decreases |params|
  {
    if params == [] then None
    else if CommandError(params[0]).Some? then CommandError(params[0])
    else CommandCompileError(params[1..])
  }

  /** A source parameter is one of the three integer types, a bool, a Remote or made from a Remote; any
      other is the arguments, as objects or strings, or the raw text. */
  predicate CommandSupported(prm: Param) {
    match prm.t
    case RemoteType => prm.source
    case Prim(p) => prm.source && (p == Int32 || p == UInt32 || p == UInt16 || p == Boolean)
    case Struct(_, fromRemote) => prm.source && fromRemote
    case Class(_, fromRemote) => prm.source && fromRemote
    case ObjectArray => !prm.source
    case StringArray => !prm.source
    case StringType => !prm.source
    case _ => false
  }

  ghost predicate NamesFirstUnsupportedCommand(params: seq<Param>, e: Exception) {
    exists i :: 0 <= i < |params| && NamesFirstUnsupportedCommandAt(params, e, i)
  }

  ghost predicate NamesFirstUnsupportedCommandAt(params: seq<Param>, e: Exception, i: nat)
    requires i < |params|
  {
    && !CommandSupported(params[i]) && (forall j :: 0 <= j < i ==> CommandSupported(params[j]))
    && e == if params[i].source then Argument(params[i].t) else TargetParameterCount(params[i].t)
  }

  lemma {:induction false} CommandCompilesIffSupported(params: seq<Param>)
    ensures CommandCompileError(params).None? <==> forall i :: 0 <= i < |params| ==> CommandSupported(params[i])
    ensures CommandCompileError(params).Some? ==> NamesFirstUnsupportedCommand(params, CommandCompileError(params).value)
    decreases |params|
  {
    if params != [] && !CommandSupported(params[0]) {
      assert NamesFirstUnsupportedCommandAt(params, CommandCompileError(params).value, 0);
    } else if params != [] {
      CommandCompilesIffSupported(params[1..]);
      CommandSupportedRest(params);
      if CommandCompileError(params).Some? {
        var e := CommandCompileError(params).value;
        var i :| 0 <= i < |params[1..]| && NamesFirstUnsupportedCommandAt(params[1..], e, i);
        NamesFirstUnsupportedCommandLater(params, e, i);
      }
    }
  }

  lemma CommandSupportedRest(params: seq<Param>)
    requires params != [] && CommandSupported(params[0])
    ensures (forall i :: 0 <= i < |params| ==> CommandSupported(params[i])) <==> forall i :: 0 <= i < |params[1..]| ==> CommandSupported(params[1..][i])
  {
    assert forall i :: 0 < i < |params| ==> params[i] == params[1..][i - 1];
    assert forall i :: 0 <= i < |params[1..]| ==> params[1..][i] == params[i + 1];
  }

  lemma NamesFirstUnsupportedCommandLater(params: seq<Param>, e: Exception, i: nat)
    requires params != [] && CommandSupported(params[0]) && i < |params[1..]| && NamesFirstUnsupportedCommandAt(params[1..], e, i)
    ensures NamesFirstUnsupportedCommandAt(params, e, i + 1)
  {
    assert forall j :: 0 < j < |params| ==> params[j] == params[1..][j - 1];
  }

  /** What a command's parameter gets, the arguments being (source, arguments, raw text). */
  ghost predicate CommandGets(w: World, prm: Param, source: Value, arguments: Value, raw: Value, v: Value) {
    if !prm.source then
      match prm.t
      case StringType => v == raw
      case StringArray => w.toStrings(arguments) == Ok(v)
      case _ => v == arguments
    else
      w.convert(UInt16, source).Ok?
      && var n := w.convert(UInt16, source).value;
         match prm.t
         case RemoteType => v == w.createRemote(n)
         case Prim(p) => v == if p == Boolean then Int(if n.i % 0x1_0000_0000 == 0 then 0 else 1) else n
         case _ => w.construct(prm.t, w.createRemote(n)) == Ok(v)
  }

  /** When a command is called with its three arguments, remapped binding gives these values exactly when
      they are what the parameters' types ask for. */
  lemma {:induction false} CommandValuesIff(w: World, params: seq<Param>, source: Value, arguments: Value, raw: Value, vs: seq<Value>)
    ensures BindCommandAll(w, params, Array([source, arguments, raw])) == Ok(vs) <==>
              |vs| == |params| && forall i :: 0 <= i < |params| ==> CommandGets(w, params[i], source, arguments, raw, vs[i])
    decreases |params|
  {
    if params != [] && vs != [] {
      var args, v, rest := Array([source, arguments, raw]), vs[0], vs[1..];
      CommandValuesIff(w, params[1..], source, arguments, raw, rest);
      assert BindCommand(w, params[0], args) == Ok(v) <==> CommandGets(w, params[0], source, arguments, raw, v);
      assert vs == [v] + rest;
      assert forall i :: 0 < i < |params| ==> params[i] == params[1..][i - 1];
      assert forall i :: 0 < i < |vs| ==> vs[i] == rest[i - 1];
      if |vs| == |params| && CommandGets(w, params[0], source, arguments, raw, v) {
        if forall i :: 0 <= i < |rest| ==> CommandGets(w, params[1..][i], source, arguments, raw, rest[i]) {
          forall i | 0 <= i < |params| ensures CommandGets(w, params[i], source, arguments, raw, vs[i]) {
            assert i > 0 ==> CommandGets(w, params[1..][i - 1], source, arguments, raw, rest[i - 1]);
          }
        }
        if forall i :: 0 <= i < |params| ==> CommandGets(w, params[i], source, arguments, raw, vs[i]) {
          forall i | 0 <= i < |rest| ensures CommandGets(w, params[1..][i], source, arguments, raw, rest[i]) {
            assert CommandGets(w, params[i + 1], source, arguments, raw, vs[i + 1]);
          }
        }
      }
    }
  }

  // ---------------------------------------------------------------- remapped code

  function SourceFetch(hasThis: bool): seq<Instr> {
    [Ldarg(ArgsArg(hasThis)), LdcI4Zero, LdelemRef, CallHelper(ConvertTo(UInt16))]
  }

  function NumberedFetch(hasThis: bool, n: nat): seq<Instr> {
    [Ldarg(ArgsArg(hasThis)), LdcI4S(n), Nop, Nop, Nop, LdelemRef]
  }

  function SourceConversion(t: ClrType): seq<Instr> {
    if t == Prim(Boolean) then [LdcI4Zero, CgtUn]
    else if t.Prim? then []
    else if t == RemoteType then [CallHelper(RemoteCreate)]
    else [CallHelper(RemoteCreate), Newobj(t)]
  }

  function CommandParam(hasThis: bool, prm: Param): seq<Instr> {
    if prm.source then SourceFetch(hasThis) + SourceConversion(prm.t)
    else if prm.t == StringType then NumberedFetch(hasThis, 2)
    else NumberedFetch(hasThis, 1) + if prm.t == StringArray then [CallHelper(ToStringArray)] else []
  }

  function CommandParams(hasThis: bool, params: seq<Param>): seq<Instr>
    decreases |params|
  {
    if params == [] then [] else CommandParam(hasThis, params[0]) + CommandParams(hasThis, params[1..])
  }

  function CommandCompiled(m: MethodInfo): Code {
    Code((if m.hasThis then [Ldarg(0)] else []) + CommandParams(m.hasThis, m.params) + Tail(m), map[], [])
  }

  method EmitCommandParameter(g: ILGenerator, hasThis: bool, prm: Param) returns (error: Option<Exception>)
    modifies g`instrs
    ensures error == CommandError(prm)
    ensures error.None? ==> g.instrs == old(g.instrs) + CommandParam(hasThis, prm)
  {
    var t := prm.t;
    error := None;
    if prm.source {
      g.Emit(Ldarg(ArgsArg(hasThis)));
      g.Emit(LdcI4Zero);
      g.Emit(LdelemRef);
      g.Emit(CallHelper(ConvertTo(UInt16)));
      assert g.instrs == old(g.instrs) + SourceFetch(hasThis);
      if t.Prim? {
        if t == Prim(Int32) || t == Prim(UInt32) || t == Prim(UInt16) {
          return;
        } else if t == Prim(Boolean) {
          g.Emit(LdcI4Zero);
          g.Emit(CgtUn);
          return;
        }
      } else if t == RemoteType {
        g.Emit(CallHelper(RemoteCreate));
        return;
      } else if HasRemoteConstructor(t) {
        g.Emit(CallHelper(RemoteCreate));
        g.Emit(Newobj(t));
        return;
      }
      return Some(Argument(t));
    } else if t == ObjectArray {
      EmitNumberedFetch(g, hasThis, 1);
    } else if t == StringArray {
      EmitNumberedFetch(g, hasThis, 1);
      g.Emit(CallHelper(ToStringArray));
    } else if t == StringType {
      EmitNumberedFetch(g, hasThis, 2);
    } else {
      return Some(TargetParameterCount(t));
    }
  }

  method EmitNumberedFetch(g: ILGenerator, hasThis: bool, n: nat)
    requires n < 128
    modifies g`instrs
    ensures g.instrs == old(g.instrs) + NumberedFetch(hasThis, n)
  {
    g.Emit(Ldarg(ArgsArg(hasThis)));
    g.EmitInt(n);
    g.Emit(LdelemRef);
  }

  method EmitCommandParameters(g: ILGenerator, m: MethodInfo) returns (error: Option<Exception>)
    modifies g`instrs
    ensures error == CommandCompileError(m.params)
    ensures error.None? ==> g.instrs == old(g.instrs) + CommandParams(m.hasThis, m.params)
  {
    ghost var start, whole := g.instrs, CommandParams(m.hasThis, m.params);
    var i := 0;
    while i < |m.params|
      invariant 0 <= i <= |m.params|
      invariant CommandCompileError(m.params) == CommandCompileError(m.params[i..])
      invariant g.instrs + CommandParams(m.hasThis, m.params[i..]) == start + whole
    {
      ghost var done, rest := g.instrs, m.params[i..];
      assert rest[0] == m.params[i] && rest[1..] == m.params[i + 1..];
      error := EmitCommandParameter(g, m.hasThis, m.params[i]);
      if error.Some? {
        return;
      }
      Regroup(done, CommandParam(m.hasThis, m.params[i]), CommandParams(m.hasThis, m.params[i + 1..]));
      i := i + 1;
    }
    assert g.instrs + [] == g.instrs;
    error := None;
  }

  method EmittedCommand(m: MethodInfo) returns (r: Result<Code>)
    ensures r == if CommandCompileError(m.params).Some? then Err(CommandCompileError(m.params).value)
                 else Ok(CommandCompiled(m))
    ensures r.Ok? <==> forall i :: 0 <= i < |m.params| ==> CommandSupported(m.params[i])
    ensures r.Err? ==> NamesFirstUnsupportedCommand(m.params, r.error)
  {
    CommandCompilesIffSupported(m.params);
    var g := new ILGenerator();
    assert g.State() == EMPTY_GEN;
    if m.hasThis {
      g.Emit(Ldarg(0));
    }
    var error := EmitCommandParameters(g, m);
    if error.Some? {
      return Err(error.value);
    }
    ghost var body := g.instrs;
    g.Emit(CallMethod(m));
    if m.ret.None? {
      g.Emit(Ldnull);
    } else {
      g.Emit(Box(m.ret.value));
    }
    g.Emit(Ret);
    assert g.instrs == body + Tail(m);
    assert body == (if m.hasThis then [Ldarg(0)] else []) + CommandParams(m.hasThis, m.params);
    assert g.labels == map[] && g.locals == [];
    return Ok(g.State().code);
  }

  // ---------------------------------------------------------------- what remapped code means

  /** `code` stands in `c` from position `n` on. */
  ghost predicate Has(c: Code, n: nat, code: seq<Instr>) {
    match c
    case Code(instrs, _, _) => n + |code| <= |instrs| && instrs[n..n + |code|] == code
  }

  lemma HasAt(c: Code, n: nat, code: seq<Instr>)
    requires Has(c, n, code)
    ensures n + |code| <= |c.instrs| && forall k :: 0 <= k < |code| ==> c.instrs[n + k] == code[k]
  {
    var here := c.instrs[n..n + |code|];
    assert forall k :: 0 <= k < |code| ==> here[k] == c.instrs[n + k];
  }

  lemma HasParts(c: Code, n: nat, a: seq<Instr>, b: seq<Instr>)
    requires Has(c, n, a + b)
    ensures Has(c, n, a) && Has(c, n + |a|, b)
  {
    var here := c.instrs[n..n + |a| + |b|];
    assert c.instrs[n..n + |a|] == here[..|a|] == a;
    assert c.instrs[n + |a|..n + |a| + |b|] == here[|a|..] == b;
  }

  lemma SourceFetchRuns(w: World, m: MethodInfo, c: Code, n: nat, self: Value, remote: Value, args: Value, s: seq<Value>)
    requires Has(c, n, SourceFetch(m.hasThis))
    requires args.Array? || args.Null?
    ensures var frame := Frame(m, self, remote, args);
            var e := Element(args, 0);
            Exec(w, c, frame, n, s) ==
            if e.Err? then Throw(e.error) else Continue(w, c, frame, n + 4, s, w.convert(UInt16, e.value))
  {
    var frame := Frame(m, self, remote, args);
    var f := SourceFetch(m.hasThis);
    HasAt(c, n, f);
    assert c.instrs[n] == f[0] && c.instrs[n + 1] == f[1] && c.instrs[n + 2] == f[2] && c.instrs[n + 3] == f[3];
    var s1 := s + [args];
    var s2 := s1 + [Int(0)];
    assert Exec(w, c, frame, n, s) == Exec(w, c, frame, n + 1, s1);
    assert Exec(w, c, frame, n + 1, s1) == Exec(w, c, frame, n + 2, s2);
    ElementRuns(w, c, frame, n + 2, s, args, 0);
    var e := Element(args, 0);
    if e.Ok? {
      ConvertRuns(w, c, frame, n + 3, s, e.value);
    }
  }

  lemma ConvertRuns(w: World, c: Code, frame: seq<Value>, n: nat, s: seq<Value>, x: Value)
    requires n < |c.instrs| && c.instrs[n] == CallHelper(ConvertTo(UInt16))
    ensures Exec(w, c, frame, n, s + [x]) == Continue(w, c, frame, n + 1, s, w.convert(UInt16, x))
  {
    var s1 := s + [x];
    assert s1[..|s1| - 1] == s;
    assert Exec(w, c, frame, n, s1) == Proceed(w, c, frame, n, s1);
  }

  lemma NumberedFetchRuns(w: World, m: MethodInfo, c: Code, n: nat, k: nat, self: Value, remote: Value, args: Value, s: seq<Value>)
    requires Has(c, n, NumberedFetch(m.hasThis, k)) && k < 128
    requires args.Array? || args.Null?
    ensures var frame := Frame(m, self, remote, args);
            Exec(w, c, frame, n, s) == Continue(w, c, frame, n + 6, s, Element(args, k))
  {
    var frame := Frame(m, self, remote, args);
    var f := NumberedFetch(m.hasThis, k);
    HasAt(c, n, f);
    assert c.instrs[n] == f[0] && c.instrs[n + 1] == f[1] && c.instrs[n + 2] == f[2] && c.instrs[n + 3] == f[3]
        && c.instrs[n + 4] == f[4] && c.instrs[n + 5] == f[5];
    var s1 := s + [args];
    var s2 := s1 + [Int(k)];
    assert Exec(w, c, frame, n, s) == Exec(w, c, frame, n + 1, s1);
    assert Exec(w, c, frame, n + 1, s1) == Exec(w, c, frame, n + 2, s2);
    NopsRun(w, c, frame, n + 2, s2);
    ElementRuns(w, c, frame, n + 5, s, args, k);
  }

  lemma NopsRun(w: World, c: Code, frame: seq<Value>, n: nat, s: seq<Value>)
    requires n + 3 < |c.instrs| && c.instrs[n] == c.instrs[n + 1] == c.instrs[n + 2] == Nop
    ensures Exec(w, c, frame, n, s) == Exec(w, c, frame, n + 3, s)
  {
    assert Exec(w, c, frame, n + 1, s) == Exec(w, c, frame, n + 2, s);
  }

  lemma ElementRuns(w: World, c: Code, frame: seq<Value>, n: nat, s: seq<Value>, args: Value, k: int)
    requires n < |c.instrs| && c.instrs[n] == LdelemRef && (args.Array? || args.Null?)
    ensures Exec(w, c, frame, n, s + [args] + [Int(k)]) == Continue(w, c, frame, n + 1, s, Element(args, k))
  {
    var s2 := s + [args] + [Int(k)];
    assert s2[..|s2| - 2] == s && s2[|s2| - 2] == args;
  }

  lemma SourceConversionRuns(w: World, c: Code, frame: seq<Value>, n: nat, prm: Param, s: seq<Value>, v: Value)
    requires prm.source && CommandError(prm).None? && v.Int?
    requires Has(c, n, SourceConversion(prm.t))
    ensures Exec(w, c, frame, n, s + [v]) ==
            Continue(w, c, frame, n + |SourceConversion(prm.t)|, s, BindSource(w, prm.t, v))
  {
    var conv := SourceConversion(prm.t);
    HasAt(c, n, conv);
    assert |conv| >= 1 ==> c.instrs[n] == conv[0];
    assert |conv| >= 2 ==> c.instrs[n + 1] == conv[1];
    var s1 := s + [v];
    assert s1[..|s1| - 1] == s;
    if prm.t == Prim(Boolean) {
      assert c.instrs[n] == LdcI4Zero && c.instrs[n + 1] == CgtUn;
      var s2 := s1 + [Int(0)];
      assert s2[..|s2| - 2] == s && s2[|s2| - 2] == v;
      assert Exec(w, c, frame, n, s1) == Exec(w, c, frame, n + 1, s2);
      assert Exec(w, c, frame, n + 1, s2) == Proceed(w, c, frame, n + 1, s2);
    } else if !prm.t.Prim? {
      assert c.instrs[n] == CallHelper(RemoteCreate);
      assert Exec(w, c, frame, n, s1) == Proceed(w, c, frame, n, s1);
      if prm.t != RemoteType {
        assert c.instrs[n + 1] == Newobj(prm.t);
        var s2 := s + [w.createRemote(v)];
        assert s2[..|s2| - 1] == s;
        assert Exec(w, c, frame, n, s1) == Exec(w, c, frame, n + 1, s2);
        assert Exec(w, c, frame, n + 1, s2) == Proceed(w, c, frame, n + 1, s2);
      }
    }
  }

  lemma CommandParamRuns(w: World, m: MethodInfo, c: Code, n: nat, prm: Param, self: Value, remote: Value, args: Value, s: seq<Value>)
    requires CommandError(prm).None? && (args.Array? || args.Null?)
    requires Has(c, n, CommandParam(m.hasThis, prm))
    ensures var frame := Frame(m, self, remote, args);
            Exec(w, c, frame, n, s) ==
            Continue(w, c, frame, n + |CommandParam(m.hasThis, prm)|, s, BindCommand(w, prm, args))
  {
    if prm.source {
      CommandSourceRuns(w, m, c, n, prm, self, remote, args, s);
    } else {
      CommandArgumentRuns(w, m, c, n, prm, self, remote, args, s);
    }
  }

  lemma CommandArgumentRuns(w: World, m: MethodInfo, c: Code, n: nat, prm: Param, self: Value, remote: Value, args: Value, s: seq<Value>)
    requires !prm.source && CommandError(prm).None? && (args.Array? || args.Null?)
    requires Has(c, n, CommandParam(m.hasThis, prm))
    ensures var frame := Frame(m, self, remote, args);
            Exec(w, c, frame, n, s) ==
            Continue(w, c, frame, n + |CommandParam(m.hasThis, prm)|, s, BindCommand(w, prm, args))
  {
    var k := if prm.t == StringType then 2 else 1;
    var rest := if prm.t == StringArray then [CallHelper(ToStringArray)] else [];
    assert CommandParam(m.hasThis, prm) == NumberedFetch(m.hasThis, k) + rest;
    HasParts(c, n, NumberedFetch(m.hasThis, k), rest);
    NumberedFetchRuns(w, m, c, n, k, self, remote, args, s);
    if prm.t == StringArray && Element(args, k).Ok? {
      HasAt(c, n + 6, rest);
      assert c.instrs[n + 6] == rest[0];
      StringsRun(w, c, Frame(m, self, remote, args), n + 6, s, Element(args, k).value);
    }
  }

  lemma StringsRun(w: World, c: Code, frame: seq<Value>, n: nat, s: seq<Value>, x: Value)
    requires n < |c.instrs| && c.instrs[n] == CallHelper(ToStringArray)
    ensures Exec(w, c, frame, n, s + [x]) == Proceed(w, c, frame, n, s + [x]) && (s + [x])[..|s|] == s
  {
  }

  lemma CommandSourceRuns(w: World, m: MethodInfo, c: Code, n: nat, prm: Param, self: Value, remote: Value, args: Value, s: seq<Value>)
    requires prm.source && CommandError(prm).None? && (args.Array? || args.Null?)
    requires Has(c, n, CommandParam(m.hasThis, prm))
    ensures var frame := Frame(m, self, remote, args);
            Exec(w, c, frame, n, s) ==
            Continue(w, c, frame, n + |CommandParam(m.hasThis, prm)|, s, BindCommand(w, prm, args))
  {
    HasParts(c, n, SourceFetch(m.hasThis), SourceConversion(prm.t));
    SourceFetchRuns(w, m, c, n, self, remote, args, s);
    var e := Element(args, 0);
    if e.Ok? && w.convert(UInt16, e.value).Ok? {
      SourceConversionRuns(w, c, Frame(m, self, remote, args), n + 4, prm, s, w.convert(UInt16, e.value).value);
    }
  }

  lemma FirstParam(hasThis: bool, params: seq<Param>)
    requires params != []
    ensures CommandParams(hasThis, params) == CommandParam(hasThis, params[0]) + CommandParams(hasThis, params[1..])
  {
  }

  lemma FirstPlaced(c: Code, n: nat, hasThis: bool, params: seq<Param>, code: seq<Instr>)
    returns (first: seq<Instr>, rest: seq<Instr>)
    requires params != [] && code == CommandParams(hasThis, params) && Has(c, n, code)
    ensures first == CommandParam(hasThis, params[0]) && rest == CommandParams(hasThis, params[1..])
    ensures Has(c, n, first) && Has(c, n + |first|, rest) && |code| == |first| + |rest|
  {
    first, rest := CommandParam(hasThis, params[0]), CommandParams(hasThis, params[1..]);
    FirstParam(hasThis, params);
    HasParts(c, n, first, rest);
  }

  lemma {:induction false} CommandParamsRun(w: World, m: MethodInfo, c: Code, n: nat, params: seq<Param>, code: seq<Instr>,
                                            self: Value, remote: Value, args: Value, s: seq<Value>)
    requires CommandCompileError(params).None? && (args.Array? || args.Null?)
    requires code == CommandParams(m.hasThis, params) && Has(c, n, code)
    ensures var frame := Frame(m, self, remote, args);
            Pushes(w, c, frame, Exec(w, c, frame, n, s), n + |code|, s, BindCommandAll(w, params, args))
    decreases |params|
  {
    if params == [] {
      assert s + [] == s;
    } else {
      var frame, v := Frame(m, self, remote, args), BindCommand(w, params[0], args);
      var pc, rest := FirstParamRuns(w, m, c, n, params, code, self, remote, args, s);
      if v.Ok? {
        CommandParamsRun(w, m, c, pc, params[1..], rest, self, remote, args, s + [v.value]);
      }
      CommandParamThen(w, c, frame, n, pc, params, n + |code|, args, s, v);
    }
  }

  lemma FirstParamRuns(w: World, m: MethodInfo, c: Code, n: nat, params: seq<Param>, code: seq<Instr>,
                       self: Value, remote: Value, args: Value, s: seq<Value>) returns (pc: nat, rest: seq<Instr>)
    requires params != [] && CommandCompileError(params).None? && (args.Array? || args.Null?)
    requires code == CommandParams(m.hasThis, params) && Has(c, n, code)
    ensures var frame := Frame(m, self, remote, args);
            Exec(w, c, frame, n, s) == Continue(w, c, frame, pc, s, BindCommand(w, params[0], args))
    ensures CommandCompileError(params[1..]).None? && rest == CommandParams(m.hasThis, params[1..])
    ensures Has(c, pc, rest) && pc + |rest| == n + |code|
  {
    var first;
    first, rest := FirstPlaced(c, n, m.hasThis, params, code);
    pc := n + |first|;
    CommandParamRuns(w, m, c, n, params[0], self, remote, args, s);
  }

  /** One parameter, and then what the code after it pushes. */
  lemma CommandParamThen(w: World, c: Code, frame: seq<Value>, n: nat, pc: nat, params: seq<Param>, end: nat,
                         args: Value, s: seq<Value>, v: Result<Value>)
    requires params != [] && (args.Array? || args.Null?) && v == BindCommand(w, params[0], args)
    requires Exec(w, c, frame, n, s) == Continue(w, c, frame, pc, s, v)
    requires v.Ok? ==> Pushes(w, c, frame, Exec(w, c, frame, pc, s + [v.value]), end, s + [v.value], BindCommandAll(w, params[1..], args))
    ensures Pushes(w, c, frame, Exec(w, c, frame, n, s), end, s, BindCommandAll(w, params, args))
  {
    BindCommandStep(w, params, args);
    PushesThen(w, c, frame, Exec(w, c, frame, n, s), pc, end, s, v, BindCommandAll(w, params[1..], args));
  }

  lemma BindCommandStep(w: World, params: seq<Param>, args: Value)
    requires params != [] && (args.Array? || args.Null?)
    ensures var v, rest := BindCommand(w, params[0], args), BindCommandAll(w, params[1..], args);
            BindCommandAll(w, params, args) ==
            if v.Err? then Err(v.error) else if rest.Err? then rest else Ok([v.value] + rest.value)
  {
  }

  /** A remapped body binds (source, arguments, raw text) as documented and calls the method. */
  lemma CommandCompiledMeans(w: World, m: MethodInfo, self: Value, remote: Value, args: Value)
    requires CommandCompileError(m.params).None? && (args.Array? || args.Null?)
    ensures Exec(w, CommandCompiled(m), Frame(m, self, remote, args), 0, []) ==
            Invoke(w, m, self, BindCommandAll(w, m.params, args))
  {
    var c, frame, s := CommandCompiled(m), Frame(m, self, remote, args), if m.hasThis then [self] else [];
    var n, params := |s|, CommandParams(m.hasThis, m.params);
    if m.hasThis {
      assert c.instrs[0] == Ldarg(0);
      assert [] + [self] == [self];
    }
    assert Exec(w, c, frame, 0, []) == Exec(w, c, frame, n, s);
    assert Has(c, n, params);
    CommandParamsRun(w, m, c, n, m.params, params, self, remote, args, s);
    var bound := BindCommandAll(w, m.params, args);
    if bound.Ok? {
      assert c.instrs[n + |params|..] == Tail(m);
      TailRuns(w, m, c, n + |params|, frame, self, bound.value);
    }
  }

  /** A remapped body called with (source, arguments, raw text) passes on the values that its parameters
      get and boxes what comes back. */
  lemma CommandGoesThrough(w: World, m: MethodInfo, self: Value, remote: Value, source: Value, arguments: Value, raw: Value, vs: seq<Value>)
    requires forall i :: 0 <= i < |m.params| ==> CommandSupported(m.params[i])
    requires |vs| == |m.params| && forall i :: 0 <= i < |m.params| ==> CommandGets(w, m.params[i], source, arguments, raw, vs[i])
    ensures var args := Array([source, arguments, raw]);
            var answer := w.invoke(m, if m.hasThis then Some(self) else None, vs);
            Exec(w, CommandCompiled(m), if m.hasThis then [self, remote, args] else [remote, args], 0, []) ==
            if answer.Err? then Throw(answer.error)
            else Return(if m.ret.Some? then w.box(m.ret.value, answer.value) else Null)
  {
    var args := Array([source, arguments, raw]);
    CommandCompilesIffSupported(m.params);
    CommandCompiledMeans(w, m, self, remote, args);
    CommandValuesIff(w, m.params, source, arguments, raw, vs);
    assert Frame(m, self, remote, args) == if m.hasThis then [self, remote, args] else [remote, args];
  }
}

module DynFuncCaches {
  import opened Options
  import opened Clr
  import opened DynFuncCompiler
  import opened DynFuncCommands

  datatype Kind = Direct | Remapped

  function Body(kind: Kind, m: MethodInfo): Result<Code> {
    match kind
    case Direct =>
      if CompileError(m.params).Some? then Err(CompileError(m.params).value) else Ok(Compiled(m))
    case Remapped =>
      if CommandCompileError(m.params).Some? then Err(CommandCompileError(m.params).value) else Ok(CommandCompiled(m))
  }

  /** A generated method, told apart from all others by its number. */
  datatype Wrapper = Wrapper(id: nat, code: Code)

  datatype DynFunc = DynFunc(wrapper: Wrapper, target: Option<Value>)

  /** `wrapped` finds the wrapper of a method, `dynfuncs` the method behind a wrapper. */
  datatype Caches = Caches(wrapped: map<MethodInfo, Wrapper>, dynfuncs: map<Wrapper, MethodInfo>, created: nat)

  const NO_WRAPPERS := Caches(map[], map[], 0)

  /** The two tables are each other's inverses. */
  ghost predicate Paired(c: Caches) {
    && (forall m :: m in c.wrapped ==> c.wrapped[m] in c.dynfuncs && c.dynfuncs[c.wrapped[m]] == m)
    && (forall x :: x in c.dynfuncs ==> c.dynfuncs[x] in c.wrapped && c.wrapped[c.dynfuncs[x]] == x)
    && (forall x :: x in c.dynfuncs ==> x.id < c.created)
  }

  /** One request for a wrapper: a method that already has one keeps it, whatever its kind. */
  function Request(c: Caches, kind: Kind, m: MethodInfo): (Caches, Result<Wrapper>) {
    if m in c.wrapped then (c, Ok(c.wrapped[m]))
    else match Body(kind, m)
      case Err(e) => (c, Err(e))
      case Ok(code) =>
        var x := Wrapper(c.created, code);
        (Caches(c.wrapped[m := x], c.dynfuncs[x := m], c.created + 1), Ok(x))
  }

  class Func {
    var wrappedMethods: map<MethodInfo, Wrapper>
    var dynfuncMethods: map<Wrapper, MethodInfo>
    var created: nat

    constructor ()
      ensures State() == NO_WRAPPERS && Paired(State())
    {
      wrappedMethods, dynfuncMethods, created := map[], map[], 0;
    }

    function State(): Caches
      reads this
    {
      Caches(wrappedMethods, dynfuncMethods, created)
    }

    /** A new wrapper is entered in both tables. */
    method Register(m: MethodInfo, code: Code) returns (x: Wrapper)
      requires Paired(State()) && m !in wrappedMethods
      modifies this
      ensures Paired(State()) && x == Wrapper(old(created), code)
      ensures State() == Caches(old(wrappedMethods)[m := x], old(dynfuncMethods)[x := m], old(created) + 1)
    {
      x := Wrapper(created, code);
      created := created + 1;
      wrappedMethods := wrappedMethods[m := x];
      dynfuncMethods := dynfuncMethods[x := m];
    }

    method Construct(target: Option<Value>, m: MethodInfo) returns (r: Result<DynFunc>)
      requires Paired(State())
      modifies this
      ensures Paired(State())
      ensures State() == Request(old(State()), Direct, m).0
      ensures var served := Request(old(State()), Direct, m).1;
              r == if served.Err? then Err(served.error)
                   else Ok(DynFunc(served.value, if m in old(wrappedMethods) || m.hasThis then target else None))
    {
      if m in wrappedMethods {
        return Ok(DynFunc(wrappedMethods[m], target));
      }
      var code := Emitted(m);
      if code.Err? {
        return Err(code.error);
      }
      var x := Register(m, code.value);
      return Ok(DynFunc(x, if m.hasThis then target else None));
    }

    method ConstructCommandRemapped(target: Option<Value>, m: MethodInfo) returns (r: Result<DynFunc>)
      requires Paired(State())
      modifies this
      ensures Paired(State())
      ensures State() == Request(old(State()), Remapped, m).0
      ensures var served := Request(old(State()), Remapped, m).1;
              r == if served.Err? then Err(served.error)
                   else Ok(DynFunc(served.value, if m in old(wrappedMethods) || m.hasThis then target else None))
    {
      if m in wrappedMethods {
        return Ok(DynFunc(wrappedMethods[m], target));
      }
      var code := EmittedCommand(m);
      if code.Err? {
        return Err(code.error);
      }
      var x := Register(m, code.value);
      return Ok(DynFunc(x, if m.hasThis then target else None));
    }

    method CreateCommand(target: Option<Value>, m: MethodInfo, remap: bool) returns (r: Result<DynFunc>)
      requires Paired(State())
      modifies this
      ensures Paired(State())
      ensures State() == Request(old(State()), if remap then Remapped else Direct, m).0
      ensures var served := Request(old(State()), if remap then Remapped else Direct, m).1;
              r == if served.Err? then Err(served.error)
                   else Ok(DynFunc(served.value, if m in old(wrappedMethods) || m.hasThis then target else None))
      ensures r.Ok? ==> m in wrappedMethods && r.value.wrapper == wrappedMethods[m]
    {
      if remap {
        r := ConstructCommandRemapped(target, m);
      } else {
        r := Construct(target, m);
      }
    }

    /** The one method that is served by a dynamic function's wrapper; None for a function that is
        not a wrapper, which stands for its own method. */
    method GetWrappedMethod(f: DynFunc) returns (m: Option<MethodInfo>)
      requires Paired(State())
      ensures forall x :: m == Some(x) <==> x in wrappedMethods && wrappedMethods[x] == f.wrapper
    {
      if f.wrapper in dynfuncMethods {
        return Some(dynfuncMethods[f.wrapper]);
      }
      return None;
    }
  }

  // ---------------------------------------------------------------- runs of requests

  function Requests(c: Caches, rs: seq<(Kind, MethodInfo)>): Caches
    decreases |rs|
  {
    if rs == [] then c else Request(Requests(c, rs[..|rs| - 1]), rs[|rs| - 1].0, rs[|rs| - 1].1).0
  }

  lemma RequestKeepsPaired(c: Caches, kind: Kind, m: MethodInfo)
    requires Paired(c)
    ensures Paired(Request(c, kind, m).0)
  {
  }

  /** Looking up the method behind a served wrapper gives back the method it was requested for,
      after any requests before and after. */
  lemma {:induction false} WrappedMethodRoundTrip(rs: seq<(Kind, MethodInfo)>, m: MethodInfo)
    ensures var c := Requests(NO_WRAPPERS, rs);
            Paired(c) && (m in c.wrapped ==> c.dynfuncs[c.wrapped[m]] == m)
    decreases |rs|
  {
    if rs != [] {
      WrappedMethodRoundTrip(rs[..|rs| - 1], m);
      RequestKeepsPaired(Requests(NO_WRAPPERS, rs[..|rs| - 1]), rs[|rs| - 1].0, rs[|rs| - 1].1);
    }
  }

  /** The kind of the first request for `m` that can be compiled. */
  function Decider(rs: seq<(Kind, MethodInfo)>, m: MethodInfo): Option<Kind> {
    if rs == [] then None
    else if rs[0].1 == m && Body(rs[0].0, m).Ok? then Some(rs[0].0)
    else Decider(rs[1..], m)
  }

  lemma {:induction false} DeciderOfMore(rs: seq<(Kind, MethodInfo)>, r: (Kind, MethodInfo), m: MethodInfo)
    ensures Decider(rs + [r], m) ==
            if Decider(rs, m).Some? then Decider(rs, m) else if r.1 == m && Body(r.0, m).Ok? then Some(r.0) else None
  {
    if rs == [] {
      assert rs + [r] == [r] && [r][1..] == [];
    } else {
      assert (rs + [r])[1..] == rs[1..] + [r];
      DeciderOfMore(rs[1..], r, m);
    }
  }

  lemma RequestServes(c: Caches, kind: Kind, m: MethodInfo, other: MethodInfo)
    ensures var c' := Request(c, kind, m).0;
            && (other in c'.wrapped <==> other in c.wrapped || (other == m && Body(kind, m).Ok?))
            && (other in c.wrapped ==> c'.wrapped[other] == c.wrapped[other])
            && (other == m && other !in c.wrapped && Body(kind, m).Ok? ==> c'.wrapped[m].code == Body(kind, m).value)
  {
  }

  /** The cache ignores how a wrapper was requested: the first compilable request for a method
      decides whether every later one gets a direct or a remapped wrapper. */
  lemma {:induction false} FirstRequestDecides(rs: seq<(Kind, MethodInfo)>, m: MethodInfo)
    ensures var c, d := Requests(NO_WRAPPERS, rs), Decider(rs, m);
            && (m in c.wrapped <==> d.Some?)
            && (m in c.wrapped ==> Body(d.value, m).Ok? && c.wrapped[m].code == Body(d.value, m).value)
    decreases |rs|
  {
    if rs != [] {
      var n := |rs| - 1;
      FirstRequestDecides(rs[..n], m);
      assert rs == rs[..n] + [rs[n]];
      DeciderOfMore(rs[..n], rs[n], m);
      RequestServes(Requests(NO_WRAPPERS, rs[..n]), rs[n].0, rs[n].1, m);
    }
  }
}
