/** The compiled bodies can be verified: every instruction has one stack shape, on which all paths
    to it agree. */
module DynFuncShapes {
  import opened Clr
  import opened DynFuncCompiler

  ghost predicate Shaped(argShapes: seq<Slot>, c: Code, shapes: seq<seq<Slot>>) {
    && |shapes| == |c.instrs| + 1
    && forall pc :: 0 <= pc < |c.instrs| ==> ShapedAt(argShapes, c, shapes, pc)
  }

  /** Emitting more code leaves the shapes of what is there valid. */
  lemma StillShaped(argShapes: seq<Slot>, g: Gen, c: Code, shapes: seq<seq<Slot>>, more: seq<seq<Slot>>, pc: nat)
    requires Shaped(argShapes, g.code, shapes) && Extends(c, g) && pc < |g.code.instrs|
    requires |shapes + more| == |c.instrs| + 1
    ensures ShapedAt(argShapes, c, shapes + more, pc)
  {
    assert c.instrs[pc] == g.code.instrs[pc];
    assert ShapedAt(argShapes, g.code, shapes, pc);
    assert forall k :: 0 <= k < |shapes| ==> (shapes + more)[k] == shapes[k];
    if c.instrs[pc].LdlocS? && c.instrs[pc].n < |g.code.locals| {
      assert c.locals[c.instrs[pc].n] == g.code.locals[c.instrs[pc].n];
    }
  }

  lemma ShapedAppend(argShapes: seq<Slot>, g: Gen, c: Code, shapes: seq<seq<Slot>>, more: seq<seq<Slot>>)
    requires Shaped(argShapes, g.code, shapes) && Extends(c, g)
    requires |shapes + more| == |c.instrs| + 1
    requires forall pc :: |g.code.instrs| <= pc < |c.instrs| ==> ShapedAt(argShapes, c, shapes + more, pc)
    ensures Shaped(argShapes, c, shapes + more)
  {
    forall pc | 0 <= pc < |c.instrs| ensures ShapedAt(argShapes, c, shapes + more, pc) {
      if pc < |g.code.instrs| {
        StillShaped(argShapes, g, c, shapes, more, pc);
      }
    }
  }

  /** The shapes that compiling one parameter adds above `s`. */
  function ParamStack(prm: Param, s: seq<Slot>): (r: seq<seq<Slot>>)
    ensures r != [] && r[|r| - 1] == s + [SlotOf(prm.t)]
  {
    var v := SlotOf(prm.t);
    if prm.source then
      if prm.t == RemoteType then [s + [v]] else [s + [SlotOf(RemoteType)], s + [v]]
    else
      var fetched := [s + [Reference], s + [Reference, Integer], s + [Reference]];
      if IsValueType(prm.t) then
        fetched + [s + [Reference, Reference], s + [Reference, Reference], s + [Reference], s + [v], s + [Reference]]
        + if prm.t.Prim? then [s + [v]] else [s, s + [v]]
      else if prm.t == ObjectType then fetched
      else fetched + [s + [Reference]]
  }

  /** `all` holds the shapes `more` right after the one at `n`. */
  ghost predicate Follows(all: seq<seq<Slot>>, n: nat, s: seq<Slot>, more: seq<seq<Slot>>) {
    && n + 1 + |more| == |all| && all[n] == s
    && forall k :: 0 <= k < |more| ==> all[n + 1 + k] == more[k]
  }

  lemma TopOfStack(s: seq<Slot>, a: Slot, b: Slot)
    ensures (s + [a])[..|s|] == s && (s + [a])[|s|] == a
    ensures (s + [a, b])[..|s|] == s && (s + [a, b])[|s|..] == [a, b]
    ensures (s + [a, b])[..|s| + 1] == s + [a] && (s + [a, b])[|s| + 1] == b
    ensures s + [a] + [b] == s + [a, b]
  {
  }

  lemma ParamStackLength(g: Gen, hasThis: bool, prm: Param, p: nat, s: seq<Slot>)
    ensures |AddParam(g, hasThis, prm, p).code.instrs| == |g.code.instrs| + |ParamStack(prm, s)|
  {
  }

  lemma ParamShaped(m: MethodInfo, g: Gen, prm: Param, p: nat, all: seq<seq<Slot>>, pc: nat, s: seq<Slot>)
    requires ValidGen(g) && ParamError(prm).None?
    requires |g.code.instrs| <= pc < |AddParam(g, m.hasThis, prm, p).code.instrs|
    requires |all| == |AddParam(g, m.hasThis, prm, p).code.instrs| + 1
    requires Follows(all, |g.code.instrs|, s, ParamStack(prm, s))
    ensures ShapedAt(ArgShapes(m), AddParam(g, m.hasThis, prm, p).code, all, pc)
  {
    if prm.source {
      SourceShaped(m, g, prm, p, all, pc, s);
    } else if pc < |g.code.instrs| + 3 {
      FetchComesFirst(AddParam(g, m.hasThis, prm, p).code, g, m.hasThis, prm, p);
      FetchShaped(m, AddParam(g, m.hasThis, prm, p).code, |g.code.instrs|, p, all, pc, s, ParamStack(prm, s));
    } else if IsValueType(prm.t) {
      ValueShaped(m, g, prm, p, all, pc, s);
    } else {
      CastShaped(m, g, prm, p, all, pc, s);
    }
  }

  lemma CastShaped(m: MethodInfo, g: Gen, prm: Param, p: nat, all: seq<seq<Slot>>, pc: nat, s: seq<Slot>)
    requires !prm.source && !IsValueType(prm.t)
    requires |g.code.instrs| + 3 <= pc < |AddParam(g, m.hasThis, prm, p).code.instrs|
    requires |all| == |AddParam(g, m.hasThis, prm, p).code.instrs| + 1
    requires Follows(all, |g.code.instrs|, s, ParamStack(prm, s))
    ensures ShapedAt(ArgShapes(m), AddParam(g, m.hasThis, prm, p).code, all, pc)
  {
    var n, more := |g.code.instrs|, ParamStack(prm, s);
    assert AddParam(g, m.hasThis, prm, p).code.instrs[n + 3] == Castclass(prm.t);
    assert all[n + 3] == more[2] && all[n + 4] == more[3];
  }

  lemma FetchShaped(m: MethodInfo, c: Code, n: nat, p: nat, all: seq<seq<Slot>>, pc: nat, s: seq<Slot>, more: seq<seq<Slot>>)
    requires |all| == |c.instrs| + 1 && n <= pc < n + 3 <= |c.instrs| && c.instrs[n..n + 3] == Fetch(m.hasThis, p)
    requires Follows(all, n, s, more) && |more| >= 3
    requires more[..3] == [s + [Reference], s + [Reference, Integer], s + [Reference]]
    ensures ShapedAt(ArgShapes(m), c, all, pc)
  {
    var f := c.instrs[n..n + 3];
    assert c.instrs[n] == f[0] && c.instrs[n + 1] == f[1] && c.instrs[n + 2] == f[2];
    assert more[0] == more[..3][0] && more[1] == more[..3][1] && more[2] == more[..3][2];
    assert all[n + 1] == more[0] && all[n + 2] == more[1] && all[n + 3] == more[2];
    assert ArgShapes(m)[ArgsArg(m.hasThis)] == Reference;
    TopOfStack(s, Reference, Integer);
  }

  lemma SourceShaped(m: MethodInfo, g: Gen, prm: Param, p: nat, all: seq<seq<Slot>>, pc: nat, s: seq<Slot>)
    requires prm.source && ParamError(prm).None?
    requires |g.code.instrs| <= pc < |AddParam(g, m.hasThis, prm, p).code.instrs|
    requires |all| == |AddParam(g, m.hasThis, prm, p).code.instrs| + 1
    requires Follows(all, |g.code.instrs|, s, ParamStack(prm, s))
    ensures ShapedAt(ArgShapes(m), AddParam(g, m.hasThis, prm, p).code, all, pc)
  {
    var n, more := |g.code.instrs|, ParamStack(prm, s);
    assert ArgShapes(m)[RemoteArg(m.hasThis)] == SlotOf(RemoteType);
    assert all[n + 1] == more[0];
    TopOfStack(s, SlotOf(RemoteType), Reference);
    if prm.t != RemoteType {
      assert all[n + 2] == more[1];
    }
  }

  /** At `done` both paths leave a value of the wanted type. */
  lemma ValueShaped(m: MethodInfo, g: Gen, prm: Param, p: nat, all: seq<seq<Slot>>, pc: nat, s: seq<Slot>)
    requires ValidGen(g) && !prm.source && IsValueType(prm.t)
    requires |g.code.instrs| + 3 <= pc < |AddParam(g, m.hasThis, prm, p).code.instrs|
    requires |all| == |AddParam(g, m.hasThis, prm, p).code.instrs| + 1
    requires Follows(all, |g.code.instrs|, s, ParamStack(prm, s))
    ensures ShapedAt(ArgShapes(m), AddParam(g, m.hasThis, prm, p).code, all, pc)
  {
    var n, t, more := |g.code.instrs|, prm.t, ParamStack(prm, s);
    var c := AddParam(g, m.hasThis, prm, p).code;
    ValueLayout(m.hasThis, c, g, prm, p);
    ValueStack(t, s, more);
    assert all[n + 3] == more[2] && all[n + 4] == more[3] && all[n + 5] == more[4] && all[n + 6] == more[5];
    assert all[n + 7] == more[6] && all[n + 8] == more[7] && all[n + 9] == more[8] && all[n + |more|] == more[|more| - 1];
    if pc < n + 8 {
      TestShaped(ArgShapes(m), c, n + 3, t, g.nextLabel, g.nextLabel + 1, all, pc, s);
    } else {
      TopOfStack(s, Reference, Reference);
    }
  }

  lemma ValueStack(t: ClrType, s: seq<Slot>, more: seq<seq<Slot>>)
    requires IsValueType(t) && more == ParamStack(Param(t, false), s)
    ensures |more| == if t.Prim? then 9 else 10
    ensures more[2] == s + [Reference] && more[3] == s + [Reference, Reference] && more[4] == s + [Reference, Reference]
    ensures more[5] == s + [Reference] && more[6] == s + [SlotOf(t)] && more[7] == s + [Reference]
    ensures more[|more| - 1] == s + [SlotOf(t)] && (!t.Prim? ==> more[8] == s)
  {
  }

  lemma TestShaped(argShapes: seq<Slot>, c: Code, n: nat, t: ClrType, diff: nat, done: nat, all: seq<seq<Slot>>, pc: nat, s: seq<Slot>)
    requires |all| == |c.instrs| + 1 && n <= pc < n + 5 <= |c.instrs| && c.instrs[n..n + 5] == TypeTest(t, diff, done)
    requires all[n] == s + [Reference] && all[n + 1] == s + [Reference, Reference] && all[n + 2] == s + [Reference, Reference]
    requires all[n + 3] == s + [Reference] && all[n + 4] == s + [SlotOf(t)] && all[n + 5] == s + [Reference]
    requires diff in c.labels && c.labels[diff] == n + 5
    requires done in c.labels && n + 5 < c.labels[done] < |all| && all[c.labels[done]] == s + [SlotOf(t)]
    ensures ShapedAt(argShapes, c, all, pc)
  {
    var f := c.instrs[n..n + 5];
    assert c.instrs[pc] == f[pc - n];
    TopOfStack(s, Reference, Reference);
  }

  function ParamsStack(m: MethodInfo, params: seq<Param>): seq<seq<Slot>>
    decreases |params|
  {
    if params == [] then if m.hasThis then [[], [Reference]] else [[]]
    else
      var before := ParamsStack(m, params[..|params| - 1]);
      before + if before == [] then [] else ParamStack(params[|params| - 1], before[|before| - 1])
  }

  /** The shapes assigned to some code are right, and end with these stacked. */
  ghost predicate CodeFits(m: MethodInfo, code: Code, shapes: seq<seq<Slot>>, stacked: seq<Slot>) {
    && Shaped(ArgShapes(m), code, shapes)
    && shapes[0] == []
    && shapes[|shapes| - 1] == (if m.hasThis then [Reference] else []) + stacked
  }

  /** The shapes assigned to the parameters' code are right, and end with all of them stacked. */
  ghost predicate ParamsFit(m: MethodInfo, params: seq<Param>) {
    CodeFits(m, AddParams(m.hasThis, params).code, ParamsStack(m, params), ParamShapes(params))
  }

  lemma {:induction false} ParamsShaped(m: MethodInfo, params: seq<Param>)
    requires CompileError(params).None?
    ensures ParamsFit(m, params)
    decreases |params|
  {
    if params == [] {
      NoParamsShaped(m);
    } else {
      NoErrorAt(params, |params| - 1);
      NoErrorInPrefix(params, |params| - 1);
      ParamsShaped(m, params[..|params| - 1]);
      ParamsShapedStep(m, params);
    }
  }

  lemma NoParamsShaped(m: MethodInfo)
    ensures Shaped(ArgShapes(m), AddParams(m.hasThis, []).code, ParamsStack(m, []))
    ensures ParamsStack(m, []) == if m.hasThis then [[], [Reference]] else [[]]
    ensures (if m.hasThis then [Reference] else []) + ParamShapes([]) == if m.hasThis then [Reference] else []
  {
    assert [] + [Reference] == [Reference];
  }

  lemma OneMoreShaped(m: MethodInfo, g: Gen, prm: Param, p: nat, shapes: seq<seq<Slot>>)
    requires ValidGen(g) && ParamError(prm).None? && Shaped(ArgShapes(m), g.code, shapes)
    ensures Shaped(ArgShapes(m), AddParam(g, m.hasThis, prm, p).code, shapes + ParamStack(prm, shapes[|shapes| - 1]))
  {
    var s := shapes[|shapes| - 1];
    AddParamKeepsValid(g, m.hasThis, prm, p);
    ParamStackLength(g, m.hasThis, prm, p, s);
    var c, more := AddParam(g, m.hasThis, prm, p).code, ParamStack(prm, s);
    forall pc | |g.code.instrs| <= pc < |c.instrs| ensures ShapedAt(ArgShapes(m), c, shapes + more, pc) {
      ParamShaped(m, g, prm, p, shapes + more, pc, s);
    }
    ShapedAppend(ArgShapes(m), g, c, shapes, more);
  }

  lemma ParamsShapedStep(m: MethodInfo, params: seq<Param>)
    requires params != [] && ParamError(params[|params| - 1]).None?
    requires ParamsFit(m, params[..|params| - 1])
    ensures ParamsFit(m, params)
  {
    var before, prm := params[..|params| - 1], params[|params| - 1];
    AddParamsExtends(m.hasThis, before, 0);
    MoreFits(m, AddParams(m.hasThis, before), prm, ArgumentCount(before), ParamsStack(m, before), ParamShapes(before));
  }

  lemma MoreFits(m: MethodInfo, g: Gen, prm: Param, p: nat, shapes: seq<seq<Slot>>, stacked: seq<Slot>)
    requires ValidGen(g) && ParamError(prm).None? && CodeFits(m, g.code, shapes, stacked)
    ensures CodeFits(m, AddParam(g, m.hasThis, prm, p).code, shapes + ParamStack(prm, shapes[|shapes| - 1]), stacked + [SlotOf(prm.t)])
  {
    OneMoreShaped(m, g, prm, p, shapes);
    var self, s := if m.hasThis then [Reference] else [], shapes[|shapes| - 1];
    assert self + stacked + [SlotOf(prm.t)] == self + (stacked + [SlotOf(prm.t)]);
  }

  lemma {:induction false} NoErrorInPrefix(params: seq<Param>, i: nat)
    requires CompileError(params).None? && i <= |params|
    ensures CompileError(params[..i]).None?
    decreases i
  {
    if i > 0 {
      NoErrorInPrefix(params[1..], i - 1);
      assert params[..i][1..] == params[1..][..i - 1];
    }
  }

  /** Every compiled body is verifiable: wherever paths join, their stack shapes agree. */
  lemma CompiledIsVerifiable(m: MethodInfo)
    requires CompileError(m.params).None?
    ensures Verifiable(ArgShapes(m), Compiled(m))
  {
    var g, c, shapes := AddParams(m.hasThis, m.params), Compiled(m), ParamsStack(m, m.params);
    ParamsShaped(m, m.params);
    var n, s := |g.code.instrs|, shapes[|shapes| - 1];
    var returned := if m.ret.Some? then [SlotOf(m.ret.value)] else [];
    var more := [returned, [Reference], []];
    TailsShaped(m, c, n, shapes, more, s, returned);
    ShapedAppend(ArgShapes(m), g, c, shapes, more);
    ShapedIsVerifiable(ArgShapes(m), c, shapes, more);
  }

  lemma ShapedIsVerifiable(argShapes: seq<Slot>, c: Code, shapes: seq<seq<Slot>>, more: seq<seq<Slot>>)
    requires shapes != [] && shapes[0] == [] && Shaped(argShapes, c, shapes + more)
    ensures Verifiable(argShapes, c)
  {
    assert (shapes + more)[0] == [];
  }

  lemma TailsShaped(m: MethodInfo, c: Code, n: nat, shapes: seq<seq<Slot>>, more: seq<seq<Slot>>, s: seq<Slot>, returned: seq<Slot>)
    requires |shapes| == n + 1 && |c.instrs| == n + 3 && c.instrs[n..] == Tail(m)
    requires s == shapes[n] == (if m.hasThis then [Reference] else []) + ParamShapes(m.params)
    requires returned == (if m.ret.Some? then [SlotOf(m.ret.value)] else []) && more == [returned, [Reference], []]
    ensures forall pc :: n <= pc < |c.instrs| ==> ShapedAt(ArgShapes(m), c, shapes + more, pc)
  {
    var all := shapes + more;
    assert all[n] == s && all[n + 1] == returned && all[n + 2] == [Reference];
    forall pc | n <= pc < |c.instrs| ensures ShapedAt(ArgShapes(m), c, all, pc) {
      TailShaped(m, c, n, all, pc, s, returned);
    }
  }

  lemma TailShaped(m: MethodInfo, c: Code, n: nat, all: seq<seq<Slot>>, pc: nat, s: seq<Slot>, returned: seq<Slot>)
    requires |all| == |c.instrs| + 1 && n <= pc < n + 3 == |c.instrs| && c.instrs[n..] == Tail(m)
    requires s == (if m.hasThis then [Reference] else []) + ParamShapes(m.params)
    requires returned == if m.ret.Some? then [SlotOf(m.ret.value)] else []
    requires all[n] == s && all[n + 1] == returned && all[n + 2] == [Reference]
    ensures ShapedAt(ArgShapes(m), c, all, pc)
  {
    assert c.instrs[pc] == c.instrs[n..][pc - n];
    if pc == n {
      assert s[|s| - |s|..] == s && s[..0] == [];
      assert [] + returned == returned;
    } else if pc == n + 1 {
      assert returned[..0] == [] && [] + [Reference] == [Reference];
    }
  }
}
