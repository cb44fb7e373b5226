/** What a call on the shared bucket comes to: it works on the arguments it was begun with, alone it is
    the atomic operation, and among others it is held up only by operations that succeed. */
module TokenBucketCalls {
  import opened TokenBuckets
  import opened TokenBucketThreads

  // ---------------------------------------------------------------- calls as the steps name them

  /** The call that thread `t` began last in these steps. */
  ghost predicate BegunLast(steps: seq<Step>, t: nat, call: Call) {
    exists i :: 0 <= i < |steps| && steps[i] == Begin(t, call) && NoneBegunFrom(steps, t, i + 1)
  }

  ghost predicate NoneBegunFrom(steps: seq<Step>, t: nat, i: nat) {
    forall j :: i <= j < |steps| ==> !(steps[j].Begin? && steps[j].t == t)
  }

  /** Every thread that is in a call or has ended one works on the call it began last. */
  ghost predicate OwnCalls(s: State, steps: seq<Step>) {
    forall t :: t in s.threads ==>
      if s.threads[t].Idle? then NoneBegunFrom(steps, t, 0) else BegunLast(steps, t, s.threads[t].call)
  }

  lemma BegunLater(steps: seq<Step>, step: Step, t: nat)
    requires !(step.Begin? && step.t == t)
    ensures forall call :: BegunLast(steps, t, call) ==> BegunLast(steps + [step], t, call)
    ensures NoneBegunFrom(steps, t, 0) ==> NoneBegunFrom(steps + [step], t, 0)
  {
    var more := steps + [step];
    forall call | BegunLast(steps, t, call) ensures BegunLast(more, t, call) {
      var i :| 0 <= i < |steps| && steps[i] == Begin(t, call) && NoneBegunFrom(steps, t, i + 1);
      assert more[i] == Begin(t, call) && NoneBegunFrom(more, t, i + 1);
    }
  }

  lemma BegunNow(steps: seq<Step>, t: nat, call: Call)
    ensures BegunLast(steps + [Begin(t, call)], t, call)
  {
    var more := steps + [Begin(t, call)];
    assert more[|steps|] == Begin(t, call) && NoneBegunFrom(more, t, |steps| + 1);
  }

  lemma StepKeepsOwnCalls(l: Limits, s: State, before: seq<Step>, step: Step)
    requires OwnCalls(s, before) && Enabled(s, step)
    ensures OwnCalls(After(l, s, step), before + [step])
  {
    var s' := After(l, s, step);
    forall t | t in s'.threads
      ensures if s'.threads[t].Idle? then NoneBegunFrom(before + [step], t, 0) else BegunLast(before + [step], t, s'.threads[t].call)
    {
      if step.Begin? && step.t == t {
        BegunNow(before, t, step.call);
      } else {
        BegunLater(before, step, t);
      }
    }
  }

  lemma {:induction false} OwnCallsFrom(l: Limits, s: State, before: seq<Step>, steps: seq<Step>)
    requires OwnCalls(s, before) && Runs(l, s, steps)
    ensures OwnCalls(Final(l, s, steps), before + steps)
    decreases |steps|
  {
    if steps == [] {
      assert before + steps == before;
    } else {
      StepKeepsOwnCalls(l, s, before, steps[0]);
      OwnCallsFrom(l, After(l, s, steps[0]), before + [steps[0]], steps[1..]);
      assert before + [steps[0]] + steps[1..] == before + steps;
    }
  }

  /** In every interleaving a thread's call, in progress or finished, is the one it began last. */
  lemma CallsAreThoseBegun(l: Limits, zero: real, start: State, steps: seq<Step>)
    requires Initial(zero, start) && Runs(l, start, steps)
    ensures OwnCalls(Final(l, start, steps), steps)
  {
    OwnCallsFrom(l, start, [], steps);
    assert [] + steps == steps;
  }

  /** How many calls had succeeded when thread `t` began its last one. */
  ghost function LogWhenBegun(l: Limits, s: State, steps: seq<Step>, t: nat, before: nat): nat
    requires Runs(l, s, steps)
    decreases |steps|
  {
    if steps == [] then before
    else LogWhenBegun(l, After(l, s, steps[0]), steps[1..], t, if steps[0].Begin? && steps[0].t == t then |s.log| else before)
  }

  /** From there on the point is sought at which a call takes effect. */
  lemma {:induction false} SinceIsTheStart(l: Limits, s: State, steps: seq<Step>, t: nat, before: nat)
    requires Runs(l, s, steps) && t in s.threads && (!s.threads[t].Idle? ==> s.threads[t].since == before)
    ensures var end := Final(l, s, steps);
            t in end.threads && (!end.threads[t].Idle? ==> end.threads[t].since == LogWhenBegun(l, s, steps, t, before))
    decreases |steps|
  {
    if steps != [] {
      var now := if steps[0].Begin? && steps[0].t == t then |s.log| else before;
      SinceIsTheStart(l, After(l, s, steps[0]), steps[1..], t, now);
    }
  }

  // ---------------------------------------------------------------- the log holds the successes

  /** The step makes its thread's call succeed. */
  ghost predicate Succeeds(l: Limits, s: State, step: Step)
    requires Enabled(s, step)
  {
    var th := After(l, s, step).threads[step.t];
    step.Round? && th.Finished? && th.ok
  }

  /** The calls that succeed in a run, in the order in which they do. */
  ghost function Successes(l: Limits, s: State, steps: seq<Step>): seq<Call>
    requires Runs(l, s, steps)
    decreases |steps|
  {
    if steps == [] then []
    else (if Succeeds(l, s, steps[0]) then [s.threads[steps[0].t].call] else []) + Successes(l, After(l, s, steps[0]), steps[1..])
  }

  /** In every interleaving each call that succeeds, and nothing else, enters the log once. */
  lemma {:induction false} LogHoldsSuccesses(l: Limits, s: State, steps: seq<Step>)
    requires Runs(l, s, steps)
    ensures Final(l, s, steps).log == s.log + Successes(l, s, steps)
    decreases |steps|
  {
    if steps != [] {
      LogHoldsSuccesses(l, After(l, s, steps[0]), steps[1..]);
    }
  }

  // ---------------------------------------------------------------- how calls come to their ends

  /** Every thread can take a step, whatever the others do. */
  lemma ThreadsGoOn(s: State, t: nat, call: Call)
    requires t in s.threads && call.n > 0.0
    ensures Enabled(s, Begin(t, call)) || Enabled(s, Check(t)) || Enabled(s, Load(t)) || Enabled(s, Round(t, false))
  {
  }

  /** A round whose exchange does not fail spuriously ends the call, unless another call has succeeded
      since the value was read: no call is held up but by one that succeeds. */
  lemma RoundEndsUnlessOvertaken(l: Limits, zero: real, s: State, t: nat)
    requires Linearized(l, zero, s) && Enabled(s, Round(t, false))
    ensures After(l, s, Round(t, false)).threads[t].Finished? || s.threads[t].seen < |s.log|
  {
    var th := s.threads[t];
    assert ThreadExplained(l, zero, s.log, th);
    assert s.log[..|s.log|] == s.log;
  }

  /** The atomic operation that a call asks for, and whether its answer is a success. */
  ghost function Asked(call: Call): Op {
    match call case Take(n, _) => TokenBuckets.Consume(n) case Give(n) => TokenBuckets.Return(n)
  }

  ghost function NowOf(call: Call): real { if call.Take? then call.now else 0.0 }

  ghost function Answered(ok: bool, call: Call): Answer { if call.Take? then Granted(ok) else Returned }

  /** Thread `t` has done nothing yet that shows, or has ended the call with the answer and the effect
      of the atomic operation on `zero`. */
  ghost predicate AsAtomic(l: Limits, zero: real, s: State, t: nat, call: Call) {
    t in s.threads
    && match s.threads[t]
       case Idle => false
       case Called(c, _) => c == call && s.zero == zero
       case Checked(c, _) => c == call && s.zero == zero && (call.Take? ==> zero < call.now)
       case Loaded(c, _, _, was) => c == call && s.zero == zero == was && (call.Take? ==> zero < call.now)
       case Finished(c, _, _, ok) =>
         c == call && (call.Give? ==> ok) && Exec(l, zero, Asked(call), NowOf(call)) == (s.zero, Answered(ok, call))
  }

  lemma StepAsAtomic(l: Limits, zero: real, s: State, t: nat, call: Call, step: Step)
    requires AsAtomic(l, zero, s, t, call) && Enabled(s, step) && step.t == t && !step.Begin?
    ensures AsAtomic(l, zero, After(l, s, step), t, call)
    ensures step.Round? && !step.spurious ==> After(l, s, step).threads[t].Finished?
  {
    if step.Round? && call.Take? {
      GrantMovesZero(l, zero, call.now, call.n);
    }
  }

  ghost predicate OnlyOn(steps: seq<Step>, t: nat) {
    forall i :: 0 <= i < |steps| ==> steps[i].t == t && !steps[i].Begin?
  }

  lemma NothingAfterEnd(l: Limits, s: State, t: nat, steps: seq<Step>)
    requires t in s.threads && s.threads[t].Finished? && Runs(l, s, steps) && OnlyOn(steps, t)
    ensures steps == []
  {
  }

  lemma {:induction false} RunAsAtomic(l: Limits, zero: real, s: State, t: nat, call: Call, steps: seq<Step>)
    requires AsAtomic(l, zero, s, t, call) && Runs(l, s, steps) && OnlyOn(steps, t)
    ensures AsAtomic(l, zero, Final(l, s, steps), t, call)
    ensures (exists i :: 0 <= i < |steps| && steps[i] == Round(t, false)) ==> Final(l, s, steps).threads[t].Finished?
    decreases |steps|
  {
    if steps != [] {
      var s' := After(l, s, steps[0]);
      StepAsAtomic(l, zero, s, t, call, steps[0]);
      assert OnlyOn(steps[1..], t);
      if s'.threads[t].Finished? {
        NothingAfterEnd(l, s', t, steps[1..]);
      }
      RunAsAtomic(l, zero, s', t, call, steps[1..]);
      forall i | 0 <= i < |steps| && steps[i] == Round(t, false) ensures Final(l, s, steps).threads[t].Finished? {
        assert i > 0 ==> steps[1..][i - 1] == Round(t, false);
      }
    }
  }

  /** A call that runs alone, whatever exchanges fail spuriously, ends with the answer of the atomic
      operation for the arguments it was begun with and leaves the zero time of that operation; it
      has ended once an exchange did not fail spuriously. */
  lemma AloneIsAtomic(l: Limits, s: State, t: nat, call: Call, steps: seq<Step>)
    requires Enabled(s, Begin(t, call)) && Runs(l, s, [Begin(t, call)] + steps) && OnlyOn(steps, t)
    ensures var end := Final(l, s, [Begin(t, call)] + steps);
            && t in end.threads && (Round(t, false) in steps ==> end.threads[t].Finished?)
            && (end.threads[t].Finished? ==>
                  Exec(l, s.zero, Asked(call), NowOf(call)) == (end.zero, Answered(end.threads[t].ok, call)))
  {
    assert ([Begin(t, call)] + steps)[1..] == steps;
    RunAsAtomic(l, s.zero, After(l, s, Begin(t, call)), t, call, steps);
  }

  /** A call can run alone to its end. */
  lemma AloneEnds(l: Limits, s: State, t: nat, call: Call) returns (steps: seq<Step>)
    requires Enabled(s, Begin(t, call))
    ensures OnlyOn(steps, t) && Runs(l, s, [Begin(t, call)] + steps)
    ensures var end := Final(l, s, [Begin(t, call)] + steps); t in end.threads && end.threads[t].Finished?
  {
    var s1 := After(l, s, Begin(t, call));
    var s2 := After(l, s1, Check(t));
    var all := [Begin(t, call), Check(t)];
    steps := [Check(t)];
    if s2.threads[t].Checked? {
      var s3 := After(l, s2, Load(t));
      var s4 := After(l, s3, Round(t, false));
      steps := [Check(t), Load(t), Round(t, false)];
      assert [Check(t), Load(t), Round(t, false)][1..] == [Load(t), Round(t, false)];
      assert [Load(t), Round(t, false)][1..] == [Round(t, false)] && [Round(t, false)][1..] == [];
      assert Runs(l, s4, []) && Runs(l, s3, [Round(t, false)]) && Runs(l, s2, [Load(t), Round(t, false)]);
      assert Final(l, s3, [Round(t, false)]) == s4;
      assert Final(l, s2, [Load(t), Round(t, false)]) == s4;
    } else {
      assert [Check(t)][1..] == [];
      assert Final(l, s1, [Check(t)]) == s2;
    }
    assert ([Begin(t, call)] + steps)[1..] == steps;
  }
}
