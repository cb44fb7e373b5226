/** The deferred delays of the script runtime: fired in place, while callbacks add new ones. */
module DelayLists {
  import opened Sequences

  /** When a delay is due, and its callback. */
  datatype Delay = Delay(time: int, callback: nat)

  /** What a callback does: the delays it adds, and whether it throws after adding them. */
  datatype Reaction = Reaction(added: seq<Delay>, throws: bool)

  /** A pass over the list: the delays fired in order, the list left, and whether it ran to its end. */
  datatype Pass = Pass(fired: seq<Delay>, left: seq<Delay>, complete: bool)

  /** The pass from the point where `kept` were passed over, `rest` are still to be looked at, and
      `k` callbacks have added `added`. */
  function PassFrom(now: int, react: nat -> Reaction, kept: seq<Delay>, rest: seq<Delay>, added: seq<Delay>, k: nat): Pass
    decreases |rest|
  {
    if rest == [] then Pass([], kept + added, true)
    else if now < rest[0].time then PassFrom(now, react, kept + [rest[0]], rest[1..], added, k)
    else if react(k).throws then Pass([rest[0]], kept + rest + (added + react(k).added), false)
    else Fired(rest[0], PassFrom(now, react, kept, rest[1..], added + react(k).added, k + 1))
  }

  function Fired(d: Delay, p: Pass): Pass { p.(fired := [d] + p.fired) }

  class DelayList {
    var delays: seq<Delay>

    constructor ()
      ensures delays == []
    {
      delays := [];
    }

    method AddDelay(d: Delay)
      modifies this
      ensures delays == old(delays) + [d]
    {
      delays := delays + [d];
    }

    /** `react(k)` is what the k-th callback of this pass does. */
    method FireDelays(now: int, react: nat -> Reaction) returns (fired: seq<Delay>, complete: bool)
      modifies this
      ensures Pass(fired, delays, complete) == PassFrom(now, react, [], old(delays), [], 0)
    {
      fired := [];
      ghost var kept, rest, added := [], delays, [];
      var count, i := |delays|, 0;
      while i < count
        invariant i == |kept| && count == |kept| + |rest| && delays == kept + rest + added
        invariant PassFrom(now, react, [], old(delays), [], 0) == After(fired, PassFrom(now, react, kept, rest, added, |fired|))
        decreases |rest|
      {
        var delay := delays[i];
        assert delay == rest[0];
        if now >= delay.time {
          var reaction := react(|fired|);
          delays := delays + reaction.added;
          FireStep(now, react, kept, rest, added, fired);
          fired := fired + [delay];
          Regroup(kept + rest, added, reaction.added);
          if reaction.throws {
            return fired, false;
          }
          added := added + reaction.added;
          RemoveRest(kept, rest, added);
          delays := delays[..i] + delays[i + 1..];
          rest := rest[1..];
          i := i - 1;
          count := count - 1;
        } else {
          MoveOver(kept, rest, added);
          kept, rest := kept + [delay], rest[1..];
        }
        i := i + 1;
      }
      return fired, true;
    }
  }

  lemma RemoveRest(kept: seq<Delay>, rest: seq<Delay>, added: seq<Delay>)
    requires rest != []
    ensures var all := kept + rest + added; all[..|kept|] + all[|kept| + 1..] == kept + rest[1..] + added
  {
  }

  lemma MoveOver(kept: seq<Delay>, rest: seq<Delay>, added: seq<Delay>)
    requires rest != []
    ensures kept + rest + added == kept + [rest[0]] + rest[1..] + added
  {
  }

  function After(fired: seq<Delay>, p: Pass): Pass { p.(fired := fired + p.fired) }

  lemma FireStep(now: int, react: nat -> Reaction, kept: seq<Delay>, rest: seq<Delay>, added: seq<Delay>, fired: seq<Delay>)
    requires rest != [] && now >= rest[0].time
    ensures var r := react(|fired|);
            After(fired, PassFrom(now, react, kept, rest, added, |fired|)) ==
            if r.throws then Pass(fired + [rest[0]], kept + rest + (added + r.added), false)
            else After(fired + [rest[0]], PassFrom(now, react, kept, rest[1..], added + r.added, |fired| + 1))
  {
    var p := PassFrom(now, react, kept, rest[1..], added + react(|fired|).added, |fired| + 1);
    assert fired + ([rest[0]] + p.fired) == fired + [rest[0]] + p.fired;
  }

  // ---------------------------------------------------------------- what a pass does

  function Due(now: int, delays: seq<Delay>): seq<Delay> {
    if delays == [] then []
    else if now < delays[0].time then Due(now, delays[1..])
    else [delays[0]] + Due(now, delays[1..])
  }

  function NotDue(now: int, delays: seq<Delay>): seq<Delay> {
    if delays == [] then []
    else if now < delays[0].time then [delays[0]] + NotDue(now, delays[1..])
    else NotDue(now, delays[1..])
  }

  /** The due delays are those whose time is not after `now`, each once and in the order of the list. */
  lemma {:induction false} DueAre(now: int, delays: seq<Delay>) returns (at: seq<nat>)
    ensures |at| == |Due(now, delays)|
    ensures forall j :: 0 <= j < |at| ==> at[j] < |delays| && Due(now, delays)[j] == delays[at[j]]
    ensures forall j, k :: 0 <= j < k < |at| ==> at[j] < at[k]
    ensures forall i: nat :: i in at <==> i < |delays| && delays[i].time <= now
    decreases |delays|
  {
    if delays == [] {
      at := [];
    } else {
      var n := |delays| - 1;
      at := DueAre(now, delays[..n]);
      assert delays == delays[..n] + [delays[n]];
      DueAppend(now, delays[..n], delays[n]);
      if delays[n].time <= now {
        at := at + [n];
      }
    }
  }

  lemma {:induction false} DueAppend(now: int, delays: seq<Delay>, d: Delay)
    ensures Due(now, delays + [d]) == Due(now, delays) + if d.time <= now then [d] else []
  {
    if delays == [] {
      assert [] + [d] == [d] && [d][1..] == [];
    } else {
      assert (delays + [d])[1..] == delays[1..] + [d];
      DueAppend(now, delays[1..], d);
    }
  }

  /** What `n` callbacks from the k-th on add. */
  function AddedBy(react: nat -> Reaction, k: nat, n: nat): seq<Delay>
    decreases n
  {
    if n == 0 then [] else react(k).added + AddedBy(react, k + 1, n - 1)
  }

  ghost predicate NoneThrows(react: nat -> Reaction, k: nat, n: nat) {
    forall i :: k <= i < k + n ==> !react(i).throws
  }

  lemma {:induction false} PassFires(now: int, react: nat -> Reaction, kept: seq<Delay>, rest: seq<Delay>, added: seq<Delay>, k: nat)
    requires NoneThrows(react, k, |Due(now, rest)|)
    ensures PassFrom(now, react, kept, rest, added, k) ==
            Pass(Due(now, rest), (kept + NotDue(now, rest)) + (added + AddedBy(react, k, |Due(now, rest)|)), true)
    decreases |rest|
  {
    if rest == [] {
      assert kept + [] == kept && added + [] == added;
    } else if now < rest[0].time {
      PassFires(now, react, kept + [rest[0]], rest[1..], added, k);
      assert kept + [rest[0]] + NotDue(now, rest[1..]) == kept + NotDue(now, rest);
    } else {
      PassFires(now, react, kept, rest[1..], added + react(k).added, k + 1);
      var n := |Due(now, rest[1..])|;
      assert added + react(k).added + AddedBy(react, k + 1, n) == added + AddedBy(react, k, n + 1);
    }
  }

  /** When no callback throws, a pass fires exactly the delays due at its start, once each and in
      order, and leaves those not due followed by those the callbacks added. */
  lemma PassFiresDue(now: int, react: nat -> Reaction, delays: seq<Delay>)
    requires NoneThrows(react, 0, |Due(now, delays)|)
    ensures PassFrom(now, react, [], delays, [], 0) ==
            Pass(Due(now, delays), NotDue(now, delays) + AddedBy(react, 0, |Due(now, delays)|), true)
  {
    PassFires(now, react, [], delays, [], 0);
    assert [] + NotDue(now, delays) == NotDue(now, delays);
    var added := AddedBy(react, 0, |Due(now, delays)|);
    assert [] + added == added;
  }

  /** The first callback to throw. */
  ghost predicate FirstThrow(react: nat -> Reaction, k: nat, n: nat) {
    react(k + n).throws && NoneThrows(react, k, n)
  }

  /** The pass up to the delay at `i`, whose callback throws. */
  function Stopped(now: int, react: nat -> Reaction, kept: seq<Delay>, rest: seq<Delay>, added: seq<Delay>, k: nat, i: nat): Pass
    requires i < |rest|
  {
    Pass(Due(now, rest[..i]) + [rest[i]],
         kept + NotDue(now, rest[..i]) + rest[i..] + (added + AddedBy(react, k, |Due(now, rest[..i])| + 1)), false)
  }

  lemma {:induction false} PassStops(now: int, react: nat -> Reaction, kept: seq<Delay>, rest: seq<Delay>, added: seq<Delay>, k: nat, n: nat)
    returns (i: nat)
    requires n < |Due(now, rest)| && FirstThrow(react, k, n)
    ensures DueAt(now, rest, i, n) && PassFrom(now, react, kept, rest, added, k) == Stopped(now, react, kept, rest, added, k, i)
    decreases |rest|
  {
    if now < rest[0].time {
      i := PassStops(now, react, kept + [rest[0]], rest[1..], added, k, n);
      StopShifts(now, react, kept, rest, added, k, i);
      i := i + 1;
    } else if n == 0 {
      i := 0;
      assert rest[..0] == [] && rest[0..] == rest;
      assert AddedBy(react, k, 1) == react(k).added + AddedBy(react, k + 1, 0) == react(k).added;
      assert kept + [] == kept;
    } else {
      i := PassStops(now, react, kept, rest[1..], added + react(k).added, k + 1, n - 1);
      StopShifts(now, react, kept, rest, added, k, i);
      i := i + 1;
    }
  }

  lemma StopShifts(now: int, react: nat -> Reaction, kept: seq<Delay>, rest: seq<Delay>, added: seq<Delay>, k: nat, i: nat)
    requires rest != [] && i + 1 < |rest|
    ensures now < rest[0].time ==>
      && |Due(now, rest[..i + 1])| == |Due(now, rest[1..][..i])|
      && Stopped(now, react, kept, rest, added, k, i + 1) == Stopped(now, react, kept + [rest[0]], rest[1..], added, k, i)
    ensures now >= rest[0].time ==>
      && |Due(now, rest[..i + 1])| == |Due(now, rest[1..][..i])| + 1
      && Stopped(now, react, kept, rest, added, k, i + 1) ==
         Fired(rest[0], Stopped(now, react, kept, rest[1..], added + react(k).added, k + 1, i))
  {
    var head, tail := rest[..i + 1], rest[1..];
    assert head[0] == rest[0] && head[1..] == tail[..i] && rest[i + 1..] == tail[i..];
    var n := |Due(now, tail[..i])|;
    assert kept + ([rest[0]] + NotDue(now, tail[..i])) == kept + [rest[0]] + NotDue(now, tail[..i]);
    assert [rest[0]] + (Due(now, tail[..i]) + [tail[i]]) == [rest[0]] + Due(now, tail[..i]) + [tail[i]];
    assert AddedBy(react, k, n + 2) == react(k).added + AddedBy(react, k + 1, n + 1);
    assert added + (react(k).added + AddedBy(react, k + 1, n + 1)) == added + react(k).added + AddedBy(react, k + 1, n + 1);
  }

  /** The delay at `i` is due and has `n` due ones before it. */
  predicate DueAt(now: int, delays: seq<Delay>, i: nat, n: nat) {
    i < |delays| && delays[i].time <= now && |Due(now, delays[..i])| == n
  }

  /** A callback that throws ends the pass: the delays due before it were fired and removed, it was
      fired but stays in the list, and everything behind it stays too. */
  lemma ThrowStopsPass(now: int, react: nat -> Reaction, delays: seq<Delay>, n: nat)
    returns (i: nat)
    requires n < |Due(now, delays)| && FirstThrow(react, 0, n)
    ensures DueAt(now, delays, i, n)
    ensures PassFrom(now, react, [], delays, [], 0) ==
            Pass(Due(now, delays[..i]) + [delays[i]], NotDue(now, delays[..i]) + delays[i..] + AddedBy(react, 0, n + 1), false)
  {
    i := PassStops(now, react, [], delays, [], 0, n);
    assert [] + NotDue(now, delays[..i]) == NotDue(now, delays[..i]);
    assert [] + AddedBy(react, 0, n + 1) == AddedBy(react, 0, n + 1);
  }

  /** A pass runs to its end exactly when none of the callbacks of the due delays throws. */
  lemma CompleteIffNoneThrows(now: int, react: nat -> Reaction, delays: seq<Delay>)
    ensures PassFrom(now, react, [], delays, [], 0).complete <==> NoneThrows(react, 0, |Due(now, delays)|)
  {
    if NoneThrows(react, 0, |Due(now, delays)|) {
      PassFiresDue(now, react, delays);
    } else {
      var n := FindThrow(react, |Due(now, delays)|);
      var i := ThrowStopsPass(now, react, delays, n);
    }
  }

  lemma FindThrow(react: nat -> Reaction, count: nat) returns (n: nat)
    requires !NoneThrows(react, 0, count)
    ensures n < count && FirstThrow(react, 0, n)
  {
    n := 0;
    while !react(n).throws
      invariant n <= count && NoneThrows(react, 0, n)
      decreases count - n
    {
      n := n + 1;
    }
  }

  /** When no callback throws, nothing is lost or fired twice: what was in the list or added is fired or
      still in the list. */
  lemma PassConserves(now: int, react: nat -> Reaction, delays: seq<Delay>)
    requires NoneThrows(react, 0, |Due(now, delays)|)
    ensures var p := PassFrom(now, react, [], delays, [], 0);
            multiset(p.fired) + multiset(p.left) == multiset(delays) + multiset(AddedBy(react, 0, |p.fired|))
  {
    PassFiresDue(now, react, delays);
    DueOrNot(now, delays);
  }

  lemma {:induction false} DueOrNot(now: int, delays: seq<Delay>)
    ensures multiset(Due(now, delays)) + multiset(NotDue(now, delays)) == multiset(delays)
  {
    if delays != [] {
      assert delays == [delays[0]] + delays[1..];
      DueOrNot(now, delays[1..]);
    }
  }

  // ---------------------------------------------------------------- runs

  /** A delay is added from outside, or a pass is made. */
  datatype Event = Add(d: Delay) | Fire(now: int, react: nat -> Reaction)

  function Passed(e: Event, delays: seq<Delay>): Pass
    requires e.Fire?
  {
    PassFrom(e.now, e.react, [], delays, [], 0)
  }

  function Next(delays: seq<Delay>, e: Event): seq<Delay> {
    if e.Add? then delays + [e.d] else Passed(e, delays).left
  }

  /** The list after the first `n` events. */
  function ListAt(delays: seq<Delay>, run: seq<Event>, n: nat): seq<Delay>
    requires n <= |run|
  {
    if n == 0 then delays else Next(ListAt(delays, run, n - 1), run[n - 1])
  }

  /** What event `n` fires. */
  function FiredAt(delays: seq<Delay>, run: seq<Event>, n: nat): seq<Delay>
    requires n < |run|
  {
    if run[n].Fire? then Passed(run[n], ListAt(delays, run, n)).fired else []
  }

  /** What event `n` adds. */
  function AddedAt(delays: seq<Delay>, run: seq<Event>, n: nat): seq<Delay>
    requires n < |run|
  {
    if run[n].Add? then [run[n].d] else AddedBy(run[n].react, 0, |FiredAt(delays, run, n)|)
  }

  /** Every pass runs to its end. */
  predicate Completes(delays: seq<Delay>, run: seq<Event>) {
    forall n :: 0 <= n < |run| && run[n].Fire? ==> Passed(run[n], ListAt(delays, run, n)).complete
  }

  predicate Reaches(e: Event, time: int) { e.Fire? && e.now >= time }

  /** Some pass after event `j` and before event `n` reaches the time. */
  predicate ReachedBetween(run: seq<Event>, time: int, j: nat, n: nat)
    requires n <= |run|
  {
    exists q :: j < q < n && Reaches(run[q], time)
  }

  /** How often event `n` adds `x`. */
  function Additions(delays: seq<Delay>, run: seq<Event>, x: Delay, n: nat): nat
    requires n < |run|
  {
    multiset(AddedAt(delays, run, n))[x]
  }

  function AdditionsOf(delays: seq<Delay>, run: seq<Event>, x: Delay, n: nat): (counts: seq<nat>)
    requires n <= |run|
    ensures |counts| == n
  {
    if n == 0 then [] else AdditionsOf(delays, run, x, n - 1) + [Additions(delays, run, x, n - 1)]
  }

  /** `counts` of the first `m` events, without those since which, up to event `n`, a pass reached the
      time. */
  function Unreached(run: seq<Event>, time: int, counts: seq<nat>, m: nat, n: nat): nat
    requires m <= n <= |run| && m <= |counts|
  {
    if m == 0 then 0
    else Unreached(run, time, counts, m - 1, n) + if ReachedBetween(run, time, m - 1, n) then 0 else counts[m - 1]
  }

  /** How often `x` was added before event `n` without a pass reaching its time since. */
  function Outstanding(delays: seq<Delay>, run: seq<Event>, x: Delay, n: nat): nat
    requires n <= |run|
  {
    Unreached(run, x.time, AdditionsOf(delays, run, x, n), n, n)
  }

  lemma ReachedBefore(run: seq<Event>, time: int, j: nat, n: nat)
    requires j < n < |run|
    ensures ReachedBetween(run, time, j, n + 1) <==> ReachedBetween(run, time, j, n) || Reaches(run[n], time)
  {
  }

  lemma {:induction false} UnreachedNext(run: seq<Event>, time: int, counts: seq<nat>, m: nat, n: nat)
    requires m <= n < |run| && m <= |counts|
    ensures Unreached(run, time, counts, m, n + 1) == if Reaches(run[n], time) then 0 else Unreached(run, time, counts, m, n)
  {
    if m > 0 {
      UnreachedNext(run, time, counts, m - 1, n);
      ReachedBefore(run, time, m - 1, n);
    }
  }

  /** Passes that reach the time clear the quantity held, and it grows by `counts`. */
  predicate Follows(run: seq<Event>, time: int, counts: seq<nat>, held: seq<nat>, n: nat)
    requires n <= |run| && n <= |counts| && n < |held|
  {
    forall i :: 0 <= i < n ==> held[i + 1] == (if Reaches(run[i], time) then 0 else held[i]) + counts[i]
  }

  lemma {:induction false} HeldIsUnreached(run: seq<Event>, time: int, counts: seq<nat>, held: seq<nat>, n: nat)
    requires n <= |run| && n <= |counts| && n < |held| && held[0] == 0 && Follows(run, time, counts, held, n)
    ensures held[n] == Unreached(run, time, counts, n, n)
  {
    if n > 0 {
      HeldIsUnreached(run, time, counts, held, n - 1);
      UnreachedNext(run, time, counts, n - 1, n - 1);
      assert !ReachedBetween(run, time, n - 1, n);
    }
  }

  lemma {:induction false} DueCounts(now: int, delays: seq<Delay>, x: Delay)
    ensures multiset(Due(now, delays))[x] == if now < x.time then 0 else multiset(delays)[x]
    ensures multiset(NotDue(now, delays))[x] == if now < x.time then multiset(delays)[x] else 0
  {
    if delays != [] {
      assert delays == [delays[0]] + delays[1..];
      DueCounts(now, delays[1..], x);
    }
  }

  lemma PassCounts(e: Event, delays: seq<Delay>, x: Delay)
    requires e.Fire? && Passed(e, delays).complete
    ensures var p := Passed(e, delays);
            && multiset(p.fired)[x] == (if Reaches(e, x.time) then multiset(delays)[x] else 0)
            && multiset(p.left)[x] ==
               (if Reaches(e, x.time) then 0 else multiset(delays)[x]) + multiset(AddedBy(e.react, 0, |p.fired|))[x]
  {
    CompleteIffNoneThrows(e.now, e.react, delays);
    PassFiresDue(e.now, e.react, delays);
    DueCounts(e.now, delays, x);
  }

  lemma ListedNext(run: seq<Event>, x: Delay, n: nat)
    requires Completes([], run) && n < |run|
    ensures multiset(ListAt([], run, n + 1))[x]
         == (if Reaches(run[n], x.time) then 0 else multiset(ListAt([], run, n))[x]) + Additions([], run, x, n)
  {
    var before := ListAt([], run, n);
    assert ListAt([], run, n + 1) == Next(before, run[n]);
    if run[n].Fire? {
      PassCounts(run[n], before, x);
    }
  }

  lemma ListedIsOutstanding(run: seq<Event>, x: Delay, n: nat)
    requires Completes([], run) && n <= |run|
    ensures multiset(ListAt([], run, n))[x] == Outstanding([], run, x, n)
  {
    var held := Held(run, x, n);
    HeldIsUnreached(run, x.time, AdditionsOf([], run, x, n), held, n);
  }

  /** What the list holds of `x` after each of the first `n` events. */
  lemma {:induction false} Held(run: seq<Event>, x: Delay, n: nat) returns (held: seq<nat>)
    requires Completes([], run) && n <= |run|
    ensures |held| == n + 1 && held[0] == 0 && held[n] == multiset(ListAt([], run, n))[x]
    ensures Follows(run, x.time, AdditionsOf([], run, x, n), held, n)
  {
    if n == 0 {
      held := [0];
    } else {
      var before := Held(run, x, n - 1);
      ListedNext(run, x, n - 1);
      held := before + [multiset(ListAt([], run, n))[x]];
      FollowsOn(run, x.time, AdditionsOf([], run, x, n - 1), before, n - 1, Additions([], run, x, n - 1), held[n]);
    }
  }

  lemma FollowsOn(run: seq<Event>, time: int, counts: seq<nat>, held: seq<nat>, n: nat, count: nat, next: nat)
    requires n < |run| && |counts| == n && |held| == n + 1 && Follows(run, time, counts, held, n)
    requires next == (if Reaches(run[n], time) then 0 else held[n]) + count
    ensures Follows(run, time, counts + [count], held + [next], n + 1)
  {
  }

  /** In every run whose passes all run to their end, a pass fires a delay as often as it was added
      before, from outside or by a callback, with no earlier pass reaching its time since: each delay
      fires in the first pass that reaches its time, and in no other. */
  lemma FiresInFirstPass(run: seq<Event>, x: Delay, n: nat)
    requires Completes([], run) && n < |run|
    ensures multiset(FiredAt([], run, n))[x] == if Reaches(run[n], x.time) then Outstanding([], run, x, n) else 0
  {
    ListedIsOutstanding(run, x, n);
    if run[n].Fire? {
      PassCounts(run[n], ListAt([], run, n), x);
    }
  }

  lemma {:induction false} AdditionsOnce(run: seq<Event>, x: Delay, j: nat, n: nat)
    requires n <= |run| && forall i :: 0 <= i < |run| ==> Additions([], run, x, i) == if i == j then 1 else 0
    ensures forall i :: 0 <= i < n ==> AdditionsOf([], run, x, n)[i] == if i == j then 1 else 0
  {
    if n > 0 {
      AdditionsOnce(run, x, j, n - 1);
    }
  }

  lemma {:induction false} UnreachedOnce(run: seq<Event>, time: int, counts: seq<nat>, j: nat, m: nat, n: nat)
    requires m <= n <= |run| && m <= |counts|
    requires forall i :: 0 <= i < |counts| ==> counts[i] == if i == j then 1 else 0
    ensures Unreached(run, time, counts, m, n) == if j < m && !ReachedBetween(run, time, j, n) then 1 else 0
  {
    if m > 0 {
      UnreachedOnce(run, time, counts, j, m - 1, n);
    }
  }

  /** A delay that is added once fires once, in the first pass after that to reach its time, or not at
      all while there is none. */
  lemma FiresOnce(run: seq<Event>, x: Delay, j: nat, n: nat)
    requires Completes([], run) && n < |run|
    requires forall i :: 0 <= i < |run| ==> Additions([], run, x, i) == if i == j then 1 else 0
    ensures multiset(FiredAt([], run, n))[x] ==
            if j < n && Reaches(run[n], x.time) && !ReachedBetween(run, x.time, j, n) then 1 else 0
  {
    FiresInFirstPass(run, x, n);
    AdditionsOnce(run, x, j, n);
    UnreachedOnce(run, x.time, AdditionsOf([], run, x, n), j, n, n);
  }

  /** Every pass reaches the time of the head of the list, whose callback throws. */
  predicate HeadThrows(time: int, run: seq<Event>) {
    forall n :: 0 <= n < |run| && run[n].Fire? ==> Reaches(run[n], time) && run[n].react(0).throws
  }

  /** A due delay at the head of the list whose callback throws whenever it is called is all that any
      later pass fires, and nothing ever leaves the list. */
  lemma {:induction false} ThrowingHeadBlocks(delays: seq<Delay>, run: seq<Event>, n: nat)
    requires delays != [] && HeadThrows(delays[0].time, run) && n <= |run|
    ensures delays <= ListAt(delays, run, n)
    ensures n < |run| && run[n].Fire? ==> FiredAt(delays, run, n) == [delays[0]]
  {
    if n > 0 {
      ThrowingHeadBlocks(delays, run, n - 1);
    }
  }
}
