/** Requesting the next call of a script: any number of threads lower one shared time by
    compare-exchange.  Every access to the shared word is one step. */
module TickRequests {

  /** A request in progress: not yet begun to look, or looking at the time it last saw. */
  datatype Call = Fresh(time: nat) | Looking(time: nat, prev: nat)

  datatype State = State(
    scheduled: nat,
    calls: map<nat, Call>,     // by thread
    // history
    requested: set<nat>,       // times of all requests begun
    completed: set<nat>,       // times of the requests that returned
    nextFrame: bool)           // the time was set to 0

  datatype Step =
    | Request(thread: nat, time: nat)
    | Load(thread: nat)
    | Exchange(thread: nat, time: nat, prev: nat)
    | Return(thread: nat)
    | NextFrame

  function Initial(time: nat): State {
    State(time, map[], {}, {}, false)
  }

  predicate Enabled(s: State, step: Step) {
    match step
    case Request(th, _) => th !in s.calls
    case Load(th) => th in s.calls && s.calls[th].Fresh?
    case Exchange(th, time, prev) => th in s.calls && s.calls[th] == Looking(time, prev) && time < prev
    case Return(th) => th in s.calls && s.calls[th].Looking? && s.calls[th].time >= s.calls[th].prev
    case NextFrame => true
  }

  function After(s: State, step: Step): State
    requires Enabled(s, step)
  {
    match step
    case Request(th, time) => s.(calls := s.calls[th := Fresh(time)], requested := s.requested + {time})
    case Load(th) => s.(calls := s.calls[th := Looking(s.calls[th].time, s.scheduled)])
    case Exchange(th, time, prev) =>
      // the call gets back what was stored, whether or not it was replaced
      s.(scheduled := if s.scheduled == prev then time else s.scheduled, calls := s.calls[th := Looking(time, s.scheduled)])
    case Return(th) => s.(calls := s.calls - {th}, completed := s.completed + {s.calls[th].time})
    case NextFrame => s.(scheduled := 0, nextFrame := true)
  }

  predicate Runs(s: State, steps: seq<Step>)
    decreases |steps|
  {
    steps == [] || (Enabled(s, steps[0]) && Runs(After(s, steps[0]), steps[1..]))
  }

  function Final(s: State, steps: seq<Step>): State
    requires Runs(s, steps)
    decreases |steps|
  {
    if steps == [] then s else Final(After(s, steps[0]), steps[1..])
  }

  // ---------------------------------------------------------------- what every step keeps

  predicate Inv(start: nat, s: State) {
    && (s.scheduled == start || s.scheduled in s.requested || (s.nextFrame && s.scheduled == 0))
    && s.scheduled <= start && (s.nextFrame ==> s.scheduled == 0)
    && (forall t :: t in s.completed ==> s.scheduled <= t && t in s.requested)
    && (forall th :: th in s.calls ==> s.calls[th].time in s.requested)
    && (forall th :: th in s.calls && s.calls[th].Looking? ==> s.scheduled <= s.calls[th].prev)
    && (forall t :: t in s.requested && t !in s.completed ==> exists th :: th in s.calls && s.calls[th].time == t)
  }

  lemma PendingKept(s: State, step: Step)
    requires Enabled(s, step)
    requires forall t :: t in s.requested && t !in s.completed ==> exists th :: th in s.calls && s.calls[th].time == t
    ensures var s' := After(s, step);
            forall t :: t in s'.requested && t !in s'.completed ==> exists th :: th in s'.calls && s'.calls[th].time == t
  {
    var s' := After(s, step);
    forall t | t in s'.requested && t !in s'.completed ensures exists th :: th in s'.calls && s'.calls[th].time == t {
      if t in s.requested {
        var th :| th in s.calls && s.calls[th].time == t;
        assert th in s'.calls && s'.calls[th].time == t;
      } else {
        assert step.Request? && s'.calls[step.thread].time == t;
      }
    }
  }

  lemma InvKept(start: nat, s: State, step: Step)
    requires Inv(start, s) && Enabled(s, step)
    ensures Inv(start, After(s, step)) && After(s, step).scheduled <= s.scheduled
  {
    PendingKept(s, step);
  }

  lemma {:induction false} InvThroughRun(start: nat, s: State, steps: seq<Step>)
    requires Inv(start, s) && Runs(s, steps)
    ensures Inv(start, Final(s, steps)) && Final(s, steps).scheduled <= s.scheduled
    decreases |steps|
  {
    if steps != [] {
      InvKept(start, s, steps[0]);
      InvThroughRun(start, After(s, steps[0]), steps[1..]);
    }
  }

  // ---------------------------------------------------------------- read off the steps

  /** The times of the calls in progress, by thread; those asked for, and those of calls that returned. */
  datatype History = History(open: map<nat, nat>, asked: set<nat>, answered: set<nat>, reset: bool)

  const NOTHING := History(map[], {}, {}, false)

  function Noted(h: History, step: Step): History {
    match step
    case Request(th, time) => h.(open := h.open[th := time], asked := h.asked + {time})
    case Return(th) => if th in h.open then h.(open := h.open - {th}, answered := h.answered + {h.open[th]}) else h
    case NextFrame => h.(reset := true)
    case _ => h
  }

  function Told(h: History, steps: seq<Step>): History
    decreases |steps|
  {
    if steps == [] then h else Told(Noted(h, steps[0]), steps[1..])
  }

  predicate Agrees(s: State, h: History) {
    && s.requested == h.asked && s.completed == h.answered && s.nextFrame == h.reset
    && s.calls.Keys == h.open.Keys && forall th :: th in h.open ==> s.calls[th].time == h.open[th]
  }

  lemma {:induction false} RunAgrees(s: State, h: History, steps: seq<Step>)
    requires Agrees(s, h) && Runs(s, steps)
    ensures Agrees(Final(s, steps), Told(h, steps))
    decreases |steps|
  {
    if steps != [] {
      RunAgrees(After(s, steps[0]), Noted(h, steps[0]), steps[1..]);
    }
  }

  /** A thread left alone gets its request through, in two rounds when it lowers the scheduled time and in
      none otherwise, and leaves the lesser of that time and its own. */
  lemma AloneSchedules(s: State, th: nat, time: nat) returns (steps: seq<Step>)
    requires th !in s.calls
    ensures steps == [Request(th, time), Load(th)]
                     + (if time < s.scheduled then [Exchange(th, time, s.scheduled), Exchange(th, time, s.scheduled)] else [])
                     + [Return(th)]
    ensures Runs(s, steps) && Final(s, steps).calls == s.calls
    ensures Final(s, steps).scheduled == if time < s.scheduled then time else s.scheduled
  {
    var begin, load, exchange, end := Request(th, time), Load(th), Exchange(th, time, s.scheduled), Return(th);
    var s1 := After(s, begin);
    var s2 := After(s1, load);
    var last := s2;
    steps := [];
    if time < s.scheduled {
      var s3 := After(s2, exchange);
      last := After(s3, exchange);
      OneStep(last, end, [], After(last, end));
      OneStep(s3, exchange, [end], After(last, end));
      OneStep(s2, exchange, [exchange, end], After(last, end));
      steps := [exchange, exchange, end];
    } else {
      OneStep(s2, end, [], After(last, end));
      steps := [end];
    }
    OneStep(s1, load, steps, After(last, end));
    OneStep(s, begin, [load] + steps, After(last, end));
    steps := [begin] + ([load] + steps);
  }

  lemma OneStep(s: State, step: Step, rest: seq<Step>, end: State)
    requires Enabled(s, step) && Runs(After(s, step), rest) && Final(After(s, step), rest) == end
    ensures Runs(s, [step] + rest) && Final(s, [step] + rest) == end
  {
    assert ([step] + rest)[1..] == rest;
  }

  // ---------------------------------------------------------------- the main statements

  /** In every interleaving the scheduled time never rises, is at most every completed request, and
      is the initial time, a requested one, or 0. */
  lemma ScheduledIsSound(start: nat, steps: seq<Step>, more: seq<Step>)
    requires Runs(Initial(start), steps) && Runs(Final(Initial(start), steps), more)
    ensures var s, h := Final(Initial(start), steps), Told(NOTHING, steps);
            && Final(s, more).scheduled <= s.scheduled
            && (forall t :: t in h.answered ==> s.scheduled <= t)
            && (s.scheduled == start || s.scheduled in h.asked || (h.reset && s.scheduled == 0))
  {
    RunAgrees(Initial(start), NOTHING, steps);
    InvThroughRun(start, Initial(start), steps);
    InvThroughRun(start, Final(Initial(start), steps), more);
  }

  /** Once all requests have returned, the scheduled time is the least of the initial time, the
      requested ones and, if asked for the next frame, 0. */
  lemma EndsAsMinimum(start: nat, steps: seq<Step>)
    requires Runs(Initial(start), steps) && Told(NOTHING, steps).open == map[]
    ensures var s, h := Final(Initial(start), steps), Told(NOTHING, steps);
            var all := {start} + h.asked + if h.reset then {0} else {};
            s.scheduled in all && forall t :: t in all ==> s.scheduled <= t
  {
    RunAgrees(Initial(start), NOTHING, steps);
    InvThroughRun(start, Initial(start), steps);
  }

  /** The time a looking call last saw, plus the scheduled time. */
  function Potential(s: State, th: nat): nat {
    s.scheduled + if th in s.calls && s.calls[th].Looking? then s.calls[th].prev else 0
  }

  predicate SameCall(th: nat, step: Step) {
    match step
    case Request(t, _) => t != th
    case Load(t) => t != th
    case Return(t) => t != th
    case _ => true
  }

  /** Every round of a call's loop lowers its potential, and no step of another thread raises it. */
  lemma RoundsProgress(start: nat, s: State, th: nat, step: Step)
    requires Inv(start, s) && Enabled(s, step) && SameCall(th, step) && th in s.calls && s.calls[th].Looking?
    ensures var s' := After(s, step);
            && th in s'.calls && s'.calls[th].Looking? && s'.calls[th].time == s.calls[th].time
            && Potential(s', th) <= Potential(s, th)
            && (step.Exchange? && step.thread == th ==> Potential(s', th) < Potential(s, th))
  {
  }

  function Rounds(th: nat, steps: seq<Step>): nat {
    if steps == [] then 0
    else (if steps[0].Exchange? && steps[0].thread == th then 1 else 0) + Rounds(th, steps[1..])
  }

  /** A call's loop takes finitely many rounds, whatever the other threads do. */
  lemma {:induction false} RoundsBounded(start: nat, s: State, th: nat, steps: seq<Step>)
    requires Inv(start, s) && Runs(s, steps) && th in s.calls && s.calls[th].Looking?
    requires forall i :: 0 <= i < |steps| ==> SameCall(th, steps[i])
    ensures Rounds(th, steps) + Potential(Final(s, steps), th) <= Potential(s, th)
    decreases |steps|
  {
    if steps != [] {
      RoundsProgress(start, s, th, steps[0]);
      InvKept(start, s, steps[0]);
      RoundsBounded(start, After(s, steps[0]), th, steps[1..]);
    }
  }

  /** A round that does not end the loop either schedules the request's own time, or found that
      another thread had lowered the scheduled time since. */
  lemma RoundExplained(start: nat, s: State, th: nat, time: nat, prev: nat)
    requires Inv(start, s) && Enabled(s, Exchange(th, time, prev))
    ensures var s' := After(s, Exchange(th, time, prev));
            (s.scheduled == prev && s'.scheduled == time) || (s.scheduled < prev && s'.scheduled == s.scheduled)
  {
  }
}
