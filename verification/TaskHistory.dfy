/** What the scheduler's steps alone say of queued tasks and bodies, that a task can always be queued, and
    that a tick starts what its dictionary is given. */
module TaskHistories {
  import opened Options
  import opened TaskScheduling

  // ---------------------------------------------------------------- read off the steps

  /** Who is queueing which task; the tasks asked for and those whose queueing returned; the bodies
      begun, in order, those in progress, innermost last, and those ended. */
  datatype History = History(open: map<Thread, Task>, asked: set<Task>, registered: set<Task>,
                             begun: seq<Task>, nesting: seq<Task>, ended: set<Task>)

  const NOTHING := History(map[], {}, {}, [], [], {})

  function Noted(h: History, step: Step): History {
    match step
    case Queue(thread, t) => h.(open := h.open[thread := t], asked := h.asked + {t})
    case Register(thread) =>
      if thread in h.open then h.(open := h.open - {thread}, registered := h.registered + {h.open[thread]}) else h
    case Inline(t) => h.(begun := h.begun + [t], nesting := h.nesting + [t])
    case Try(t) => if t in h.begun then h else h.(begun := h.begun + [t], nesting := h.nesting + [t])
    case Finish =>
      var n := |h.nesting| - 1;
      if n < 0 then h else h.(nesting := h.nesting[..n], ended := h.ended + {h.nesting[n]})
    case _ => h
  }

  function Told(h: History, steps: seq<Step>): History
    decreases |steps|
  {
    if steps == [] then h else Told(Noted(h, steps[0]), steps[1..])
  }

  function Nesting(st: Stack): seq<Task> {
    match st
    case Host => []
    case Call(Body(t, _), below) => Nesting(below) + [t]
    case Call(_, below) => Nesting(below)
  }

  ghost predicate Agrees(s: State, h: History) {
    && s.queued == h.asked && s.returned == h.registered && s.log == h.begun && s.done == h.ended
    && s.queueing.Keys == h.open.Keys && (forall th :: th in h.open ==> s.queueing[th].task == h.open[th])
    && Nesting(s.stack) == h.nesting
  }

  lemma StepAgrees(s: State, h: History, step: Step)
    requires Agrees(s, h) && Enabled(s, step)
    ensures Agrees(After(s, step), Noted(h, step))
  {
    if step.Finish? {
      assert Nesting(s.stack) == Nesting(s.stack.below) + [s.stack.top.task];
    }
  }

  lemma {:induction false} RunAgrees(s: State, h: History, steps: seq<Step>)
    requires Agrees(s, h) && Runs(s, steps)
    ensures Agrees(Final(s, steps), Told(h, steps))
    decreases |steps|
  {
    if steps != [] {
      StepAgrees(s, h, steps[0]);
      RunAgrees(After(s, steps[0]), Noted(h, steps[0]), steps[1..]);
    }
  }

  /** In every run a task whose queueing returned and whose body has not ended, as the steps tell, is among
      the running tasks, no body is begun twice, and what is running was asked for. */
  lemma NoTaskLostInSteps(steps: seq<Step>)
    requires Runs(INITIAL, steps)
    ensures var s, h := Final(INITIAL, steps), Told(NOTHING, steps);
            Agrees(s, h) && h.registered - h.ended <= s.running <= h.asked && NoRepeats(h.begun)
  {
    RunAgrees(INITIAL, NOTHING, steps);
    InvThroughRun(INITIAL, steps);
  }

  // ---------------------------------------------------------------- queueing goes through

  lemma RunStep(s: State, step: Step, rest: seq<Step>)
    requires Enabled(s, step) && Runs(After(s, step), rest)
    ensures Runs(s, [step] + rest) && Final(s, [step] + rest) == Final(After(s, step), rest)
  {
    assert ([step] + rest)[1..] == rest;
  }

  /** Whatever the others are doing, a thread can queue a task: in four steps at most it is among the
      running tasks and, from inside a tick, in the dictionary that the field names. */
  lemma QueueAlone(s: State, thread: Thread, t: Task) returns (steps: seq<Step>)
    requires Inv(s) && t !in s.queued && t !in s.log && thread !in s.queueing && (thread == Ticker ==> InCode(s))
    ensures |steps| <= 4 && Runs(s, steps) && steps != [] && steps[0] == Queue(thread, t)
    ensures forall i :: 0 < i < |steps| ==> steps[i] in {Check(thread), Insert(thread), Register(thread)}
    ensures var end := Final(s, steps);
            && end.running == s.running + {t} && end.returned == s.returned + {t} && end.queueing == s.queueing
            && end.inTick == s.inTick && end.stack == s.stack
            && (s.inTick.Some? ==> s.inTick.value in end.dictionaries && t in end.dictionaries[s.inTick.value])
  {
    var s1 := After(s, Queue(thread, t));
    var s2 := After(s1, Check(thread));
    OwnedOnly(s.stack, s.inTick);
    if s.inTick.Some? {
      var s3 := After(s2, Insert(thread));
      Registered(s3, thread);
      RunStep(s2, Insert(thread), [Register(thread)]);
      steps := [Insert(thread)] + [Register(thread)];
    } else {
      Registered(s2, thread);
      steps := [Register(thread)];
    }
    RunStep(s1, Check(thread), steps);
    steps := [Check(thread)] + steps;
    RunStep(s, Queue(thread, t), steps);
    steps := [Queue(thread, t)] + steps;
  }

  lemma Registered(s: State, thread: Thread)
    requires Enabled(s, Register(thread))
    ensures Runs(s, [Register(thread)]) && Final(s, [Register(thread)]) == After(s, Register(thread))
  {
    assert [Register(thread)][1..] == [];
  }

  /** A thread in the middle of queueing can go on. */
  lemma QueueingGoesOn(s: State, thread: Thread)
    requires Inv(s) && thread in s.queueing
    ensures Enabled(s, Check(thread)) || Enabled(s, Insert(thread)) || Enabled(s, Register(thread))
  {
    DictionariesPresent(s);
  }

  /** From host code and from every body, inlined or not, the ticking thread can begin a tick, and it can run
    an unused task in place. */
  lemma TicksNest(s: State, t: Task) returns (id: DictionaryId)
    requires Inv(s) && Ticker !in s.queueing && (s.stack == Host || s.stack.top.Body?)
    ensures Enabled(s, Begin) && Enabled(After(s, Begin), Switch(id))
    ensures var s' := After(After(s, Begin), Switch(id));
            && s'.stack == Call(Looping(s.inTick, id, s.running, None, false), s.stack)
            && s'.inTick == Some(id) && s'.dictionaries == s.dictionaries[id := {}] && s'.running == s.running
    ensures t !in s.queued && t !in s.log ==> Enabled(s, Inline(t)) && After(s, Inline(t)).stack == Call(Body(t, true), s.stack)
  {
    id := FreshId(s.dictionaries.Keys);
  }

  // ---------------------------------------------------------------- what is inserted is started

  /** Some tick in progress is going to try `t`, or its body was begun. */
  predicate Assured(s: State, t: Task) {
    t in Covered(s.stack, s.dictionaries) || t in s.log
  }

  lemma AssuredKept(s: State, step: Step, t: Task)
    requires Inv(s) && Enabled(s, step) && Assured(s, t)
    ensures Assured(After(s, step), t)
  {
    match step
    case Insert(thread) => InsertCovers(s, thread);
    case Switch(id) => SwitchCovers(s, id);
    case Refill => RefillCovers(s);
    case _ =>
  }

  lemma {:induction false} AssuredToEnd(s: State, steps: seq<Step>, t: Task)
    requires Inv(s) && Runs(s, steps) && Assured(s, t)
    ensures Assured(Final(s, steps), t)
    decreases |steps|
  {
    if steps != [] {
      AssuredKept(s, steps[0], t);
      InvKept(s, steps[0]);
      AssuredToEnd(After(s, steps[0]), steps[1..], t);
    }
  }

  /** The innermost tick in progress is in its loop and will look into its dictionary again. */
  predicate WillRefill(st: Stack) {
    match st
    case Host => false
    case Call(Body(_, _), below) => WillRefill(below)
    case Call(Entering(_), _) => false
    case Call(Looping(_, _, _, _, leaving), _) => !leaving
  }

  lemma {:induction false} InsertTaken(st: Stack, inTick: Option<DictionaryId>, dictionaries: map<DictionaryId, set<Task>>)
    requires Nested(st, inTick) && WillRefill(st) && inTick.Some?
    ensures Contents(dictionaries, inTick.value) <= Covered(st, dictionaries)
  {
    if st.top.Body? {
      InsertTaken(st.below, inTick, dictionaries);
    }
  }

  lemma {:induction false} LoopNamed(st: Stack, inTick: Option<DictionaryId>)
    requires Nested(st, inTick) && WillRefill(st)
    ensures inTick.Some?
  {
    if st.top.Body? {
      LoopNamed(st.below, inTick);
    }
  }

  /** A task that any thread inserts while the innermost tick will look into its dictionary again has been
      started when no tick is in progress any more. */
  lemma InsertedIsStarted(s: State, thread: Thread, steps: seq<Step>)
    requires Inv(s) && Enabled(s, Insert(thread)) && WillRefill(s.stack)
    requires Runs(After(s, Insert(thread)), steps) && !Ticking(Final(After(s, Insert(thread)), steps).stack)
    ensures s.queueing[thread].task in Final(After(s, Insert(thread)), steps).log
  {
    var s', t := After(s, Insert(thread)), s.queueing[thread].task;
    LoopNamed(s.stack, s.inTick);
    InsertTaken(s.stack, s.inTick, s'.dictionaries);
    InvKept(s, Insert(thread));
    AssuredToEnd(s', steps, t);
    NoTickCoversNothing(Final(s', steps).stack, Final(s', steps).dictionaries);
  }

  /** Every task that runs when a `Tick` begins has been started when no tick is in progress any more. */
  lemma RunningIsStarted(s: State, t: Task, steps: seq<Step>)
    requires Inv(s) && Enabled(s, Begin) && t in s.running
    requires Runs(After(s, Begin), steps) && !Ticking(Final(After(s, Begin), steps).stack)
    ensures t in Final(After(s, Begin), steps).log
  {
    var s' := After(s, Begin);
    InvKept(s, Begin);
    AssuredToEnd(s', steps, t);
    NoTickCoversNothing(Final(s', steps).stack, Final(s', steps).dictionaries);
  }
}
