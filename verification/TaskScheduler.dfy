/** The task scheduler: one thread ticks, re-entrantly, while any number of threads queue tasks.
    Every locked region and every unlocked read of a shared field is one step. */
module TaskScheduling {
  import opened Options

  type Task = nat
  type DictionaryId = nat

  datatype Thread = Ticker | Other(id: nat)

  /** Where a thread stands inside `QueueTask`. */
  datatype Stage = Checking | Inserting | Registering

  datatype Queueing = Queueing(task: Task, stage: Stage)

  /** What the ticking thread is in the middle of. */
  datatype Frame =
    /** A task's body; an inlined one was never queued. */
    | Body(task: Task, inlined: bool)
    /** `Tick` has copied the running tasks and not yet replaced the in-tick dictionary. */
    | Entering(copied: set<Task>)
    /** `Tick` is in its loop: `current` is the task being tried, `pending` those left to try. */
    | Looping(saved: Option<DictionaryId>, own: DictionaryId, pending: set<Task>, current: Option<Task>, leaving: bool)

  /** The ticking thread's calls, innermost first. */
  datatype Stack = Host | Call(top: Frame, below: Stack)

  datatype State = State(
    running: set<Task>,                          // m_runningTasks
    inTick: Option<DictionaryId>,                // m_inTickTasks
    dictionaries: map<DictionaryId, set<Task>>,
    stack: Stack,
    queueing: map<Thread, Queueing>,
    // history
    queued: set<Task>,                           // QueueTask was called
    returned: set<Task>,                         // QueueTask returned
    log: seq<Task>,                              // bodies in the order they were started
    done: set<Task>,                             // bodies that ended
    late: set<Task>)                             // registered by other threads since the outermost Tick copied

  const INITIAL := State({}, None, map[], Host, map[], {}, {}, [], {}, {})

  datatype Step =
    | Queue(thread: Thread, task: Task)
    | Check(thread: Thread)
    | Insert(thread: Thread)
    | Register(thread: Thread)
    | Inline(task: Task)
    | Finish
    | Begin
    | Switch(id: DictionaryId)
    | Try(task: Task)
    | Clean
    | Refill
    | Leave

  predicate Ticking(st: Stack) {
    match st
    case Host => false
    case Call(Body(_, _), below) => Ticking(below)
    case Call(_, _) => true
  }

  /** The ticking thread is in host code or in a task's body. */
  predicate InCode(s: State) {
    s.stack == Host || s.stack.top.Body?
  }

  /** In its `Tick` loop, with no body above it. */
  predicate InLoop(s: State) {
    s.stack.Call? && s.stack.top.Looping?
  }

  /** The runtime queues or inlines a task once. */
  predicate Unused(s: State, t: Task) {
    t !in s.queued && t !in s.log
  }

  predicate Enabled(s: State, step: Step) {
    match step
    case Queue(thread, t) => Unused(s, t) && thread !in s.queueing && (thread == Ticker ==> InCode(s))
    case Check(thread) => thread in s.queueing && s.queueing[thread].stage == Checking
    case Insert(thread) =>
      thread in s.queueing && s.queueing[thread].stage == Inserting && (s.inTick.Some? ==> s.inTick.value in s.dictionaries)
    case Register(thread) => thread in s.queueing && s.queueing[thread].stage == Registering
    case Inline(t) => Unused(s, t) && Ticker !in s.queueing && InCode(s)
    case Finish => Ticker !in s.queueing && s.stack.Call? && s.stack.top.Body?
    case Begin => Ticker !in s.queueing && InCode(s)
    case Switch(id) => s.stack.Call? && s.stack.top.Entering? && id !in s.dictionaries
    case Try(t) => InLoop(s) && s.stack.top.current == None && t in s.stack.top.pending
    case Clean => InLoop(s) && s.stack.top.current.Some?
    case Refill =>
      && InLoop(s) && s.stack.top.current == None && s.stack.top.pending == {} && !s.stack.top.leaving
      && s.inTick.Some? && s.inTick.value in s.dictionaries
    case Leave => InLoop(s) && s.stack.top.leaving
  }

  function After(s: State, step: Step): State
    requires Enabled(s, step)
  {
    match step
    case Queue(thread, t) => s.(queued := s.queued + {t}, queueing := s.queueing[thread := Queueing(t, Checking)])
    case Check(thread) =>
      s.(queueing := s.queueing[thread := s.queueing[thread].(stage := if s.inTick.Some? then Inserting else Registering)])
    case Insert(thread) =>
      var t := s.queueing[thread].task;
      s.(dictionaries := if s.inTick == None then s.dictionaries
                         else s.dictionaries[s.inTick.value := s.dictionaries[s.inTick.value] + {t}],
         queueing := s.queueing[thread := Queueing(t, Registering)])
    case Register(thread) =>
      var t := s.queueing[thread].task;
      s.(running := s.running + {t}, queueing := s.queueing - {thread}, returned := s.returned + {t},
         late := if thread == Ticker then s.late else s.late + {t})
    case Inline(t) => s.(stack := Call(Body(t, true), s.stack), log := s.log + [t])
    case Finish => s.(stack := s.stack.below, done := s.done + {s.stack.top.task})
    case Begin => s.(stack := Call(Entering(s.running), s.stack), late := if Ticking(s.stack) then s.late else {})
    case Switch(id) =>
      s.(stack := Call(Looping(s.inTick, id, s.stack.top.copied, None, false), s.stack.below),
         inTick := Some(id), dictionaries := s.dictionaries[id := {}])
    case Try(t) =>
      // the runtime starts a body only once
      var loop := s.stack.top.(pending := s.stack.top.pending - {t}, current := Some(t));
      if t in s.log then s.(stack := Call(loop, s.stack.below))
      else s.(stack := Call(Body(t, false), Call(loop, s.stack.below)), log := s.log + [t])
    case Clean =>
      var t := s.stack.top.current.value;
      s.(running := if t in s.done then s.running - {t} else s.running,
         stack := Call(s.stack.top.(current := None), s.stack.below))
    case Refill =>
      var next := s.dictionaries[s.inTick.value];
      s.(stack := Call(s.stack.top.(pending := next, leaving := next == {}), s.stack.below),
         dictionaries := s.dictionaries[s.inTick.value := {}])
    case Leave => s.(stack := s.stack.below, inTick := s.stack.top.saved)
  }

  predicate Runs(s: State, steps: seq<Step>)
    decreases |steps|
  {
    steps == [] || (Enabled(s, steps[0]) && Runs(After(s, steps[0]), steps[1..]))
  }

  function Final(s: State, steps: seq<Step>): State
    requires Runs(s, steps)
    decreases |steps|
  {
    if steps == [] then s else Final(After(s, steps[0]), steps[1..])
  }

  // ---------------------------------------------------------------- the invariant

  /** The dictionaries of the ticks in progress. */
  function Owned(st: Stack): set<DictionaryId> {
    match st
    case Host => {}
    case Call(Looping(_, own, _, _, _), below) => {own} + Owned(below)
    case Call(_, below) => Owned(below)
  }

  /** The field names the innermost tick's own dictionary, and every tick saved the one around it. */
  predicate Nested(st: Stack, inTick: Option<DictionaryId>) {
    match st
    case Host => inTick == None
    case Call(Looping(saved, own, _, _, _), below) => inTick == Some(own) && own !in Owned(below) && Nested(below, saved)
    case Call(_, below) => Nested(below, inTick)
  }

  /** Only a body can be above a tick's loop, and it is the body of the loop's current task. */
  predicate WellStacked(st: Stack) {
    match st
    case Host => true
    case Call(top, below) =>
      && WellStacked(below)
      && (top.Looping? && top.current.Some? ==> !top.leaving)
      && (top.Looping? && top.leaving ==> top.pending == {})
      && (if top.Body? && !top.inlined then below.Call? && below.top.Looping? && below.top.current == Some(top.task)
          else below == Host || below.top.Body?)
  }

  function Bodies(st: Stack): set<Task> {
    match st
    case Host => {}
    case Call(Body(t, _), below) => {t} + Bodies(below)
    case Call(_, below) => Bodies(below)
  }

  function InlinedBodies(st: Stack): set<Task> {
    match st
    case Host => {}
    case Call(Body(t, true), below) => {t} + InlinedBodies(below)
    case Call(_, below) => InlinedBodies(below)
  }

  /** The tasks that ticks in progress have tried last. */
  function Tried(st: Stack): set<Task> {
    match st
    case Host => {}
    case Call(Looping(_, _, _, current, _), below) => Of(current) + Tried(below)
    case Call(_, below) => Tried(below)
  }

  function Of(current: Option<Task>): set<Task> {
    if current == None then {} else {current.value}
  }

  function Contents(dictionaries: map<DictionaryId, set<Task>>, id: DictionaryId): set<Task> {
    if id in dictionaries then dictionaries[id] else {}
  }

  /** The tasks that some tick in progress is still going to try or clean up. */
  function Covered(st: Stack, dictionaries: map<DictionaryId, set<Task>>): set<Task> {
    match st
    case Host => {}
    case Call(Body(_, _), below) => Covered(below, dictionaries)
    case Call(Entering(copied), below) => copied + Covered(below, dictionaries)
    case Call(Looping(_, own, pending, current, leaving), below) =>
      pending + Of(current) + (if leaving then {} else Contents(dictionaries, own)) + Covered(below, dictionaries)
  }

  predicate NoRepeats(log: seq<Task>) {
    forall i, j :: 0 <= i < j < |log| ==> log[i] != log[j]
  }

  predicate Shape(s: State) {
    Nested(s.stack, s.inTick) && WellStacked(s.stack) && Owned(s.stack) <= s.dictionaries.Keys
  }

  predicate Bookkeeping(s: State) {
    && s.returned - s.done <= s.running <= s.queued
    && s.queued !! InlinedBodies(s.stack)
    && (forall t :: t in InlinedBodies(s.stack) + Tried(s.stack) ==> t in s.log)
    && (forall t :: t in s.log && t !in s.done ==> t in Bodies(s.stack))
    && (forall th :: th in s.queueing ==> s.queueing[th].task in s.queued)
    && NoRepeats(s.log)
  }

  /** While the ticking thread queues a task from inside a tick, its next steps keep it covered. */
  predicate TickerQueueing(s: State) {
    Ticker in s.queueing ==>
      && InCode(s)
      && (s.queueing[Ticker].stage == Inserting ==> s.inTick.Some?)
      && (s.queueing[Ticker].stage == Registering && Ticking(s.stack) ==>
            s.queueing[Ticker].task in Covered(s.stack, s.dictionaries))
  }

  predicate Coverage(s: State) {
    Ticking(s.stack) ==> s.running - s.late <= Covered(s.stack, s.dictionaries)
  }

  predicate Inv(s: State) {
    Shape(s) && Bookkeeping(s) && TickerQueueing(s) && Coverage(s)
  }

  // ---------------------------------------------------------------- steps keep it

  lemma {:induction false} OwnedOnly(st: Stack, inTick: Option<DictionaryId>)
    requires Nested(st, inTick)
    ensures inTick.Some? ==> inTick.value in Owned(st)
    ensures inTick == None ==> Owned(st) == {}
  {
    match st
    case Host =>
    case Call(Looping(_, _, _, _, _), _) =>
    case Call(_, below) => OwnedOnly(below, inTick);
  }

  lemma ShapeKept(s: State, step: Step)
    requires Shape(s) && TickerQueueing(s) && Enabled(s, step)
    ensures Shape(After(s, step))
  {
    OwnedOnly(s.stack, s.inTick);
  }

  lemma LogGrows(log: seq<Task>, t: Task)
    requires NoRepeats(log) && t !in log
    ensures NoRepeats(log + [t])
  {
  }

  lemma BookkeepingKept(s: State, step: Step)
    requires Shape(s) && Bookkeeping(s) && Enabled(s, step)
    ensures Bookkeeping(After(s, step))
  {
    match step
    case Inline(t) => LogGrows(s.log, t);
    case Try(t) => if t !in s.log { LogGrows(s.log, t); }
    case _ =>
  }

  /** Tasks are added only to dictionaries, so what a tick covers grows until it takes them out. */
  lemma {:induction false} CoveredGrows(st: Stack, before: map<DictionaryId, set<Task>>, now: map<DictionaryId, set<Task>>)
    requires forall id :: id in Owned(st) ==> Contents(before, id) <= Contents(now, id)
    ensures Covered(st, before) <= Covered(st, now)
  {
    if st.Call? {
      CoveredGrows(st.below, before, now);
    }
  }

  /** From a body inside a tick, the in-tick dictionary is one that a tick will still take from. */
  lemma {:induction false} InTickCovered(st: Stack, id: DictionaryId, dictionaries: map<DictionaryId, set<Task>>)
    requires Nested(st, Some(id)) && WellStacked(st) && st.Call? && st.top.Body?
    ensures Contents(dictionaries, id) <= Covered(st, dictionaries)
  {
    if st.top.inlined {
      assert st.below.Call?;
      InTickCovered(st.below, id, dictionaries);
    }
  }

  lemma {:induction false} NoTickNoDictionary(st: Stack)
    requires Nested(st, None) && (st == Host || st.top.Body?) && WellStacked(st)
    ensures !Ticking(st)
  {
    if st.Call? {
      NoTickNoDictionary(st.below);
    }
  }

  lemma {:induction false} BodiesCovered(st: Stack, dictionaries: map<DictionaryId, set<Task>>)
    requires WellStacked(st)
    ensures Bodies(st) <= InlinedBodies(st) + Covered(st, dictionaries)
  {
    if st.Call? {
      BodiesCovered(st.below, dictionaries);
    }
  }

  lemma InsertCovers(s: State, thread: Thread)
    requires Shape(s) && Enabled(s, Insert(thread))
    ensures Covered(s.stack, s.dictionaries) <= Covered(s.stack, After(s, Insert(thread)).dictionaries)
  {
    CoveredGrows(s.stack, s.dictionaries, After(s, Insert(thread)).dictionaries);
  }

  lemma TickerQueueingKept(s: State, step: Step)
    requires Shape(s) && TickerQueueing(s) && Enabled(s, step)
    ensures TickerQueueing(After(s, step))
  {
    match step
    case Check(thread) =>
      if thread == Ticker && s.inTick == None {
        NoTickNoDictionary(s.stack);
      }
    case Insert(thread) =>
      InsertCovers(s, thread);
      if thread == Ticker && s.stack.Call? {
        InTickCovered(s.stack, s.inTick.value, After(s, step).dictionaries);
      }
    case _ =>
  }

  lemma SwitchCovers(s: State, id: DictionaryId)
    requires Shape(s) && Enabled(s, Switch(id))
    ensures Covered(s.stack, s.dictionaries) <= Covered(After(s, Switch(id)).stack, After(s, Switch(id)).dictionaries)
  {
    CoveredGrows(s.stack.below, s.dictionaries, After(s, Switch(id)).dictionaries);
  }

  lemma RefillCovers(s: State)
    requires Shape(s) && Enabled(s, Refill)
    ensures Covered(s.stack, s.dictionaries) <= Covered(After(s, Refill).stack, After(s, Refill).dictionaries)
  {
    CoveredGrows(s.stack.below, s.dictionaries, After(s, Refill).dictionaries);
  }

  lemma CleanCovers(s: State)
    requires Shape(s) && Bookkeeping(s) && Coverage(s) && Enabled(s, Clean)
    ensures Coverage(After(s, Clean))
  {
    var st, t := s.stack, s.stack.top.current.value;
    BodiesCovered(st.below, s.dictionaries);
    assert t in Tried(st) && InlinedBodies(st) == InlinedBodies(st.below);
    assert Covered(st, s.dictionaries) == {t} + Covered(After(s, Clean).stack, s.dictionaries);
    if t !in s.done {
      assert t in Bodies(st) && Bodies(st) == Bodies(st.below);
    }
    var s' := After(s, Clean);
    assert Ticking(st);
    forall x | x in s'.running - s'.late ensures x in Covered(s'.stack, s'.dictionaries) {
      assert x in s.running - s.late && x in Covered(st, s.dictionaries);
    }
  }

  lemma CoverageKept(s: State, step: Step)
    requires Inv(s) && Enabled(s, step)
    ensures Coverage(After(s, step))
  {
    match step
    case Insert(thread) => InsertCovers(s, thread);
    case Switch(id) => SwitchCovers(s, id);
    case Refill => RefillCovers(s);
    case Clean => CleanCovers(s);
    case _ =>
  }

  lemma InvKept(s: State, step: Step)
    requires Inv(s) && Enabled(s, step)
    ensures Inv(After(s, step))
  {
    ShapeKept(s, step);
    BookkeepingKept(s, step);
    TickerQueueingKept(s, step);
    CoverageKept(s, step);
  }

  lemma {:induction false} InvThroughRun(s: State, steps: seq<Step>)
    requires Inv(s) && Runs(s, steps)
    ensures Inv(Final(s, steps))
    decreases |steps|
  {
    if steps != [] {
      InvKept(s, steps[0]);
      InvThroughRun(After(s, steps[0]), steps[1..]);
    }
  }

  // ---------------------------------------------------------------- the main statements

  /** In every run, a task whose `QueueTask` has returned and whose body has not ended is among the
      running tasks; the log has no body twice, as the runtime guarantees. */
  lemma NoTaskLost(steps: seq<Step>)
    requires Runs(INITIAL, steps)
    ensures var s := Final(INITIAL, steps);
            s.returned - s.done <= s.running && NoRepeats(s.log)
  {
    InvThroughRun(INITIAL, steps);
  }

  /** Neither the tick nor `QueueTask` ever finds its dictionary missing. */
  lemma DictionariesPresent(s: State)
    requires Inv(s)
    ensures InLoop(s) && s.stack.top.current == None && s.stack.top.pending == {} && !s.stack.top.leaving ==> Enabled(s, Refill)
    ensures forall thread :: thread in s.queueing && s.queueing[thread].stage == Inserting ==> Enabled(s, Insert(thread))
  {
    OwnedOnly(s.stack, s.inTick);
  }

  /** The states before the last one are all above `below`. */
  predicate Above(s: State, steps: seq<Step>, below: Stack)
    requires Runs(s, steps)
    decreases |steps|
  {
    steps == [] || (s.stack != below && Above(After(s, steps[0]), steps[1..], below))
  }

  /** The loop of the tick that saved `saved` stands directly on `below`. */
  predicate Sits(st: Stack, below: Stack, saved: Option<DictionaryId>) {
    st.Call? && if st.below == below then st.top.Looping? && st.top.saved == saved else Sits(st.below, below, saved)
  }

  lemma {:induction false} SitsAbove(st: Stack, below: Stack, saved: Option<DictionaryId>)
    requires Sits(st, below, saved)
    ensures Depth(st) > Depth(below) && st != below
  {
    if st.below != below {
      SitsAbove(st.below, below, saved);
    }
    assert Depth(st) == 1 + Depth(st.below);
    assert Depth(st) > Depth(below);
  }

  function Depth(st: Stack): nat { if st == Host then 0 else 1 + Depth(st.below) }

  lemma {:induction false} SitsNested(st: Stack, below: Stack, saved: Option<DictionaryId>, inTick: Option<DictionaryId>)
    requires Sits(st, below, saved) && Nested(st, inTick)
    ensures Owned(below) <= Owned(st) && Nested(below, saved)
    ensures inTick.Some? && inTick.value !in Owned(below)
  {
    if st.below != below {
      match st
      case Call(Looping(s', own, _, _, _), b) => SitsNested(b, below, saved, s');
      case Call(_, b) => SitsNested(b, below, saved, inTick);
    }
  }

  /** What the dictionary named by `saved` holds, if it names one. */
  function SavedContents(s: State, saved: Option<DictionaryId>): set<Task> {
    if saved == None then {} else Contents(s.dictionaries, saved.value)
  }

  lemma StepUnderTick(s: State, step: Step, below: Stack, saved: Option<DictionaryId>)
    requires Inv(s) && Enabled(s, step) && Sits(s.stack, below, saved)
    ensures var s' := After(s, step);
            && SavedContents(s', saved) == SavedContents(s, saved)
            && (Sits(s'.stack, below, saved) || (s'.stack == below && s'.inTick == saved))
  {
    SitsAbove(s.stack, below, saved);
    SitsNested(s.stack, below, saved, s.inTick);
    OwnedOnly(below, saved);
  }

  lemma {:induction false} RunUnderTick(s: State, steps: seq<Step>, below: Stack, saved: Option<DictionaryId>)
    requires Inv(s) && Runs(s, steps) && Above(s, steps, below) && Sits(s.stack, below, saved)
    requires Final(s, steps).stack == below
    ensures Final(s, steps).inTick == saved && SavedContents(Final(s, steps), saved) == SavedContents(s, saved)
    decreases |steps|
  {
    SitsAbove(s.stack, below, saved);
    var s' := After(s, steps[0]);
    StepUnderTick(s, steps[0], below, saved);
    InvKept(s, steps[0]);
    if s'.stack == below {
      assert steps[1..] == [];
    } else {
      RunUnderTick(s', steps[1..], below, saved);
    }
  }

  /** However ticks nest and other threads interleave, a `Tick` that returns leaves the field
      naming the dictionary it found, with the contents it had. */
  lemma TickRestores(s: State, id: DictionaryId, steps: seq<Step>)
    requires Inv(s) && Enabled(s, Switch(id)) && Runs(After(s, Switch(id)), steps)
    requires Above(After(s, Switch(id)), steps, s.stack.below)
    requires Final(After(s, Switch(id)), steps).stack == s.stack.below
    ensures var end := Final(After(s, Switch(id)), steps);
            end.inTick == s.inTick && SavedContents(end, s.inTick) == SavedContents(s, s.inTick)
  {
    InvKept(s, Switch(id));
    OwnedOnly(s.stack, s.inTick);
    RunUnderTick(After(s, Switch(id)), steps, s.stack.below, s.inTick);
  }

  /** The tasks that other threads register during a run. */
  function RegisteredByOthers(s: State, steps: seq<Step>): set<Task>
    requires Runs(s, steps)
    decreases |steps|
  {
    if steps == [] then {}
    else (if steps[0].Register? && steps[0].thread != Ticker then {s.queueing[steps[0].thread].task} else {})
         + RegisteredByOthers(After(s, steps[0]), steps[1..])
  }

  /** A tick is in progress in every state but the last. */
  predicate TickingUntilEnd(s: State, steps: seq<Step>)
    requires Runs(s, steps)
    decreases |steps|
  {
    steps == [] || (Ticking(s.stack) && TickingUntilEnd(After(s, steps[0]), steps[1..]))
  }

  lemma {:induction false} LateIsRegisteredByOthers(s: State, steps: seq<Step>)
    requires Runs(s, steps) && TickingUntilEnd(s, steps)
    ensures Final(s, steps).late == s.late + RegisteredByOthers(s, steps)
    decreases |steps|
  {
    if steps != [] {
      LateIsRegisteredByOthers(After(s, steps[0]), steps[1..]);
    }
  }

  lemma LastLeaves(s: State, step: Step)
    requires Inv(s) && Enabled(s, step) && Ticking(s.stack) && !Ticking(After(s, step).stack)
    ensures After(s, step).running <= After(s, step).late
  {
    assert step == Leave;
    NoTickCoversNothing(s.stack.below, s.dictionaries);
    assert s.stack.top.current == None && s.stack.top.pending == {};
    assert Covered(s.stack, s.dictionaries) == {};
    assert s.running - s.late == {};
    forall t | t in s.running ensures t in s.late {
      assert t !in s.running - s.late;
    }
  }

  lemma {:induction false} NoTickCoversNothing(st: Stack, dictionaries: map<DictionaryId, set<Task>>)
    requires !Ticking(st)
    ensures Covered(st, dictionaries) == {}
  {
    if st.Call? {
      NoTickCoversNothing(st.below, dictionaries);
    }
  }

  lemma {:induction false} RunUntilEnd(s: State, steps: seq<Step>)
    requires Inv(s) && Runs(s, steps) && TickingUntilEnd(s, steps) && Ticking(s.stack) && !Ticking(Final(s, steps).stack)
    ensures Final(s, steps).running <= Final(s, steps).late
    decreases |steps|
  {
    var s' := After(s, steps[0]);
    InvKept(s, steps[0]);
    if Ticking(s'.stack) {
      RunUntilEnd(s', steps[1..]);
    } else {
      LastLeaves(s, steps[0]);
      assert steps[1..] == [];
    }
  }

  /** When an outermost `Tick` returns, all that is left in the running tasks was registered by
      other threads meanwhile; without such, nothing is left, and every body whose `QueueTask`
      returned before or during the tick has ended. */
  lemma OutermostTickDrains(s: State, steps: seq<Step>)
    requires Inv(s) && !Ticking(s.stack) && Enabled(s, Begin)
    requires var s' := After(s, Begin); Runs(s', steps) && TickingUntilEnd(s', steps) && !Ticking(Final(s', steps).stack)
    ensures var end := Final(After(s, Begin), steps);
            && end.running <= RegisteredByOthers(After(s, Begin), steps)
            && end.returned - end.done <= RegisteredByOthers(After(s, Begin), steps)
  {
    var s' := After(s, Begin);
    InvKept(s, Begin);
    RunUntilEnd(s', steps);
    LateIsRegisteredByOthers(s', steps);
    InvThroughRun(s', steps);
  }

  // ---------------------------------------------------------------- a tick comes to its end

  /** The ticking thread's steps that bring the ticks in progress nearer to their end. */
  predicate Works(step: Step) {
    step.Finish? || step.Switch? || step.Try? || step.Clean? || step.Refill? || step.Leave?
  }

  /** What is left to do: for bodies to end, tasks to try and clean up, those in the ticks' own
      dictionaries, and loops to leave. */
  function Work(st: Stack, dictionaries: map<DictionaryId, set<Task>>): nat {
    match st
    case Host => 0
    case Call(Body(_, _), below) => 1 + Work(below, dictionaries)
    case Call(Entering(copied), below) => 3 * |copied| + 3 + Work(below, dictionaries)
    case Call(Looping(_, own, pending, current, leaving), below) =>
      3 * |pending| + 4 * |Contents(dictionaries, own)| + (if current.Some? then 1 else 0) + (if leaving then 1 else 2)
      + Work(below, dictionaries)
  }

  lemma {:induction false} WorkElsewhere(st: Stack, before: map<DictionaryId, set<Task>>, now: map<DictionaryId, set<Task>>)
    requires forall id :: id in Owned(st) ==> Contents(now, id) == Contents(before, id)
    ensures Work(st, now) == Work(st, before)
  {
    if st.Call? {
      WorkElsewhere(st.below, before, now);
    }
  }

  /** Every such step leaves less to do. */
  lemma WorkShrinks(s: State, step: Step)
    requires Shape(s) && Enabled(s, step) && Works(step)
    ensures Work(After(s, step).stack, After(s, step).dictionaries) < Work(s.stack, s.dictionaries)
  {
    match step
    case Switch(id) => WorkElsewhere(s.stack.below, s.dictionaries, After(s, step).dictionaries);
    case Refill => RefillShrinks(s);
    case _ =>
  }

  lemma RefillShrinks(s: State)
    requires Shape(s) && Enabled(s, Refill)
    ensures Work(After(s, Refill).stack, After(s, Refill).dictionaries) < Work(s.stack, s.dictionaries)
  {
    WorkElsewhere(s.stack.below, s.dictionaries, After(s, Refill).dictionaries);
  }

  lemma {:induction false} FreshId(ids: set<DictionaryId>) returns (id: DictionaryId)
    ensures id !in ids && forall other :: other in ids ==> other < id
    decreases |ids|
  {
    id := 0;
    if ids != {} {
      var one :| one in ids;
      var rest := FreshId(ids - {one});
      id := if rest > one then rest else one + 1;
      forall other | other in ids ensures other < id {
        assert other == one || other in ids - {one};
      }
    }
  }

  /** Unless the ticking thread is queueing a task, it can take such a step from everywhere but host
      code. */
  lemma WorkIsEnabled(s: State) returns (step: Step)
    requires Inv(s) && s.stack.Call? && Ticker !in s.queueing
    ensures Works(step) && Enabled(s, step)
  {
    match s.stack.top
    case Body(_, _) => step := Finish;
    case Entering(_) =>
      var id := FreshId(s.dictionaries.Keys);
      step := Switch(id);
    case Looping(_, _, pending, current, leaving) =>
      DictionariesPresent(s);
      if current.Some? {
        step := Clean;
      } else if leaving {
        step := Leave;
      } else if pending == {} {
        step := Refill;
      } else {
        var t :| t in pending;
        step := Try(t);
      }
  }

  predicate AllWork(steps: seq<Step>) {
    forall i :: 0 <= i < |steps| ==> Works(steps[i])
  }

  /** From every state the ticks in progress can return, in no more steps than there is work. */
  lemma {:induction false} TicksCanReturn(s: State) returns (steps: seq<Step>)
    requires Inv(s) && Ticker !in s.queueing
    ensures Runs(s, steps) && AllWork(steps) && |steps| <= Work(s.stack, s.dictionaries)
    ensures !Ticking(Final(s, steps).stack)
    decreases Work(s.stack, s.dictionaries)
  {
    steps := [];
    if Ticking(s.stack) {
      var step := WorkIsEnabled(s);
      InvKept(s, step);
      WorkShrinks(s, step);
      var rest := TicksCanReturn(After(s, step));
      steps := [step] + rest;
    }
  }

  function WorkSteps(steps: seq<Step>): nat {
    if steps == [] then 0 else (if Works(steps[0]) then 1 else 0) + WorkSteps(steps[1..])
  }

  /** What a step can add to the work: a task put in a dictionary, an inlined body, a nested tick. */
  function Adds(s: State, step: Step): nat {
    match step
    case Insert(_) => 4
    case Inline(_) => 1
    case Begin => 3 * |s.running| + 3
    case _ => 0
  }

  function AddedWork(s: State, steps: seq<Step>): nat
    requires Runs(s, steps)
    decreases |steps|
  {
    if steps == [] then 0 else Adds(s, steps[0]) + AddedWork(After(s, steps[0]), steps[1..])
  }

  lemma {:induction false} InsertAdds(st: Stack, inTick: Option<DictionaryId>, before: map<DictionaryId, set<Task>>, t: Task)
    requires Nested(st, inTick) && inTick.Some? && inTick.value in before
    ensures Work(st, before[inTick.value := before[inTick.value] + {t}]) <= Work(st, before) + 4
  {
    if st.Call? {
      var now := before[inTick.value := before[inTick.value] + {t}];
      if st.top.Looping? {
        WorkElsewhere(st.below, before, now);
      } else {
        InsertAdds(st.below, inTick, before, t);
      }
    }
  }

  lemma StepAdds(s: State, step: Step)
    requires Shape(s) && Enabled(s, step)
    ensures Work(After(s, step).stack, After(s, step).dictionaries) + (if Works(step) then 1 else 0)
         <= Work(s.stack, s.dictionaries) + Adds(s, step)
  {
    if Works(step) {
      WorkShrinks(s, step);
    } else if step.Insert? && s.inTick.Some? {
      InsertAdds(s.stack, s.inTick, s.dictionaries, s.queueing[step.thread].task);
    }
  }

  /** In every run, however threads interleave, the ticking thread takes no more such steps than there
      is work at the start and added on the way: without more queued, inlined or nested, every tick
      in progress returns. */
  lemma {:induction false} WorkBounded(s: State, steps: seq<Step>)
    requires Inv(s) && Runs(s, steps)
    ensures WorkSteps(steps) + Work(Final(s, steps).stack, Final(s, steps).dictionaries)
         <= Work(s.stack, s.dictionaries) + AddedWork(s, steps)
    decreases |steps|
  {
    if steps != [] {
      StepAdds(s, steps[0]);
      InvKept(s, steps[0]);
      WorkBounded(After(s, steps[0]), steps[1..]);
    }
  }
}
