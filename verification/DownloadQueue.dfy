/** The launcher's download queue: which downloads may run together, and the counts and byte sums
    shown for them.  Transfers, files and the user interface are events from outside. */
module DownloadQueues {
  import opened Sequences

  const MAX_CONCURRENT_DOWNLOADS: nat := 6
  const MAX_CONCURRENT_DOWNLOADS_HUGE: nat := 2
  const HUGE_SIZE: int := 10 * 1024 * 1024
  const MEGA_HUGE_SIZE: int := 40 * 1024 * 1024
  const RETRIES: nat := 10

  class Download {
    const size: int
    var progress: nat
    var numRetries: nat

    constructor (size: int)
      ensures this.size == size && progress == 0 && numRetries == RETRIES
    {
      this.size, progress, numRetries := size, 0, RETRIES;
    }
  }

  // ---------------------------------------------------------------- the queue as a value

  /** Waiting downloads in order, running ones, and the history: all started and all finished. */
  datatype Queues = Queues(waiting: seq<Download>, running: seq<Download>, started: seq<Download>, finished: seq<Download>)

  /** The head of the queue may join `n` running downloads. */
  predicate Admissible(n: nat, size: int) {
    && n < MAX_CONCURRENT_DOWNLOADS
    && (n >= MAX_CONCURRENT_DOWNLOADS_HUGE ==> size <= HUGE_SIZE)
    && (n >= 1 ==> size <= MEGA_HUGE_SIZE)
  }

  function Enqueued(q: Queues, d: Download): Queues {
    q.(waiting := q.waiting + [d])
  }

  function Dequeued(q: Queues): Queues
    requires q.waiting != []
  {
    var d := q.waiting[0];
    if Admissible(|q.running|, d.size) then Queues(q.waiting[1..], q.running + [d], q.started + [d], q.finished) else q
  }

  function Erased(ds: seq<Download>, d: Download): seq<Download> {
    if ds == [] then [] else if ds[0] == d then ds[1..] else [ds[0]] + Erased(ds[1..], d)
  }

  function Completed(q: Queues, d: Download): Queues {
    q.(running := Erased(q.running, d), finished := q.finished + [d])
  }

  function CountOver(ds: seq<Download>, size: int): nat {
    if ds == [] then 0 else (if ds[0].size > size then 1 else 0) + CountOver(ds[1..], size)
  }

  predicate InLimits(running: seq<Download>) {
    && |running| <= MAX_CONCURRENT_DOWNLOADS
    && CountOver(running, HUGE_SIZE) <= MAX_CONCURRENT_DOWNLOADS_HUGE
    && CountOver(running, MEGA_HUGE_SIZE) <= 1
  }

  /** What every operation keeps: the limits; each started download runs or is finished; and the
      downloads started, followed by those waiting, are those queued, in order and each once. */
  ghost predicate Sound(q: Queues, queued: seq<Download>) {
    && InLimits(q.running)
    && multiset(q.running) + multiset(q.finished) == multiset(q.started)
    && q.started + q.waiting == queued && Distinct(queued)
  }

  lemma {:induction false} CountAppend(ds: seq<Download>, d: Download, size: int)
    ensures CountOver(ds + [d], size) == CountOver(ds, size) + if d.size > size then 1 else 0
  {
    if ds == [] {
      assert [] + [d] == [d] && [d][1..] == [];
    } else {
      assert (ds + [d])[1..] == ds[1..] + [d];
      CountAppend(ds[1..], d, size);
    }
  }

  lemma {:induction false} CountErased(ds: seq<Download>, d: Download, size: int)
    ensures CountOver(Erased(ds, d), size) <= CountOver(ds, size) <= |ds| && |Erased(ds, d)| <= |ds|
    ensures d in ds ==> |Erased(ds, d)| == |ds| - 1
  {
    if ds != [] {
      CountErased(ds[1..], d, size);
    }
  }

  lemma {:induction false} ErasedElements(ds: seq<Download>, d: Download)
    requires d in ds
    ensures multiset(Erased(ds, d)) + multiset{d} == multiset(ds)
  {
    assert ds == [ds[0]] + ds[1..];
    if ds[0] != d {
      ErasedElements(ds[1..], d);
      assert multiset([ds[0]] + Erased(ds[1..], d)) == multiset{ds[0]} + multiset(Erased(ds[1..], d));
    }
  }

  lemma LimitsWithHead(running: seq<Download>, d: Download)
    requires InLimits(running) && Admissible(|running|, d.size)
    ensures InLimits(running + [d])
  {
    CountAppend(running, d, HUGE_SIZE);
    CountAppend(running, d, MEGA_HUGE_SIZE);
    CountErased(running, d, HUGE_SIZE);
    CountErased(running, d, MEGA_HUGE_SIZE);
  }

  lemma EnqueuedSound(q: Queues, queued: seq<Download>, d: Download)
    requires Sound(q, queued) && d !in queued
    ensures Sound(Enqueued(q, d), queued + [d])
  {
    assert q.started + (q.waiting + [d]) == q.started + q.waiting + [d];
  }

  lemma DequeuedSound(q: Queues, queued: seq<Download>)
    requires Sound(q, queued) && q.waiting != []
    ensures Sound(Dequeued(q), queued)
  {
    var d := q.waiting[0];
    if Admissible(|q.running|, d.size) {
      LimitsWithHead(q.running, d);
      assert q.started + [d] + q.waiting[1..] == q.started + q.waiting;
    }
  }

  lemma CompletedSound(q: Queues, queued: seq<Download>, d: Download)
    requires Sound(q, queued) && d in q.running
    ensures Sound(Completed(q, d), queued)
  {
    CountErased(q.running, d, HUGE_SIZE);
    CountErased(q.running, d, MEGA_HUGE_SIZE);
    ErasedElements(q.running, d);
  }

  // ---------------------------------------------------------------- runs

  datatype Event = Queue(d: Download) | Start | Finish(d: Download)

  predicate Enabled(q: Queues, queued: seq<Download>, e: Event) {
    match e
    case Queue(d) => d !in queued
    case Start => q.waiting != []
    case Finish(d) => d in q.running
  }

  function After(q: Queues, e: Event): Queues
    requires e.Start? ==> q.waiting != []
  {
    match e
    case Queue(d) => Enqueued(q, d)
    case Start => Dequeued(q)
    case Finish(d) => Completed(q, d)
  }

  function QueuedBy(queued: seq<Download>, e: Event): seq<Download> {
    if e.Queue? then queued + [e.d] else queued
  }

  predicate Runs(q: Queues, queued: seq<Download>, events: seq<Event>)
    decreases |events|
  {
    events == []
    || (Enabled(q, queued, events[0]) && Runs(After(q, events[0]), QueuedBy(queued, events[0]), events[1..]))
  }

  function Final(q: Queues, queued: seq<Download>, events: seq<Event>): (Queues, seq<Download>)
    requires Runs(q, queued, events)
    decreases |events|
  {
    if events == [] then (q, queued) else Final(After(q, events[0]), QueuedBy(queued, events[0]), events[1..])
  }

  const EMPTY := Queues([], [], [], [])

  /** The run of these events leads here. */
  predicate Reached(events: seq<Event>, q: Queues, queued: seq<Download>) {
    Runs(EMPTY, [], events) && Final(EMPTY, [], events) == (q, queued)
  }

  lemma {:induction false} RunsOn(q: Queues, queued: seq<Download>, events: seq<Event>, e: Event)
    requires Runs(q, queued, events)
    requires var (r, all) := Final(q, queued, events); Enabled(r, all, e)
    ensures Runs(q, queued, events + [e])
    ensures var (r, all) := Final(q, queued, events); Final(q, queued, events + [e]) == (After(r, e), QueuedBy(all, e))
    decreases |events|
  {
    if events == [] {
      assert events + [e] == [e] && [e][1..] == [];
    } else {
      assert (events + [e])[1..] == events[1..] + [e];
      RunsOn(After(q, events[0]), QueuedBy(queued, events[0]), events[1..], e);
    }
  }

  lemma ReachedNext(events: seq<Event>, q: Queues, queued: seq<Download>, e: Event)
    requires Reached(events, q, queued) && Enabled(q, queued, e)
    ensures Reached(events + [e], After(q, e), QueuedBy(queued, e))
  {
    RunsOn(EMPTY, [], events, e);
  }

  lemma SoundAfter(q: Queues, queued: seq<Download>, e: Event)
    requires Sound(q, queued) && Enabled(q, queued, e)
    ensures Sound(After(q, e), QueuedBy(queued, e))
  {
    match e {
      case Queue(d) => EnqueuedSound(q, queued, d);
      case Start => DequeuedSound(q, queued);
      case Finish(d) => CompletedSound(q, queued, d);
    }
  }

  lemma {:induction false} SoundThroughRun(q: Queues, queued: seq<Download>, events: seq<Event>)
    requires Sound(q, queued) && Runs(q, queued, events)
    ensures Sound(Final(q, queued, events).0, Final(q, queued, events).1)
    decreases |events|
  {
    if events != [] {
      SoundAfter(q, queued, events[0]);
      SoundThroughRun(After(q, events[0]), QueuedBy(queued, events[0]), events[1..]);
    }
  }

  lemma ReachedSound(events: seq<Event>, q: Queues, queued: seq<Download>)
    requires Reached(events, q, queued)
    ensures Sound(q, queued)
  {
    SoundThroughRun(EMPTY, [], events);
  }

  /** In every run: at most 6 downloads run, at most 2 of them huge and at most 1 mega-huge; the
      downloads started are, in order, the first of those queued; and each queued download waits,
      runs or is finished. */
  lemma LimitsAlwaysHold(events: seq<Event>, q: Queues, queued: seq<Download>)
    requires Reached(events, q, queued)
    ensures |q.running| <= 6 && CountOver(q.running, HUGE_SIZE) <= 2 && CountOver(q.running, MEGA_HUGE_SIZE) <= 1
    ensures q.started <= queued && |queued| == |q.waiting| + |q.running| + |q.finished|
  {
    ReachedSound(events, q, queued);
    assert |multiset(q.running) + multiset(q.finished)| == |multiset(q.started)|;
  }

  // ---------------------------------------------------------------- mega-huge downloads

  /** The queues, and all downloads ever queued, after the first `k` events. */
  function Along(q: Queues, queued: seq<Download>, events: seq<Event>, k: nat): (Queues, seq<Download>)
    requires Runs(q, queued, events) && k <= |events|
    decreases k
  {
    if k == 0 then (q, queued) else Along(After(q, events[0]), QueuedBy(queued, events[0]), events[1..], k - 1)
  }

  function At(events: seq<Event>, k: nat): Queues
    requires Runs(EMPTY, [], events) && k <= |events|
  {
    Along(EMPTY, [], events, k).0
  }

  lemma {:induction false} AlongStep(q: Queues, queued: seq<Download>, events: seq<Event>, k: nat)
    requires Runs(q, queued, events) && k < |events| && Sound(q, queued)
    ensures var (r, all) := Along(q, queued, events, k);
            && Enabled(r, all, events[k]) && Sound(r, all)
            && Along(q, queued, events, k + 1) == (After(r, events[k]), QueuedBy(all, events[k]))
    decreases k
  {
    if k > 0 {
      SoundAfter(q, queued, events[0]);
      AlongStep(After(q, events[0]), QueuedBy(queued, events[0]), events[1..], k - 1);
    }
  }

  lemma {:induction false} AlongIsFinal(q: Queues, queued: seq<Download>, events: seq<Event>)
    requires Runs(q, queued, events)
    ensures Along(q, queued, events, |events|) == Final(q, queued, events)
    decreases |events|
  {
    if events != [] {
      AlongIsFinal(After(q, events[0]), QueuedBy(queued, events[0]), events[1..]);
    }
  }

  /** The next event of a run, and what it does to the running downloads. */
  lemma AtStep(events: seq<Event>, k: nat)
    requires Runs(EMPTY, [], events) && k < |events|
    ensures var q := At(events, k);
            && (events[k].Start? ==> q.waiting != []) && (events[k].Finish? ==> events[k].d in q.running)
            && At(events, k + 1) == After(q, events[k])
    ensures forall d :: events[k] == Finish(d) ==> d !in At(events, k + 1).running
  {
    AlongStep(EMPTY, [], events, k);
    if events[k].Finish? {
      var (q, all) := Along(EMPTY, [], events, k);
      FinishedLeaves(q, all, events[k].d);
    }
  }

  lemma {:induction false} DistinctCounts(ds: seq<Download>, d: Download)
    requires Distinct(ds)
    ensures multiset(ds)[d] <= 1
  {
    if ds != [] {
      DistinctCounts(ds[1..], d);
      assert ds == [ds[0]] + ds[1..];
      assert ds[0] !in ds[1..];
    }
  }

  lemma FinishedLeaves(q: Queues, queued: seq<Download>, d: Download)
    requires Sound(q, queued) && d in q.running
    ensures d !in Completed(q, d).running
  {
    DistinctCounts(queued, d);
    ErasedElements(q.running, d);
    assert multiset(q.started + q.waiting)[d] == multiset(q.started)[d] + multiset(q.waiting)[d];
    assert multiset(q.running)[d] <= multiset(q.started)[d];
    assert multiset(Erased(q.running, d))[d] == 0;
  }

  /** Event `k` starts `d` while nothing runs. */
  predicate StartsAlone(events: seq<Event>, k: nat, d: Download)
    requires Runs(EMPTY, [], events)
  {
    && k < |events| && events[k].Start?
    && At(events, k).running == [] && At(events, k).waiting != [] && At(events, k).waiting[0] == d
  }

  /** Between events `k` and `n` nothing but `d` runs. */
  predicate Sole(events: seq<Event>, k: nat, n: nat, d: Download)
    requires Runs(EMPTY, [], events) && n <= |events|
  {
    forall m :: k < m <= n ==> At(events, m).running == [d]
  }

  predicate Finishes(events: seq<Event>, k: nat, n: nat, d: Download)
    requires n <= |events|
  {
    exists m :: k < m < n && events[m] == Finish(d)
  }

  /** Some event between `k` and `n` tries to start a download that is not mega-huge. */
  predicate SmallerTried(events: seq<Event>, k: nat, n: nat)
    requires Runs(EMPTY, [], events) && n <= |events|
  {
    exists m :: k < m < n && events[m].Start? && At(events, m).waiting != [] && At(events, m).waiting[0].size <= MEGA_HUGE_SIZE
  }

  /** A mega-huge download that runs was started while nothing ran, and has not finished since. */
  lemma {:induction false} MegaHugeStartsAlone(events: seq<Event>, n: nat, d: Download) returns (k: nat)
    requires Runs(EMPTY, [], events) && n <= |events| && d in At(events, n).running && d.size > MEGA_HUGE_SIZE
    ensures k < n && StartsAlone(events, k, d) && !Finishes(events, k, n, d)
    decreases n
  {
    AtStep(events, n - 1);
    if d in At(events, n - 1).running {
      k := MegaHugeStartsAlone(events, n - 1, d);
    } else {
      JoinsAlone(At(events, n - 1), events[n - 1], d);
      k := n - 1;
    }
  }

  lemma JoinsAlone(q: Queues, e: Event, d: Download)
    requires (e.Start? ==> q.waiting != []) && d !in q.running && d in After(q, e).running && d.size > MEGA_HUGE_SIZE
    ensures e.Start? && q.running == [] && q.waiting[0] == d
  {
    if e.Finish? {
      ErasedInside(q.running, e.d);
    }
  }

  /** From the start of a mega-huge download until it finishes, it is the sole one running exactly as
      long as no smaller one is at the head of the queue when a start is tried. */
  lemma {:induction false} SoleIffNoSmallerTried(events: seq<Event>, k: nat, n: nat, d: Download)
    requires Runs(EMPTY, [], events) && k < n <= |events|
    requires StartsAlone(events, k, d) && !Finishes(events, k, n, d)
    ensures Sole(events, k, n, d) <==> !SmallerTried(events, k, n)
    decreases n
  {
    AtStep(events, n - 1);
    if n > k + 1 {
      SoleIffNoSmallerTried(events, k, n - 1, d);
      if Sole(events, k, n - 1, d) {
        SoleStep(events, n - 1, d);
      }
    }
  }

  /** Beside a sole download only another that is not mega-huge is started. */
  lemma SoleStep(events: seq<Event>, m: nat, d: Download)
    requires Runs(EMPTY, [], events) && m < |events| && At(events, m).running == [d] && events[m] != Finish(d)
    ensures At(events, m + 1).running == [d]
       <==> !(events[m].Start? && At(events, m).waiting != [] && At(events, m).waiting[0].size <= MEGA_HUGE_SIZE)
  {
    AtStep(events, m);
  }

  /** In every state a run can reach, each mega-huge download that runs was started while nothing
      ran, and has been the sole one since exactly when no start was tried meanwhile with a download
      of at most MEGA_HUGE_SIZE at the head of the queue. */
  lemma MegaHugeSoleIff(events: seq<Event>, q: Queues, queued: seq<Download>, d: Download) returns (k: nat)
    requires Reached(events, q, queued) && d in q.running && d.size > MEGA_HUGE_SIZE
    ensures k < |events| && StartsAlone(events, k, d) && !Finishes(events, k, |events|, d)
    ensures Sole(events, k, |events|, d) <==> !SmallerTried(events, k, |events|)
  {
    AlongIsFinal(EMPTY, [], events);
    k := MegaHugeStartsAlone(events, |events|, d);
    SoleIffNoSmallerTried(events, k, |events|, d);
  }

  /** A run in which the second download joins a mega-huge one. */
  lemma MegaHugeIsJoined(big: Download, other: Download)
    requires big != other && big.size > MEGA_HUGE_SIZE >= other.size
    ensures exists q :: Reached([Queue(big), Queue(other), Start, Start], q, [big, other]) && q.running == [big, other]
  {
    var q1 := After(EMPTY, Queue(big));
    var q2 := After(q1, Queue(other));
    var q3 := After(q2, Start);
    var q4 := After(q3, Start);
    ReachedNext([], EMPTY, [], Queue(big));
    ReachedNext([] + [Queue(big)], q1, [] + [big], Queue(other));
    ReachedNext([] + [Queue(big)] + [Queue(other)], q2, [] + [big] + [other], Start);
    ReachedNext([] + [Queue(big)] + [Queue(other)] + [Start], q3, [] + [big] + [other], Start);
    assert [] + [Queue(big)] + [Queue(other)] + [Start] + [Start] == [Queue(big), Queue(other), Start, Start];
    assert [] + [big] + [other] == [big, other];
    assert Reached([Queue(big), Queue(other), Start, Start], q4, [big, other]);
  }

  // ---------------------------------------------------------------- what starts

  /** The head of the queue starts when fewer than six downloads run, fewer than two if it has more than
      ten megabytes, and none if it has more than forty; otherwise nothing changes. */
  lemma StartsIff(events: seq<Event>, q: Queues, queued: seq<Download>, d: Download)
    requires Reached(events, q, queued) && q.waiting != [] && d == q.waiting[0]
    ensures Reached(events + [Start], After(q, Start), queued)
    ensures After(q, Start) ==
            if |q.running| < (if d.size <= 10_485_760 then 6 else if d.size <= 41_943_040 then 2 else 1)
            then Queues(q.waiting[1..], q.running + [d], q.started + [d], q.finished)
            else q
  {
    ReachedNext(events, q, queued, Start);
  }

  /** The queue after trying to start its head `k` times. */
  function Starts(q: Queues, k: nat): Queues
    decreases k
  {
    if k == 0 || q.waiting == [] then q else Starts(Dequeued(q), k - 1)
  }

  /** Downloads of up to ten megabytes are started in order until six run. */
  lemma {:induction false} SmallOnesStart(q: Queues, k: nat, m: nat)
    requires forall i :: 0 <= i < |q.waiting| ==> q.waiting[i].size <= 10_485_760
    requires m <= k && m <= |q.waiting| && |q.running| + m <= 6
    requires m == k || m == |q.waiting| || |q.running| + m == 6
    ensures Starts(q, k).running == q.running + q.waiting[..m] && Starts(q, k).waiting == q.waiting[m..]
    decreases k
  {
    if k > 0 && q.waiting != [] {
      if m == 0 {
        SmallOnesStart(q, k - 1, 0);
      } else {
        SmallOnesStart(Dequeued(q), k - 1, m - 1);
        assert q.running + q.waiting[..m] == q.running + [q.waiting[0]] + q.waiting[1..][..m - 1];
      }
    }
  }

  // ---------------------------------------------------------------- the queue drains

  function Measure(q: Queues): nat { 2 * |q.waiting| + |q.running| }

  function AllCompleted(q: Queues, ds: seq<Download>): Queues
    decreases |ds|
  {
    if ds == [] then q else AllCompleted(Completed(q, ds[0]), ds[1..])
  }

  /** One call of the processing function in which the downloads `ds` finish. */
  function Ticked(q: Queues, ds: seq<Download>): Queues {
    var r := AllCompleted(q, ds); if r.waiting == [] then r else Dequeued(r)
  }

  /** In each call, unless nothing runs, some running download finishes. */
  predicate Diligent(q: Queues, ticks: seq<seq<Download>>)
    decreases |ticks|
  {
    ticks == []
    || (&& (q.running != [] ==> ticks[0] != [] && ticks[0][0] in q.running)
        && Diligent(Ticked(q, ticks[0]), ticks[1..]))
  }

  function AfterTicks(q: Queues, ticks: seq<seq<Download>>): Queues
    decreases |ticks|
  {
    if ticks == [] then q else AfterTicks(Ticked(q, ticks[0]), ticks[1..])
  }

  lemma {:induction false} CompletedShrinks(q: Queues, ds: seq<Download>)
    ensures var r := AllCompleted(q, ds);
            && r.waiting == q.waiting && |r.running| <= |q.running|
            && (ds != [] && ds[0] in q.running ==> |r.running| < |q.running|)
    decreases |ds|
  {
    if ds != [] {
      CountErased(q.running, ds[0], 0);
      CompletedShrinks(Completed(q, ds[0]), ds[1..]);
    }
  }

  /** Nothing running means the head is admissible, whatever its size. */
  lemma TickShrinks(q: Queues, ds: seq<Download>)
    requires q.running != [] ==> ds != [] && ds[0] in q.running
    ensures Measure(Ticked(q, ds)) <= Measure(q) && (Measure(q) > 0 ==> Measure(Ticked(q, ds)) < Measure(q))
  {
    CompletedShrinks(q, ds);
    if q.running == [] {
      assert AllCompleted(q, ds).running == [];
    }
  }

  /** When all running downloads finish, the same call starts the head of the queue. */
  lemma TickStartsNext(q: Queues)
    requires q.waiting != []
    ensures Ticked(q, q.running).running == [q.waiting[0]] && Ticked(q, q.running).waiting == q.waiting[1..]
  {
    AllFinish(q);
    assert [] + [q.waiting[0]] == [q.waiting[0]];
  }

  lemma {:induction false} AllFinish(q: Queues)
    ensures AllCompleted(q, q.running).running == [] && AllCompleted(q, q.running).waiting == q.waiting
    decreases |q.running|
  {
    if q.running != [] {
      AllFinish(Completed(q, q.running[0]));
    }
  }

  /** If some running download finishes in each call, the queue is empty and nothing runs after at
      most two calls for each waiting download and one for each running one. */
  lemma {:induction false} Drains(q: Queues, ticks: seq<seq<Download>>)
    requires Diligent(q, ticks) && |ticks| >= Measure(q)
    ensures AfterTicks(q, ticks).waiting == [] && AfterTicks(q, ticks).running == []
    decreases |ticks|
  {
    if ticks != [] {
      TickShrinks(q, ticks[0]);
      Drains(Ticked(q, ticks[0]), ticks[1..]);
    }
  }

  // ---------------------------------------------------------------- the global state

  function Sum(ns: seq<int>): int {
    if ns == [] then 0 else Sum(ns[..|ns| - 1]) + ns[|ns| - 1]
  }

  function TotalSize(ds: seq<Download>): int {
    if ds == [] then 0 else TotalSize(ds[..|ds| - 1]) + ds[|ds| - 1].size
  }

  lemma {:induction false} SumUpdate(ns: seq<int>, k: nat, v: int)
    requires k < |ns|
    ensures Sum(ns[k := v]) == Sum(ns) - ns[k] + v
  {
    var n := |ns| - 1;
    if k == n {
      assert ns[k := v][..n] == ns[..n];
    } else {
      assert ns[k := v][..n] == ns[..n][k := v];
      SumUpdate(ns[..n], k, v);
    }
  }

  lemma TotalsAppend(ds: seq<Download>, d: Download, ns: seq<int>, v: int)
    ensures TotalSize(ds + [d]) == TotalSize(ds) + d.size && Sum(ns + [v]) == Sum(ns) + v
  {
    assert (ds + [d])[..|ds|] == ds && (ns + [v])[..|ns|] == ns;
  }

  datatype Result = Done | HttpError | OtherError

  /** A transfer that ended; `moved` tells whether its file could be put in place. */
  datatype Transfer = Transfer(d: Download, result: Result, moved: bool)

  predicate Succeeds(t: Transfer) { t.result == Done && t.moved }

  /** One of the first `i` transfers completes `d`. */
  predicate CompletedBy(ended: seq<Transfer>, d: Download, i: nat)
    requires i <= |ended|
  {
    exists j :: 0 <= j < i && ended[j].d == d && Succeeds(ended[j])
  }

  /** How often `d` is to be retried among the first `i` transfers: its errors before it is completed. */
  function Errors(ended: seq<Transfer>, d: Download, i: nat): nat
    requires i <= |ended|
  {
    if i == 0 then 0
    else
      Errors(ended, d, i - 1)
      + if ended[i - 1].d == d && ended[i - 1].result == OtherError && !CompletedBy(ended, d, i - 1) then 1 else 0
  }

  /** Transfer `i` is of a running download that it neither completes nor leaves to be retried: its
      file cannot be put in place, the server refuses, or no retries are left. */
  predicate Fails(running: seq<Download>, retries: map<Download, int>, ended: seq<Transfer>, i: nat)
    requires i < |ended|
  {
    var t := ended[i];
    && t.d in running && !CompletedBy(ended, t.d, i)
    && match t.result
       case Done => !t.moved
       case HttpError => true
       case OtherError => t.d in retries && Errors(ended, t.d, i) >= retries[t.d]
  }

  /** Transfer `k` is the first that fails, or all transfers are dealt with. */
  predicate StopsAt(running: seq<Download>, retries: map<Download, int>, ended: seq<Transfer>, k: nat) {
    && k <= |ended|
    && (forall i :: 0 <= i < k ==> !Fails(running, retries, ended, i))
    && (k < |ended| ==> Fails(running, retries, ended, k))
  }

  /** The downloads completed by the first `i` transfers, in order. */
  function Successes(running: seq<Download>, ended: seq<Transfer>, i: nat): seq<Download>
    requires i <= |ended|
  {
    if i == 0 then []
    else
      var t := ended[i - 1];
      Successes(running, ended, i - 1)
      + if t.d in running && Succeeds(t) && !CompletedBy(ended, t.d, i - 1) then [t.d] else []
  }

  lemma {:induction false} SuccessesAre(running: seq<Download>, ended: seq<Transfer>, i: nat)
    requires i <= |ended|
    ensures Distinct(Successes(running, ended, i))
    ensures forall d :: d in Successes(running, ended, i) <==> d in running && CompletedBy(ended, d, i)
  {
    if i > 0 {
      SuccessesAre(running, ended, i - 1);
    }
  }

  /** A new download survives ten errors in one call, and ends all downloading with the eleventh. */
  lemma EleventhErrorFails(d: Download, ended: seq<Transfer>)
    requires |ended| >= 11 && forall i :: 0 <= i < 11 ==> ended[i].d == d && ended[i].result == OtherError
    ensures StopsAt([d], map[d := RETRIES], ended, 10)
  {
    forall i | 0 <= i <= 10 ensures Errors(ended, d, i) == i && !CompletedBy(ended, d, i) {
      AllErrors(d, ended, i);
    }
  }

  lemma {:induction false} AllErrors(d: Download, ended: seq<Transfer>, i: nat)
    requires i <= |ended| && forall j :: 0 <= j < i ==> ended[j].d == d && ended[j].result == OtherError
    ensures Errors(ended, d, i) == i && !CompletedBy(ended, d, i)
  {
    if i > 0 {
      AllErrors(d, ended, i - 1);
    }
  }

  predicate NoneFails(running: seq<Download>, retries: map<Download, int>, ended: seq<Transfer>, i: nat)
    requires i <= |ended|
  {
    i == 0 || (NoneFails(running, retries, ended, i - 1) && !Fails(running, retries, ended, i - 1))
  }

  lemma {:induction false} NoneFailsAt(running: seq<Download>, retries: map<Download, int>, ended: seq<Transfer>, i: nat)
    requires i <= |ended| && NoneFails(running, retries, ended, i)
    ensures forall j :: 0 <= j < i ==> !Fails(running, retries, ended, j)
  {
    if i > 0 {
      NoneFailsAt(running, retries, ended, i - 1);
    }
  }

  /** What still runs after the first `i` transfers. */
  ghost function StillRunning(running: seq<Download>, ended: seq<Transfer>, i: nat): set<Download>
    requires i <= |ended|
  {
    set d | d in running && !CompletedBy(ended, d, i)
  }

  ghost function RetriesLeft(running: seq<Download>, was: map<Download, int>, ended: seq<Transfer>, i: nat): map<Download, int>
    requires i <= |ended|
  {
    map d | d in running && d in was :: was[d] - Errors(ended, d, i)
  }

  /** After the first `i` transfers: what runs, the retries left and what was completed. */
  ghost predicate Progressed(running: seq<Download>, was: map<Download, int>, ended: seq<Transfer>, i: nat,
                             now: seq<Download>, left: map<Download, int>, ds: seq<Download>) {
    && i <= |ended| && ds == Successes(running, ended, i) && NoneFails(running, was, ended, i)
    && Elements(now) == StillRunning(running, ended, i)
    && was.Keys == Elements(running) && left == RetriesLeft(running, was, ended, i)
  }

  /** What the transfer does to a running download is not a failure. */
  predicate Goes(t: Transfer, left: map<Download, int>) {
    if t.result == Done then t.moved else t.result == OtherError && t.d in left && left[t.d] > 0
  }

  lemma GoesUnlessFails(running: seq<Download>, was: map<Download, int>, ended: seq<Transfer>, i: nat,
                        now: seq<Download>, left: map<Download, int>, ds: seq<Download>)
    requires Progressed(running, was, ended, i, now, left, ds) && i < |ended| && ended[i].d in now
    ensures ended[i].d in running && ended[i].d in left
    ensures Fails(running, was, ended, i) <==> !Goes(ended[i], left)
  {
    var d := ended[i].d;
    assert d in Elements(now);
    assert d in was.Keys;
  }

  lemma CompletedNext(ended: seq<Transfer>, d: Download, i: nat)
    requires i < |ended|
    ensures CompletedBy(ended, d, i + 1) <==> CompletedBy(ended, d, i) || (ended[i].d == d && Succeeds(ended[i]))
  {
  }

  lemma RunningNext(running: seq<Download>, ended: seq<Transfer>, i: nat)
    requires i < |ended|
    ensures StillRunning(running, ended, i + 1) ==
            StillRunning(running, ended, i) - if Succeeds(ended[i]) then {ended[i].d} else {}
  {
    forall d | d in running
      ensures CompletedBy(ended, d, i + 1) <==> CompletedBy(ended, d, i) || (ended[i].d == d && Succeeds(ended[i]))
    {
      CompletedNext(ended, d, i);
    }
  }

  lemma RetriesNext(running: seq<Download>, was: map<Download, int>, ended: seq<Transfer>, i: nat, left: map<Download, int>)
    requires i < |ended| && was.Keys == Elements(running) && left == RetriesLeft(running, was, ended, i)
    ensures RetriesLeft(running, was, ended, i + 1) ==
            var d := ended[i].d;
            if d in StillRunning(running, ended, i) && ended[i].result == OtherError && d in left then left[d := left[d] - 1] else left
  {
    forall d | d in running ensures d in was {
      assert d in Elements(running);
    }
  }

  lemma PassedOver(running: seq<Download>, was: map<Download, int>, ended: seq<Transfer>, i: nat,
                   now: seq<Download>, left: map<Download, int>, ds: seq<Download>)
    requires Progressed(running, was, ended, i, now, left, ds) && i < |ended| && ended[i].d !in now
    ensures Progressed(running, was, ended, i + 1, now, left, ds)
  {
    assert ended[i].d !in Elements(now);
    RunningNext(running, ended, i);
    RetriesNext(running, was, ended, i, left);
  }

  lemma DealtWith(running: seq<Download>, was: map<Download, int>, ended: seq<Transfer>, i: nat,
                  now: seq<Download>, left: map<Download, int>, ds: seq<Download>, now': seq<Download>, left': map<Download, int>)
    requires Progressed(running, was, ended, i, now, left, ds) && i < |ended| && ended[i].d in now && Goes(ended[i], left)
    requires Remaining(now, now', ended[i]) && ended[i].d in left
    requires left' == if ended[i].result == OtherError then left[ended[i].d := left[ended[i].d] - 1] else left
    ensures Progressed(running, was, ended, i + 1, now', left', if Succeeds(ended[i]) then ds + [ended[i].d] else ds)
  {
    assert ended[i].d in Elements(now);
    GoesUnlessFails(running, was, ended, i, now, left, ds);
    RunningNext(running, ended, i);
    RetriesNext(running, was, ended, i, left);
  }

  lemma ProgressStarts(running: seq<Download>, was: map<Download, int>, ended: seq<Transfer>)
    requires was.Keys == Elements(running)
    ensures Progressed(running, was, ended, 0, running, was, [])
  {
  }

  lemma Stopped(running: seq<Download>, was: map<Download, int>, ended: seq<Transfer>, k: nat,
                now: seq<Download>, left: map<Download, int>, ds: seq<Download>)
    requires Progressed(running, was, ended, k, now, left, ds) && (k < |ended| ==> Fails(running, was, ended, k))
    ensures StopsAt(running, was, ended, k) && ds == Successes(running, ended, k)
    ensures forall d :: d in running ==> d in was && d in left && left[d] == was[d] - Errors(ended, d, k)
  {
    NoneFailsAt(running, was, ended, k);
    forall d | d in running ensures d in was {
      assert d in Elements(running);
    }
  }

  class DownloadState {
    var numDownloads: nat
    var completedDownloads: nat
    var totalSize: int
    var completedSize: int
    var totalBytes: int
    var doneTotalBytes: int
    var isDownloading: bool
    var error: bool
    var downloadQueue: seq<Download>
    var currentDownloads: seq<Download>
    // the run so far, the two lists with their history, and all downloads ever queued with their progress
    ghost var events: seq<Event>
    ghost var value: Queues
    ghost var queued: seq<Download>
    ghost var progresses: seq<int>
    ghost var repr: set<Download>

    ghost predicate Counted()
      reads this
    {
      match value
      case Queues(waiting, running, _, finished) =>
        && downloadQueue == waiting && currentDownloads == running && Reached(events, value, queued)
        && numDownloads == |waiting| + |running| + completedDownloads && completedDownloads == |finished|
    }

    ghost predicate SummedFor(ds: seq<Download>)
      reads this, repr`progress
    {
      totalSize == totalBytes == TotalSize(ds) && completedSize == doneTotalBytes && Tracked(ds)
    }

    ghost predicate Tracked(ds: seq<Download>)
      reads this, repr`progress
    {
      && completedSize == Sum(progresses)
      && |progresses| == |ds| && forall k :: 0 <= k < |ds| ==> ds[k] in repr && ds[k].progress == progresses[k]
    }

    ghost predicate Valid()
      reads this, repr`progress
    {
      match value case Queues(_, _, _, _) => Counted() && SummedFor(queued)
    }

    constructor ()
      ensures Valid() && value == EMPTY && queued == [] && !isDownloading && !error
    {
      numDownloads, completedDownloads := 0, 0;
      totalSize, completedSize, totalBytes, doneTotalBytes := 0, 0, 0, 0;
      isDownloading, error := false, false;
      downloadQueue, currentDownloads := [], [];
      events, value, queued, progresses, repr := [], EMPTY, [], [], {};
    }

    method QueueDownload(size: int) returns (d: Download)
      requires Valid()
      modifies this`downloadQueue, this`numDownloads, this`totalSize, this`totalBytes, this`isDownloading
      modifies this`value, this`events, this`queued, this`progresses, this`repr
      ensures Valid() && fresh(d) && d.size == size && isDownloading && error == old(error)
      ensures value == Enqueued(old(value), d) && queued == old(queued) + [d]
      ensures numDownloads == old(numDownloads) + 1 && totalSize == old(totalSize) + size && completedSize == old(completedSize)
    {
      d := new Download(size);
      ghost var before := queued;
      Push(d);
      Account(d, before);
      MarkDownloading();
    }

    method MarkDownloading()
      requires Valid()
      modifies this`isDownloading
      ensures Valid() && isDownloading
    {
      isDownloading := true;
    }

    method Push(d: Download)
      requires Counted() && d !in queued
      modifies this`downloadQueue, this`numDownloads, this`value, this`events, this`queued
      ensures Counted() && value == Enqueued(old(value), d) && queued == old(queued) + [d]
      ensures numDownloads == old(numDownloads) + 1
    {
      ReachedNext(events, value, queued, Queue(d));
      events := events + [Queue(d)];
      downloadQueue := downloadQueue + [d];
      value, queued := Enqueued(value, d), queued + [d];
      numDownloads := numDownloads + 1;
    }

    method Account(d: Download, ghost before: seq<Download>)
      requires queued == before + [d] && d.progress == 0 && SummedFor(before)
      modifies this`totalSize, this`totalBytes, this`progresses, this`repr
      ensures SummedFor(queued) && totalSize == old(totalSize) + d.size && repr == old(repr) + {d}
    {
      TotalsAppend(before, d, progresses, 0);
      totalSize := totalSize + d.size;
      totalBytes := totalSize;
      progresses, repr := progresses + [0], repr + {d};
    }

    method DequeueDownload()
      requires Valid() && downloadQueue != []
      modifies this`downloadQueue, this`currentDownloads, this`value, this`events
      ensures Valid() && value == Dequeued(old(value))
    {
      var d := downloadQueue[0];
      ReachedNext(events, value, queued, Start);
      events := events + [Start];
      if |currentDownloads| >= MAX_CONCURRENT_DOWNLOADS {
        return;
      }
      if |currentDownloads| >= MAX_CONCURRENT_DOWNLOADS_HUGE {
        if d.size > HUGE_SIZE {
          return;
        }
      }
      if |currentDownloads| >= 1 {
        if d.size > MEGA_HUGE_SIZE {
          return;
        }
      }
      currentDownloads := currentDownloads + [d];
      downloadQueue := downloadQueue[1..];
      value := Dequeued(value);
    }

    /** Received bytes count even when fewer of them could be written; bytes that cannot be decoded
        do not.  With `poll` the sum is brought up to date while the progress is shown. */
    method WriteToFile(d: Download, bytes: nat, decodes: bool, poll: bool)
      requires Valid() && d in currentDownloads
      modifies this`completedSize, this`doneTotalBytes, this`progresses, d`progress
      ensures Valid() && d.progress == old(d.progress) + if decodes then bytes else 0
      ensures completedSize == old(completedSize) + if decodes then bytes else 0
    {
      if !decodes {
        return;
      }
      RunningIsQueued(events, value, queued, d);
      AddProgress(d, bytes);
      if poll {
        UpdateGlobalProgress(bytes);
      } else {
        doneTotalBytes := doneTotalBytes + bytes;
      }
    }

    method AddProgress(d: Download, bytes: nat)
      requires Tracked(queued) && Distinct(queued) && d in queued
      modifies this`completedSize, this`progresses, d`progress
      ensures Tracked(queued) && d.progress == old(d.progress) + bytes && completedSize == old(completedSize) + bytes
    {
      ghost var k :| 0 <= k < |queued| && queued[k] == d;
      SumUpdate(progresses, k, d.progress + bytes);
      d.progress := d.progress + bytes;
      progresses := progresses[k := d.progress];
      completedSize := completedSize + bytes;
    }

    method UpdateGlobalProgress(thisSize: nat)
      modifies this`doneTotalBytes
      ensures doneTotalBytes == old(doneTotalBytes) + thisSize
    {
      doneTotalBytes := doneTotalBytes + thisSize;
    }

    /** A running download whose transfer ended; false when it cannot be completed or retried. */
    method TransferEnded(t: Transfer) returns (ok: bool)
      requires Valid() && t.d in currentDownloads
      modifies this`completedDownloads, this`currentDownloads, this`value, this`events, t.d`numRetries
      ensures Valid()
      ensures ok == if t.result == Done then t.moved else t.result == OtherError && old(t.d.numRetries) > 0
      ensures value == if t.result == Done && t.moved then Completed(old(value), t.d) else old(value)
      ensures t.d.numRetries == old(t.d.numRetries) - if t.result == OtherError && ok then 1 else 0
    {
      if t.result == Done {
        if !t.moved {
          return false;
        }
        ReachedNext(events, value, queued, Finish(t.d));
        events := events + [Finish(t.d)];
        CountErased(currentDownloads, t.d, 0);
        completedDownloads := completedDownloads + 1;
        currentDownloads := Erased(currentDownloads, t.d);
        value := Completed(value, t.d);
        return true;
      } else {
        var shouldRetry := false;
        if t.result != HttpError {
          if t.d.numRetries > 0 {
            t.d.numRetries := t.d.numRetries - 1;
            shouldRetry := true;
          }
        }
        return shouldRetry;
      }
    }

    /** Takes notice of a transfer of a running download. */
    method Notice(t: Transfer, ghost q: Queues, ghost before: seq<Download>, ghost running: seq<Download>)
      returns (ok: bool, ghost ds: seq<Download>)
      requires Valid() && t.d in currentDownloads && value == AllCompleted(q, before)
      requires t.d in running
      modifies this`completedDownloads, this`currentDownloads, this`value, this`events, t.d`numRetries
      ensures Valid() && value == AllCompleted(q, ds)
      ensures ok == Goes(t, old(Retries(running)))
      ensures !ok ==> ds == before && Retries(running) == old(Retries(running))
      ensures ok ==> ds == (if Succeeds(t) then before + [t.d] else before) && Remaining(old(currentDownloads), currentDownloads, t)
      ensures var was := old(Retries(running));
              ok ==> t.d in was && Retries(running) == if t.result == OtherError then was[t.d := was[t.d] - 1] else was
    {
      ds := before;
      ghost var v, all, es := value, queued, events;
      assert forall d :: d in running && d != t.d ==> d.numRetries == old(d.numRetries);
      ok := TransferEnded(t);
      if ok && t.result == Done {
        CompletedLast(q, before, t.d);
        ds := before + [t.d];
        ErasedFrom(es, v, all, t.d);
      }
    }

    ghost function Retries(ds: seq<Download>): (r: map<Download, int>)
      reads ds`numRetries
      ensures r.Keys == Elements(ds)
    {
      map d | d in ds :: d.numRetries
    }

    /** The transfers that ended in one call, in order; those of downloads that do not run are
        passed over.  All are dealt with, or those before transfer `k`, the first that fails; `ds` are
        the downloads completed. */
    method ProcessDownload(ended: seq<Transfer>) returns (ok: bool, ghost ds: seq<Download>, ghost k: nat)
      requires Valid()
      modifies this`completedDownloads, this`currentDownloads, this`value, this`events, currentDownloads`numRetries
      ensures Valid() && value == AllCompleted(old(value), ds)
      ensures StopsAt(old(currentDownloads), old(Retries(currentDownloads)), ended, k) && (ok <==> k == |ended|)
      ensures ds == Successes(old(currentDownloads), ended, k)
      ensures forall d :: d in old(currentDownloads) ==> d.numRetries == old(d.numRetries) - Errors(ended, d, k)
    {
      ghost var q, running, was := value, currentDownloads, Retries(currentDownloads);
      ds, k := [], 0;
      ProgressStarts(running, was, ended);
      for i := 0 to |ended|
        invariant Valid() && value == AllCompleted(q, ds) && k == i
        invariant Progressed(running, was, ended, i, currentDownloads, Retries(running), ds)
      {
        ghost var now := currentDownloads;
        ok, ds := ProcessTransfer(ended, i, q, running, was, ds);
        if !ok {
          Stopped(running, was, ended, k, now, Retries(running), ds);
          return;
        }
        k := i + 1;
      }
      Stopped(running, was, ended, k, currentDownloads, Retries(running), ds);
      ok := true;
    }

    method ProcessTransfer(ended: seq<Transfer>, i: nat, ghost q: Queues, ghost running: seq<Download>,
                           ghost was: map<Download, int>, ghost before: seq<Download>) returns (ok: bool, ghost ds: seq<Download>)
      requires Valid() && i < |ended| && value == AllCompleted(q, before)
      requires Progressed(running, was, ended, i, currentDownloads, Retries(running), before)
      modifies this`completedDownloads, this`currentDownloads, this`value, this`events, running`numRetries
      ensures Valid() && value == AllCompleted(q, ds)
      ensures ok == !Fails(running, was, ended, i)
      ensures Progressed(running, was, ended, if ok then i + 1 else i, if ok then currentDownloads else old(currentDownloads), Retries(running), ds)
    {
      ok, ds := true, before;
      if ended[i].d in currentDownloads {
        ok, ds := ProcessOwn(ended, i, q, running, was, before);
      } else {
        PassedOver(running, was, ended, i, currentDownloads, Retries(running), ds);
      }
    }

    method ProcessOwn(ended: seq<Transfer>, i: nat, ghost q: Queues, ghost running: seq<Download>,
                      ghost was: map<Download, int>, ghost before: seq<Download>) returns (ok: bool, ghost ds: seq<Download>)
      requires Valid() && i < |ended| && ended[i].d in currentDownloads && value == AllCompleted(q, before)
      requires Progressed(running, was, ended, i, currentDownloads, Retries(running), before)
      modifies this`completedDownloads, this`currentDownloads, this`value, this`events, running`numRetries
      ensures Valid() && value == AllCompleted(q, ds)
      ensures ok == !Fails(running, was, ended, i)
      ensures Progressed(running, was, ended, if ok then i + 1 else i, if ok then currentDownloads else old(currentDownloads), Retries(running), ds)
    {
      ghost var now, left := currentDownloads, Retries(running);
      GoesUnlessFails(running, was, ended, i, now, left, before);
      ok, ds := Notice(ended[i], q, before, running);
      if ok {
        DealtWith(running, was, ended, i, now, left, before, currentDownloads, Retries(running));
      }
    }

    method ProcessRunning(ended: seq<Transfer>) returns (ok: bool, ghost ds: seq<Download>, ghost k: nat)
      requires Valid()
      modifies this`completedDownloads, this`currentDownloads, this`value, this`events, currentDownloads`numRetries
      ensures Valid() && value == AllCompleted(old(value), ds)
      ensures StopsAt(old(currentDownloads), old(Retries(currentDownloads)), ended, k) && (ok <==> k == |ended|)
      ensures ds == Successes(old(currentDownloads), ended, k)
    {
      if currentDownloads != [] {
        ok, ds, k := ProcessDownload(ended);
      } else {
        NoSuccesses(ended, |ended|);
        ok, ds, k := true, [], |ended|;
      }
    }

    method Stop()
      requires Valid()
      modifies this`isDownloading, this`error
      ensures Valid() && !isDownloading && error
    {
      isDownloading := false;
      error := true;
    }

    method StartNext()
      requires Valid()
      modifies this`downloadQueue, this`currentDownloads, this`value, this`events
      ensures Valid() && value == if old(downloadQueue) == [] then old(value) else Dequeued(old(value))
    {
      if |downloadQueue| > 0 {
        DequeueDownload();
      }
    }

    /** One call of the processing function; true when there is nothing more to do.  Unless transfer
        `k` fails, it completes the downloads `ds` and then tries to start the head of the queue; the
        first that fails ends all downloading, with those before it completed. */
    method Process(ended: seq<Transfer>) returns (nothingLeft: bool, ghost ds: seq<Download>, ghost k: nat)
      requires Valid()
      modifies this`isDownloading, this`error, this`downloadQueue, this`currentDownloads, this`completedDownloads
      modifies this`value, this`events, currentDownloads`numRetries
      ensures Valid() && queued == old(queued) && completedSize == old(completedSize)
      ensures !old(isDownloading) ==> nothingLeft && value == old(value) && !isDownloading
      ensures old(isDownloading) ==>
        && StopsAt(old(currentDownloads), old(Retries(currentDownloads)), ended, k) && (isDownloading <==> k == |ended|)
        && ds == Successes(old(currentDownloads), ended, k)
      ensures old(isDownloading) && isDownloading ==>
        && value == Ticked(old(value), ds) && error == old(error)
        && (nothingLeft <==> downloadQueue == [] && currentDownloads == [])
      ensures old(isDownloading) && !isDownloading ==> nothingLeft && error && value == AllCompleted(old(value), ds)
    {
      ds, k := [], |ended|;
      if !isDownloading {
        return true, ds, k;
      }
      var ok;
      ok, ds, k := ProcessRunning(ended);
      if !ok {
        Stop();
        return true, ds, k;
      }
      StartNext();
      return downloadQueue == [] && currentDownloads == [], ds, k;
    }
  }

  /** What runs after a transfer that does not fail. */
  ghost predicate Remaining(was: seq<Download>, now: seq<Download>, t: Transfer) {
    Elements(now) == Elements(was) - if Succeeds(t) then {t.d} else {}
  }

  lemma ErasedFrom(events: seq<Event>, q: Queues, queued: seq<Download>, d: Download)
    requires Reached(events, q, queued) && d in q.running
    ensures Remaining(q.running, Erased(q.running, d), Transfer(d, Done, true))
  {
    ReachedSound(events, q, queued);
    FinishedLeaves(q, queued, d);
    ErasedInside(q.running, d);
  }

  lemma {:induction false} NoSuccesses(ended: seq<Transfer>, i: nat)
    requires i <= |ended|
    ensures Successes([], ended, i) == []
  {
    if i > 0 {
      NoSuccesses(ended, i - 1);
    }
  }

  lemma {:induction false} CompletedLast(q: Queues, ds: seq<Download>, d: Download)
    ensures AllCompleted(q, ds + [d]) == Completed(AllCompleted(q, ds), d)
    decreases |ds|
  {
    if ds == [] {
      assert ds + [d] == [d] && [d][1..] == [];
    } else {
      assert (ds + [d])[1..] == ds[1..] + [d];
      CompletedLast(Completed(q, ds[0]), ds[1..], d);
    }
  }

  lemma {:induction false} ErasedInside(ds: seq<Download>, d: Download)
    ensures forall e :: e in Erased(ds, d) ==> e in ds
    ensures forall e :: e in ds && e != d ==> e in Erased(ds, d)
  {
    if ds != [] {
      ErasedInside(ds[1..], d);
    }
  }

  lemma RunningIsQueued(events: seq<Event>, q: Queues, queued: seq<Download>, d: Download)
    requires Reached(events, q, queued) && d in q.running
    ensures Distinct(queued) && d in queued
  {
    ReachedSound(events, q, queued);
    assert d in multiset(q.running) + multiset(q.finished);
    assert d in q.started;
  }
}
