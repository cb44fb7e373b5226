/** The ring of shared surfaces: one process draws them, another presents them, and two semaphores
    hand them over.  Every semaphore operation and every access to a shared index is one step. */
module SurfaceRing {
  import opened Remainders

  /** Where the drawing thread stands. */
  datatype Producer =
    | Idle
    | Acquired               // a produce permit was taken
    | Drawing(surface: nat)  // GetNextSurface returned it
    | Advanced               // SubmitSurface moved the index and has yet to signal

  /** Where the presenting thread stands. */
  datatype Consumer =
    | Waiting
    | Woken                  // a consume permit was taken
    | Taking(surface: nat)   // the index was read and has yet to move

  datatype State = State(
    producePermits: nat,
    consumePermits: nat,
    produceIdx: nat,
    consumeIdx: nat,
    producer: Producer,
    consumer: Consumer,
    held: seq<nat>,          // fetched and not yet released
    // history
    submitted: seq<nat>,
    fetched: seq<nat>)

  function Initial(permits: nat): State {
    State(permits, 0, 0, 0, Idle, Waiting, [], [], [])
  }

  datatype Step = Acquire | ReadIndex | Advance | Signal | Wake | Take | MoveOn | Release

  predicate Enabled(s: State, step: Step) {
    match step
    case Acquire => s.producer == Idle && s.producePermits > 0
    case ReadIndex => s.producer == Acquired
    case Advance => s.producer.Drawing?
    case Signal => s.producer == Advanced
    case Wake => s.consumer == Waiting && s.consumePermits > 0
    case Take => s.consumer == Woken
    case MoveOn => s.consumer.Taking?
    case Release => s.consumer == Waiting && s.held != []
  }

  /** `limit` is the number of surfaces. */
  function After(limit: nat, s: State, step: Step): State
    requires limit > 0 && Enabled(s, step)
  {
    match step
    case Acquire => s.(producePermits := s.producePermits - 1, producer := Acquired)
    case ReadIndex => s.(producer := Drawing(s.produceIdx))
    case Advance =>
      s.(produceIdx := (s.produceIdx + 1) % limit, producer := Advanced, submitted := s.submitted + [s.producer.surface])
    case Signal => s.(consumePermits := s.consumePermits + 1, producer := Idle)
    case Wake => s.(consumePermits := s.consumePermits - 1, consumer := Woken)
    case Take => s.(consumer := Taking(s.consumeIdx))
    case MoveOn =>
      s.(consumeIdx := (s.consumeIdx + 1) % limit, consumer := Waiting,
         held := s.held + [s.consumer.surface], fetched := s.fetched + [s.consumer.surface])
    case Release => s.(producePermits := s.producePermits + 1, held := s.held[1..])
  }

  predicate Runs(limit: nat, s: State, steps: seq<Step>)
    requires limit > 0
    decreases |steps|
  {
    steps == [] || (Enabled(s, steps[0]) && Runs(limit, After(limit, s, steps[0]), steps[1..]))
  }

  function Final(limit: nat, s: State, steps: seq<Step>): State
    requires limit > 0 && Runs(limit, s, steps)
    decreases |steps|
  {
    if steps == [] then s else Final(limit, After(limit, s, steps[0]), steps[1..])
  }

  // ---------------------------------------------------------------- what every step keeps

  /** The i-th surface handed over is the i-th of the ring, round and round. */
  predicate InTurn(surfaces: seq<nat>, limit: nat)
    requires limit > 0
  {
    forall i :: 0 <= i < |surfaces| ==> surfaces[i] == i % limit
  }

  function InHand(p: Producer): nat { if p == Acquired || p.Drawing? then 1 else 0 }

  predicate Inv(limit: nat, permits: nat, s: State)
    requires limit > 0
  {
    && InTurn(s.submitted, limit) && InTurn(s.fetched, limit)
    && s.produceIdx == |s.submitted| % limit && s.consumeIdx == |s.fetched| % limit
    && (s.producer.Drawing? ==> s.producer.surface == s.produceIdx)
    && (s.consumer.Taking? ==> s.consumer.surface == s.consumeIdx)
    // each surface submitted and not fetched is signalled, about to be, or being fetched
    && |s.fetched| + s.consumePermits + (if s.consumer == Waiting then 0 else 1) + (if s.producer == Advanced then 1 else 0) == |s.submitted|
    && |s.held| <= |s.fetched| && s.held == s.fetched[|s.fetched| - |s.held|..]
    // permits are conserved
    && s.producePermits + InHand(s.producer) + (|s.submitted| - |s.fetched|) + |s.held| == permits
  }

  lemma NextInTurn(n: nat, limit: nat)
    requires limit > 0
    ensures (n % limit + 1) % limit == (n + 1) % limit
  {
    var q, r := n / limit, n % limit;
    assert n == q * limit + r;
    if r + 1 < limit {
      RemainderIs(n + 1, q, r + 1, limit);
      RemainderIs(r + 1, 0, r + 1, limit);
    } else {
      assert (q + 1) * limit == q * limit + limit;
      RemainderIs(n + 1, q + 1, 0, limit);
      RemainderIs(r + 1, 1, 0, limit);
    }
  }

  lemma RemainderIs(n: int, q: int, r: nat, limit: nat)
    requires r < limit && n == q * limit + r
    ensures n % limit == r
  {
    RemainderUnique(q, r, n / limit, n % limit, limit);
  }

  lemma InvKept(limit: nat, permits: nat, s: State, step: Step)
    requires limit > 0 && Inv(limit, permits, s) && Enabled(s, step)
    ensures Inv(limit, permits, After(limit, s, step))
  {
    NextInTurn(|s.submitted|, limit);
    NextInTurn(|s.fetched|, limit);
  }

  lemma {:induction false} InvThroughRun(limit: nat, permits: nat, s: State, steps: seq<Step>)
    requires limit > 0 && Inv(limit, permits, s) && Runs(limit, s, steps)
    ensures Inv(limit, permits, Final(limit, s, steps))
    decreases |steps|
  {
    if steps != [] {
      InvKept(limit, permits, s, steps[0]);
      InvThroughRun(limit, permits, After(limit, s, steps[0]), steps[1..]);
    }
  }

  lemma InvInitially(limit: nat, permits: nat)
    requires limit > 0
    ensures Inv(limit, permits, Initial(permits))
  {
    RemainderIs(0, 0, 0, limit);
  }

  // ---------------------------------------------------------------- the main statements

  /** The surfaces queued for the consumer or held by it. */
  function InUse(s: State): seq<nat>
    requires |s.held| <= |s.fetched| <= |s.submitted|
  {
    s.submitted[|s.fetched| - |s.held|..]
  }

  /** In every interleaving: permits, surfaces in hand and surfaces in use add up to the initial
      permits, and surfaces are fetched in the order they were submitted. */
  lemma RingConserves(limit: nat, permits: nat, steps: seq<Step>)
    requires limit > 0 && Runs(limit, Initial(permits), steps)
    ensures var s := Final(limit, Initial(permits), steps);
            && |s.held| <= |s.fetched| <= |s.submitted|
            && s.producePermits + InHand(s.producer) + |InUse(s)| == permits
            && s.fetched <= s.submitted && s.held <= InUse(s)
  {
    InvInitially(limit, permits);
    InvThroughRun(limit, permits, Initial(permits), steps);
    StateConserves(limit, permits, Final(limit, Initial(permits), steps));
  }

  lemma InTurnPrefix(a: seq<nat>, b: seq<nat>, limit: nat)
    requires limit > 0 && InTurn(a, limit) && InTurn(b, limit) && |a| <= |b|
    ensures a <= b
  {
    assert forall i :: 0 <= i < |a| ==> a[i] == b[i];
  }

  lemma HeldFirst(held: seq<nat>, fetched: seq<nat>, submitted: seq<nat>)
    requires fetched <= submitted && |held| <= |fetched| && held == fetched[|fetched| - |held|..]
    ensures held <= submitted[|fetched| - |held|..]
  {
  }

  lemma StateConserves(limit: nat, permits: nat, s: State)
    requires limit > 0 && Inv(limit, permits, s)
    ensures |s.held| <= |s.fetched| <= |s.submitted|
    ensures s.producePermits + InHand(s.producer) + |InUse(s)| == permits
    ensures s.fetched <= s.submitted && s.held <= InUse(s)
  {
    InTurnPrefix(s.fetched, s.submitted, limit);
    HeldFirst(s.held, s.fetched, s.submitted);
  }

  /** The surface being drawn is neither queued nor held, and those in use differ. */
  predicate Exclusive(s: State)
    requires |s.held| <= |s.fetched| <= |s.submitted|
  {
    && (s.producer.Drawing? ==> s.producer.surface !in InUse(s))
    && forall i, j :: 0 <= i < j < |InUse(s)| ==> InUse(s)[i] != InUse(s)[j]
  }

  lemma DifferentTurns(i: nat, j: nat, limit: nat)
    requires i < j < i + limit
    ensures i % limit != j % limit
  {
    var q, r := i / limit, i % limit;
    assert i == q * limit + r;
    if j % limit == r {
      var q' := j / limit;
      assert j == q' * limit + r;
      if q' < q {
        Ahead(q', q, limit);
      } else if q < q' {
        Ahead(q, q', limit);
      }
    }
  }

  lemma StateExclusive(limit: nat, permits: nat, s: State)
    requires limit > 0 && Inv(limit, permits, s) && permits <= limit
    ensures Exclusive(s)
  {
    var n := |s.fetched| - |s.held|;
    var used := InUse(s);
    forall i, j | 0 <= i < j < |used| ensures used[i] != used[j] {
      DifferentTurns(n + i, n + j, limit);
    }
    if s.producer.Drawing? {
      forall i | 0 <= i < |used| ensures used[i] != s.producer.surface {
        DifferentTurns(n + i, |s.submitted|, limit);
      }
    }
  }

  /** Neither semaphore is ever raised above the number of surfaces. */
  lemma SemaphoresBounded(limit: nat, permits: nat, steps: seq<Step>)
    requires limit > 0 && permits <= limit && Runs(limit, Initial(permits), steps)
    ensures var s := Final(limit, Initial(permits), steps);
            s.producePermits <= limit && s.consumePermits <= limit
  {
    InvInitially(limit, permits);
    InvThroughRun(limit, permits, Initial(permits), steps);
  }

  /** With at least one permit, some thread can always go on. */
  lemma NeverStuck(limit: nat, permits: nat, steps: seq<Step>)
    requires limit > 0 && permits > 0 && Runs(limit, Initial(permits), steps)
    ensures exists step :: Enabled(Final(limit, Initial(permits), steps), step)
  {
    InvInitially(limit, permits);
    InvThroughRun(limit, permits, Initial(permits), steps);
    var s := Final(limit, Initial(permits), steps);
    var step :=
      match s.producer {
        case Acquired => ReadIndex
        case Drawing(_) => Advance
        case Advanced => Signal
        case Idle =>
          match s.consumer {
            case Woken => Take
            case Taking(_) => MoveOn
            case Waiting => if s.producePermits > 0 then Acquire else if s.consumePermits > 0 then Wake else Release
          }
      };
    assert Enabled(s, step);
  }

  /** After `k` surfaces drawn and submitted with nothing fetched. */
  lemma {:induction false} Fill(limit: nat, s: State, k: nat) returns (steps: seq<Step>)
    requires limit > 0 && s.producer == Idle && s.producePermits >= k
    ensures Runs(limit, s, steps)
    ensures var t := Final(limit, s, steps);
            && t.producer == Idle && t.producePermits == s.producePermits - k && |t.submitted| == |s.submitted| + k
            && t.fetched == s.fetched && t.held == s.held
    decreases k
  {
    if k == 0 {
      return [];
    }
    var s1 := After(limit, s, Acquire);
    var s2 := After(limit, s1, ReadIndex);
    var s3 := After(limit, s2, Advance);
    var s4 := After(limit, s3, Signal);
    var rest := Fill(limit, s4, k - 1);
    steps := Then(limit, s3, Signal, rest);
    steps := Then(limit, s2, Advance, steps);
    steps := Then(limit, s1, ReadIndex, steps);
    steps := Then(limit, s, Acquire, steps);
  }

  lemma Then(limit: nat, s: State, step: Step, rest: seq<Step>) returns (steps: seq<Step>)
    requires limit > 0 && Enabled(s, step) && Runs(limit, After(limit, s, step), rest)
    ensures Runs(limit, s, steps) && Final(limit, s, steps) == Final(limit, After(limit, s, step), rest)
  {
    steps := [step] + rest;
    assert steps[1..] == rest;
  }

  lemma {:induction false} RunsOn(limit: nat, s: State, a: seq<Step>, b: seq<Step>)
    requires limit > 0 && Runs(limit, s, a) && Runs(limit, Final(limit, s, a), b)
    ensures Runs(limit, s, a + b) && Final(limit, s, a + b) == Final(limit, Final(limit, s, a), b)
    decreases |a|
  {
    if a == [] {
      assert a + b == b;
    } else {
      assert (a + b)[1..] == a[1..] + b;
      RunsOn(limit, After(limit, s, a[0]), a[1..], b);
    }
  }

  /** With more permits than surfaces, a run draws on a surface that is still queued. */
  lemma TooManyPermits(limit: nat, permits: nat) returns (steps: seq<Step>)
    requires 0 < limit < permits
    ensures Runs(limit, Initial(permits), steps)
    ensures var s := Final(limit, Initial(permits), steps);
            |s.held| <= |s.fetched| <= |s.submitted| && !Exclusive(s)
  {
    var fill := Fill(limit, Initial(permits), limit);
    var full := Final(limit, Initial(permits), fill);
    var s1 := After(limit, full, Acquire);
    var s2 := After(limit, s1, ReadIndex);
    var last := Then(limit, s1, ReadIndex, []);
    last := Then(limit, full, Acquire, last);
    RunsOn(limit, Initial(permits), fill, last);
    steps := fill + last;
    InvInitially(limit, permits);
    InvThroughRun(limit, permits, Initial(permits), steps);
    FullRing(limit, permits, Final(limit, Initial(permits), steps));
  }

  lemma FullRing(limit: nat, permits: nat, s: State)
    requires limit > 0 && Inv(limit, permits, s) && s.producer.Drawing? && |s.submitted| == limit && s.fetched == []
    ensures |s.held| <= |s.fetched| <= |s.submitted| && !Exclusive(s)
  {
    RemainderIs(limit, 1, 0, limit);
    RemainderIs(0, 0, 0, limit);
    assert s.submitted[0] == 0 && InUse(s)[0] == 0;
  }

  /** No interleaving lets the producer draw on a surface that is queued or held, exactly when
      there are no more permits than surfaces. */
  lemma ExclusiveIffEnoughSurfaces(limit: nat, permits: nat)
    requires limit > 0
    ensures (forall steps :: Runs(limit, Initial(permits), steps) ==>
               var s := Final(limit, Initial(permits), steps);
               |s.held| <= |s.fetched| <= |s.submitted| && Exclusive(s))
       <==> permits <= limit
  {
    if permits <= limit {
      forall steps | Runs(limit, Initial(permits), steps)
        ensures var s := Final(limit, Initial(permits), steps); |s.held| <= |s.fetched| <= |s.submitted| && Exclusive(s)
      {
        InvInitially(limit, permits);
        InvThroughRun(limit, permits, Initial(permits), steps);
        StateExclusive(limit, permits, Final(limit, Initial(permits), steps));
      }
    } else {
      var steps := TooManyPermits(limit, permits);
    }
  }
}
