/** Emitting a signal while its handlers connect and disconnect. */
module SigSlotEmits {
  import opened Sequences
  import opened SigSlot

  // ---------------------------------------------------------------- what is called, for any reactions

  /** The connections present at the start and those that the first `k` calls add. */
  function AllBy(l: seq<Connection>, react: nat -> Reaction, k: nat): seq<Connection> {
    l + AddedBy(react, 0, k)
  }

  /** One of the first `k` calls removes `c` from a list that holds it. */
  ghost predicate RemovedIn(l: seq<Connection>, react: nat -> Reaction, c: Connection, k: nat) {
    exists j :: 0 <= j < k && c in react(j).removed && c in AllBy(l, react, j)
  }

  /** Of the connections there after `k` calls, those called or removed. */
  ghost function Gone(l: seq<Connection>, react: nat -> Reaction, called: seq<Connection>, k: nat): set<Connection> {
    set c | c in AllBy(l, react, k) && (c in called || RemovedIn(l, react, c, k))
  }

  /** The connections still to be called when call `k` is made: there before it, not called yet and not
      removed. */
  ghost function Waiting(l: seq<Connection>, react: nat -> Reaction, called: seq<Connection>, k: nat): seq<Connection> {
    Kept(AllBy(l, react, k), Gone(l, react, called, k))
  }

  lemma {:induction false} AddedByOneMore(react: nat -> Reaction, k: nat, n: nat)
    ensures AddedBy(react, k, n + 1) == AddedBy(react, k, n) + react(k + n).added
    decreases n
  {
    if n > 0 {
      AddedByOneMore(react, k + 1, n - 1);
      Regroup(react(k).added, AddedBy(react, k + 1, n - 1), react(k + n).added);
    } else {
      assert AddedBy(react, k, 1) == react(k).added + AddedBy(react, k + 1, 0);
    }
  }

  lemma {:induction false} KeptJoin(a: seq<Connection>, b: seq<Connection>, gone: set<Connection>)
    ensures Kept(a + b, gone) == Kept(a, gone) + Kept(b, gone)
  {
    if a == [] {
      assert a + b == b;
    } else {
      assert (a + b)[1..] == a[1..] + b;
      KeptJoin(a[1..], b, gone);
    }
  }

  lemma {:induction false} KeptTwice(l: seq<Connection>, a: set<Connection>, b: set<Connection>)
    ensures Kept(Kept(l, a), b) == Kept(l, a + b)
  {
    if l != [] {
      KeptTwice(l[1..], a, b);
      if l[0] !in a {
        assert ([l[0]] + Kept(l[1..], a))[1..] == Kept(l[1..], a);
      }
    }
  }

  lemma {:induction false} KeptAgrees(l: seq<Connection>, a: set<Connection>, b: set<Connection>)
    requires forall c :: c in l ==> (c in a <==> c in b)
    ensures Kept(l, a) == Kept(l, b)
  {
    if l != [] {
      KeptAgrees(l[1..], a, b);
    }
  }

  lemma {:induction false} KeptWithin(l: seq<Connection>, gone: set<Connection>)
    ensures forall c :: c in Kept(l, gone) <==> c in l && c !in gone
    ensures Distinct(l) ==> Distinct(Kept(l, gone))
  {
    if l != [] {
      KeptWithin(l[1..], gone);
      assert l == [l[0]] + l[1..];
    }
  }

  /** Taking the head of a list without repetitions. */
  lemma HeadGone(l: seq<Connection>)
    requires l != [] && Distinct(l)
    ensures Kept(l, {l[0]}) == l[1..]
  {
    KeptAll(l[1..], {l[0]});
  }

  /** What waits after call `k`, its next connection `d` being called. */
  lemma WaitingNext(l: seq<Connection>, react: nat -> Reaction, called: seq<Connection>, d: Connection, k: nat, w: seq<Connection>)
    requires w == Waiting(l, react, called, k) && w != [] && d == w[0] && d !in react(k).removed
    requires Distinct(AllBy(l, react, k + 1)) && forall c :: c in called ==> c in AllBy(l, react, k)
    ensures Kept(w, react(k).removed) + react(k).added == [d] + Waiting(l, react, called + [d], k + 1)
  {
    var all, r := AllBy(l, react, k), react(k);
    AddedByOneMore(react, 0, k);
    Regroup(l, AddedBy(react, 0, k), r.added);
    assert AllBy(l, react, k + 1) == all + r.added;
    DistinctParts(all, r.added);
    KeptWithin(all, Gone(l, react, called, k));
    NewStays(l, react, called + [d], k, all, r.added);
    OldGoes(l, react, called, d, k, all, w);
    KeptJoin(all, r.added, Gone(l, react, called + [d], k + 1));
    Regroup([d], Kept(all, Gone(l, react, called + [d], k + 1)), r.added);
  }

  lemma DistinctParts(a: seq<Connection>, b: seq<Connection>)
    requires Distinct(a + b)
    ensures Distinct(a) && forall c :: c in b ==> c !in a
  {
    assert forall i :: 0 <= i < |a| ==> a[i] == (a + b)[i];
    assert forall i :: 0 <= i < |b| ==> b[i] == (a + b)[|a| + i];
  }

  lemma {:induction false} EarlierWithin(l: seq<Connection>, react: nat -> Reaction, j: nat, k: nat)
    requires j <= k
    ensures forall c :: c in AllBy(l, react, j) ==> c in AllBy(l, react, k)
    decreases k
  {
    if j < k {
      EarlierWithin(l, react, j, k - 1);
      AddedByOneMore(react, 0, k - 1);
    }
  }

  /** What call `k` adds is neither called nor removed yet. */
  lemma NewStays(l: seq<Connection>, react: nat -> Reaction, called: seq<Connection>, k: nat, all: seq<Connection>, added: seq<Connection>)
    requires all == AllBy(l, react, k) && (forall c :: c in called ==> c in all) && forall c :: c in added ==> c !in all
    ensures Kept(added, Gone(l, react, called, k + 1)) == added
  {
    forall c | c in added ensures c !in Gone(l, react, called, k + 1) {
      forall j | 0 <= j < k + 1 ensures c !in AllBy(l, react, j) {
        EarlierWithin(l, react, j, k);
      }
    }
    KeptAll(added, Gone(l, react, called, k + 1));
  }

  /** Of what was there before call `k`, what it does not remove stays, but for the one called next. */
  lemma OldGoes(l: seq<Connection>, react: nat -> Reaction, called: seq<Connection>, d: Connection, k: nat,
                all: seq<Connection>, w: seq<Connection>)
    requires all == AllBy(l, react, k) && Distinct(all)
    requires w == Kept(all, Gone(l, react, called, k)) && w != [] && d == w[0] && d !in react(k).removed
    ensures Kept(w, react(k).removed) == [d] + Kept(all, Gone(l, react, called + [d], k + 1))
  {
    var gone, removed := Gone(l, react, called, k), react(k).removed;
    KeptTwice(all, gone, removed);
    KeptWithin(all, gone + removed);
    HeadStays(w, removed);
    HeadGone(Kept(w, removed));
    KeptTwice(all, gone + removed, {d});
    GoneNext(l, react, called, d, k);
    KeptAgrees(all, gone + removed + {d}, Gone(l, react, called + [d], k + 1));
    assert Kept(w, removed) == [d] + Kept(w, removed)[1..];
  }

  lemma HeadStays(w: seq<Connection>, gone: set<Connection>)
    requires w != [] && w[0] !in gone
    ensures Kept(w, gone) != [] && Kept(w, gone)[0] == w[0]
  {
  }

  lemma GoneNext(l: seq<Connection>, react: nat -> Reaction, called: seq<Connection>, d: Connection, k: nat)
    ensures forall c :: c in AllBy(l, react, k) ==>
              (c in Gone(l, react, called, k) + react(k).removed + {d} <==> c in Gone(l, react, called + [d], k + 1))
  {
    EarlierWithin(l, react, k, k + 1);
    forall c | c in AllBy(l, react, k)
      ensures RemovedIn(l, react, c, k + 1) <==> RemovedIn(l, react, c, k) || c in react(k).removed
    {
    }
  }

  /** The calls of an emission from the one numbered `k` on, `called` being made before. */
  ghost predicate CallsGoOn(l: seq<Connection>, react: nat -> Reaction, called: seq<Connection>, e: Emission, k: nat)
    requires k == |called|
  {
    var calls := called + e.calls;
    && |calls| > k
    && (forall i :: k <= i < |calls| - 1 ==> NextCalled(l, react, calls, i))
    && LastCalled(l, react, calls, e)
  }

  /** After call `i` the first of those waiting is called, which it does not remove. */
  ghost predicate NextCalled(l: seq<Connection>, react: nat -> Reaction, calls: seq<Connection>, i: nat)
    requires i < |calls| - 1
  {
    var w := Waiting(l, react, calls[..i + 1], i);
    w != [] && calls[i + 1] == w[0] && w[0] !in react(i).removed
  }

  /** After the last call none waits, or it removed the first that did. */
  ghost predicate LastCalled(l: seq<Connection>, react: nat -> Reaction, calls: seq<Connection>, e: Emission)
    requires calls != []
  {
    var n := |calls| - 1;
    var w := Waiting(l, react, calls, n);
    if e.Ended? then w == [] else w != [] && w[0] in react(n).removed
  }

  lemma DistinctAt(l: seq<Connection>, react: nat -> Reaction, k: nat, bound: nat)
    requires QuietFrom(react, bound) && Distinct(AllBy(l, react, bound))
    ensures Distinct(AllBy(l, react, k))
  {
    if k <= bound {
      EarlierPrefix(l, react, k, bound);
    } else {
      QuietAfter(l, react, bound, k);
    }
  }

  lemma {:induction false} EarlierPrefix(l: seq<Connection>, react: nat -> Reaction, j: nat, k: nat)
    requires j <= k
    ensures AllBy(l, react, j) <= AllBy(l, react, k)
    decreases k
  {
    if j < k {
      EarlierPrefix(l, react, j, k - 1);
      AddedByOneMore(react, 0, k - 1);
      Regroup(l, AddedBy(react, 0, k - 1), react(k - 1).added);
    }
  }

  lemma {:induction false} QuietAfter(l: seq<Connection>, react: nat -> Reaction, bound: nat, k: nat)
    requires QuietFrom(react, bound) && bound <= k
    ensures AllBy(l, react, k) == AllBy(l, react, bound)
    decreases k
  {
    if bound < k {
      QuietAfter(l, react, bound, k - 1);
      AddedByOneMore(react, 0, k - 1);
    }
  }

  lemma {:induction false} EmitGoesOn(l: seq<Connection>, before: seq<Connection>, rest: seq<Connection>, react: nat -> Reaction,
                                      called: seq<Connection>, bound: nat)
    requires QuietFrom(react, bound) && Distinct(AllBy(l, react, bound)) && rest != []
    requires rest[1..] == Waiting(l, react, called + [rest[0]], |called|)
    requires forall c :: c in called + [rest[0]] ==> c in AllBy(l, react, |called|)
    ensures var e := Emitted(before, rest, react, |called|, bound);
            CallsGoOn(l, react, called, e, |called|) && e.calls != [] && e.calls[0] == rest[0]
    decreases CallsWithAdditions(bound, |called|), |rest|
  {
    var k, c := |called|, rest[0];
    var r, calls := react(k), called + [c];
    EmitStep(before, rest, react, k, bound);
    assert calls[..k + 1] == calls;
    if |rest| > 1 && rest[1] !in r.removed {
      var before', rest' := Kept(before + [c], r.removed), Kept(rest[1..], r.removed) + r.added;
      DistinctAt(l, react, k + 1, bound);
      RestGoesOn(l, react, calls, rest[1..], rest', k);
      EmitGoesOn(l, before', rest', react, calls, bound);
      GoesOnBefore(l, react, called, c, rest[1], Emitted(before', rest', react, k + 1, bound));
    }
  }

  lemma RestGoesOn(l: seq<Connection>, react: nat -> Reaction, calls: seq<Connection>, w: seq<Connection>, rest: seq<Connection>, k: nat)
    requires w == Waiting(l, react, calls, k) && w != [] && w[0] !in react(k).removed
    requires Distinct(AllBy(l, react, k + 1)) && forall c :: c in calls ==> c in AllBy(l, react, k)
    requires rest == Kept(w, react(k).removed) + react(k).added
    ensures rest != [] && rest[0] == w[0] && rest[1..] == Waiting(l, react, calls + [w[0]], k + 1)
    ensures forall c :: c in calls + [w[0]] ==> c in AllBy(l, react, k + 1)
  {
    WaitingNext(l, react, calls, w[0], k, w);
    EarlierWithin(l, react, k, k + 1);
    KeptWithin(AllBy(l, react, k), Gone(l, react, calls, k));
  }

  lemma GoesOnBefore(l: seq<Connection>, react: nat -> Reaction, called: seq<Connection>, c: Connection, d: Connection, e: Emission)
    requires CallsGoOn(l, react, called + [c], e, |called| + 1) && e.calls != [] && e.calls[0] == d
    requires var w := Waiting(l, react, called + [c], |called|); w != [] && d == w[0] && d !in react(|called|).removed
    ensures CallsGoOn(l, react, called, AfterCalls([c], e), |called|)
  {
    var calls, k := called + [c] + e.calls, |called|;
    assert called + ([c] + e.calls) == calls;
    assert calls[..k + 1] == called + [c] && calls[k + 1] == d;
    assert NextCalled(l, react, calls, k);
  }

  /** Whatever handlers remove and add: the first connection is called first; after each call but the
      last the next one called is the first that was there before it, present at the start or added,
      and neither called nor removed yet; and the emission comes to its end exactly when no call
      removes the one that is next when it is made. */
  lemma EmitCallsNext(l: seq<Connection>, react: nat -> Reaction, bound: nat) returns (e: Emission)
    requires QuietFrom(react, bound) && l != [] && Distinct(AllBy(l, react, bound))
    ensures e == Emitted([], l, react, 0, bound)
    ensures var n := |e.calls|;
            && n > 0 && e.calls[0] == l[0]
            && (forall i :: 0 <= i < n - 1 ==> NextCalled(l, react, e.calls, i))
            && (e.Ended? <==> forall i :: 0 <= i < n ==> SparesWaiting(l, react, e.calls, i))
            && (e.Ended? <==> Waiting(l, react, e.calls, n - 1) == [])
  {
    e := Emitted([], l, react, 0, bound);
    DistinctAt(l, react, 0, bound);
    FirstWaiting(l, react);
    EmitGoesOn(l, [], l, react, [], bound);
    GoneOn(l, react, e);
  }

  lemma FirstWaiting(l: seq<Connection>, react: nat -> Reaction)
    requires l != [] && Distinct(AllBy(l, react, 0))
    ensures AllBy(l, react, 0) == l && l[1..] == Waiting(l, react, [] + [l[0]], 0)
  {
    assert AllBy(l, react, 0) == l;
    KeptAgrees(l, Gone(l, react, [] + [l[0]], 0), {l[0]});
    HeadGone(l);
  }

  lemma GoneOn(l: seq<Connection>, react: nat -> Reaction, e: Emission)
    requires CallsGoOn(l, react, [], e, 0)
    ensures var n := |e.calls|;
            && n > 0
            && (forall i :: 0 <= i < n - 1 ==> NextCalled(l, react, e.calls, i))
            && (e.Ended? <==> forall i :: 0 <= i < n ==> SparesWaiting(l, react, e.calls, i))
            && (e.Ended? <==> Waiting(l, react, e.calls, n - 1) == [])
  {
    var none: seq<Connection> := [];
    assert none + e.calls == e.calls;
    var calls := e.calls;
    assert calls[..|calls|] == calls;
    forall i | 0 <= i < |calls| - 1 ensures SparesWaiting(l, react, calls, i) {
      assert NextCalled(l, react, calls, i);
    }
    assert LastCalled(l, react, calls, e);
    assert SparesWaiting(l, react, calls, |calls| - 1) <==> e.Ended?;
  }

  /** Call `i` does not remove the connection that is next when it is made. */
  ghost predicate SparesWaiting(l: seq<Connection>, react: nat -> Reaction, calls: seq<Connection>, i: nat)
    requires i < |calls|
  {
    var w := Waiting(l, react, calls[..i + 1], i);
    w != [] ==> w[0] !in react(i).removed
  }

  // ---------------------------------------------------------------- handlers that remove none further ahead

  /** The connections an emission calls when no call is prevented: those present at the start and those
      added by all handlers but the last. */
  ghost function ToCall(rest: seq<Connection>, react: nat -> Reaction, k: nat, bound: nat): (l: seq<Connection>)
    requires QuietFrom(react, bound)
    ensures rest <= l
    decreases CallsWithAdditions(bound, k), |rest|
  {
    if |rest| <= 1 then rest else [rest[0]] + ToCall(rest[1..] + react(k).added, react, k + 1, bound)
  }

  lemma {:induction false} ToCallAre(rest: seq<Connection>, react: nat -> Reaction, k: nat, bound: nat)
    requires QuietFrom(react, bound) && rest != []
    ensures var l := ToCall(rest, react, k, bound); l == rest + AddedBy(react, k, |l| - 1)
    decreases CallsWithAdditions(bound, k), |rest|
  {
    if |rest| > 1 {
      var added := react(k).added;
      var rest' := rest[1..] + added;
      var l' := ToCall(rest', react, k + 1, bound);
      ToCallAre(rest', react, k + 1, bound);
      JoinedCalls(rest, added, AddedBy(react, k + 1, |l'| - 1));
    }
  }

  lemma JoinedCalls(rest: seq<Connection>, added: seq<Connection>, more: seq<Connection>)
    requires rest != []
    ensures [rest[0]] + (rest[1..] + added + more) == rest + (added + more)
  {
  }

  /** What the i-th call from the k-th on removes. */
  function RemovedBy(react: nat -> Reaction, k: nat, i: nat): set<Connection> { react(k + i).removed }

  /** No handler removes a connection that is called after the next one. */
  ghost predicate RemovesNoFurther(l: seq<Connection>, react: nat -> Reaction, k: nat) {
    forall i, j :: 0 <= i && i + 2 <= j < |l| ==> l[j] !in RemovedBy(react, k, i)
  }

  ghost predicate SparesNext(l: seq<Connection>, react: nat -> Reaction, k: nat) {
    forall i :: 1 <= i < |l| ==> l[i] !in RemovedBy(react, k, i - 1)
  }

  lemma {:induction false} KeptAll(l: seq<Connection>, gone: set<Connection>)
    requires forall c :: c in l ==> c !in gone
    ensures Kept(l, gone) == l
  {
    if l != [] {
      KeptAll(l[1..], gone);
    }
  }

  lemma ShiftedCalls(l: seq<Connection>, react: nat -> Reaction, k: nat)
    requires |l| > 1 && RemovesNoFurther(l, react, k)
    ensures RemovesNoFurther(l[1..], react, k + 1)
    ensures SparesNext(l, react, k) <==> l[1] !in react(k).removed && SparesNext(l[1..], react, k + 1)
  {
    var l', k' := l[1..], k + 1;
    forall i, j | 0 <= i && i + 2 <= j < |l'| ensures l'[j] !in RemovedBy(react, k', i) {
      assert l[j + 1] !in RemovedBy(react, k, i + 1);
    }
    if l[1] !in react(k).removed && SparesNext(l', react, k + 1) {
      forall i | 1 <= i < |l| ensures l[i] !in RemovedBy(react, k, i - 1) {
        assert i > 1 ==> l'[i - 1] !in RemovedBy(react, k + 1, i - 2);
      }
    }
    if SparesNext(l, react, k) {
      assert l[1] !in RemovedBy(react, k, 0);
      forall i | 1 <= i < |l'| ensures l'[i] !in RemovedBy(react, k + 1, i - 1) {
        assert l[i + 1] !in RemovedBy(react, k, i);
      }
    }
  }

  /** The next turn of an emission in which no handler removes a connection beyond the next one. */
  lemma NextTurn(before: seq<Connection>, rest: seq<Connection>, react: nat -> Reaction, k: nat, bound: nat)
    requires QuietFrom(react, bound) && |rest| > 1 && rest[1] !in react(k).removed
    requires RemovesNoFurther(ToCall(rest, react, k, bound), react, k)
    ensures var r := react(k);
            Emitted(before, rest, react, k, bound)
            == AfterCalls([rest[0]], Emitted(Kept(before + [rest[0]], r.removed), rest[1..] + r.added, react, k + 1, bound))
  {
    var r, l := react(k), ToCall(rest, react, k, bound);
    forall j | 1 <= j < |rest| ensures rest[j] !in r.removed {
      assert j >= 2 ==> l[j] !in RemovedBy(react, k, 0);
    }
    KeptAll(rest[1..], r.removed);
    EmitStep(before, rest, react, k, bound);
  }

  /** When no handler removes a connection called after the next one, emitting comes to its end exactly
      when none removes the next one, and has then called, in order, every connection present at the
      start and every one added by a handler but the last. */
  lemma {:induction false} EmitCallsAll(before: seq<Connection>, rest: seq<Connection>, react: nat -> Reaction, k: nat, bound: nat)
    requires QuietFrom(react, bound) && RemovesNoFurther(ToCall(rest, react, k, bound), react, k)
    ensures Emitted(before, rest, react, k, bound).Ended? <==> SparesNext(ToCall(rest, react, k, bound), react, k)
    ensures SparesNext(ToCall(rest, react, k, bound), react, k) ==>
              Emitted(before, rest, react, k, bound).calls == ToCall(rest, react, k, bound)
    decreases CallsWithAdditions(bound, k), |rest|
  {
    if |rest| > 1 {
      var r, l := react(k), ToCall(rest, react, k, bound);
      assert l[1] == rest[1] && l[1..] == ToCall(rest[1..] + r.added, react, k + 1, bound);
      ShiftedCalls(l, react, k);
      if rest[1] !in r.removed {
        NextTurn(before, rest, react, k, bound);
        EmitCallsAll(Kept(before + [rest[0]], r.removed), rest[1..] + r.added, react, k + 1, bound);
      }
    }
  }

  /** The same for an emission from the start of the list: it calls each connection once when those
      added are new. */
  lemma EmitCallsEachOnce(l: seq<Connection>, react: nat -> Reaction, bound: nat)
    requires QuietFrom(react, bound) && l != [] && Distinct(l + AddedBy(react, 0, |ToCall(l, react, 0, bound)| - 1))
    requires RemovesNoFurther(ToCall(l, react, 0, bound), react, 0)
    ensures var e := Emitted([], l, react, 0, bound);
            && (e.Ended? <==> SparesNext(ToCall(l, react, 0, bound), react, 0))
            && (e.Ended? ==> Distinct(e.calls) && e.calls == l + AddedBy(react, 0, |e.calls| - 1))
  {
    EmitCallsAll([], l, react, 0, bound);
    ToCallAre(l, react, 0, bound);
  }

  /** Handlers that remove at most the connection they are called by. */
  ghost predicate RemoveThemselves(l: seq<Connection>, react: nat -> Reaction, k: nat) {
    forall i :: 0 <= i < |l| ==> RemovedBy(react, k, i) <= {l[i]}
  }

  /** The called connections whose handlers did not remove them. */
  function Keepers(l: seq<Connection>, react: nat -> Reaction, k: nat): seq<Connection> {
    if l == [] then []
    else if l[0] in react(k).removed then Keepers(l[1..], react, k + 1)
    else [l[0]] + Keepers(l[1..], react, k + 1)
  }

  lemma RemovesItself(before: seq<Connection>, c: Connection, gone: set<Connection>)
    requires gone <= {c} && c !in before
    ensures Kept(before + [c], gone) == if c in gone then before else before + [c]
  {
    KeptAll(before, gone);
    KeptAppend(before, c, gone);
  }

  /** When handlers remove at most their own connection, the list is left with those called whose
      handlers did not, followed by what the last handler added. */
  lemma {:induction false} EmitLeaves(before: seq<Connection>, rest: seq<Connection>, react: nat -> Reaction, k: nat, bound: nat)
    requires QuietFrom(react, bound) && rest != []
    requires var l := ToCall(rest, react, k, bound);
             Distinct(l) && (forall c :: c in l ==> c !in before) && RemoveThemselves(l, react, k)
    ensures var l := ToCall(rest, react, k, bound);
            Emitted(before, rest, react, k, bound) == Ended(l, before + Keepers(l, react, k) + react(k + |l| - 1).added)
    decreases CallsWithAdditions(bound, k), |rest|
  {
    var l := ToCall(rest, react, k, bound);
    if |rest| == 1 {
      LastLeaves(before, rest[0], react, k, bound);
      assert rest == [rest[0]] == l;
    } else {
      var rest' := rest[1..] + react(k).added;
      var before' := FirstLeaves(before, rest, l, react, k, bound);
      EmitLeaves(before', rest', react, k + 1, bound);
      assert [l[0]] + l[1..] == l;
    }
  }

  lemma LastLeaves(before: seq<Connection>, c: Connection, react: nat -> Reaction, k: nat, bound: nat)
    requires QuietFrom(react, bound) && c !in before && RemoveThemselves([c], react, k)
    ensures Emitted(before, [c], react, k, bound) == Ended([c], before + Keepers([c], react, k) + react(k).added)
  {
    assert RemovedBy(react, k, 0) <= {[c][0]};
    RemovesItself(before, c, react(k).removed);
    OneKeeper(before, c, react, k);
    EmitStep(before, [c], react, k, bound);
  }

  lemma OneKeeper(before: seq<Connection>, c: Connection, react: nat -> Reaction, k: nat)
    ensures before + Keepers([c], react, k) == if c in react(k).removed then before else before + [c]
  {
    var none: seq<Connection> := [];
    assert [c][1..] == none && before + none == before && Keepers(none, react, k + 1) == none;
  }

  lemma FirstLeaves(before: seq<Connection>, rest: seq<Connection>, l: seq<Connection>, react: nat -> Reaction, k: nat, bound: nat)
    returns (before': seq<Connection>)
    requires QuietFrom(react, bound) && |rest| > 1 && l == ToCall(rest, react, k, bound)
    requires Distinct(l) && (forall c :: c in l ==> c !in before) && RemoveThemselves(l, react, k)
    ensures l[1..] == ToCall(rest[1..] + react(k).added, react, k + 1, bound)
    ensures Distinct(l[1..]) && (forall c :: c in l[1..] ==> c !in before') && RemoveThemselves(l[1..], react, k + 1)
    ensures Emitted(before, rest, react, k, bound)
         == AfterCalls([l[0]], Emitted(before', rest[1..] + react(k).added, react, k + 1, bound))
    ensures before' + Keepers(l[1..], react, k + 1) == before + Keepers(l, react, k)
  {
    var r := react(k);
    assert RemovedBy(react, k, 0) <= {l[0]};
    before' := Kept(before + [l[0]], r.removed);
    RemovesItself(before, l[0], r.removed);
    KeepersStep(before, l, react, k, before');
    OwnRemovals(l, react, k);
    assert l[0] == rest[0] && l[1] == rest[1] && l[1..] == ToCall(rest[1..] + r.added, react, k + 1, bound);
    NextTurn(before, rest, react, k, bound);
  }

  lemma OwnRemovals(l: seq<Connection>, react: nat -> Reaction, k: nat)
    requires |l| > 1 && Distinct(l) && RemoveThemselves(l, react, k)
    ensures RemovesNoFurther(l, react, k) && l[1] !in react(k).removed
    ensures Distinct(l[1..]) && RemoveThemselves(l[1..], react, k + 1) && l[0] !in l[1..]
  {
    assert RemovedBy(react, k, 0) <= {l[0]};
    var l' := l[1..];
    forall i | 0 <= i < |l'| ensures RemovedBy(react, k + 1, i) <= {l'[i]} {
      assert RemovedBy(react, k, i + 1) <= {l[i + 1]};
    }
  }

  lemma KeepersStep(before: seq<Connection>, l: seq<Connection>, react: nat -> Reaction, k: nat, before': seq<Connection>)
    requires l != [] && before' == (if l[0] in react(k).removed then before else before + [l[0]])
    ensures before' + Keepers(l[1..], react, k + 1) == before + Keepers(l, react, k)
  {
    if l[0] !in react(k).removed {
      Regroup(before, [l[0]], Keepers(l[1..], react, k + 1));
    }
  }

  lemma {:induction false} KeptAppend(l: seq<Connection>, c: Connection, gone: set<Connection>)
    ensures Kept(l + [c], gone) == if c in gone then Kept(l, gone) else Kept(l, gone) + [c]
  {
    if l == [] {
      assert l + [c] == [c];
    } else {
      assert (l + [c])[1..] == l[1..] + [c];
      KeptAppend(l[1..], c, gone);
    }
  }
}
