/** What every run of signal and object operations keeps. */
module SigSlotRuns {
  import opened SigSlot

  datatype Op =
    | NewSignal(s: Signal)
    | NewObject(o: HasSlots)
    | CopySignal(s: Signal, copy: Signal)
    | CopyObject(o: HasSlots, target: HasSlots)
    | Connect(s: Signal, o: HasSlots, slot: nat)
    | Disconnect(s: Signal, o: HasSlots)
    | DisconnectSignal(s: Signal)
    | DisconnectObject(o: HasSlots)
    | DestroySignal(s: Signal)
    | DestroyObject(o: HasSlots)

  const EMPTY := Graph(map[], map[])

  /** Both ends an operation names exist, and new objects stand where no other does.  An address
      may be used again after its object is destroyed. */
  ghost predicate Named(g: Graph, op: Op) {
    match op
    case NewSignal(s) => s !in g.links
    case NewObject(o) => o !in g.senders
    case CopySignal(s, copy) => s in g.links && copy !in g.links
    case CopyObject(o, target) => o in g.senders && target !in g.senders
    case Connect(s, o, _) => s in g.links && o in g.senders
    case Disconnect(s, o) => s in g.links && o in g.senders
    case DisconnectSignal(s) => s in g.links
    case DisconnectObject(o) => o in g.senders
    case DestroySignal(s) => s in g.links
    case DestroyObject(o) => o in g.senders
  }

  /** No operation follows a link to something destroyed. */
  ghost predicate FollowsLive(g: Graph, op: Op) {
    match op
    case CopySignal(s, _) => Live(g, s)
    case DisconnectSignal(s) => Live(g, s)
    case DestroySignal(s) => Live(g, s)
    case CopyObject(o, _) => o in g.senders ==> g.senders[o] <= g.links.Keys
    case DisconnectObject(o) => o in g.senders ==> g.senders[o] <= g.links.Keys
    case DestroyObject(o) => o in g.senders ==> g.senders[o] <= g.links.Keys
    case _ => true
  }

  ghost function Applied(g: Graph, op: Op): Graph
    requires Named(g, op)
  {
    match op
    case NewSignal(s) => Graph(g.links[s := []], g.senders)
    case NewObject(o) => Graph(g.links, g.senders[o := {}])
    case CopySignal(s, copy) => SignalCopied(g, s, copy)
    case CopyObject(o, target) => ObjectCopied(g, o, target)
    case Connect(s, o, slot) => Connected(g, s, o, slot)
    case Disconnect(s, o) => Disconnected(g, s, o)
    case DisconnectSignal(s) => SignalDisconnected(g, s)
    case DisconnectObject(o) => ObjectDisconnected(g, o)
    case DestroySignal(s) => var d := SignalDisconnected(g, s); Graph(d.links - {s}, d.senders)
    case DestroyObject(o) => var d := ObjectDisconnected(g, o); Graph(d.links, d.senders - {o})
  }

  ghost predicate Runs(g: Graph, ops: seq<Op>)
    decreases |ops|
  {
    ops == [] || (Named(g, ops[0]) && FollowsLive(g, ops[0]) && Runs(Applied(g, ops[0]), ops[1..]))
  }

  ghost function Final(g: Graph, ops: seq<Op>): Graph
    requires Runs(g, ops)
    decreases |ops|
  {
    if ops == [] then g else Final(Applied(g, ops[0]), ops[1..])
  }

  // ---------------------------------------------------------------- lists of links

  lemma LinkedAppend(a: seq<Link>, b: seq<Link>, o: HasSlots)
    ensures LinkedTo(a + b, o) <==> LinkedTo(a, o) || LinkedTo(b, o)
  {
    if LinkedTo(a, o) {
      var i :| 0 <= i < |a| && a[i].dest == o;
      assert (a + b)[i].dest == o;
    }
    if LinkedTo(b, o) {
      var i :| 0 <= i < |b| && b[i].dest == o;
      assert (a + b)[|a| + i].dest == o;
    }
  }

  lemma LinkedFirst(links: seq<Link>, o: HasSlots)
    requires links != []
    ensures LinkedTo(links, o) <==> links[0].dest == o || LinkedTo(links[1..], o)
  {
    assert links == [links[0]] + links[1..];
    LinkedAppend([links[0]], links[1..], o);
    assert LinkedTo([links[0]], o) ==> links[0].dest == o;
    assert links[0].dest == o ==> [links[0]][0].dest == o;
  }

  lemma {:induction false} LinkedCount(links: seq<Link>, o: HasSlots)
    ensures LinkedTo(links, o) <==> Count(links, o) > 0
  {
    if links != [] {
      LinkedFirst(links, o);
      LinkedCount(links[1..], o);
    }
  }

  lemma {:induction false} CountAppend(a: seq<Link>, b: seq<Link>, o: HasSlots)
    ensures Count(a + b, o) == Count(a, o) + Count(b, o)
  {
    if a == [] {
      assert a + b == b;
    } else {
      assert (a + b)[1..] == a[1..] + b;
      CountAppend(a[1..], b, o);
    }
  }

  lemma {:induction false} WithoutCount(links: seq<Link>, o: HasSlots, p: HasSlots)
    ensures Count(Without(links, o), p) == if p == o then 0 else Count(links, p)
  {
    if links != [] {
      WithoutCount(links[1..], o, p);
      if links[0].dest != o {
        CountAppend([links[0]], Without(links[1..], o), p);
        assert Count([links[0]], p) == (if links[0].dest == p then 1 else 0) + Count([], p);
      }
    }
  }

  lemma {:induction false} FirstRemovedCount(links: seq<Link>, o: HasSlots, p: HasSlots)
    ensures Count(FirstRemoved(links, o), p) == if p == o && LinkedTo(links, o) then Count(links, p) - 1 else Count(links, p)
  {
    LinkedCount(links, o);
    if links != [] && links[0].dest != o {
      LinkedFirst(links, o);
      FirstRemovedCount(links[1..], o, p);
      CountAppend([links[0]], FirstRemoved(links[1..], o), p);
      assert Count([links[0]], p) == (if links[0].dest == p then 1 else 0) + Count([], p);
    }
  }

  lemma {:induction false} DuplicatesCount(links: seq<Link>, source: HasSlots, target: HasSlots, p: HasSlots)
    ensures Count(Duplicates(links, source, target), p) == if p == target then Count(links, source) else 0
  {
    if links != [] {
      var d := Link(target, links[0].slot);
      DuplicatesCount(links[1..], source, target, p);
      CountAppend([d], Duplicates(links[1..], source, target), p);
      assert Count([d], p) == (if target == p then 1 else 0) + Count([], p);
    }
  }

  /** How often each signal is linked to each object after an operation. */
  ghost function Times(g: Graph, s: Signal, o: HasSlots): nat {
    if s in g.links then Count(g.links[s], o) else 0
  }

  ghost predicate Sends(g: Graph, s: Signal, o: HasSlots) {
    o in g.senders && s in g.senders[o]
  }

  ghost function TimesAfter(g: Graph, op: Op, s: Signal, o: HasSlots): int
    requires Named(g, op)
  {
    match op
    case NewSignal(_) => Times(g, s, o)
    case NewObject(_) => Times(g, s, o)
    case CopySignal(from, copy) => Times(g, if s == copy then from else s, o)
    case CopyObject(from, target) => Times(g, s, o) + if o == target && Sends(g, s, from) then Times(g, s, from) else 0
    case Connect(s', o', _) => Times(g, s, o) + if s == s' && o == o' then 1 else 0
    case Disconnect(s', o') => Times(g, s, o) - if s == s' && o == o' && Times(g, s, o) > 0 then 1 else 0
    case DisconnectSignal(s') => if s == s' then 0 else Times(g, s, o)
    case DestroySignal(s') => if s == s' then 0 else Times(g, s, o)
    case DisconnectObject(o') => if o == o' && Sends(g, s, o') then 0 else Times(g, s, o)
    case DestroyObject(o') => if o == o' && Sends(g, s, o') then 0 else Times(g, s, o)
  }

  lemma TimesApplied(g: Graph, op: Op, s: Signal, o: HasSlots)
    requires Named(g, op)
    ensures Times(Applied(g, op), s, o) == TimesAfter(g, op, s, o)
  {
    match op
    case CopyObject(from, target) => CopyTimes(g, s, o, from, target);
    case Connect(s', o', slot) =>
      if s == s' {
        CountAppend(g.links[s], [Link(o', slot)], o);
        assert Count([Link(o', slot)], o) == (if o' == o then 1 else 0) + Count([], o);
      }
    case Disconnect(s', o') =>
      LinkedCount(g.links[s'], o');
      FirstRemovedCount(g.links[s'], o', o);
    case DisconnectObject(o') => if s in g.links { WithoutCount(g.links[s], o', o); }
    case DestroyObject(o') => if s in g.links { WithoutCount(g.links[s], o', o); }
    case _ =>
  }

  lemma CopyTimes(g: Graph, s: Signal, o: HasSlots, from: HasSlots, target: HasSlots)
    requires Named(g, CopyObject(from, target))
    ensures Times(Applied(g, CopyObject(from, target)), s, o) == TimesAfter(g, CopyObject(from, target), s, o)
  {
    if s in g.links {
      CountAppend(g.links[s], Duplicates(g.links[s], from, target), o);
      DuplicatesCount(g.links[s], from, target, o);
    }
  }

  ghost predicate SendsAfter(g: Graph, op: Op, s: Signal, o: HasSlots)
    requires Named(g, op)
  {
    match op
    case NewSignal(_) => Sends(g, s, o)
    case NewObject(o') => Sends(g, s, o)
    case CopySignal(from, copy) => Sends(g, s, o) || (o in g.senders && s == copy && Times(g, from, o) > 0)
    case CopyObject(from, target) => Sends(g, s, if o == target then from else o)
    case Connect(s', o', _) => Sends(g, s, o) || (s == s' && o == o')
    case Disconnect(s', o') => Sends(g, s, o) && !(s == s' && o == o' && Times(g, s, o) > 0)
    case DisconnectSignal(s') => Sends(g, s, o) && !(s == s' && Times(g, s, o) > 0)
    case DestroySignal(s') => Sends(g, s, o) && !(s == s' && Times(g, s, o) > 0)
    case DisconnectObject(o') => Sends(g, s, o) && o != o'
    case DestroyObject(o') => Sends(g, s, o) && o != o'
  }

  lemma SendsApplied(g: Graph, op: Op, s: Signal, o: HasSlots)
    requires Named(g, op)
    ensures Sends(Applied(g, op), s, o) <==> SendsAfter(g, op, s, o)
  {
    match op
    case CopySignal(from, _) => LinkedCount(g.links[from], o);
    case Disconnect(s', o') => LinkedCount(g.links[s'], o');
    case DisconnectSignal(s') => LinkedCount(g.links[s'], o);
    case DestroySignal(s') => LinkedCount(g.links[s'], o);
    case _ =>
  }

  // ---------------------------------------------------------------- the links agree

  /** A signal in an object's senders has a connection to that object. */
  ghost predicate Sound(g: Graph) {
    forall o, s :: o in g.senders && s in g.senders[o] ==> Times(g, s, o) > 0
  }

  /** A connection goes to an object that has the signal in its senders. */
  ghost predicate Complete(g: Graph) {
    forall s, i :: s in g.links && 0 <= i < |g.links[s]| ==> Sends(g, s, g.links[s][i].dest)
  }

  lemma CompleteIffCounted(g: Graph)
    ensures Complete(g) <==> forall s: Signal, o: HasSlots :: Times(g, s, o) > 0 ==> Sends(g, s, o)
  {
    forall s: Signal, o: HasSlots | Complete(g) && Times(g, s, o) > 0 ensures Sends(g, s, o) {
      LinkedCount(g.links[s], o);
    }
    forall s: Signal, i | s in g.links && 0 <= i < |g.links[s]| ensures Times(g, s, g.links[s][i].dest) > 0 {
      LinkedCount(g.links[s], g.links[s][i].dest);
    }
  }

  lemma SoundKept(g: Graph, op: Op)
    requires Sound(g) && Named(g, op)
    ensures Sound(Applied(g, op))
  {
    forall s: Signal, o: HasSlots | Sends(Applied(g, op), s, o) ensures Times(Applied(g, op), s, o) > 0 {
      SendsApplied(g, op, s, o);
      TimesApplied(g, op, s, o);
    }
  }

  /** Disconnecting is the one operation that can leave a connection its object does not know of,
      and it does so exactly when the pair was connected more than once. */
  lemma CompleteKeptIff(g: Graph, op: Op)
    requires Sound(g) && Complete(g) && Named(g, op)
    ensures Complete(Applied(g, op)) <==> !(op.Disconnect? && Times(g, op.s, op.o) > 1)
  {
    var g' := Applied(g, op);
    CompleteIffCounted(g);
    CompleteIffCounted(g');
    if op.Disconnect? && Times(g, op.s, op.o) > 1 {
      TimesApplied(g, op, op.s, op.o);
      SendsApplied(g, op, op.s, op.o);
    } else {
      forall s: Signal, o: HasSlots | Times(g', s, o) > 0 ensures Sends(g', s, o) {
        TimesApplied(g, op, s, o);
        SendsApplied(g, op, s, o);
      }
    }
  }

  /** While the links agree, no operation follows a link to something destroyed. */
  lemma NothingDangles(g: Graph, op: Op)
    requires Sound(g) && Complete(g) && Named(g, op)
    ensures FollowsLive(g, op)
  {
    forall s: Signal, l: Link | s in g.links && l in g.links[s] ensures l.dest in g.senders {
      var i :| 0 <= i < |g.links[s]| && g.links[s][i] == l;
      LinkedCount(g.links[s], l.dest);
      assert Times(g, s, l.dest) > 0;
    }
    forall s: Signal, o: HasSlots | o in g.senders && s in g.senders[o] ensures s in g.links {
      assert Sends(g, s, o);
    }
  }

  /** No pair is disconnected while it is connected more than once. */
  ghost predicate Careful(g: Graph, ops: seq<Op>)
    requires Runs(g, ops)
    decreases |ops|
  {
    ops == [] || (!(ops[0].Disconnect? && Times(g, ops[0].s, ops[0].o) > 1) && Careful(Applied(g, ops[0]), ops[1..]))
  }

  lemma {:induction false} LinksAgreeFrom(g: Graph, ops: seq<Op>)
    requires Sound(g) && Runs(g, ops)
    ensures Sound(Final(g, ops))
    ensures Complete(g) && Careful(g, ops) ==> Complete(Final(g, ops))
    decreases |ops|
  {
    if ops != [] {
      SoundKept(g, ops[0]);
      if Complete(g) {
        CompleteKeptIff(g, ops[0]);
      }
      LinksAgreeFrom(Applied(g, ops[0]), ops[1..]);
    }
  }

  /** In every run, a signal in an object's senders has a connection to it, and the converse too
      when no pair is disconnected while connected more than once. */
  lemma LinksAgree(ops: seq<Op>)
    requires Runs(EMPTY, ops)
    ensures Sound(Final(EMPTY, ops)) && (Careful(EMPTY, ops) ==> Complete(Final(EMPTY, ops)))
  {
    LinksAgreeFrom(EMPTY, ops);
  }

  /** Only unconnected pairs are connected. */
  ghost predicate ConnectsOnce(g: Graph, ops: seq<Op>)
    requires Runs(g, ops)
    decreases |ops|
  {
    ops == [] || ((ops[0].Connect? ==> Times(g, ops[0].s, ops[0].o) == 0) && ConnectsOnce(Applied(g, ops[0]), ops[1..]))
  }

  ghost predicate Single(g: Graph) {
    forall s, i :: s in g.links && 0 <= i < |g.links[s]| ==> Times(g, s, g.links[s][i].dest) <= 1
  }

  lemma SingleIffCounted(g: Graph)
    ensures Single(g) <==> forall s: Signal, o: HasSlots :: Times(g, s, o) <= 1
  {
    forall s: Signal, o: HasSlots | Single(g) && s in g.links ensures Times(g, s, o) <= 1 {
      LinkedCount(g.links[s], o);
    }
  }

  lemma SingleKept(g: Graph, op: Op)
    requires Sound(g) && Complete(g) && Single(g) && Named(g, op) && (op.Connect? ==> Times(g, op.s, op.o) == 0)
    ensures Single(Applied(g, op))
  {
    SingleIffCounted(g);
    SingleIffCounted(Applied(g, op));
    CompleteIffCounted(g);
    forall s: Signal, o: HasSlots ensures Times(Applied(g, op), s, o) <= 1 {
      TimesApplied(g, op, s, o);
      if op.CopyObject? && o == op.target {
        assert !Sends(g, s, o);
      }
    }
  }

  lemma {:induction false} OnceIsCarefulFrom(g: Graph, ops: seq<Op>)
    requires Sound(g) && Complete(g) && Single(g) && Runs(g, ops) && ConnectsOnce(g, ops)
    ensures Careful(g, ops)
    decreases |ops|
  {
    if ops != [] {
      SoundKept(g, ops[0]);
      CompleteKeptIff(g, ops[0]);
      SingleKept(g, ops[0]);
      OnceIsCarefulFrom(Applied(g, ops[0]), ops[1..]);
    }
  }

  /** When each pair is connected at most once at a time, copies included, the links always agree. */
  lemma LinksAgreeWhenSingle(ops: seq<Op>)
    requires Runs(EMPTY, ops) && ConnectsOnce(EMPTY, ops)
    ensures Sound(Final(EMPTY, ops)) && Complete(Final(EMPTY, ops))
  {
    OnceIsCarefulFrom(EMPTY, ops);
    LinksAgree(ops);
  }

  /** A destroyed signal is in no object's senders. */
  lemma DestroyedSignalForgotten(g: Graph, s: Signal, o: HasSlots)
    requires Sound(g) && Named(g, DestroySignal(s))
    ensures !Sends(Applied(g, DestroySignal(s)), s, o)
  {
    SendsApplied(g, DestroySignal(s), s, o);
  }

  /** A destroyed object is called by no signal, exactly when it knew of all its connections. */
  lemma DestroyedObjectUncalled(g: Graph, o: HasSlots)
    requires Named(g, DestroyObject(o))
    ensures (forall s: Signal :: Times(Applied(g, DestroyObject(o)), s, o) == 0)
       <==> (forall s: Signal :: Times(g, s, o) > 0 ==> Sends(g, s, o))
  {
    forall s: Signal ensures Times(Applied(g, DestroyObject(o)), s, o) == if Sends(g, s, o) then 0 else Times(g, s, o) {
      TimesApplied(g, DestroyObject(o), s, o);
    }
  }
}
