/** Signals and slots: the two-way links between signals and the objects they call. */
module SigSlot {
  import opened Sequences

  /** A link of a signal, its identity forgotten. */
  datatype Link = Link(dest: HasSlots, slot: nat)

  class Connection {
    const dest: HasSlots
    const slot: nat

    constructor (dest: HasSlots, slot: nat)
      ensures this.dest == dest && this.slot == slot
    {
      this.dest, this.slot := dest, slot;
    }
  }

  function Links(connections: seq<Connection>): (r: seq<Link>)
    ensures |r| == |connections|
    ensures forall i :: 0 <= i < |r| ==> r[i] == Link(connections[i].dest, connections[i].slot)
  {
    seq(|connections|, i requires 0 <= i < |connections| => Link(connections[i].dest, connections[i].slot))
  }

  ghost function Dests(links: seq<Link>): set<HasSlots> {
    set l | l in links :: l.dest
  }

  predicate LinkedTo(links: seq<Link>, o: HasSlots) {
    exists i :: 0 <= i < |links| && links[i].dest == o
  }

  function Count(links: seq<Link>, o: HasSlots): nat {
    if links == [] then 0 else (if links[0].dest == o then 1 else 0) + Count(links[1..], o)
  }

  /** The list without its first link to `o`. */
  function FirstRemoved(links: seq<Link>, o: HasSlots): seq<Link> {
    if links == [] then [] else if links[0].dest == o then links[1..] else [links[0]] + FirstRemoved(links[1..], o)
  }

  /** The list without any link to `o`. */
  function Without(links: seq<Link>, o: HasSlots): seq<Link> {
    if links == [] then []
    else if links[0].dest == o then Without(links[1..], o)
    else [links[0]] + Without(links[1..], o)
  }

  /** One link to `target` for each link to `source`, in order. */
  function Duplicates(links: seq<Link>, source: HasSlots, target: HasSlots): seq<Link> {
    if links == [] then []
    else if links[0].dest == source then [Link(target, links[0].slot)] + Duplicates(links[1..], source, target)
    else Duplicates(links[1..], source, target)
  }

  // ---------------------------------------------------------------- the whole graph as a value

  datatype Graph = Graph(links: map<Signal, seq<Link>>, senders: map<HasSlots, set<Signal>>)

  ghost function GraphOf(signals: set<Signal>, objects: set<HasSlots>): Graph
    reads signals, objects
  {
    Graph(map s | s in signals :: Links(s.connections), map o | o in objects :: o.senders)
  }

  ghost predicate Live(g: Graph, s: Signal) {
    s in g.links && forall l :: l in g.links[s] ==> l.dest in g.senders
  }

  ghost function Connected(g: Graph, s: Signal, o: HasSlots, slot: nat): Graph
    requires s in g.links && o in g.senders
  {
    Graph(g.links[s := g.links[s] + [Link(o, slot)]], g.senders[o := g.senders[o] + {s}])
  }

  ghost function Disconnected(g: Graph, s: Signal, o: HasSlots): Graph
    requires s in g.links && o in g.senders
  {
    if LinkedTo(g.links[s], o) then
      Graph(g.links[s := FirstRemoved(g.links[s], o)], g.senders[o := g.senders[o] - {s}])
    else g
  }

  ghost function SignalDisconnected(g: Graph, s: Signal): Graph
    requires s in g.links
  {
    Graph(g.links[s := []],
          map o | o in g.senders :: if LinkedTo(g.links[s], o) then g.senders[o] - {s} else g.senders[o])
  }

  ghost function ObjectDisconnected(g: Graph, o: HasSlots): Graph
    requires o in g.senders
  {
    Graph(map s | s in g.links :: if s in g.senders[o] then Without(g.links[s], o) else g.links[s], g.senders[o := {}])
  }

  ghost function SignalCopied(g: Graph, s: Signal, copy: Signal): Graph
    requires s in g.links
  {
    Graph(g.links[copy := g.links[s]],
          map o | o in g.senders :: if LinkedTo(g.links[s], o) then g.senders[o] + {copy} else g.senders[o])
  }

  ghost function ObjectCopied(g: Graph, o: HasSlots, copy: HasSlots): Graph
    requires o in g.senders
  {
    Graph(map s | s in g.links :: if s in g.senders[o] then g.links[s] + Duplicates(g.links[s], o, copy) else g.links[s],
          g.senders[copy := g.senders[o]])
  }

  // ---------------------------------------------------------------- emitting

  /** The connections called and the list left, or the same up to the call after which the next
      iterator stands on a removed node. */
  datatype Emission = Ended(calls: seq<Connection>, left: seq<Connection>) | Dangling(calls: seq<Connection>, left: seq<Connection>)

  function AfterCalls(calls: seq<Connection>, e: Emission): Emission {
    e.(calls := calls + e.calls)
  }

  function Kept(l: seq<Connection>, gone: set<Connection>): (r: seq<Connection>)
    ensures |r| <= |l|
  {
    if l == [] then [] else if l[0] in gone then Kept(l[1..], gone) else [l[0]] + Kept(l[1..], gone)
  }

  /** What a handler does to the list of the signal being emitted: the connections it removes and
      those it adds at the end. */
  datatype Reaction = Reaction(removed: set<Connection>, added: seq<Connection>)

  /** From the call numbered `bound` on, handlers add nothing. */
  ghost predicate QuietFrom(react: nat -> Reaction, bound: nat) {
    forall k :: k >= bound ==> react(k).added == []
  }

  /** What the `n` calls from the k-th on add. */
  function AddedBy(react: nat -> Reaction, k: nat, n: nat): seq<Connection>
    decreases n
  {
    if n == 0 then [] else react(k).added + AddedBy(react, k + 1, n - 1)
  }

  function CallsWithAdditions(bound: nat, k: nat): nat { if k < bound then bound - k else 0 }

  /** Emitting from the iterator at `rest`, the connections `before` being behind it and `k` calls
      being made.  The next iterator is taken before the call: what the last handler adds is not
      called. */
  ghost function Emitted(before: seq<Connection>, rest: seq<Connection>, react: nat -> Reaction, k: nat, bound: nat): Emission
    requires QuietFrom(react, bound)
    decreases CallsWithAdditions(bound, k), |rest|
  {
    if rest == [] then Ended([], before)
    else
      var r := react(k);
      var before', rest' := Kept(before + [rest[0]], r.removed), Kept(rest[1..], r.removed);
      if |rest| == 1 then Ended([rest[0]], before' + r.added)
      else if rest[1] in r.removed then Dangling([rest[0]], before' + rest' + r.added)
      else AfterCalls([rest[0]], Emitted(before', rest' + r.added, react, k + 1, bound))
  }

  lemma EmitStep(before: seq<Connection>, rest: seq<Connection>, react: nat -> Reaction, k: nat, bound: nat)
    requires QuietFrom(react, bound) && rest != []
    ensures var r := react(k);
            var before', rest' := Kept(before + [rest[0]], r.removed), Kept(rest[1..], r.removed);
            Emitted(before, rest, react, k, bound) ==
            if |rest| == 1 then Ended([rest[0]], before' + r.added)
            else if rest[1] in r.removed then Dangling([rest[0]], before' + rest' + r.added)
            else AfterCalls([rest[0]], Emitted(before', rest' + r.added, react, k + 1, bound))
  {
  }

  lemma CallsInTurn(calls: seq<Connection>, c: Connection, e: Emission)
    ensures AfterCalls(calls, AfterCalls([c], e)) == AfterCalls(calls + [c], e)
  {
    assert calls + ([c] + e.calls) == calls + [c] + e.calls;
  }

  // ---------------------------------------------------------------- the two classes

  class HasSlots {
    var senders: set<Signal>

    constructor ()
      ensures senders == {}
    {
      senders := {};
    }

    method SignalConnect(sender: Signal)
      modifies this`senders
      ensures senders == old(senders) + {sender}
    {
      senders := senders + {sender};
    }

    method SignalDisconnect(sender: Signal)
      modifies this`senders
      ensures senders == old(senders) - {sender}
    {
      senders := senders - {sender};
    }

    /** Also the destructor. */
    method DisconnectAll(ghost signals: set<Signal>, ghost objects: set<HasSlots>)
      requires this in objects && senders <= signals
      modifies this`senders, senders`connections
      ensures GraphOf(signals, objects) == ObjectDisconnected(old(GraphOf(signals, objects)), this)
    {
      ghost var before := GraphOf(signals, objects);
      TellSenders();
      senders := {};
      ghost var now := GraphOf(signals, objects);
      assert now.links == ObjectDisconnected(before, this).links;
      assert now.senders == ObjectDisconnected(before, this).senders;
    }

    method TellSenders()
      modifies senders`connections
      ensures forall s :: s in senders ==> Links(s.connections) == Without(old(Links(s.connections)), this)
    {
      var rest := senders;
      while rest != {}
        invariant rest <= senders
        invariant forall s :: s in senders ==>
          Links(s.connections) == if s in rest then old(Links(s.connections)) else Without(old(Links(s.connections)), this)
      {
        var s :| s in rest;
        s.SlotDisconnect(this);
        rest := rest - {s};
      }
    }

    /** The copy constructor. */
    constructor Copy(hs: HasSlots, ghost signals: set<Signal>, ghost objects: set<HasSlots>)
      requires hs in objects && hs.senders <= signals
      modifies hs.senders`connections
      ensures fresh(this)
      ensures GraphOf(signals, objects + {this}) == ObjectCopied(old(GraphOf(signals, objects)), hs, this)
    {
      senders := {};
      new;
      ghost var before := old(GraphOf(signals, objects));
      DuplicateFrom(hs);
      ghost var now := GraphOf(signals, objects + {this});
      assert now.links == ObjectCopied(before, hs, this).links;
      assert now.senders == ObjectCopied(before, hs, this).senders;
    }

    method DuplicateFrom(hs: HasSlots)
      requires hs != this && senders == {}
      modifies this`senders, hs.senders`connections
      ensures senders == hs.senders
      ensures forall s :: s in senders ==>
        Links(s.connections) == old(Links(s.connections)) + Duplicates(old(Links(s.connections)), hs, this)
    {
      var rest := hs.senders;
      while rest != {}
        invariant rest <= hs.senders && senders == hs.senders - rest
        invariant forall s :: s in rest ==> s.connections == old(s.connections)
        invariant forall s :: s in senders ==>
          Links(s.connections) == old(Links(s.connections)) + Duplicates(old(Links(s.connections)), hs, this)
      {
        var s :| s in rest;
        s.SlotDuplicate(hs, this);
        senders := senders + {s};
        rest := rest - {s};
      }
    }
  }

  class Signal {
    var connections: seq<Connection>

    constructor ()
      ensures connections == []
    {
      connections := [];
    }

    method Connect(o: HasSlots, slot: nat, ghost signals: set<Signal>, ghost objects: set<HasSlots>)
      requires this in signals && o in objects
      modifies this`connections, o`senders
      ensures GraphOf(signals, objects) == Connected(old(GraphOf(signals, objects)), this, o, slot)
    {
      ghost var before := GraphOf(signals, objects);
      var c := new Connection(o, slot);
      connections := connections + [c];
      o.SignalConnect(this);
      assert Links(connections) == before.links[this] + [Link(o, slot)];
      ghost var now := GraphOf(signals, objects);
      assert now.links == Connected(before, this, o, slot).links;
      assert now.senders == Connected(before, this, o, slot).senders;
    }

    method Disconnect(o: HasSlots, ghost signals: set<Signal>, ghost objects: set<HasSlots>)
      requires this in signals && o in objects
      modifies this`connections, o`senders
      ensures GraphOf(signals, objects) == Disconnected(old(GraphOf(signals, objects)), this, o)
    {
      ghost var before := GraphOf(signals, objects);
      var found := EraseFirst(o);
      if found {
        o.SignalDisconnect(this);
      }
      ghost var now := GraphOf(signals, objects);
      assert now.links == Disconnected(before, this, o).links;
      assert now.senders == Disconnected(before, this, o).senders;
    }

    /** Ends at the first connection to `o`. */
    method EraseFirst(o: HasSlots) returns (found: bool)
      modifies this`connections
      ensures found <==> LinkedTo(old(Links(connections)), o)
      ensures if found then Links(connections) == FirstRemoved(old(Links(connections)), o) else connections == old(connections)
    {
      ghost var links := Links(connections);
      var i := 0;
      while i < |connections|
        invariant 0 <= i <= |connections| && connections == old(connections)
        invariant forall k :: 0 <= k < i ==> links[k].dest != o
        invariant links[..i] + FirstRemoved(links[i..], o) == FirstRemoved(links, o)
      {
        FirstRemovedStep(links, i, o);
        if connections[i].dest == o {
          connections := connections[..i] + connections[i + 1..];
          assert Links(connections) == links[..i] + links[i + 1..];
          return true;
        }
        i := i + 1;
      }
      return false;
    }

    /** Also the destructor. */
    method DisconnectAll(ghost signals: set<Signal>, ghost objects: set<HasSlots>)
      requires this in signals && Dests(Links(connections)) <= objects
      modifies this`connections, Dests(Links(connections))`senders
      ensures GraphOf(signals, objects) == SignalDisconnected(old(GraphOf(signals, objects)), this)
    {
      ghost var before := GraphOf(signals, objects);
      TellDests();
      connections := [];
      ghost var now := GraphOf(signals, objects);
      assert now.links == SignalDisconnected(before, this).links;
      assert now.senders == SignalDisconnected(before, this).senders;
    }

    method TellDests()
      modifies Dests(Links(connections))`senders
      ensures forall o :: LinkedTo(Links(connections), o) ==> o.senders == old(o.senders) - {this}
    {
      var i := 0;
      while i < |connections|
        invariant 0 <= i <= |connections|
        invariant forall o :: LinkedTo(Links(connections), o) ==>
          o.senders == if LinkedTo(Links(connections)[..i], o) then old(o.senders) - {this} else old(o.senders)
      {
        connections[i].dest.SignalDisconnect(this);
        i := i + 1;
      }
      assert Links(connections)[..|connections|] == Links(connections);
    }

    method SlotDisconnect(o: HasSlots)
      modifies this`connections
      ensures Links(connections) == Without(old(Links(connections)), o)
    {
      var i := 0;
      while i < |connections|
        invariant 0 <= i <= |connections|
        invariant Links(connections)[..i] + Without(Links(connections)[i..], o) == Without(old(Links(connections)), o)
      {
        ghost var links := Links(connections);
        WithoutStep(links, i, o);
        if connections[i].dest == o {
          connections := connections[..i] + connections[i + 1..];
          assert Links(connections) == links[..i] + links[i + 1..];
        } else {
          i := i + 1;
        }
      }
    }

    /** Appends to the list it walks; it comes to an end because the appended connections do not
        call the old target. */
    method SlotDuplicate(source: HasSlots, target: HasSlots)
      requires target != source
      modifies this`connections
      ensures Links(connections) == old(Links(connections)) + Duplicates(old(Links(connections)), source, target)
    {
      var i := 0;
      while i < |connections|
        invariant 0 <= i <= |connections|
        invariant Links(connections) + Duplicates(Links(connections)[i..], source, target)
          == old(Links(connections)) + Duplicates(old(Links(connections)), source, target)
        decreases Count(Links(connections)[i..], source), |connections| - i
      {
        ghost var links := Links(connections);
        assert links[i..][1..] == links[i + 1..];
        if connections[i].dest == source {
          var c := new Connection(target, connections[i].slot);
          connections := connections + [c];
          ghost var extra := Link(target, connections[i].slot);
          assert Links(connections)[i + 1..] == links[i + 1..] + [extra];
          AppendOther(links[i + 1..], extra, source, target);
        }
        i := i + 1;
      }
    }

    /** The copy constructor. */
    constructor Copy(s: Signal, ghost signals: set<Signal>, ghost objects: set<HasSlots>)
      requires s in signals && Dests(Links(s.connections)) <= objects
      modifies Dests(Links(s.connections))`senders
      ensures fresh(this)
      ensures GraphOf(signals + {this}, objects) == SignalCopied(old(GraphOf(signals, objects)), s, this)
    {
      connections := [];
      new;
      ghost var before := old(GraphOf(signals, objects));
      CloneFrom(s);
      ghost var now := GraphOf(signals + {this}, objects);
      assert now.links == SignalCopied(before, s, this).links;
      assert now.senders == SignalCopied(before, s, this).senders;
    }

    /** Calls every connection; `react(k)` is what the k-th call does to the list.  The list's iterators
        survive all removals but that of the node they stand on. */
    method Emit(react: nat -> Reaction, ghost bound: nat) returns (r: Emission)
      requires QuietFrom(react, bound) && Distinct(connections)
      modifies this`connections
      ensures r == Emitted([], old(connections), react, 0, bound)
      ensures connections == r.left
    {
      ghost var whole := Emitted([], connections, react, 0, bound);
      var calls: seq<Connection> := [];
      var i := 0;
      EmitBegins(connections, react, bound);
      while i < |connections|
        invariant 0 <= i <= |connections|
        invariant whole == AfterCalls(calls, Emitted(connections[..i], connections[i..], react, |calls|, bound))
        decreases CallsWithAdditions(bound, |calls|), |connections| - i
      {
        var it, reaction := connections[i], react(|calls|);
        var last := i + 1 == |connections|;
        var next := connections[if last then i else i + 1];
        EmitTurn(connections, i, calls, react, bound);
        var head, tail := Kept(connections[..i + 1], reaction.removed), Kept(connections[i + 1..], reaction.removed);
        calls := calls + [it];
        connections := head + tail + reaction.added;
        if last {
          return Ended(calls, connections);
        }
        if next in reaction.removed {
          return Dangling(calls, connections);
        }
        i := |head|;
        SplitAfter(head, tail, reaction.added);
      }
      EmitEnds(connections, calls, react, bound);
      return Ended(calls, connections);
    }

    method CloneFrom(s: Signal)
      requires s != this && connections == []
      modifies this`connections, Dests(Links(s.connections))`senders
      ensures Links(connections) == Links(s.connections)
      ensures forall o :: LinkedTo(Links(s.connections), o) ==> o.senders == old(o.senders) + {this}
    {
      var i := 0;
      while i < |s.connections|
        invariant 0 <= i <= |s.connections|
        invariant Links(connections) == Links(s.connections)[..i]
        invariant forall o :: LinkedTo(Links(s.connections), o) ==>
          o.senders == if LinkedTo(Links(s.connections)[..i], o) then old(o.senders) + {this} else old(o.senders)
      {
        s.connections[i].dest.SignalConnect(this);
        var c := new Connection(s.connections[i].dest, s.connections[i].slot);
        connections := connections + [c];
        i := i + 1;
      }
      assert Links(s.connections)[..|s.connections|] == Links(s.connections);
    }
  }

  lemma EmitBegins(l: seq<Connection>, react: nat -> Reaction, bound: nat)
    requires QuietFrom(react, bound)
    ensures Emitted([], l, react, 0, bound) == AfterCalls([], Emitted(l[..0], l[0..], react, 0, bound))
  {
    var e := Emitted([], l, react, 0, bound);
    assert l[..0] == [] && l[0..] == l && [] + e.calls == e.calls;
  }

  lemma EmitEnds(l: seq<Connection>, calls: seq<Connection>, react: nat -> Reaction, bound: nat)
    requires QuietFrom(react, bound)
    ensures AfterCalls(calls, Emitted(l[..|l|], l[|l|..], react, |calls|, bound)) == Ended(calls, l)
  {
    assert l[..|l|] == l && l[|l|..] == [] && calls + [] == calls;
  }

  lemma SplitAfter(head: seq<Connection>, tail: seq<Connection>, added: seq<Connection>)
    ensures var l := head + tail + added; l[..|head|] == head && l[|head|..] == tail + added
  {
  }

  /** One turn of the loop at position `i`. */
  lemma EmitTurn(l: seq<Connection>, i: nat, calls: seq<Connection>, react: nat -> Reaction, bound: nat)
    requires QuietFrom(react, bound) && i < |l|
    ensures var r, k := react(|calls|), |calls|;
            var head, tail := Kept(l[..i + 1], r.removed), Kept(l[i + 1..], r.removed);
            AfterCalls(calls, Emitted(l[..i], l[i..], react, k, bound)) ==
            if i + 1 == |l| then Ended(calls + [l[i]], head + tail + r.added)
            else if l[i + 1] in r.removed then Dangling(calls + [l[i]], head + tail + r.added)
            else AfterCalls(calls + [l[i]], Emitted(head, tail + r.added, react, k + 1, bound))
  {
    var r := react(|calls|);
    var head, tail := Kept(l[..i + 1], r.removed), Kept(l[i + 1..], r.removed);
    assert l[..i] + [l[i..][0]] == l[..i + 1] && l[i..][1..] == l[i + 1..];
    EmitStep(l[..i], l[i..], react, |calls|, bound);
    if i + 1 == |l| {
      assert tail == [] && head + [] == head;
    } else if l[i + 1] !in r.removed {
      CallsInTurn(calls, l[i], Emitted(head, tail + r.added, react, |calls| + 1, bound));
    }
  }

  lemma FirstRemovedStep(links: seq<Link>, i: nat, o: HasSlots)
    requires i < |links|
    ensures links[i].dest == o ==> links[..i] + FirstRemoved(links[i..], o) == links[..i] + links[i + 1..]
    ensures links[i].dest != o ==> links[..i + 1] + FirstRemoved(links[i + 1..], o) == links[..i] + FirstRemoved(links[i..], o)
  {
    assert links[i..][1..] == links[i + 1..];
    assert links[..i + 1] == links[..i] + [links[i]];
  }

  lemma WithoutStep(links: seq<Link>, i: nat, o: HasSlots)
    requires i < |links|
    ensures var shorter := links[..i] + links[i + 1..];
            links[i].dest == o ==> shorter[..i] + Without(shorter[i..], o) == links[..i] + Without(links[i..], o)
    ensures links[i].dest != o ==> links[..i + 1] + Without(links[i + 1..], o) == links[..i] + Without(links[i..], o)
  {
    assert links[i..][1..] == links[i + 1..];
    var shorter := links[..i] + links[i + 1..];
    assert shorter[..i] == links[..i] && shorter[i..] == links[i + 1..];
    assert links[..i + 1] == links[..i] + [links[i]];
  }

  lemma {:induction false} AppendOther(links: seq<Link>, extra: Link, source: HasSlots, target: HasSlots)
    requires extra.dest != source
    ensures Duplicates(links + [extra], source, target) == Duplicates(links, source, target)
    ensures Count(links + [extra], source) == Count(links, source)
  {
    if links != [] {
      assert (links + [extra])[1..] == links[1..] + [extra];
      AppendOther(links[1..], extra, source, target);
    }
  }
}
