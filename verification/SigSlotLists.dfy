/** What the operations on signals do to the lists of links, place by place. */
module SigSlotLists {
  import opened SigSlot
  import opened SigSlotRuns

  /** Without its first link to `o`, a list is what stands before and behind that link. */
  lemma {:induction false} FirstRemovedIs(links: seq<Link>, o: HasSlots, i: nat)
    requires i < |links| && links[i].dest == o && forall j :: 0 <= j < i ==> links[j].dest != o
    ensures FirstRemoved(links, o) == links[..i] + links[i + 1..]
    decreases |links|
  {
    if i > 0 {
      FirstRemovedIs(links[1..], o, i - 1);
      assert links[0..i] == [links[0]] + links[1..][..i - 1] && links[1..][i..] == links[i + 1..];
    }
  }

  /** A list without links to `o` is its other links, in order. */
  lemma {:induction false} OthersKept(links: seq<Link>, o: HasSlots) returns (others: seq<nat>)
    ensures Ascending(others) && forall i: nat :: i in others <==> i < |links| && links[i].dest != o
    ensures |Without(links, o)| == |others|
    ensures forall j :: 0 <= j < |others| ==> others[j] < |links| && Without(links, o)[j] == links[others[j]]
    decreases |links|
  {
    others := [];
    if links != [] {
      var n := |links| - 1;
      others := OthersKept(links[..n], o);
      assert links == links[..n] + [links[n]];
      LinkAppended(links[..n], links[n], o, o);
      if links[n].dest != o {
        others := others + [n];
      }
    }
  }

  /** Duplicating the links to `o` repeats them for the copy, in order and with the same slots. */
  lemma {:induction false} OwnDuplicated(links: seq<Link>, o: HasSlots, copy: HasSlots) returns (own: seq<nat>)
    ensures Ascending(own) && forall i: nat :: i in own <==> i < |links| && links[i].dest == o
    ensures |Duplicates(links, o, copy)| == |own|
    ensures forall j :: 0 <= j < |own| ==> own[j] < |links| && Duplicates(links, o, copy)[j] == Link(copy, links[own[j]].slot)
    decreases |links|
  {
    own := [];
    if links != [] {
      var n := |links| - 1;
      own := OwnDuplicated(links[..n], o, copy);
      assert links == links[..n] + [links[n]];
      LinkAppended(links[..n], links[n], o, copy);
      if links[n].dest == o {
        own := own + [n];
      }
    }
  }

  predicate Ascending(at: seq<nat>) {
    forall j, k :: 0 <= j < k < |at| ==> at[j] < at[k]
  }

  lemma {:induction false} LinkAppended(links: seq<Link>, l: Link, o: HasSlots, copy: HasSlots)
    ensures Without(links + [l], o) == Without(links, o) + if l.dest == o then [] else [l]
    ensures Duplicates(links + [l], o, copy) == Duplicates(links, o, copy) + if l.dest == o then [Link(copy, l.slot)] else []
  {
    if links == [] {
      assert [] + [l] == [l] && [l][1..] == [];
    } else {
      assert (links + [l])[1..] == links[1..] + [l];
      LinkAppended(links[1..], l, o, copy);
    }
  }

  /** The operation changes the list of `t`. */
  ghost predicate Changes(g: Graph, op: Op, t: Signal) {
    match op
    case Connect(s, _, _) => s == t
    case Disconnect(s, _) => s == t
    case DisconnectSignal(s) => s == t
    case DestroySignal(s) => s == t
    case CopyObject(o, _) => o in g.senders && t in g.senders[o]
    case DisconnectObject(o) => o in g.senders && t in g.senders[o]
    case DestroyObject(o) => o in g.senders && t in g.senders[o]
    case _ => false
  }

  /** A connection comes last, with the slot it was made with; a copy has the list of its original; and only
      the lists of the signals concerned change. */
  lemma ListsAfter(g: Graph, op: Op, t: Signal)
    requires Named(g, op) && t in g.links
    ensures op.Connect? && op.s == t ==> Applied(g, op).links[t] == g.links[t] + [Link(op.o, op.slot)]
    ensures op.CopySignal? && op.s == t ==> op.copy in Applied(g, op).links && Applied(g, op).links[op.copy] == g.links[t]
    ensures !Changes(g, op, t) ==> t in Applied(g, op).links && Applied(g, op).links[t] == g.links[t]
  {
  }
}
