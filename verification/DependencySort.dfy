/** The depth-first dependency sort of the component loader.

    A dependency graph maps every entry to the list of entries it depends on.  Cycles are
    allowed: the sort still terminates, and it misplaces an edge only when that edge lies
    on a cycle. */
module DependencySort {
  import opened Sequences

  type Graph<T> = map<T, seq<T>>

  /** Every dependency of an entry is itself an entry. */
  ghost predicate Closed<T>(g: Graph<T>) {
    forall u, v :: u in g && v in g[u] ==> v in g
  }

  /** `v` can be reached from `u` along exactly `n` edges. */
  ghost predicate ReachesIn<T>(g: Graph<T>, u: T, v: T, n: nat)
    decreases n
  {
    if n == 0 then u == v
    else u in g && exists w :: w in g[u] && ReachesIn(g, w, v, n - 1)
  }

  ghost predicate Reaches<T>(g: Graph<T>, u: T, v: T) {
    exists n: nat :: ReachesIn(g, u, v, n)
  }

  /** No edge leads back to where it started. */
  ghost predicate Acyclic<T>(g: Graph<T>) {
    forall u, v :: u in g && v in g[u] ==> !Reaches(g, v, u)
  }

  /** Whenever a dependency does not precede its dependent, it can reach that dependent. */
  ghost predicate OrderedUpToCycles<T>(g: Graph<T>, q: seq<T>) {
    forall i, v :: 0 <= i < |q| && q[i] in g && v in g[q[i]] ==> v in q[..i] || Reaches(g, v, q[i])
  }

  /** Every dependency strictly precedes its dependents. */
  ghost predicate Topological<T>(g: Graph<T>, q: seq<T>) {
    forall i, v :: 0 <= i < |q| && q[i] in g && v in g[q[i]] ==> v in q[..i]
  }

  ghost predicate ReachableFrom<T>(g: Graph<T>, list: seq<T>, x: T) {
    exists k :: 0 <= k < |list| && Reaches(g, list[k], x)
  }

  /** What the sort promises for every graph, cyclic ones included. */
  ghost predicate DependencySorted<T>(g: Graph<T>, list: seq<T>, q: seq<T>) {
    && Distinct(q)
    && (forall x :: x in q ==> ReachableFrom(g, list, x))
    && (forall k, x :: 0 <= k < |list| && x in g && Reaches(g, list[k], x) ==> x in q)
    && OrderedUpToCycles(g, q)
  }

  // ---------------------------------------------------------------- reachability

  lemma ReachesSelf<T>(g: Graph<T>, u: T)
    ensures Reaches(g, u, u)
  {
    assert ReachesIn(g, u, u, 0);
  }

  lemma {:induction false} ReachesInExtend<T>(g: Graph<T>, u: T, v: T, w: T, n: nat)
    requires ReachesIn(g, u, v, n) && v in g && w in g[v]
    ensures ReachesIn(g, u, w, n + 1)
    decreases n
  {
    if n == 0 {
      assert ReachesIn(g, w, w, 0);
    } else {
      var x :| x in g[u] && ReachesIn(g, x, v, n - 1);
      ReachesInExtend(g, x, v, w, n - 1);
    }
  }

  lemma ReachesExtend<T>(g: Graph<T>, u: T, v: T, w: T)
    requires Reaches(g, u, v) && v in g && w in g[v]
    ensures Reaches(g, u, w)
  {
    var n: nat :| ReachesIn(g, u, v, n);
    ReachesInExtend(g, u, v, w, n);
  }

  /** A set of entries closed under dependencies holds everything reachable from its members. */
  lemma {:induction false} ClosedSetHoldsReachable<T>(g: Graph<T>, s: set<T>, u: T, v: T, n: nat)
    requires forall x, y :: x in s && x in g && y in g[x] ==> y in s
    requires u in s && ReachesIn(g, u, v, n)
    ensures v in s
    decreases n
  {
    if n != 0 {
      var w :| w in g[u] && ReachesIn(g, w, v, n - 1);
      ClosedSetHoldsReachable(g, s, w, v, n - 1);
    }
  }

  /** In a topological order, reaching an entry never leads to a later position. */
  lemma {:induction false} ReachesStaysBefore<T>(g: Graph<T>, q: seq<T>, u: T, v: T, n: nat, i: nat)
    requires Topological(g, q) && i < |q| && u == q[i]
    requires ReachesIn(g, u, v, n)
    ensures v in q[..i + 1]
    decreases n
  {
    if n == 0 {
      assert q[..i + 1][i] == u;
    } else {
      var w :| w in g[u] && ReachesIn(g, w, v, n - 1);
      assert w in q[..i];
      var j :| 0 <= j < i && q[j] == w;
      ReachesStaysBefore(g, q, w, v, n - 1, j);
      assert q[..j + 1] <= q[..i + 1];
    }
  }

  /** The sorted order is topological exactly when no edge among the sorted entries lies on a
      cycle; so an acyclic graph is always ordered dependencies first. */
  lemma TopologicalIffAcyclic<T>(g: Graph<T>, q: seq<T>)
    requires Distinct(q) && OrderedUpToCycles(g, q)
    ensures Topological(g, q) <==>
            forall i, v :: 0 <= i < |q| && q[i] in g && v in g[q[i]] ==> !Reaches(g, v, q[i])
  {
    if Topological(g, q) {
      forall i, v | 0 <= i < |q| && q[i] in g && v in g[q[i]]
        ensures !Reaches(g, v, q[i])
      {
        if Reaches(g, v, q[i]) {
          var n: nat :| ReachesIn(g, v, q[i], n);
          assert v in q[..i];
          var j :| 0 <= j < i && q[j] == v;
          ReachesStaysBefore(g, q, v, q[i], n, j);
          assert false;
        }
      }
    }
  }

  lemma AcyclicIsTopological<T>(g: Graph<T>, list: seq<T>, q: seq<T>)
    requires DependencySorted(g, list, q) && Acyclic(g)
    ensures Topological(g, q)
  {
    TopologicalIffAcyclic(g, q);
  }

  // ---------------------------------------------------------------- the algorithm

  /** One run of the sort: the visited table and the queue that the recursive visitor shares. */
  class Sorter<T(==)> {
    const deps: Graph<T>
    var visited: map<T, bool>
    var stack: seq<T>

    /** The entries whose flag is set; looking a flag up stores `false` for a new entry. */
    ghost function Marked(): set<T>
      reads this
    {
      set x | x in visited && visited[x]
    }

    /** `gray` holds the entries being visited: marked, not yet queued. */
    ghost predicate Valid(gray: set<T>)
      reads this
    {
      && Closed(deps)
      && visited.Keys <= deps.Keys
      && Marked() == gray + Elements(stack)
      && gray !! Elements(stack)
      && (forall x :: x in stack ==> x in deps)
      && Distinct(stack)
      && OrderedUpToCycles(deps, stack)
      && (forall i, v :: 0 <= i < |stack| && v in deps[stack[i]] ==> v in Marked())
    }

    constructor (deps: Graph<T>)
      requires Closed(deps)
      ensures this.deps == deps && Valid({}) && stack == [] && visited == map[]
    {
      this.deps := deps;
      visited, stack := map[], [];
    }

    /** `visited[x]` as an expression: reads the flag, storing `false` when it is missing. */
    method TestVisited(x: T, ghost gray: set<T>) returns (b: bool)
      requires Valid(gray) && x in deps
      modifies this`visited
      ensures Valid(gray) && Marked() == old(Marked())
      ensures b <==> x in Marked()
    {
      if x !in visited {
        visited := visited[x := false];
      }
      b := visited[x];
      assert Marked() == old(Marked());
    }

    method Visit(entry: T, ghost gray: set<T>)
      requires Valid(gray) && entry in deps && entry !in Marked()
      requires forall x :: x in gray ==> Reaches(deps, x, entry)
      modifies this`visited, this`stack
      ensures Valid(gray) && old(stack) < stack && stack[|stack| - 1] == entry
      ensures old(Marked()) <= Marked()
      ensures forall k :: |old(stack)| <= k < |stack| ==> Reaches(deps, entry, stack[k])
      decreases deps.Keys - Marked(), 0
    {
      Mark(entry, gray);
      ghost var gray' := gray + {entry};
      ReachesSelf(deps, entry);
      var list := deps[entry];
      var i := 0;
      while i < |list|
        invariant 0 <= i <= |list|
        invariant Valid(gray') && old(Marked()) + {entry} <= Marked() && old(stack) <= stack
        invariant forall k :: 0 <= k < i ==> list[k] in Marked()
        invariant forall k :: |old(stack)| <= k < |stack| ==> Reaches(deps, entry, stack[k])
      {
        Follow(entry, list[i], gray');
        i := i + 1;
      }
      Push(entry, gray);
    }

    /** Visits a dependency of `entry` unless it was visited before. */
    method Follow(entry: T, dependency: T, ghost gray: set<T>)
      requires Valid(gray) && entry in deps && dependency in deps[entry] && dependency in deps
      requires forall x :: x in gray ==> Reaches(deps, x, entry)
      modifies this`visited, this`stack
      ensures Valid(gray) && old(stack) <= stack && old(Marked()) <= Marked() && dependency in Marked()
      ensures forall k :: |old(stack)| <= k < |stack| ==> Reaches(deps, entry, stack[k])
      decreases deps.Keys - Marked(), 1
    {
      var seen := TestVisited(dependency, gray);
      if !seen {
        forall x | x in gray ensures Reaches(deps, x, dependency) {
          ReachesExtend(deps, x, entry, dependency);
        }
        ghost var earlier := stack;
        Visit(dependency, gray);
        ReachesThrough(entry, dependency, earlier);
      }
    }

    method Mark(entry: T, ghost gray: set<T>)
      requires Valid(gray) && entry in deps && entry !in Marked()
      modifies this`visited
      ensures Valid(gray + {entry}) && Marked() == old(Marked()) + {entry}
    {
      visited := visited[entry := true];
      assert Marked() == old(Marked()) + {entry};
    }

    method Push(entry: T, ghost gray: set<T>)
      requires Valid(gray + {entry}) && entry in deps && entry !in gray
      requires forall x :: x in gray ==> Reaches(deps, x, entry)
      requires forall v :: v in deps[entry] ==> v in Marked()
      modifies this`stack
      ensures Valid(gray) && stack == old(stack) + [entry]
    {
      PushKeepsOrder(entry, gray);
      stack := stack + [entry];
      assert Elements(stack) == Elements(old(stack)) + {entry};
    }

    lemma ReachesThrough(entry: T, dependency: T, earlier: seq<T>)
      requires entry in deps && dependency in deps[entry] && earlier <= stack
      requires forall k :: |earlier| <= k < |stack| ==> Reaches(deps, dependency, stack[k])
      ensures forall k :: |earlier| <= k < |stack| ==> Reaches(deps, entry, stack[k])
    {
      forall k | |earlier| <= k < |stack| ensures Reaches(deps, entry, stack[k]) {
        var n: nat :| ReachesIn(deps, dependency, stack[k], n);
        assert ReachesIn(deps, entry, stack[k], n + 1);
      }
    }

    /** A dependency that is marked but not queued is still being visited, so it reaches `entry`. */
    lemma PushKeepsOrder(entry: T, gray: set<T>)
      requires Valid(gray + {entry}) && entry in deps
      requires forall x :: x in gray ==> Reaches(deps, x, entry)
      requires forall v :: v in deps[entry] ==> v in Marked()
      ensures Distinct(stack + [entry]) && OrderedUpToCycles(deps, stack + [entry])
    {
      ReachesSelf(deps, entry);
      var q := stack + [entry];
      forall i, v | 0 <= i < |q| && q[i] in deps && v in deps[q[i]]
        ensures v in q[..i] || Reaches(deps, v, q[i])
      {
        if i < |stack| {
          assert q[..i] == stack[..i];
        } else {
          assert q[..i] == stack;
        }
      }
    }

    method Sort(list: seq<T>)
      requires Valid({}) && stack == [] && visited == map[]
      requires forall x :: x in list ==> x in deps
      modifies this`visited, this`stack
      ensures DependencySorted(deps, list, stack)
      ensures forall x :: x in stack ==> x in deps
    {
      var i := 0;
      while i < |list|
        invariant 0 <= i <= |list| && Valid({})
        invariant forall k :: 0 <= k < i ==> list[k] in Marked()
        invariant forall x :: x in stack ==> ReachableFrom(deps, list, x)
      {
        var entry := list[i];
        var seen := TestVisited(entry, {});
        if !seen {
          ghost var earlier := stack;
          Visit(entry, {});
          forall x | x in stack ensures ReachableFrom(deps, list, x) {
            var k :| 0 <= k < |stack| && stack[k] == x;
            if k < |earlier| {
              assert x in earlier;
            } else {
              assert Reaches(deps, list[i], x);
            }
          }
        }
        i := i + 1;
      }
      forall k, x | 0 <= k < |list| && x in deps && Reaches(deps, list[k], x) ensures x in stack {
        var n: nat :| ReachesIn(deps, list[k], x, n);
        ClosedSetHoldsReachable(deps, Marked(), list[k], x, n);
      }
    }
  }

  /** `SortDependencyList`. */
  method SortDependencyList<T(==)>(deps: Graph<T>, list: seq<T>) returns (q: seq<T>)
    requires Closed(deps) && forall x :: x in list ==> x in deps
    ensures DependencySorted(deps, list, q)
    ensures forall x :: x in q ==> x in deps
  {
    var sorter := new Sorter(deps);
    sorter.Sort(list);
    q := sorter.stack;
  }
}
