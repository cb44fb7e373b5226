/** The component loader: registration, dependency resolution and the sort-and-load pass. */
module ComponentLoading {
  import opened Sequences
  import opened ComponentIds
  import opened DependencySort

  /** Every dependency was resolved, or the loader stopped at the first one that was not. */
  datatype Outcome = Loaded | Unresolved(component: string, dependency: Id)

  class ComponentData {
    const name: string
    const provided: seq<Id>
    const depends: seq<Id>
    var dependencyComponents: seq<ComponentData>
    var isLoaded: bool

    constructor (name: string, provided: seq<Id>, depends: seq<Id>)
      ensures this.name == name && this.provided == provided && this.depends == depends
      ensures dependencyComponents == [] && !isLoaded
    {
      this.name, this.provided, this.depends := name, provided, depends;
      dependencyComponents, isLoaded := [], false;
    }

    /** Some id provided here satisfies `dependency`. */
    ghost predicate Satisfies(dependency: Id)
    {
      exists k :: 0 <= k < |provided| && Matches(dependency, provided[k])
    }

    method AddDependency(dependency: ComponentData)
      modifies this`dependencyComponents
      ensures dependencyComponents == old(dependencyComponents) + [dependency]
    {
      dependencyComponents := dependencyComponents + [dependency];
    }
  }

  /** Dependencies on these categories may stay unresolved. */
  predicate MayBeMissing(dependency: Id) {
    GetCategory(dependency, 0) == "vendor" || GetCategory(dependency, 0) == "legitimacy"
  }

  /** The first component in iteration order that satisfies `dependency`, as a list of at most one. */
  ghost function FirstProvider(known: seq<ComponentData>, dependency: Id): (r: seq<ComponentData>)
    ensures |r| <= 1 && forall c :: c in r ==> c in known && c.Satisfies(dependency)
    ensures r == [] <==> forall c :: c in known ==> !c.Satisfies(dependency)
  {
    if known == [] then []
    else if known[0].Satisfies(dependency) then [known[0]]
    else FirstProvider(known[1..], dependency)
  }

  /** What a component's dependency ids resolve to, in declaration order. */
  ghost function Resolved(known: seq<ComponentData>, depends: seq<Id>): (r: seq<ComponentData>)
    ensures forall c :: c in r ==> c in known
  {
    if depends == [] then []
    else Resolved(known, depends[..|depends| - 1]) + FirstProvider(known, depends[|depends| - 1])
  }

  /** Every dependency that has to be there has a provider. */
  ghost predicate NothingMissing(known: seq<ComponentData>, depends: seq<Id>)
  {
    forall d :: d in depends && !MayBeMissing(d) ==> FirstProvider(known, d) != []
  }

  ghost predicate NothingLacking(known: seq<ComponentData>, components: set<ComponentData>) {
    forall c :: c in components ==> NothingMissing(known, c.depends)
  }

  /** The outcome names `c` and the first of its dependencies that has to be there and has no provider. */
  ghost predicate Blocks(known: seq<ComponentData>, c: ComponentData, outcome: Outcome) {
    outcome.Unresolved? && outcome.component == c.name
    && exists i :: 0 <= i < |c.depends| && c.depends[i] == outcome.dependency && MissingAt(known, c.depends, i)
  }

  ghost predicate MissingAt(known: seq<ComponentData>, depends: seq<Id>, i: nat)
    requires i < |depends|
  {
    && !MayBeMissing(depends[i]) && (forall c :: c in known ==> !c.Satisfies(depends[i]))
    && NothingMissing(known, depends[..i])
  }

  /** Nothing is missing exactly when every dependency has a provider or is on a component whose first
      category is one of two. */
  lemma NothingMissingIff(known: seq<ComponentData>, depends: seq<Id>)
    ensures NothingMissing(known, depends) <==> forall d :: d in depends ==>
              || (d.categories != [] && d.categories[0] in {"vendor", "legitimacy"})
              || exists c :: c in known && c.Satisfies(d)
  {
    forall d: Id ensures MayBeMissing(d) <==> d.categories != [] && d.categories[0] in {"vendor", "legitimacy"} {
    }
  }

  /** The provider found is the first, and providers are listed in the order of the dependencies. */
  lemma ProvidersInOrder(known: seq<ComponentData>, depends: seq<Id>, d: Id, i: nat)
    requires i < |known| && known[i].Satisfies(d) && forall j :: 0 <= j < i ==> !known[j].Satisfies(d)
    ensures Resolved(known, depends + [d]) == Resolved(known, depends) + [known[i]]
  {
    FirstIs(known, d, i);
    assert (depends + [d])[..|depends|] == depends;
  }

  lemma {:induction false} FirstIs(known: seq<ComponentData>, d: Id, i: nat)
    requires i < |known| && known[i].Satisfies(d) && forall j :: 0 <= j < i ==> !known[j].Satisfies(d)
    ensures FirstProvider(known, d) == [known[i]]
    decreases |known|
  {
    if i > 0 {
      FirstIs(known[1..], d, i - 1);
    }
  }

  lemma BlockedIsMissing(known: seq<ComponentData>, c: ComponentData, outcome: Outcome)
    requires Blocks(known, c, outcome)
    ensures !NothingMissing(known, c.depends)
  {
    assert FirstProvider(known, outcome.dependency) == [];
  }

  /** What the dependency pass over these components answers. */
  ghost predicate Answers(known: seq<ComponentData>, components: seq<ComponentData>, outcome: Outcome) {
    match outcome
    case Loaded => forall c :: c in components ==> NothingMissing(known, c.depends)
    case Unresolved(_, _) => exists k :: 0 <= k < |components| && BlockedAt(known, components, outcome, k)
  }

  /** Component `k` is the first that is blocked. */
  ghost predicate BlockedAt(known: seq<ComponentData>, components: seq<ComponentData>, outcome: Outcome, k: nat)
    requires k < |components|
  {
    Blocks(known, components[k], outcome) && forall j :: 0 <= j < k ==> NothingMissing(known, components[j].depends)
  }

  /** The pass succeeds exactly when nothing is missing. */
  lemma LoadedIffNothingMissing(known: seq<ComponentData>, components: seq<ComponentData>, outcome: Outcome)
    requires Answers(known, components, outcome)
    ensures outcome.Loaded? <==> forall c :: c in components ==> NothingMissing(known, c.depends)
  {
    if outcome.Unresolved? {
      var k :| 0 <= k < |components| && BlockedAt(known, components, outcome, k);
      BlockedIsMissing(known, components[k], outcome);
    }
  }

  lemma DependsStep(known: seq<ComponentData>, depends: seq<Id>, i: nat, before: seq<ComponentData>)
    requires i < |depends|
    ensures before + Resolved(known, depends[..i + 1]) == before + Resolved(known, depends[..i]) + FirstProvider(known, depends[i])
    ensures NothingMissing(known, depends[..i]) && (MayBeMissing(depends[i]) || FirstProvider(known, depends[i]) != []) ==>
              NothingMissing(known, depends[..i + 1])
  {
    assert depends[..i + 1][..i] == depends[..i];
    assert depends[..i + 1] == depends[..i] + [depends[i]];
  }

  /** Every dependency that has to be there is provided by one of the resolved components. */
  lemma {:induction false} ResolvedProvides(known: seq<ComponentData>, depends: seq<Id>, d: Id)
    requires d in depends && FirstProvider(known, d) != []
    ensures exists c :: c in Resolved(known, depends) && c.Satisfies(d)
    decreases |depends|
  {
    var last := depends[|depends| - 1];
    if last == d {
      var c := FirstProvider(known, d)[0];
      assert c in Resolved(known, depends);
    } else {
      assert d in depends[..|depends| - 1];
      ResolvedProvides(known, depends[..|depends| - 1], d);
    }
  }

  /** The known components in the order in which the name table is walked. */
  function Walk(known: map<string, ComponentData>, order: seq<string>): (r: seq<ComponentData>)
    requires forall name :: name in order ==> name in known
    ensures |r| == |order| && forall k :: 0 <= k < |r| ==> r[k] == known[order[k]]
    ensures forall c :: c in r ==> c in known.Values
  {
    if order == [] then [] else [known[order[0]]] + Walk(known, order[1..])
  }

  /** `c` depends on exactly what its ids resolve to, and nothing it needs is missing. */
  ghost predicate Settled(known: seq<ComponentData>, c: ComponentData)
    reads c`dependencyComponents
  {
    c.dependencyComponents == Resolved(known, c.depends) && NothingMissing(known, c.depends)
  }

  class ComponentLoader {
    var knownComponents: map<string, ComponentData>
    var loadedComponents: seq<ComponentData>

    constructor ()
      ensures knownComponents == map[] && loadedComponents == []
    {
      knownComponents, loadedComponents := map[], [];
    }

    /** Components are filed under their own names. */
    ghost predicate Valid()
      reads this`knownComponents
    {
      forall name :: name in knownComponents ==> knownComponents[name].name == name
    }

    /** The dependency graph recorded in the known components. */
    ghost function DependencyGraph(): Graph<ComponentData>
      reads this`knownComponents, knownComponents.Values`dependencyComponents
    {
      map c | c in knownComponents.Values :: c.dependencyComponents
    }

    /** `order` lists each known name once; the name table is unordered, so any such list may occur. */
    ghost predicate IsWalkOrder(order: seq<string>)
      reads this`knownComponents
      ensures IsWalkOrder(order) ==> forall name :: name in order ==> name in knownComponents
    {
      assert forall name :: name in order ==> name in Elements(order);
      Distinct(order) && Elements(order) == knownComponents.Keys
    }

    method AddComponent(component: ComponentData)
      requires Valid()
      modifies this`knownComponents, component`isLoaded
      ensures Valid() && !component.isLoaded
      ensures knownComponents ==
              if component.name in old(knownComponents) then old(knownComponents)
              else old(knownComponents)[component.name := component]
    {
      var name := component.name;
      component.isLoaded := false;
      if name !in knownComponents {
        knownComponents := knownComponents[name := component];
      }
    }

    /** Searches one component's provided ids. */
    static method Offers(known: ComponentData, dependency: Id) returns (offered: bool)
      ensures offered <==> known.Satisfies(dependency)
    {
      var k := 0;
      while k < |known.provided|
        invariant 0 <= k <= |known.provided|
        invariant forall j :: 0 <= j < k ==> !Matches(dependency, known.provided[j])
      {
        var m := IsMatchedBy(dependency, known.provided[k]);
        if m {
          return true;
        }
        k := k + 1;
      }
      return false;
    }

    /** Looks for the first known component that satisfies `dependency` and records it. */
    method ResolveOne(component: ComponentData, dependency: Id, order: seq<string>) returns (matched: bool)
      requires Valid() && forall name :: name in order ==> name in knownComponents
      modifies component`dependencyComponents
      ensures matched <==> FirstProvider(Walk(knownComponents, order), dependency) != []
      ensures component.dependencyComponents ==
              old(component.dependencyComponents) + FirstProvider(Walk(knownComponents, order), dependency)
    {
      ghost var walk := Walk(knownComponents, order);
      matched := false;
      var j := 0;
      assert walk[0..] == walk;
      while j < |order|
        invariant 0 <= j <= |order| && !matched
        invariant FirstProvider(walk, dependency) == FirstProvider(walk[j..], dependency)
        invariant component.dependencyComponents == old(component.dependencyComponents)
      {
        var known := knownComponents[order[j]];
        assert walk[j..][0] == known && walk[j..][1..] == walk[j + 1..];
        var m := Offers(known, dependency);
        if m {
          component.AddDependency(known);
          return true;
        }
        j := j + 1;
      }
    }

    method LoadDependencies(component: ComponentData, order: seq<string>) returns (outcome: Outcome)
      requires Valid() && forall name :: name in order ==> name in knownComponents
      modifies component`dependencyComponents
      ensures outcome.Loaded? ==>
                && component.dependencyComponents ==
                   old(component.dependencyComponents) + Resolved(Walk(knownComponents, order), component.depends)
                && NothingMissing(Walk(knownComponents, order), component.depends)
      ensures outcome.Unresolved? ==> Blocks(Walk(knownComponents, order), component, outcome)
    {
      var depends := component.depends;
      ghost var walk := Walk(knownComponents, order);
      var i := 0;
      while i < |depends|
        invariant 0 <= i <= |depends|
        invariant component.dependencyComponents == old(component.dependencyComponents) + Resolved(walk, depends[..i])
        invariant NothingMissing(walk, depends[..i])
      {
        var dependency := depends[i];
        DependsStep(walk, depends, i, old(component.dependencyComponents));
        var matched := ResolveOne(component, dependency, order);
        if !matched && GetCategory(dependency, 0) != "vendor" && GetCategory(dependency, 0) != "legitimacy" {
          assert MissingAt(walk, depends, i);
          return Unresolved(component.name, dependency);
        }
        i := i + 1;
      }
      assert depends[..i] == depends;
      return Outcome.Loaded;
    }

    /** Marks a known component as loaded. */
    method LoadComponent(componentName: string) returns (component: ComponentData)
      requires componentName in knownComponents
      modifies knownComponents.Values`isLoaded
      ensures component == knownComponents[componentName] && component.isLoaded
      ensures forall c :: c in knownComponents.Values && c != component ==> c.isLoaded == old(c.isLoaded)
    {
      component := knownComponents[componentName];
      if component.isLoaded {
        return;
      }
      component.isLoaded := true;
    }

    /** The dependency pass over every known component. */
    method ResolveAll(order: seq<string>, components: seq<ComponentData>) returns (outcome: Outcome)
      requires Valid() && (forall name :: name in order ==> name in knownComponents)
      requires components == Walk(knownComponents, order) && Distinct(components)
      requires forall c :: c in components ==> c.dependencyComponents == []
      modifies components`dependencyComponents
      ensures outcome.Loaded? ==> forall c :: c in components ==> Settled(components, c)
      ensures Answers(components, components, outcome)
    {
      var i := 0;
      while i < |components|
        invariant 0 <= i <= |components|
        invariant forall k :: 0 <= k < i ==> Settled(components, components[k])
        invariant forall k :: i <= k < |components| ==> components[k].dependencyComponents == []
      {
        outcome := LoadDependencies(components[i], order);
        if outcome.Unresolved? {
          assert BlockedAt(components, components, outcome, i);
          return;
        }
        assert [] + Resolved(components, components[i].depends) == Resolved(components, components[i].depends);
        i := i + 1;
      }
      outcome := Outcome.Loaded;
    }

    /** The tail of initialisation: resolve, sort, then load in sorted order.  It succeeds exactly when
        no known component lacks a dependency it needs, and else names the first that does.  On
        success every known component is loaded exactly once, and a component that loads before one
        of its dependencies is on a cycle with it. */
    method SortAndLoad(order: seq<string>) returns (outcome: Outcome)
      requires Valid() && IsWalkOrder(order)
      requires forall c :: c in knownComponents.Values ==> c.dependencyComponents == []
      modifies this`loadedComponents, knownComponents.Values`dependencyComponents, knownComponents.Values`isLoaded
      ensures outcome.Loaded? <==> NothingLacking(Walk(knownComponents, order), knownComponents.Values)
      ensures Answers(Walk(knownComponents, order), Walk(knownComponents, order), outcome)
      ensures outcome.Loaded? ==> Initialized(order)
      ensures outcome.Loaded? && Acyclic(DependencyGraph()) ==> Topological(DependencyGraph(), loadedComponents)
    {
      var components := Walk(knownComponents, order);
      outcome := ResolveKnown(order, components);
      if outcome.Unresolved? {
        return;
      }
      LoadSettled(order, components);
    }

    method LoadSettled(order: seq<string>, components: seq<ComponentData>)
      requires Valid() && IsWalkOrder(order) && components == Walk(knownComponents, order)
      requires Elements(components) == knownComponents.Values
      requires forall c :: c in components ==> Settled(components, c)
      modifies this`loadedComponents, knownComponents.Values`isLoaded
      ensures Initialized(order) && (Acyclic(DependencyGraph()) ==> Topological(DependencyGraph(), loadedComponents))
    {
      SettledGraphIsClosed(components);
      var sorted := SortKnown(components);
      LoadSorted(order, components, sorted);
    }

    method LoadSorted(order: seq<string>, ghost components: seq<ComponentData>, sorted: seq<ComponentData>)
      requires Valid() && IsWalkOrder(order) && components == Walk(knownComponents, order)
      requires Elements(components) == knownComponents.Values == Elements(sorted)
      requires forall c :: c in components ==> Settled(components, c)
      requires Distinct(sorted) && OrderedUpToCycles(DependencyGraph(), sorted)
      modifies this`loadedComponents, knownComponents.Values`isLoaded
      ensures Initialized(order) && loadedComponents == sorted && DependencyGraph() == old(DependencyGraph())
    {
      assert forall c :: c in sorted ==> c in Elements(sorted);
      LoadInOrder(sorted);
      NowInitialized(order, components);
    }

    lemma NowInitialized(order: seq<string>, components: seq<ComponentData>)
      requires Valid() && IsWalkOrder(order) && components == Walk(knownComponents, order)
      requires Elements(components) == knownComponents.Values == Elements(loadedComponents)
      requires forall c :: c in components ==> Settled(components, c)
      requires forall c :: c in loadedComponents ==> c.isLoaded
      requires Distinct(loadedComponents) && OrderedUpToCycles(DependencyGraph(), loadedComponents)
      ensures Initialized(order)
    {
      forall c | c in knownComponents.Values ensures c.isLoaded && Settled(components, c) {
        assert c in Elements(components) && c in Elements(loadedComponents);
      }
    }

    method ResolveKnown(order: seq<string>, components: seq<ComponentData>) returns (outcome: Outcome)
      requires Valid() && IsWalkOrder(order) && components == Walk(knownComponents, order)
      requires forall c :: c in knownComponents.Values ==> c.dependencyComponents == []
      modifies knownComponents.Values`dependencyComponents
      ensures Distinct(components) && Elements(components) == knownComponents.Values
      ensures outcome.Loaded? <==> NothingLacking(components, knownComponents.Values)
      ensures outcome.Loaded? ==> forall c :: c in components ==> Settled(components, c)
      ensures Answers(components, components, outcome)
    {
      WalkIsComplete(order, components);
      outcome := ResolveAll(order, components);
      LoadedIffNothingMissing(components, components, outcome);
      assert forall c :: c in knownComponents.Values <==> c in Elements(components);
    }

    lemma SettledGraphIsClosed(components: seq<ComponentData>)
      requires Elements(components) == knownComponents.Values
      requires forall c :: c in components ==> Settled(components, c)
      ensures Closed(DependencyGraph())
    {
      var g := DependencyGraph();
      forall u, v | u in g && v in g[u] ensures v in g {
        assert u in Elements(components);
        assert v in Resolved(components, u.depends);
        assert v in Elements(components);
      }
    }

    /** Sorts the known components by their recorded dependencies. */
    method SortKnown(components: seq<ComponentData>) returns (sorted: seq<ComponentData>)
      requires Elements(components) == knownComponents.Values
      requires Closed(DependencyGraph())
      ensures Distinct(sorted) && Elements(sorted) == knownComponents.Values
      ensures OrderedUpToCycles(DependencyGraph(), sorted)
      ensures Acyclic(DependencyGraph()) ==> Topological(DependencyGraph(), sorted)
    {
      var deps := map c | c in knownComponents.Values :: c.dependencyComponents;
      assert deps == DependencyGraph();
      assert forall c :: c in components ==> c in Elements(components);
      sorted := SortDependencyList(deps, components);
      forall c | c in Elements(components) ensures c in sorted {
        ReachesSelf(deps, c);
        var k :| 0 <= k < |components| && components[k] == c;
      }
      if Acyclic(deps) {
        AcyclicIsTopological(deps, components, sorted);
      }
    }

    /** The state that a successful initialisation leaves behind. */
    ghost predicate Initialized(order: seq<string>)
      reads this, knownComponents.Values
      requires IsWalkOrder(order)
    {
      && (forall c :: c in knownComponents.Values ==> c.isLoaded && Settled(Walk(knownComponents, order), c))
      && Distinct(loadedComponents) && Elements(loadedComponents) == knownComponents.Values
      && OrderedUpToCycles(DependencyGraph(), loadedComponents)
    }

    lemma WalkIsComplete(order: seq<string>, components: seq<ComponentData>)
      requires Valid() && IsWalkOrder(order) && components == Walk(knownComponents, order)
      ensures Distinct(components) && Elements(components) == knownComponents.Values
    {
      forall c | c in knownComponents.Values ensures c in components {
        assert c.name in Elements(order);
        var k :| 0 <= k < |order| && order[k] == c.name;
        assert components[k] == c;
      }
      forall i, j | 0 <= i < j < |components| ensures components[i] != components[j] {
        assert order[i] in Elements(order) && order[j] in Elements(order);
        assert components[i].name == order[i] && components[j].name == order[j];
      }
    }

    method LoadInOrder(sorted: seq<ComponentData>)
      requires Valid() && forall c :: c in sorted ==> c in knownComponents.Values
      modifies this`loadedComponents, knownComponents.Values`isLoaded
      ensures loadedComponents == sorted && forall c :: c in sorted ==> c.isLoaded
      ensures DependencyGraph() == old(DependencyGraph())
    {
      loadedComponents := [];
      while |loadedComponents| < |sorted|
        invariant |loadedComponents| <= |sorted| && loadedComponents == sorted[..|loadedComponents|]
        invariant forall c :: c in loadedComponents ==> c.isLoaded
        invariant DependencyGraph() == old(DependencyGraph())
      {
        var next := sorted[|loadedComponents|];
        assert next in knownComponents.Values;
        var comp := LoadComponent(next.name);
        loadedComponents := loadedComponents + [comp];
      }
    }
  }
}
