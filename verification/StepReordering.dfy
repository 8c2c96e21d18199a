/** Reordering the configured steps so that each runs after the steps named in its `depends` list. */
module StepReordering {
  import opened Common
  import opened TopologicalSort

  /** One step as parsed: its dependency list, if the key is present, and the rest of its instructions. */
  datatype Step<B> = Step(depends: Option<seq<string>>, body: B)

  datatype Outcome = Untouched | Reordered | CircularDependency | UndefinedStep(name: string)

  const SUPPORTED_VERSION := 2.0

  function WithDepends(g: Graph, name: string, depends: seq<string>): Graph {
    if depends == [] then g
    else WithEdge(WithDepends(g, name, depends[..|depends| - 1]), name, depends[|depends| - 1])
  }

  function WithStep<B>(g: Graph, name: string, step: Step<B>): Graph {
    if step.depends.Some? then WithDepends(g, name, step.depends.value) else WithNode(g, name)
  }

  /** What the sorter holds once the steps have been added in the order of the file. */
  function DependencyGraph<B>(names: seq<string>, steps: map<string, Step<B>>): Graph
    requires forall n :: n in names ==> n in steps
  {
    if names == [] then Graph([], [])
    else
      var last := names[|names| - 1];
      WithStep(DependencyGraph(names[..|names| - 1], steps), last, steps[last])
  }

  ghost predicate DependsOn<B>(names: seq<string>, steps: map<string, Step<B>>, n: string, d: string) {
    n in names && n in steps && steps[n].depends.Some? && d in steps[n].depends.value
  }

  ghost predicate NamedByAStep<B>(names: seq<string>, steps: map<string, Step<B>>, d: string) {
    exists n :: DependsOn(names, steps, n, d)
  }

  /** A step whose `depends` key holds an empty list and which no step depends on is never given to the sorter. */
  ghost predicate Forgotten<B>(names: seq<string>, steps: map<string, Step<B>>, n: string) {
    n in names && n in steps && steps[n].depends == Some([]) && !NamedByAStep(names, steps, n)
  }

  lemma {:induction false} DependsMeaning(g: Graph, name: string, depends: seq<string>)
    requires WellFormed(g)
    ensures var h := WithDepends(g, name, depends);
      && WellFormed(h)
      && (forall e :: e in h.edges <==> e in g.edges || (e.node == name && e.pred in depends))
      && (forall v :: v in h.nodes <==> v in g.nodes || v in depends || (v == name && depends != []))
  {
    if depends == [] {
    } else {
      DependsMeaning(g, name, depends[..|depends| - 1]);
    }
  }

  lemma {:induction false} EdgesMeaning<B>(names: seq<string>, steps: map<string, Step<B>>)
    requires forall n :: n in names ==> n in steps
    ensures WellFormed(DependencyGraph(names, steps))
    ensures forall n, d :: Edge(n, d) in DependencyGraph(names, steps).edges <==> DependsOn(names, steps, n, d)
  {
    hide WellFormed;
    if names == [] {
      assert WellFormed(Graph([], [])) by { EmptyGraph(); }
    } else {
      var rest, last := names[..|names| - 1], names[|names| - 1];
      EdgesMeaning(rest, steps);
      var h := DependencyGraph(rest, steps);
      DependsMeaning(h, last, if steps[last].depends.Some? then steps[last].depends.value else []);
      NodeMeaning(h, last);
      forall n, d ensures
        DependsOn(names, steps, n, d) <==>
          DependsOn(rest, steps, n, d) || (n == last && DependsOn(names, steps, last, d)) {
      }
    }
  }

  lemma EmptyGraph()
    ensures WellFormed(Graph([], []))
  {
  }

  lemma NodeMeaning(g: Graph, name: string)
    requires WellFormed(g)
    ensures WellFormed(WithNode(g, name)) && WithNode(g, name).edges == g.edges
    ensures forall v :: v in WithNode(g, name).nodes <==> v in g.nodes || v == name
  {
  }

  lemma {:induction false} NodesMeaning<B>(names: seq<string>, steps: map<string, Step<B>>)
    requires forall n :: n in names ==> n in steps
    ensures forall v :: v in DependencyGraph(names, steps).nodes <==>
      (v in names && steps[v].depends != Some([])) || NamedByAStep(names, steps, v)
  {
    hide WellFormed;
    if names == [] {
    } else {
      var rest, last := names[..|names| - 1], names[|names| - 1];
      NodesMeaning(rest, steps);
      EdgesMeaning(rest, steps);
      var h := DependencyGraph(rest, steps);
      DependsMeaning(h, last, if steps[last].depends.Some? then steps[last].depends.value else []);
      NodeMeaning(h, last);
      forall v ensures NamedByAStep(names, steps, v) <==>
        NamedByAStep(rest, steps, v) || DependsOn(names, steps, last, v) {
        NamedByOneMore(names, steps, v);
      }
    }
  }

  lemma NamedByOneMore<B>(names: seq<string>, steps: map<string, Step<B>>, v: string)
    requires names != []
    ensures var rest, last := names[..|names| - 1], names[|names| - 1];
      NamedByAStep(names, steps, v) <==> NamedByAStep(rest, steps, v) || DependsOn(names, steps, last, v)
  {
    var rest, last := names[..|names| - 1], names[|names| - 1];
    if NamedByAStep(names, steps, v) {
      var n :| DependsOn(names, steps, n, v);
      assert n == last || DependsOn(rest, steps, n, v);
    } else if NamedByAStep(rest, steps, v) {
      var n :| DependsOn(rest, steps, n, v);
      assert DependsOn(names, steps, n, v);
    }
  }

  /** Reads the graph back in terms of the configuration. */
  lemma GraphMeaning<B>(names: seq<string>, steps: map<string, Step<B>>)
    requires forall n :: n in names ==> n in steps
    ensures var g := DependencyGraph(names, steps);
      && WellFormed(g)
      && (forall n, d :: Edge(n, d) in g.edges <==> DependsOn(names, steps, n, d))
      && (forall v :: v in g.nodes <==>
            (v in names && steps[v].depends != Some([])) || NamedByAStep(names, steps, v))
  {
    EdgesMeaning(names, steps);
    NodesMeaning(names, steps);
  }

  /** Steps that in turn name each other and lead back to the first. */
  ghost predicate CircularSteps<B>(names: seq<string>, steps: map<string, Step<B>>, p: seq<string>) {
    && |p| >= 2 && p[0] == p[|p| - 1]
    && forall i :: 0 <= i < |p| - 1 ==> DependsOn(names, steps, p[i], p[i + 1])
  }

  ghost predicate HasCircularSteps<B>(names: seq<string>, steps: map<string, Step<B>>) {
    exists p :: CircularSteps(names, steps, p)
  }

  ghost predicate AllDependsDefined<B>(names: seq<string>, steps: map<string, Step<B>>) {
    forall d :: NamedByAStep(names, steps, d) ==> d in names
  }

  lemma CyclesAreCircularSteps<B>(names: seq<string>, steps: map<string, Step<B>>)
    requires forall n :: n in names ==> n in steps
    ensures Cyclic(DependencyGraph(names, steps)) <==> HasCircularSteps(names, steps)
  {
    GraphMeaning(names, steps);
    var g := DependencyGraph(names, steps);
    forall p ensures IsCycle(g, p) <==> CircularSteps(names, steps, p) {
      forall i | 0 <= i < |p| - 1 ensures Edge(p[i], p[i + 1]) in g.edges <==> DependsOn(names, steps, p[i], p[i + 1]) {
      }
    }
    if Cyclic(g) {
      var p :| IsCycle(g, p);
      assert CircularSteps(names, steps, p);
    }
    if HasCircularSteps(names, steps) {
      var p :| CircularSteps(names, steps, p);
      assert IsCycle(g, p);
    }
  }

  /** The order contains exactly the configured steps, less the forgotten ones; each comes after all it depends on. */
  ghost predicate IsStepOrder<B>(names: seq<string>, steps: map<string, Step<B>>, order: seq<string>) {
    && NoDup(order)
    && (forall n :: n in order <==> n in names && !Forgotten(names, steps, n))
    && forall n, d, j :: DependsOn(names, steps, n, d) && 0 <= j < |order| && order[j] == n ==> d in order[..j]
  }

  lemma TopologicalIsStepOrder<B>(names: seq<string>, steps: map<string, Step<B>>, order: seq<string>)
    requires forall n :: n in names ==> n in steps
    requires IsTopologicalOrder(DependencyGraph(names, steps), order)
    requires forall n :: n in order ==> n in names
    ensures IsStepOrder(names, steps, order) && AllDependsDefined(names, steps)
  {
    GraphMeaning(names, steps);
    forall n, d, j | DependsOn(names, steps, n, d) && 0 <= j < |order| && order[j] == n
      ensures d in order[..j]
    {
      assert Edge(n, d) in DependencyGraph(names, steps).edges;
    }
    forall n ensures n in order <==> n in names && !Forgotten(names, steps, n) {
      assert n in order <==> n in DependencyGraph(names, steps).nodes;
    }
    forall d | NamedByAStep(names, steps, d) ensures d in names {
      assert d in DependencyGraph(names, steps).nodes;
    }
  }

  /** The reordered steps are a permutation of the configured ones exactly when none is forgotten. */
  lemma PermutationUnlessForgotten<B>(names: seq<string>, steps: map<string, Step<B>>, order: seq<string>)
    requires NoDup(names) && IsStepOrder(names, steps, order)
    ensures multiset(order) == multiset(names) <==> forall n :: n in names ==> !Forgotten(names, steps, n)
  {
    NoDupMultiset(order);
    NoDupMultiset(names);
    if multiset(order) == multiset(names) {
      forall n | n in names ensures !Forgotten(names, steps, n) {
        assert n in multiset(order);
      }
    } else {
      assert exists n :: multiset(order)[n] != multiset(names)[n];
      var n :| multiset(order)[n] != multiset(names)[n];
      assert n in names && n !in order;
    }
  }

  /** A step with an empty `depends` list disappears when nothing depends on it. */
  lemma EmptyDependsLosesAStep<B>(body: B)
    ensures var steps := map["build" := Step(None, body), "report" := Step(Some([]), body)];
      && Forgotten(["build", "report"], steps, "report")
      && IsStepOrder(["build", "report"], steps, ["build"])
  {
    var names, steps := ["build", "report"], map["build" := Step(None, body), "report" := Step(Some([]), body)];
    forall n, d ensures !DependsOn(names, steps, n, d) {
    }
  }

  /** Once the `depends` keys are gone, the graph is just the steps in their order. */
  lemma {:induction false} NoDependsNoEdges<B>(names: seq<string>, steps: map<string, Step<B>>)
    requires NoDup(names) && forall n :: n in names ==> n in steps && steps[n].depends == None
    ensures DependencyGraph(names, steps) == Graph(names, [])
  {
    if names == [] {
    } else {
      var rest := names[..|names| - 1];
      NoDependsNoEdges(rest, steps);
      assert rest + [names[|names| - 1]] == names;
    }
  }

  lemma FirstUndefined<B>(names: seq<string>, steps: map<string, Step<B>>, order: seq<string>, name: string)
    requires forall n :: n in names ==> n in steps
    requires IsTopologicalOrder(DependencyGraph(names, steps), order) && name in order && name !in names
    ensures NamedByAStep(names, steps, name) && !AllDependsDefined(names, steps)
  {
    GraphMeaning(names, steps);
  }

  lemma StepOrderHasNoDup<B>(names: seq<string>, steps: map<string, Step<B>>, order: seq<string>)
    requires IsStepOrder(names, steps, order)
    ensures NoDup(order)
  {
  }

  /** Only `depends` keys were dropped. */
  ghost predicate SameBodies<B>(before: map<string, Step<B>>, after: map<string, Step<B>>) {
    && after.Keys == before.Keys
    && forall n :: n in after ==> after[n] == before[n] || after[n] == before[n].(depends := None)
  }

  class RunConfig<B> {
    var version: Option<real>
    var names: seq<string>
    var steps: map<string, Step<B>>

    /** `names` are the keys of the ordered step dictionary. */
    ghost predicate Valid()
      reads this
    {
      NoDup(names) && steps.Keys == Elems(names)
    }

    predicate Supported()
      reads this
    {
      version.Some? && version.value >= SUPPORTED_VERSION
    }

    method ReorderDependencySteps() returns (outcome: Outcome)
      requires Valid()
      modifies this
      ensures Valid() && version == old(version)
      ensures outcome == Untouched <==> version.None? || version.value < 2.0
      ensures outcome == CircularDependency <==>
        version.Some? && version.value >= 2.0 && HasCircularSteps(old(names), old(steps))
      ensures outcome.UndefinedStep? <==>
        && version.Some? && version.value >= 2.0
        && !HasCircularSteps(old(names), old(steps)) && !AllDependsDefined(old(names), old(steps))
      ensures outcome.UndefinedStep? ==>
        outcome.name !in names && NamedByAStep(old(names), old(steps), outcome.name)
      ensures outcome != Reordered ==> names == old(names)
      ensures outcome.Untouched? || outcome.CircularDependency? ==> steps == old(steps)
      ensures outcome == Reordered ==> IsStepOrder(old(names), old(steps), names)
      ensures outcome.UndefinedStep? ==> SameBodies(old(steps), steps)
      ensures outcome == Reordered ==>
        forall n :: n in names ==> n in old(steps) && steps[n] == old(steps)[n].(depends := None)
      ensures (forall n :: n in old(names) ==> old(steps)[n].depends == None) ==> names == old(names)
    {
      hide IsStepOrder, Cyclic, HasCircularSteps, IsTopologicalOrder, AllDependsDefined, WellFormed, NamedByAStep;
      hide SameBodies, NoDup;
      if !Supported() {
        return Untouched;
      }
      var sorter := BuildSorter();
      var sorted := sorter.StaticOrder();
      CyclesAreCircularSteps(names, steps);
      if sorted.None? {
        return CircularDependency;
      }
      var order := sorted.value;
      var ordered, missing := CollectSteps(order);
      if missing.Some? {
        FirstUndefined(names, old(steps), order, missing.value);
        return UndefinedStep(missing.value);
      }
      TopologicalIsStepOrder(names, old(steps), order);
      StepOrderHasNoDup(names, old(steps), order);
      if forall n :: n in old(names) ==> old(steps)[n].depends == None {
        NoDependsNoEdges(old(names), old(steps));
      }
      names, steps := order, ordered;
      return Reordered;
    }

    /** Drops the `depends` key of each step in turn; stops at the first name that is not a step. */
    method CollectSteps(order: seq<string>) returns (ordered: map<string, Step<B>>, missing: Option<string>)
      modifies this`steps
      ensures SameBodies(old(steps), steps)
      ensures missing.Some? ==> missing.value in order && missing.value !in old(steps)
      ensures missing.None? ==>
        && ordered.Keys == Elems(order)
        && forall n :: n in order ==> n in old(steps) && ordered[n] == old(steps)[n].(depends := None)
    {
      ordered := map[];
      var i := 0;
      while i < |order|
        invariant 0 <= i <= |order|
        invariant SameBodies(old(steps), steps)
        invariant ordered.Keys == Elems(order[..i])
        invariant forall n :: n in ordered ==> n in old(steps) && ordered[n] == old(steps)[n].(depends := None)
      {
        var step := order[i];
        if step !in steps {
          return ordered, Some(step);
        }
        steps := steps[step := steps[step].(depends := None)];
        ordered := ordered[step := steps[step]];
        assert order[..i + 1] == order[..i] + [step];
        i := i + 1;
      }
      assert order[..i] == order;
      missing := None;
    }

    /** One edge per dependency of a step. */
    method AddDependencies(sorter: TopologicalSorter, name: string, depends: seq<string>)
      requires sorter.Valid()
      modifies sorter
      ensures sorter.Valid() && sorter.Contents() == WithDepends(old(sorter.Contents()), name, depends)
    {
      var k := 0;
      while k < |depends|
        invariant 0 <= k <= |depends|
        invariant sorter.Valid()
        invariant sorter.Contents() == WithDepends(old(sorter.Contents()), name, depends[..k])
      {
        assert depends[..k + 1][..k] == depends[..k];
        sorter.AddDependency(name, depends[k]);
        k := k + 1;
      }
      assert depends[..k] == depends;
    }

    /** Adds every step, then one edge per listed dependency. */
    method BuildSorter() returns (sorter: TopologicalSorter)
      requires Valid()
      ensures fresh(sorter) && sorter.Valid()
      ensures forall n :: n in names ==> n in steps
      ensures sorter.Contents() == DependencyGraph(names, steps)
    {
      sorter := new TopologicalSorter();
      var i := 0;
      while i < |names|
        invariant 0 <= i <= |names|
        invariant fresh(sorter) && sorter.Valid()
        invariant sorter.Contents() == DependencyGraph(names[..i], steps)
      {
        var step := steps[names[i]];
        assert names[..i + 1][..i] == names[..i];
        if step.depends.Some? {
          AddDependencies(sorter, names[i], step.depends.value);
        } else {
          sorter.Add(names[i]);
        }
        i := i + 1;
      }
      assert names[..i] == names;
    }
  }
}
