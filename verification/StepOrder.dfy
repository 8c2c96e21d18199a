/** The topological sorter that the dependency reordering relies on: successor lists, in-degree counts and a
    ready queue that is handed out group by group. */
module TopologicalSort {
  import opened Common

  /** `node` must come after `pred`. */
  datatype Edge = Edge(node: string, pred: string)

  /** The nodes in the order they were first mentioned, and the edges in the order they were added. */
  datatype Graph = Graph(nodes: seq<string>, edges: seq<Edge>)

  ghost predicate WellFormed(g: Graph) {
    && NoDup(g.nodes)
    && forall e :: e in g.edges ==> e.node in g.nodes && e.pred in g.nodes
  }

  /** The order lists every node once, each after all the nodes it must follow. */
  ghost predicate IsTopologicalOrder(g: Graph, order: seq<string>) {
    && NoDup(order)
    && (forall v :: v in order <==> v in g.nodes)
    && Respects(g.edges, order)
  }

  ghost predicate Respects(edges: seq<Edge>, order: seq<string>) {
    forall e, j :: e in edges && 0 <= j < |order| && order[j] == e.node ==> e.pred in order[..j]
  }

  lemma NoElems()
    ensures Elems<string>([]) == {}
  {
  }

  lemma NothingToRespect(edges: seq<Edge>)
    ensures Respects(edges, [])
  {
  }

  ghost predicate IsPath(g: Graph, p: seq<string>) {
    forall i :: 0 <= i < |p| - 1 ==> Edge(p[i], p[i + 1]) in g.edges
  }

  ghost predicate IsCycle(g: Graph, p: seq<string>) {
    |p| >= 2 && p[0] == p[|p| - 1] && IsPath(g, p)
  }

  ghost predicate Cyclic(g: Graph) {
    exists p :: IsCycle(g, p)
  }

  /** Walking a path backwards along dependencies only moves towards the front of a topological order. */
  lemma {:induction false} PathMovesForward(g: Graph, order: seq<string>, p: seq<string>, k: nat)
    requires IsTopologicalOrder(g, order) && IsPath(g, p) && |p| >= 2
    requires k < |order| && order[k] == p[0]
    ensures p[|p| - 1] in order[..k]
    decreases |p|
  {
    assert Edge(p[0], p[1]) in g.edges;
    assert p[1] in order[..k];
    var i :| 0 <= i < k && order[i] == p[1];
    if |p| > 2 {
      var q := p[1..];
      forall n | 0 <= n < |q| - 1 ensures Edge(q[n], q[n + 1]) in g.edges {
        assert q[n] == p[n + 1] && q[n + 1] == p[n + 2];
      }
      PathMovesForward(g, order, q, i);
      assert q[|q| - 1] == p[|p| - 1];
    }
  }

  /** A graph that can be ordered has no cycle. */
  lemma OrderedIsAcyclic(g: Graph, order: seq<string>)
    requires WellFormed(g) && IsTopologicalOrder(g, order)
    ensures !Cyclic(g)
  {
    if Cyclic(g) {
      var p :| IsCycle(g, p);
      assert Edge(p[0], p[1]) in g.edges;
      var k :| 0 <= k < |order| && order[k] == p[0];
      PathMovesForward(g, order, p, k);
      assert false;
    }
  }

  lemma CompleteOrder(g: Graph, order: seq<string>)
    requires WellFormed(g) && Respects(g.edges, order)
    requires NoDup(order) && forall v :: v in order <==> v in g.nodes
    ensures IsTopologicalOrder(g, order) && !Cyclic(g)
  {
    OrderedIsAcyclic(g, order);
  }

  ghost predicate HasBlocker(g: Graph, stuck: set<string>, v: string) {
    exists e :: e in g.edges && e.node == v && e.pred in stuck
  }

  ghost predicate BlockEachOther(g: Graph, stuck: set<string>) {
    forall v {:trigger HasBlocker(g, stuck, v)} :: v in stuck ==> HasBlocker(g, stuck, v)
  }

  /** If every node of a non-empty set has a predecessor inside the set, paths inside it never end. */
  lemma {:induction false} PathInside(g: Graph, stuck: set<string>, start: string, n: nat) returns (p: seq<string>)
    requires start in stuck
    requires BlockEachOther(g, stuck)
    ensures |p| == n + 1 && p[0] == start && IsPath(g, p)
    ensures forall v :: v in p ==> v in stuck
    decreases n
  {
    if n == 0 {
      p := [start];
    } else {
      assert HasBlocker(g, stuck, start);
      var e :| e in g.edges && e.node == start && e.pred in stuck;
      var rest := PathInside(g, stuck, e.pred, n - 1);
      p := [start] + rest;
      forall i | 0 <= i < |p| - 1 ensures Edge(p[i], p[i + 1]) in g.edges {
        if i == 0 {
          assert e == Edge(start, rest[0]);
        } else {
          assert p[i] == rest[i - 1] && p[i + 1] == rest[i];
        }
      }
    }
  }

  /** Nodes that block each other contain a cycle. */
  lemma StuckIsCyclic(g: Graph, stuck: set<string>)
    requires stuck != {}
    requires BlockEachOther(g, stuck)
    ensures Cyclic(g)
  {
    var start :| start in stuck;
    var p := PathInside(g, stuck, start, |stuck|);
    Pigeonhole(p, stuck);
    var i, j :| 0 <= i < j < |p| && p[i] == p[j];
    var c := p[i..j + 1];
    forall n | 0 <= n < |c| - 1 ensures Edge(c[n], c[n + 1]) in g.edges {
      assert c[n] == p[i + n] && c[n + 1] == p[i + n + 1];
    }
    assert IsCycle(g, c);
  }

  /** The edges into `v` whose source has not been finished yet. */
  ghost function Pending(edges: seq<Edge>, v: string, done: set<string>): nat {
    if edges == [] then 0 else
    var e := edges[|edges| - 1];
    Pending(edges[..|edges| - 1], v, done) + if e.node == v && e.pred !in done then 1 else 0
  }

  ghost function Successors(edges: seq<Edge>, u: string): seq<string> {
    if edges == [] then [] else
    var e := edges[|edges| - 1];
    Successors(edges[..|edges| - 1], u) + if e.pred == u then [e.node] else []
  }

  ghost function Occurrences(s: seq<string>, v: string): nat {
    if s == [] then 0 else Occurrences(s[..|s| - 1], v) + if s[|s| - 1] == v then 1 else 0
  }

  /** Finishing `u` removes exactly one pending edge per occurrence in its successor list. */
  lemma {:induction false} FinishingOne(edges: seq<Edge>, u: string, v: string, done: set<string>)
    requires u !in done
    ensures Pending(edges, v, done + {u}) + Occurrences(Successors(edges, u), v) == Pending(edges, v, done)
  {
    if edges == [] {
    } else {
      var rest := edges[..|edges| - 1];
      var e := edges[|edges| - 1];
      FinishingOne(rest, u, v, done);
      var before := Successors(rest, u);
      if e.pred == u {
        var after := before + [e.node];
        assert after[..|after| - 1] == before;
        assert Occurrences(after, v) == Occurrences(before, v) + if e.node == v then 1 else 0;
      } else {
        assert before + [] == before;
      }
    }
  }

  /** Nothing is pending exactly when every predecessor is done. */
  lemma {:induction false} NothingPending(edges: seq<Edge>, v: string, done: set<string>)
    ensures Pending(edges, v, done) == 0 <==> forall e :: e in edges && e.node == v ==> e.pred in done
  {
    if edges == [] {
    } else {
      var rest := edges[..|edges| - 1];
      NothingPending(rest, v, done);
      assert forall e :: e in edges <==> e in rest || e == edges[|edges| - 1];
    }
  }

  lemma {:induction false} SuccessorsAreNodes(edges: seq<Edge>, u: string)
    ensures forall v :: v in Successors(edges, u) ==> exists e :: e in edges && e.node == v
  {
    if edges == [] {
    } else {
      var rest := edges[..|edges| - 1];
      SuccessorsAreNodes(rest, u);
      forall v | v in Successors(edges, u) ensures exists e :: e in edges && e.node == v {
        if v in Successors(rest, u) {
          var e :| e in rest && e.node == v;
          assert e in edges;
        } else {
          assert edges[|edges| - 1] in edges;
        }
      }
    }
  }

  lemma {:induction false} OccurrencesSplit(s: seq<string>, k: nat, v: string)
    requires k <= |s|
    ensures Occurrences(s[..k], v) <= Occurrences(s, v)
    ensures k < |s| ==> Occurrences(s[..k + 1], v) == Occurrences(s[..k], v) + if s[k] == v then 1 else 0
    decreases |s| - k
  {
    if k == |s| {
      assert s[..k] == s;
    } else {
      assert s[..k + 1][..k] == s[..k];
      OccurrencesSplit(s, k + 1, v);
    }
  }

  lemma {:induction false} NoSuccessors(edges: seq<Edge>, u: string)
    requires forall e :: e in edges ==> e.pred != u
    ensures Successors(edges, u) == []
  {
    if edges == [] {
    } else {
      assert edges[|edges| - 1] in edges;
      NoSuccessors(edges[..|edges| - 1], u);
    }
  }

  /** Every count is the number of edges from unfinished nodes, minus the successors already visited. */
  ghost predicate CountsMatch(g: Graph, counts: map<string, int>, done: set<string>, visited: seq<string>) {
    && counts.Keys == Elems(g.nodes)
    && forall v :: v in counts ==> counts[v] == Pending(g.edges, v, done) - Occurrences(visited, v)
  }

  lemma NoEdgesNoCounts(g: Graph, counts: map<string, int>)
    requires CountsMatch(g, counts, {}, [])
    ensures g.edges == [] ==> forall v :: v in counts ==> counts[v] == 0
  {
  }

  ghost predicate SuccessorsMatch(g: Graph, lists: map<string, seq<string>>) {
    && lists.Keys == Elems(g.nodes)
    && forall v :: v in lists ==> lists[v] == Successors(g.edges, v)
  }

  /** The nodes released so far are those that nothing blocks. */
  ghost predicate ReleasedMatch(counts: map<string, int>, released: seq<string>) {
    && NoDup(released)
    && forall v :: v in released <==> v in counts && counts[v] == 0
  }

  lemma CountStep(g: Graph, counts: map<string, int>, done: set<string>, name: string, k: nat)
    requires WellFormed(g) && name !in done && k < |Successors(g.edges, name)|
    requires CountsMatch(g, counts, done, Successors(g.edges, name)[..k])
    ensures var target := Successors(g.edges, name)[k];
      && target in counts && counts[target] >= 1
      && CountsMatch(g, counts[target := counts[target] - 1], done, Successors(g.edges, name)[..k + 1])
  {
    var targets := Successors(g.edges, name);
    var target := targets[k];
    SuccessorsAreNodes(g.edges, name);
    FinishingOne(g.edges, name, target, done);
    OccurrencesSplit(targets, k + 1, target);
    OccurrencesSplit(targets, k, target);
    assert target in targets;
    var e :| e in g.edges && e.node == target;
    assert target in counts;
    var next := counts[target := counts[target] - 1];
    forall v | v in next
      ensures next[v] == Pending(g.edges, v, done) - Occurrences(targets[..k + 1], v)
    {
      OccurrencesSplit(targets, k, v);
    }
  }

  lemma ReleaseStep(counts: map<string, int>, released: seq<string>, target: string)
    requires ReleasedMatch(counts, released) && target in counts && counts[target] >= 1
    ensures ReleasedMatch(counts[target := counts[target] - 1],
                          if counts[target] == 1 then released + [target] else released)
  {
    assert target !in released;
    var next := counts[target := counts[target] - 1];
    assert forall v :: v in released + [target] <==> v in released || v == target;
    assert forall v :: v in next <==> v in counts;
    assert forall v :: v != target && v in next ==> next[v] == counts[v];
  }

  lemma CountFinished(g: Graph, counts: map<string, int>, done: set<string>, name: string)
    requires name !in done
    requires CountsMatch(g, counts, done, Successors(g.edges, name))
    ensures CountsMatch(g, counts, done + {name}, [])
  {
    forall v | v in counts ensures counts[v] == Pending(g.edges, v, done + {name}) {
      FinishingOne(g.edges, name, v, done);
    }
  }

  /** Recording a new edge raises one count and lengthens one successor list. */
  lemma EdgeStep(g: Graph, counts: map<string, int>, lists: map<string, seq<string>>, name: string, depend: string)
    requires WellFormed(g) && name in g.nodes && depend in g.nodes
    requires CountsMatch(g, counts, {}, []) && SuccessorsMatch(g, lists)
    ensures var h := g.(edges := g.edges + [Edge(name, depend)]);
      && WellFormed(h)
      && CountsMatch(h, counts[name := counts[name] + 1], {}, [])
      && SuccessorsMatch(h, lists[depend := lists[depend] + [name]])
  {
    var edges := g.edges + [Edge(name, depend)];
    assert edges[..|edges| - 1] == g.edges;
    forall v ensures Successors(edges, v) == Successors(g.edges, v) + if v == depend then [name] else [] {
    }
    assert forall v :: Successors(g.edges, v) + [] == Successors(g.edges, v);
  }

  lemma NodeStep(g: Graph, counts: map<string, int>, lists: map<string, seq<string>>, name: string)
    requires WellFormed(g) && name !in g.nodes
    requires CountsMatch(g, counts, {}, []) && SuccessorsMatch(g, lists)
    ensures var h := g.(nodes := g.nodes + [name]);
      && WellFormed(h) && CountsMatch(h, counts[name := 0], {}, []) && SuccessorsMatch(h, lists[name := []])
  {
    NothingPending(g.edges, name, {});
    NoSuccessors(g.edges, name);
    assert Elems(g.nodes + [name]) == Elems(g.nodes) + {name};
  }

  /** The nodes without a predecessor among the first `i`, in their order. */
  ghost predicate ScannedTo(g: Graph, counts: map<string, int>, i: nat, ready: seq<string>)
    requires i <= |g.nodes|
  {
    && NoDup(ready)
    && (forall v :: v in ready ==> v in g.nodes[..i] && v in counts && counts[v] == 0)
    && (forall k :: 0 <= k < i && g.nodes[k] in counts && counts[g.nodes[k]] == 0 ==> g.nodes[k] in ready)
    && (g.edges == [] ==> ready == g.nodes[..i])
  }

  lemma ScanStart(g: Graph, counts: map<string, int>)
    ensures ScannedTo(g, counts, 0, [])
  {
  }

  lemma ScanStep(g: Graph, counts: map<string, int>, i: nat, ready: seq<string>)
    requires WellFormed(g) && counts.Keys == Elems(g.nodes) && i < |g.nodes|
    requires g.edges == [] ==> forall v :: v in counts ==> counts[v] == 0
    requires ScannedTo(g, counts, i, ready)
    ensures g.nodes[i] in counts
    ensures ScannedTo(g, counts, i + 1, if counts[g.nodes[i]] == 0 then ready + [g.nodes[i]] else ready)
  {
    assert g.nodes[..i + 1] == g.nodes[..i] + [g.nodes[i]];
    assert g.nodes[i] !in g.nodes[..i];
  }

  lemma ScanEnd(g: Graph, counts: map<string, int>, ready: seq<string>)
    requires WellFormed(g) && counts.Keys == Elems(g.nodes)
    requires ScannedTo(g, counts, |g.nodes|, ready)
    ensures ReleasedMatch(counts, [] + ready) && (g.edges == [] ==> ready == g.nodes)
  {
    assert g.nodes[..|g.nodes|] == g.nodes && [] + ready == ready;
    forall v | v in counts && counts[v] == 0 ensures v in ready {
      assert v in Elems(g.nodes);
    }
  }

  /** Nodes nothing blocks may follow the nodes that are done. */
  lemma ReleasedExtend(g: Graph, counts: map<string, int>, order: seq<string>, group: seq<string>)
    requires WellFormed(g) && Respects(g.edges, order)
    requires CountsMatch(g, counts, Elems(order), []) && ReleasedMatch(counts, order + group)
    ensures Respects(g.edges, order + group)
  {
    var longer := order + group;
    forall e, j | e in g.edges && 0 <= j < |longer| && longer[j] == e.node
      ensures e.pred in longer[..j]
    {
      if j < |order| {
        assert longer[..j] == order[..j];
      } else {
        assert longer[j] in longer;
        NothingPending(g.edges, e.node, Elems(order));
        assert longer[..j] == order + group[..j - |order|];
      }
    }
  }

  lemma ReleasedAreCounted(counts: map<string, int>, released: seq<string>, v: string)
    requires ReleasedMatch(counts, released) && v in released
    ensures v in counts
  {
  }

  /** A member of the group in hand is finished once, after the members before it. */
  lemma GroupMember(order: seq<string>, group: seq<string>, ready: seq<string>, counts: map<string, int>, i: nat)
    requires ReleasedMatch(counts, order + group + ready) && i < |group|
    ensures group[i] in order + group && group[i] !in Elems(order + group[..i])
    ensures Elems(order + group[..i + 1]) == Elems(order + group[..i]) + {group[i]}
  {
    var all := order + group + ready;
    assert all[|order| + i] == group[i];
    assert all[..|order| + i] == order + group[..i];
    assert order + group[..i + 1] == order + group[..i] + [group[i]];
    assert (order + group)[|order| + i] == group[i];
  }

  /** There are no more released nodes than nodes, and as many only when every node is released. */
  lemma ReleasedFit(g: Graph, counts: map<string, int>, released: seq<string>)
    requires WellFormed(g) && counts.Keys == Elems(g.nodes) && ReleasedMatch(counts, released)
    ensures |released| <= |g.nodes|
    ensures |released| == |g.nodes| ==> NoDup(released) && forall v :: v in released <==> v in g.nodes
  {
    NoDupCount(g.nodes);
    NoDupFits(released, Elems(g.nodes));
  }

  /** Nodes left over when the queue runs dry block each other. */
  lemma LeftoversAreCyclic(g: Graph, counts: map<string, int>, order: seq<string>)
    requires WellFormed(g) && |order| < |g.nodes|
    requires CountsMatch(g, counts, Elems(order), []) && ReleasedMatch(counts, order)
    ensures Cyclic(g)
  {
    var stuck := Elems(g.nodes) - Elems(order);
    if stuck == {} {
      forall v | v in g.nodes ensures v in Elems(order) {
        assert v in Elems(g.nodes);
        assert v in Elems(order) || v in stuck;
      }
      NoDupFits(g.nodes, Elems(order));
      NoDupCount(order);
      assert false;
    }
    forall v | v in stuck ensures HasBlocker(g, stuck, v) {
      NothingPending(g.edges, v, Elems(order));
      var e :| e in g.edges && e.node == v && e.pred !in Elems(order);
      assert e.pred in stuck;
    }
    StuckIsCyclic(g, stuck);
  }

  function WithNode(g: Graph, name: string): Graph {
    if name in g.nodes then g else g.(nodes := g.nodes + [name])
  }

  function WithEdge(g: Graph, name: string, depend: string): Graph {
    var h := WithNode(WithNode(g, name), depend);
    h.(edges := h.edges + [Edge(name, depend)])
  }

  class TopologicalSorter {
    var nodes: seq<string>
    var unfinished: map<string, int>
    var successors: map<string, seq<string>>
    var ready: seq<string>
    ghost var edges: seq<Edge>

    ghost function Contents(): Graph
      reads this
    {
      Graph(nodes, edges)
    }

    /** The counts and successor lists mirror the graph, once the nodes in `done` are finished. */
    ghost predicate Counted(done: set<string>)
      reads this
    {
      && WellFormed(Contents())
      && unfinished.Keys == successors.Keys == Elems(nodes)
      && CountsMatch(Contents(), unfinished, done, [])
      && SuccessorsMatch(Contents(), successors)
    }

    ghost predicate Valid()
      reads this
    {
      Counted({})
    }

    constructor ()
      ensures Valid() && Contents() == Graph([], [])
    {
      nodes, unfinished, successors, ready, edges := [], map[], map[], [], [];
    }

    /** Looks a node up, creating it on first mention. */
    method Add(name: string)
      requires Valid()
      modifies this
      ensures Valid() && Contents() == WithNode(old(Contents()), name)
    {
      if name !in nodes {
        NodeStep(Contents(), unfinished, successors, name);
        nodes := nodes + [name];
        unfinished := unfinished[name := 0];
        successors := successors[name := []];
      }
    }

    method AddDependency(name: string, depend: string)
      requires Valid()
      modifies this
      ensures Valid() && Contents() == WithEdge(old(Contents()), name, depend)
    {
      hide CountsMatch, SuccessorsMatch, WellFormed;
      Add(name);
      Add(depend);
      EdgeStep(Contents(), unfinished, successors, name, depend);
      unfinished := unfinished[name := unfinished[name] + 1];
      successors := successors[depend := successors[depend] + [name]];
      edges := edges + [Edge(name, depend)];
    }

    /** Hands the nodes out group by group; fails when some nodes block each other. */
    method StaticOrder() returns (result: Option<seq<string>>)
      requires Valid()
      modifies this
      ensures Contents() == old(Contents())
      ensures result.Some? <==> !Cyclic(Contents())
      ensures result.Some? ==> IsTopologicalOrder(Contents(), result.value)
      ensures result.Some? && edges == [] ==> result.value == nodes
    {
      hide CountsMatch, SuccessorsMatch, WellFormed, ReleasedMatch, Respects, NoDup, IsTopologicalOrder, Cyclic, Elems;
      Prepare();
      var order: seq<string> := [];
      assert Elems<string>([]) == {} by { NoElems(); }
      NothingToRespect(edges);
      while ready != []
        invariant Contents() == old(Contents())
        invariant Counted(Elems(order)) && ReleasedMatch(unfinished, order + ready)
        invariant Respects(edges, order)
        invariant edges == [] ==> order + ready == nodes
        decreases |nodes| - |order|
      {
        ReleasedFit(Contents(), unfinished, order + ready);
        ReleasedExtend(Contents(), unfinished, order, ready);
        var group := ready;
        ready := [];
        FinishGroup(order, group);
        order := order + group;
      }
      assert order + ready == order;
      ReleasedFit(Contents(), unfinished, order);
      if |order| == |nodes| {
        CompleteOrder(Contents(), order);
        result := Some(order);
      } else {
        LeftoversAreCyclic(Contents(), unfinished, order);
        result := None;
      }
    }

    /** Fills the queue with the nodes that have no predecessor. */
    method Prepare()
      requires Valid()
      modifies this`ready
      ensures ReleasedMatch(unfinished, [] + ready)
      ensures edges == [] ==> ready == nodes
    {
      hide CountsMatch, SuccessorsMatch, ScannedTo;
      NoEdgesNoCounts(Contents(), unfinished);
      ready := [];
      ScanStart(Contents(), unfinished);
      var i := 0;
      while i < |nodes|
        invariant 0 <= i <= |nodes|
        invariant ScannedTo(Contents(), unfinished, i, ready)
      {
        ScanStep(Contents(), unfinished, i, ready);
        if unfinished[nodes[i]] == 0 {
          ready := ready + [nodes[i]];
        }
        i := i + 1;
      }
      ScanEnd(Contents(), unfinished, ready);
    }

    method FinishGroup(ghost order: seq<string>, group: seq<string>)
      requires Counted(Elems(order)) && ReleasedMatch(unfinished, order + group)
      requires ready == []
      modifies this`unfinished, this`ready
      ensures Counted(Elems(order + group)) && ReleasedMatch(unfinished, order + group + ready)
      ensures edges == [] ==> ready == []
    {
      hide CountsMatch, SuccessorsMatch, WellFormed, ReleasedMatch, NoDup, Elems;
      var i := 0;
      assert order + group[..0] == order;
      assert order + group + ready == order + group;
      while i < |group|
        invariant 0 <= i <= |group|
        invariant Counted(Elems(order + group[..i])) && ReleasedMatch(unfinished, order + group + ready)
        invariant edges == [] ==> ready == []
      {
        ghost var out := order + group;
        GroupMember(order, group, ready, unfinished, i);
        FinishNode(group[i], out, Elems(order + group[..i]));
        i := i + 1;
      }
      assert group[..i] == group;
    }

    /** Releases the successors of a finished node that nothing else blocks. */
    method FinishNode(name: string, ghost out: seq<string>, ghost done: set<string>)
      requires Counted(done) && ReleasedMatch(unfinished, out + ready)
      requires name in out && name !in done
      modifies this`unfinished, this`ready
      ensures Counted(done + {name}) && ReleasedMatch(unfinished, out + ready)
      ensures edges == [] ==> ready == old(ready)
    {
      hide CountsMatch, WellFormed, ReleasedMatch;
      assert name in unfinished.Keys by {
        assert name in out + ready;
        ReleasedAreCounted(unfinished, out + ready, name);
      }
      var targets := successors[name];
      var k := 0;
      assert targets[..0] == [];
      while k < |targets|
        invariant 0 <= k <= |targets|
        invariant CountsMatch(Contents(), unfinished, done, targets[..k])
        invariant ReleasedMatch(unfinished, out + ready)
        invariant edges == [] ==> ready == old(ready)
      {
        CountStep(Contents(), unfinished, done, name, k);
        ReleaseStep(unfinished, out + ready, targets[k]);
        unfinished := unfinished[targets[k] := unfinished[targets[k]] - 1];
        if unfinished[targets[k]] == 0 {
          assert out + (ready + [targets[k]]) == out + ready + [targets[k]];
          ready := ready + [targets[k]];
        }
        k := k + 1;
      }
      assert targets[..k] == targets;
      CountFinished(Contents(), unfinished, done, name);
    }
  }
}
