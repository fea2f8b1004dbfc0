/** find_path of src/sorting/groups.rs, with the Bellman-Ford search that it uses, over exact integers. */
module GroupsPath {
  import opened Wrappers
  import opened Graphs
  import opened GroupsGraph

  const USER_EDGE_WEIGHT: int := -1_000_000

  function WeightOf(e: Edge): int {
    if e.kind == UserLoadAfter then USER_EDGE_WEIGHT else 1
  }

  function Weight(p: seq<Edge>): int {
    if p == [] then 0 else Weight(p[..|p| - 1]) + WeightOf(p[|p| - 1])
  }

  function UserEdges(p: seq<Edge>): nat {
    if p == [] then 0 else UserEdges(p[..|p| - 1]) + if p[|p| - 1].kind == UserLoadAfter then 1 else 0
  }

  lemma {:induction false} WeightCounts(p: seq<Edge>)
    ensures UserEdges(p) <= |p|
    ensures Weight(p) == USER_EDGE_WEIGHT * UserEdges(p) + (|p| - UserEdges(p))
  {
    if p != [] {
      WeightCounts(p[..|p| - 1]);
    }
  }

  lemma WeightAppend(p: seq<Edge>, e: Edge)
    ensures Weight(p + [e]) == Weight(p) + WeightOf(e)
  {
    assert (p + [e])[..|p|] == p;
  }

  lemma {:induction false} WeightPrepend(e: Edge, p: seq<Edge>)
    ensures Weight([e] + p) == WeightOf(e) + Weight(p)
  {
    if p == [] {
      assert [e] + p == [] + [e];
      WeightAppend([], e);
    } else {
      assert ([e] + p)[..|p|] == [e] + p[..|p| - 1];
      WeightPrepend(e, p[..|p| - 1]);
    }
  }

  /** What find_path relies on: everything that build_groups_graph ensures of the graphs it returns. */
  ghost predicate IsGroupsGraph(g: Graph) {
    g.Valid() && g.UniqueNames() && OneEdgePerPair(g.edges) && Acyclic(g)
  }

  // ---------- shortest distances ----------

  /** None stands for an infinite distance. */
  type Distances = seq<Option<int>>

  predicate CanRelax(dist: Distances, e: Edge)
    requires e.source < |dist| && e.target < |dist|
  {
    && dist[e.source].Some?
    && (dist[e.target].None? || dist[e.source].value + WeightOf(e) < dist[e.target].value)
  }

  ghost predicate AtMost(d: Option<int>, bound: int) {
    d.Some? && d.value <= bound
  }

  /** Every distance is the weight of a walk. */
  ghost predicate Attained(g: Graph, s: nat, dist: Distances) {
    |dist| == |g.names| &&
    forall v :: 0 <= v < |dist| && dist[v].Some? ==> exists p :: IsWalk(g, s, p, v) && Weight(p) == dist[v].value
  }

  /** No walk of at most r edges weighs less than the distance to its end. */
  ghost predicate Bounds(g: Graph, s: nat, dist: Distances, r: nat) {
    |dist| == |g.names| &&
    forall v: nat, p: seq<Edge> :: v < |dist| && IsWalk(g, s, p, v) && |p| <= r ==> AtMost(dist[v], Weight(p))
  }

  /** No walk at all weighs less than the distance to its end. */
  ghost predicate Shortest(g: Graph, s: nat, dist: Distances) {
    |dist| == |g.names| &&
    forall v: nat, p: seq<Edge> :: v < |dist| && IsWalk(g, s, p, v) ==> AtMost(dist[v], Weight(p))
  }

  ghost predicate NoGreater(dist: Distances, dist0: Distances) {
    |dist| == |dist0| &&
    forall v :: 0 <= v < |dist| && dist0[v].Some? ==> AtMost(dist[v], dist0[v].value)
  }

  /** e has been relaxed since the distances were dist0. */
  ghost predicate Relaxed(dist0: Distances, dist: Distances, e: Edge) {
    e.source < |dist0| && e.target < |dist| &&
    (dist0[e.source].Some? ==> AtMost(dist[e.target], dist0[e.source].value + WeightOf(e)))
  }

  lemma WalkLast(g: Graph, s: nat, p: seq<Edge>, v: nat)
    requires IsWalk(g, s, p, v) && p != []
    ensures p[|p| - 1] in g.edges && p[|p| - 1].target == v && IsWalk(g, s, p[..|p| - 1], p[|p| - 1].source)
  {
    var k := |p| - 1;
    var u := WalkSplit(g, s, p, v, k);
    assert p[k..] == [p[k]] && [p[k]][1..] == [];
    assert IsWalk(g, p[k].target, [], v);
  }

  /** One round of relaxing every edge extends the bound to walks with one more edge. */
  lemma RoundExtends(g: Graph, s: nat, dist0: Distances, dist: Distances, r: nat)
    requires g.Valid() && Bounds(g, s, dist0, r) && NoGreater(dist, dist0)
    requires forall e <- g.edges :: Relaxed(dist0, dist, e)
    ensures Bounds(g, s, dist, r + 1)
  {
    forall v: nat, p: seq<Edge> | v < |dist| && IsWalk(g, s, p, v) && |p| <= r + 1
      ensures AtMost(dist[v], Weight(p))
    {
      if |p| <= r {
        assert AtMost(dist0[v], Weight(p));
      } else {
        WalkLast(g, s, p, v);
        assert Relaxed(dist0, dist, p[|p| - 1]);
        assert AtMost(dist0[p[|p| - 1].source], Weight(p[..|p| - 1]));
      }
    }
  }

  /** When a round changes nothing, the distances bound walks of every length. */
  lemma {:induction false} SettledBound(g: Graph, s: nat, dist: Distances, v: nat, p: seq<Edge>)
    requires g.Valid() && |dist| == |g.names| && s < |dist| && AtMost(dist[s], 0)
    requires forall e <- g.edges :: Relaxed(dist, dist, e)
    requires v < |dist| && IsWalk(g, s, p, v)
    ensures AtMost(dist[v], Weight(p))
    decreases |p|
  {
    if p != [] {
      WalkLast(g, s, p, v);
      SettledBound(g, s, dist, p[|p| - 1].source, p[..|p| - 1]);
      assert Relaxed(dist, dist, p[|p| - 1]);
    }
  }

  // ---------- predecessors ----------

  ghost predicate PredecessorEdge(g: Graph, dist: Distances, u: nat, v: nat, e: Edge) {
    && e in g.edges && e.source == u && e.target == v
    && u < |dist| && v < |dist| && dist[u].Some? && dist[v].Some?
    && dist[v].value >= dist[u].value + WeightOf(e)
  }

  /** Each predecessor is joined to its node by an edge that accounts for the node's distance. */
  ghost predicate Tree(g: Graph, s: nat, dist: Distances, pred: seq<Option<nat>>) {
    && |dist| == |pred| == |g.names| && s < |dist| && dist[s] == Some(0) && pred[s].None?
    && (forall v {:trigger pred[v]} :: 0 <= v < |pred| && pred[v].Some? ==>
          exists e :: PredecessorEdge(g, dist, pred[v].value, v, e))
    && (forall v {:trigger pred[v]} :: 0 <= v < |pred| && v != s && dist[v].Some? ==> pred[v].Some?)
  }

  lemma ClosedWalkIsCycle(g: Graph, s: nat, p: seq<Edge>)
    requires IsWalk(g, s, p, s) && p != []
    ensures IsCycle(g, s, p)
  {
  }

  lemma SelfLoopIsCycle(g: Graph, e: Edge)
    requires g.Valid() && e in g.edges && e.source == e.target
    ensures IsCycle(g, e.source, [] + [e])
  {
    assert IsWalk(g, e.source, [], e.source);
    WalkAppend(g, e.source, [], e.source, e);
  }

  lemma RelaxAttains(g: Graph, s: nat, dist: Distances, e: Edge)
    requires g.Valid() && Acyclic(g) && Attained(g, s, dist) && e in g.edges && CanRelax(dist, e)
    ensures Attained(g, s, dist[e.target := Some(dist[e.source].value + WeightOf(e))])
    ensures e.target != s && e.source != e.target
  {
    var d := dist[e.source].value + WeightOf(e);
    var dist' := dist[e.target := Some(d)];
    var p :| IsWalk(g, s, p, e.source) && Weight(p) == dist[e.source].value;
    WalkAppend(g, s, p, e.source, e);
    WeightAppend(p, e);
    if e.target == s {
      ClosedWalkIsCycle(g, s, p + [e]);
    }
    if e.source == e.target {
      SelfLoopIsCycle(g, e);
    }
    forall v: nat | v < |dist'| && dist'[v].Some?
      ensures exists q :: IsWalk(g, s, q, v) && Weight(q) == dist'[v].value
    {
      if v == e.target {
        assert IsWalk(g, s, p + [e], v) && Weight(p + [e]) == d;
      } else {
        assert dist[v] == dist'[v];
      }
    }
  }

  lemma RelaxTree(g: Graph, s: nat, dist: Distances, pred: seq<Option<nat>>, e: Edge)
    requires g.Valid() && Tree(g, s, dist, pred) && e in g.edges && CanRelax(dist, e)
    requires e.target != s && e.source != e.target
    ensures Tree(g, s, dist[e.target := Some(dist[e.source].value + WeightOf(e))], pred[e.target := Some(e.source)])
  {
    var d := dist[e.source].value + WeightOf(e);
    var dist', pred' := dist[e.target := Some(d)], pred[e.target := Some(e.source)];
    forall v: nat | v < |pred'| && pred'[v].Some?
      ensures exists f :: PredecessorEdge(g, dist', pred'[v].value, v, f)
    {
      if v == e.target {
        assert PredecessorEdge(g, dist', e.source, v, e);
      } else {
        assert pred[v] == pred'[v];
        var f :| PredecessorEdge(g, dist, pred[v].value, v, f);
        assert PredecessorEdge(g, dist', pred[v].value, v, f);
      }
    }
    forall v: nat | v < |pred'| && v != s && dist'[v].Some?
      ensures pred'[v].Some?
    {
      assert v != e.target ==> pred[v] == pred'[v] && dist[v] == dist'[v];
    }
  }

  /** The out-edges of n in the order petgraph iterates over them: newest first. */
  function NewestFirst(es: seq<Edge>): (r: seq<Edge>)
    ensures forall e :: e in r <==> e in es
  {
    if es == [] then [] else [es[|es| - 1]] + NewestFirst(es[..|es| - 1])
  }

  /** Edges stay relaxed when another is. */
  lemma RelaxKeeps(dist0: Distances, dist: Distances, e: Edge, edges: seq<Edge>)
    requires NoGreater(dist, dist0) && forall x <- edges :: Relaxed(dist0, dist, x)
    requires e.source < |dist| && e.target < |dist| && CanRelax(dist, e)
    ensures var dist' := dist[e.target := Some(dist[e.source].value + WeightOf(e))];
            NoGreater(dist', dist0) && forall x <- edges + [e] :: Relaxed(dist0, dist', x)
  {
    var dist' := dist[e.target := Some(dist[e.source].value + WeightOf(e))];
    forall x <- edges + [e]
      ensures Relaxed(dist0, dist', x)
    {
      if x in edges {
        assert Relaxed(dist0, dist, x);
      }
    }
  }

  lemma NeedsNoRelaxing(dist0: Distances, dist: Distances, e: Edge, edges: seq<Edge>)
    requires NoGreater(dist, dist0) && forall x <- edges :: Relaxed(dist0, dist, x)
    requires e.source < |dist| && e.target < |dist| && !CanRelax(dist, e)
    ensures forall x <- edges + [e] :: Relaxed(dist0, dist, x)
  {
    assert forall x :: x in edges + [e] <==> x in edges || x == e;
  }

  /** Relaxes one edge, where the given other edges have been relaxed since the distances were dist0. */
  method RelaxEdge(g: Graph, s: nat, dist: Distances, pred: seq<Option<nat>>, e: Edge, ghost dist0: Distances,
                   ghost edges: seq<Edge>)
    returns (dist': Distances, pred': seq<Option<nat>>, didUpdate: bool)
    requires g.Valid() && Acyclic(g) && Attained(g, s, dist) && Tree(g, s, dist, pred) && e in g.edges
    requires NoGreater(dist, dist0) && forall x <- edges :: Relaxed(dist0, dist, x)
    ensures Attained(g, s, dist') && Tree(g, s, dist', pred')
    ensures NoGreater(dist', dist0) && forall x <- edges + [e] :: Relaxed(dist0, dist', x)
    ensures !didUpdate ==> dist' == dist && pred' == pred
  {
    dist', pred', didUpdate := dist, pred, false;
    if CanRelax(dist, e) {
      RelaxAttains(g, s, dist, e);
      RelaxTree(g, s, dist, pred, e);
      RelaxKeeps(dist0, dist, e, edges);
      dist' := dist[e.target := Some(dist[e.source].value + WeightOf(e))];
      pred' := pred[e.target := Some(e.source)];
      didUpdate := true;
    } else {
      NeedsNoRelaxing(dist0, dist, e, edges);
    }
  }

  /** Relaxes the edges out of one node. */
  method RelaxNode(g: Graph, s: nat, dist: Distances, pred: seq<Option<nat>>, i: nat)
    returns (dist': Distances, pred': seq<Option<nat>>, didUpdate: bool)
    requires g.Valid() && Acyclic(g) && Attained(g, s, dist) && Tree(g, s, dist, pred) && i < |g.names|
    ensures Attained(g, s, dist') && Tree(g, s, dist', pred') && NoGreater(dist', dist)
    ensures forall e <- OutEdges(g, i) :: Relaxed(dist, dist', e)
    ensures !didUpdate ==> dist' == dist && pred' == pred
  {
    dist', pred', didUpdate := dist, pred, false;
    var edges := NewestFirst(OutEdges(g, i));
    for k := 0 to |edges|
      invariant Attained(g, s, dist') && Tree(g, s, dist', pred') && NoGreater(dist', dist)
      invariant forall e <- edges[..k] :: Relaxed(dist, dist', e)
      invariant !didUpdate ==> dist' == dist && pred' == pred
    {
      assert edges[k] in edges && edges[k] in OutEdges(g, i);
      assert edges[..k + 1] == edges[..k] + [edges[k]];
      var updated;
      dist', pred', updated := RelaxEdge(g, s, dist', pred', edges[k], dist, edges[..k]);
      didUpdate := didUpdate || updated;
    }
    assert edges[..|edges|] == edges;
  }

  method BellmanFord(g: Graph, s: nat) returns (dist: Distances, pred: seq<Option<nat>>, negativeCycle: bool)
    requires g.Valid() && Acyclic(g) && s < |g.names|
    ensures !negativeCycle && Attained(g, s, dist) && Shortest(g, s, dist) && Tree(g, s, dist, pred)
  {
    var n := |g.names|;
    dist := seq(n, _ => None)[s := Some(0)];
    pred := seq(n, _ => None);
    assert IsWalk(g, s, [], s) && Weight([]) == 0;

    var settled := false;
    for round := 1 to n
      invariant !settled
      invariant Attained(g, s, dist) && Tree(g, s, dist, pred) && Bounds(g, s, dist, round - 1)
    {
      var didUpdate := false;
      ghost var dist0 := dist;
      for i := 0 to n
        invariant Attained(g, s, dist) && Tree(g, s, dist, pred) && NoGreater(dist, dist0)
        invariant forall e <- g.edges :: e.source < i ==> Relaxed(dist0, dist, e)
        invariant !didUpdate ==> dist == dist0
      {
        ghost var before := dist;
        var updated;
        dist, pred, updated := RelaxNode(g, s, dist, pred, i);
        RelaxedStays(g, dist0, before, dist, i);
        didUpdate := didUpdate || updated;
      }
      RoundExtends(g, s, dist0, dist, round - 1);
      if !didUpdate {
        settled := true;
        break;
      }
    }

    forall v: nat, p: seq<Edge> | v < |dist| && IsWalk(g, s, p, v)
      ensures AtMost(dist[v], Weight(p))
    {
      if settled {
        SettledBound(g, s, dist, v, p);
      } else {
        AcyclicWalkBound(g, s, p, v);
      }
    }

    negativeCycle := false;
    for i := 0 to n
      invariant !negativeCycle
    {
      var edges := NewestFirst(OutEdges(g, i));
      for k := 0 to |edges|
        invariant !negativeCycle
      {
        assert edges[k] in edges && edges[k] in OutEdges(g, i);
        ShortestCannotRelax(g, s, dist, edges[k]);
        if CanRelax(dist, edges[k]) {
          negativeCycle := true;
        }
      }
    }
  }

  lemma RelaxedStays(g: Graph, dist0: Distances, before: Distances, dist: Distances, i: nat)
    requires g.Valid() && |dist| == |dist0| == |before| == |g.names|
    requires NoGreater(before, dist0) && NoGreater(dist, before)
    requires forall e <- g.edges :: e.source < i ==> Relaxed(dist0, before, e)
    requires forall e <- OutEdges(g, i) :: Relaxed(before, dist, e)
    ensures NoGreater(dist, dist0) && forall e <- g.edges :: e.source < i + 1 ==> Relaxed(dist0, dist, e)
  {
    forall e | e in g.edges && e.source < i + 1
      ensures Relaxed(dist0, dist, e)
    {
      if e.source == i {
        assert Relaxed(before, dist, e);
      } else {
        assert Relaxed(dist0, before, e);
      }
    }
  }

  lemma ShortestCannotRelax(g: Graph, s: nat, dist: Distances, e: Edge)
    requires g.Valid() && Attained(g, s, dist) && Shortest(g, s, dist) && e in g.edges
    ensures !CanRelax(dist, e)
  {
    if dist[e.source].Some? {
      var p :| IsWalk(g, s, p, e.source) && Weight(p) == dist[e.source].value;
      WalkAppend(g, s, p, e.source, e);
      WeightAppend(p, e);
      assert AtMost(dist[e.target], Weight(p + [e]));
    }
  }

  // ---------- the reported path ----------

  datatype PathError =
    | UndefinedGroup(name: string)
    | NegativeCycle
    | PrecedingNodeNotFound(node: nat)
    | EdgeNotFound(fromNode: nat, toNode: nat)

  /** The vertices of a walk, each with the type of the edge to the next. */
  function Reported(g: Graph, w: seq<Edge>, last: nat): (r: seq<Vertex>)
    requires last < |g.names| && SourcesInRange(g, w)
    ensures |r| == |w| + 1
    ensures forall i :: 0 <= i < |w| ==> r[i] == Vertex(g.names[w[i].source], Some(w[i].kind))
    ensures r[|w|] == Vertex(g.names[last], None)
  {
    if w == [] then [Vertex(g.names[last], None)]
    else [Vertex(g.names[w[0].source], Some(w[0].kind))] + Reported(g, w[1..], last)
  }

  ghost predicate IsLightest(g: Graph, a: nat, w: seq<Edge>, b: nat) {
    IsWalk(g, a, w, b) && forall q :: IsWalk(g, a, q, b) ==> Weight(w) <= Weight(q)
  }

  /** w has more user edges than q or, with as many, no more edges of other kinds. */
  ghost predicate Preferred(w: seq<Edge>, q: seq<Edge>) {
    || UserEdges(w) > UserEdges(q)
    || (UserEdges(w) == UserEdges(q) && |w| - UserEdges(w) <= |q| - UserEdges(q))
  }

  /** The largest graph in which no number of other edges can outweigh a user edge. */
  const MAX_NODES: nat := 1_000_002

  lemma LightestIsPreferred(g: Graph, a: nat, w: seq<Edge>, b: nat, q: seq<Edge>)
    requires g.Valid() && Acyclic(g) && a < |g.names| && IsLightest(g, a, w, b) && IsWalk(g, a, q, b)
    requires |g.names| <= MAX_NODES
    ensures Preferred(w, q)
  {
    WeightCounts(w);
    WeightCounts(q);
    AcyclicWalkBound(g, a, q, b);
    if w == [] {
      AcyclicEmptyWalk(g, a, q);
    }
  }

  ghost predicate SourcesInRange(g: Graph, w: seq<Edge>) {
    forall e <- w :: e.source < |g.names|
  }

  /** path lists the walk w, which weighs no more than any other walk from a to b and, in graphs of up to
      MAX_NODES nodes, is preferred to every other. */
  ghost predicate ReportsBest(g: Graph, a: nat, w: seq<Edge>, b: nat, path: seq<Vertex>) {
    && b < |g.names| && SourcesInRange(g, w) && path == Reported(g, w, b)
    && IsLightest(g, a, w, b)
    && (|g.names| <= MAX_NODES ==> forall q :: IsWalk(g, a, q, b) ==> Preferred(w, q))
  }

  ghost predicate IsBest(g: Graph, a: nat, b: nat, path: seq<Vertex>) {
    exists w: seq<Edge> :: ReportsBest(g, a, w, b, path)
  }

  lemma AcyclicEmptyWalk(g: Graph, a: nat, q: seq<Edge>)
    requires Acyclic(g) && IsWalk(g, a, q, a)
    ensures q == []
  {
    assert !IsCycle(g, a, q);
  }

  function FindEdge(edges: seq<Edge>, a: nat, b: nat): (r: Option<Edge>)
    ensures r.Some? ==> r.value in edges && r.value.source == a && r.value.target == b
    ensures r.None? ==> forall e <- edges :: !(e.source == a && e.target == b)
  {
    if edges == [] then None
    else if edges[|edges| - 1].source == a && edges[|edges| - 1].target == b then Some(edges[|edges| - 1])
    else FindEdge(edges[..|edges| - 1], a, b)
  }

  function FindNode(names: seq<string>, n: string): (r: Option<nat>)
    ensures n in names <==> r.Some?
    ensures r.Some? ==> r.value == IndexOf(names, n)
  {
    if n in names then Some(IndexOf(names, n)) else None
  }

  function Reversed(s: seq<Vertex>): (r: seq<Vertex>)
    ensures |r| == |s| && forall i :: 0 <= i < |s| ==> r[i] == s[|s| - 1 - i]
  {
    if s == [] then [] else Reversed(s[1..]) + [s[0]]
  }

  lemma OneEdgeEach(g: Graph, e: Edge, f: Edge)
    requires IsGroupsGraph(g) && e in g.edges && f in g.edges && SameEnds(e, f)
    ensures e == f
  {
    var i :| 0 <= i < |g.edges| && g.edges[i] == e;
    var j :| 0 <= j < |g.edges| && g.edges[j] == f;
    assert SameEnds(g.edges[i], g.edges[j]);
  }

  /** One step back along the predecessors: the edge is a real one and accounts exactly for the distance. */
  lemma StepBack(g: Graph, s: nat, dist: Distances, pred: seq<Option<nat>>, v: nat)
    requires IsGroupsGraph(g) && Attained(g, s, dist) && Shortest(g, s, dist) && Tree(g, s, dist, pred)
    requires v < |g.names| && v != s && pred[v].Some?
    ensures var u := pred[v].value;
            && u < |g.names| && u != v && FindEdge(g.edges, u, v).Some?
            && dist[u].Some? && dist[v].Some?
            && dist[v].value == dist[u].value + WeightOf(FindEdge(g.edges, u, v).value)
  {
    var u := pred[v].value;
    var e :| PredecessorEdge(g, dist, u, v, e);
    ShortestCannotRelax(g, s, dist, e);
    OneEdgeEach(g, e, FindEdge(g.edges, u, v).value);
  }

  /** path lists, backwards, a lightest-so-far walk from current to the goal. */
  ghost predicate Traced(g: Graph, dist: Distances, goal: nat, current: nat, w: seq<Edge>, path: seq<Vertex>) {
    && goal < |dist| && current < |dist| == |g.names|
    && IsWalk(g, current, w, goal)
    && SourcesInRange(g, w)
    && path == Reversed(Reported(g, w, goal))
    && (dist[goal].Some? ==> dist[current].Some? && Weight(w) == dist[goal].value - dist[current].value)
    && (dist[goal].None? ==> current == goal)
  }

  lemma TracedInRange(g: Graph, s: nat, dist: Distances, pred: seq<Option<nat>>, goal: nat, v: nat, w: seq<Edge>,
                      path: seq<Vertex>)
    requires IsGroupsGraph(g) && Tree(g, s, dist, pred) && Traced(g, dist, goal, v, w, path)
    ensures v < |pred| == |g.names| && |w| < |g.names|
  {
    AcyclicWalkBound(g, v, w, goal);
  }

  /** The trail of predecessors ends early only when the goal cannot be reached. */
  lemma NotTraced(g: Graph, s: nat, dist: Distances, pred: seq<Option<nat>>, goal: nat, v: nat, w: seq<Edge>,
                  path: seq<Vertex>)
    requires Shortest(g, s, dist) && Tree(g, s, dist, pred) && Traced(g, dist, goal, v, w, path)
    requires v != s && pred[v].None?
    ensures !Reaches(g, s, goal)
  {
    assert dist[v].None? && dist[goal].None?;
  }

  lemma TracedStep(g: Graph, s: nat, dist: Distances, pred: seq<Option<nat>>, goal: nat, v: nat, w: seq<Edge>,
                   path: seq<Vertex>)
    requires IsGroupsGraph(g) && Attained(g, s, dist) && Shortest(g, s, dist) && Tree(g, s, dist, pred)
    requires Traced(g, dist, goal, v, w, path) && v != s && pred[v].Some?
    ensures pred[v].value < |g.names| && FindEdge(g.edges, pred[v].value, v).Some?
    ensures pred[v].value != v
    ensures var e := FindEdge(g.edges, pred[v].value, v).value;
            Traced(g, dist, goal, pred[v].value, [e] + w, path + [Vertex(g.names[pred[v].value], Some(e.kind))])
  {
    StepBack(g, s, dist, pred, v);
    var e := FindEdge(g.edges, pred[v].value, v).value;
    WeightPrepend(e, w);
    assert ([e] + w)[1..] == w;
    var reported := Reported(g, [e] + w, goal);
    assert reported[1..] == Reported(g, w, goal);
  }

  /** Follows the predecessors back from goal to source. Nothing is returned if they do not lead there. */
  method FollowPredecessors(g: Graph, source: nat, goal: nat, dist: Distances, pred: seq<Option<nat>>)
    returns (r: Result<seq<Vertex>, PathError>, ghost w: seq<Edge>)
    requires IsGroupsGraph(g) && source < |g.names| && goal < |g.names|
    requires Attained(g, source, dist) && Shortest(g, source, dist) && Tree(g, source, dist, pred)
    ensures r.Ok?
    ensures r.value == [] ==> !Reaches(g, source, goal)
    ensures r.value != [] ==> Traced(g, dist, goal, source, w, r.value)
  {
    var path := [Vertex(g.names[goal], None)];
    var current: nat := goal;
    w := [];
    while current != source
      invariant path != [] && Traced(g, dist, goal, current, w, path)
      decreases |g.names| - |w|
    {
      TracedInRange(g, source, dist, pred, goal, current, w, path);
      if current >= |pred| {
        return Err(PrecedingNodeNotFound(current)), w;
      }
      if pred[current].None? {
        NotTraced(g, source, dist, pred, goal, current, w, path);
        return Ok([]), w;
      }
      TracedStep(g, source, dist, pred, goal, current, w, path);
      var preceding: nat := pred[current].value;
      if preceding == current {
        return Ok([]), w;
      }
      var edge := FindEdge(g.edges, preceding, current);
      if edge.None? {
        return Err(EdgeNotFound(preceding, current)), w;
      }
      path := path + [Vertex(g.names[preceding], Some(edge.value.kind))];
      w := [edge.value] + w;
      current := preceding;
    }
    return Ok(path), w;
  }

  method TraceBack(g: Graph, source: nat, goal: nat, dist: Distances, pred: seq<Option<nat>>)
    returns (r: Result<seq<Vertex>, PathError>)
    requires IsGroupsGraph(g) && source < |g.names| && goal < |g.names|
    requires Attained(g, source, dist) && Shortest(g, source, dist) && Tree(g, source, dist, pred)
    ensures r.Ok? && (r.value == [] <==> !Reaches(g, source, goal))
    ensures r.value != [] ==> IsBest(g, source, goal, r.value)
  {
    ghost var w;
    r, w := FollowPredecessors(g, source, goal, dist, pred);
    if r.Ok? && r.value != [] {
      LightestTraced(g, source, dist, pred, goal, w, r.value);
      r := Ok(Reversed(r.value));
    }
  }

  /** The path is empty exactly when there is none. Otherwise it reports a lightest walk which, in graphs
      of up to MAX_NODES nodes, has the most user edges and among those the fewest other edges. */
  method FindPath(g: Graph, fromGroupName: string, toGroupName: string) returns (r: Result<seq<Vertex>, PathError>)
    requires IsGroupsGraph(g)
    ensures r.Ok? <==> fromGroupName in g.names && toGroupName in g.names
    ensures r.Err? ==>
              r.error == PathError.UndefinedGroup(if fromGroupName in g.names then toGroupName else fromGroupName)
    ensures r.Ok? ==> (r.value == [] <==> !Reaches(g, IndexOf(g.names, fromGroupName), IndexOf(g.names, toGroupName)))
    ensures r.Ok? && r.value != [] ==>
              IsBest(g, IndexOf(g.names, fromGroupName), IndexOf(g.names, toGroupName), r.value)
  {
    var fromVertex := FindNode(g.names, fromGroupName);
    if fromVertex.None? {
      return Err(PathError.UndefinedGroup(fromGroupName));
    }
    var toVertex := FindNode(g.names, toGroupName);
    if toVertex.None? {
      return Err(PathError.UndefinedGroup(toGroupName));
    }

    var dist, pred, negativeCycle := BellmanFord(g, fromVertex.value);
    if negativeCycle {
      return Err(NegativeCycle);
    }
    r := TraceBack(g, fromVertex.value, toVertex.value, dist, pred);
  }

  lemma LightestTraced(g: Graph, s: nat, dist: Distances, pred: seq<Option<nat>>, goal: nat, w: seq<Edge>,
                       path: seq<Vertex>)
    requires IsGroupsGraph(g) && Shortest(g, s, dist) && Tree(g, s, dist, pred) && Traced(g, dist, goal, s, w, path)
    ensures Reaches(g, s, goal) && path != [] && IsBest(g, s, goal, Reversed(path))
  {
    forall q | IsWalk(g, s, q, goal)
      ensures Weight(w) <= Weight(q)
    {
      assert AtMost(dist[goal], Weight(q));
    }
    if |g.names| <= MAX_NODES {
      forall q | IsWalk(g, s, q, goal)
        ensures Preferred(w, q)
      {
        LightestIsPreferred(g, s, w, goal, q);
      }
    }
    assert Reversed(path) == Reported(g, w, goal);
    assert ReportsBest(g, s, w, goal, Reversed(path));
  }
}
