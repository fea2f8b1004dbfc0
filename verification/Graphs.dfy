/** Directed multigraphs as the sorting code sees them, and the reference notions of walk,
    reachability and cycle that the searches are proved against. */
module Graphs {
  import opened Wrappers

  datatype EdgeType =
    | Hardcoded
    | MasterFlag
    | Master
    | MasterlistRequirement
    | UserRequirement
    | MasterlistLoadAfter
    | UserLoadAfter
    | MasterlistGroup
    | UserGroup
    | RecordOverlap
    | AssetOverlap
    | TieBreak
    | BlueprintMaster

  /** A vertex of a reported path, with the type of the edge to the next vertex if there is one. */
  datatype Vertex = Vertex(name: string, outEdgeType: Option<EdgeType>)

  datatype Edge = Edge(source: nat, target: nat, kind: EdgeType)

  /** Node indices run from 0 to |names| - 1; edges are kept in the order they were added. */
  datatype Graph = Graph(names: seq<string>, edges: seq<Edge>) {
    ghost predicate Valid() {
      forall e <- edges :: e.source < |names| && e.target < |names|
    }

    ghost predicate UniqueNames() {
      forall i, j :: 0 <= i < j < |names| ==> names[i] != names[j]
    }
  }

  /** The edges of es that leave n, in the order they were added. */
  function EdgesFrom(es: seq<Edge>, n: nat): (r: seq<Edge>)
    ensures forall e :: e in r <==> e in es && e.source == n
  {
    if es == [] then []
    else if es[|es| - 1].source == n then EdgesFrom(es[..|es| - 1], n) + [es[|es| - 1]]
    else EdgesFrom(es[..|es| - 1], n)
  }

  /** The edges of es that enter n, in the order they were added. */
  function EdgesTo(es: seq<Edge>, n: nat): (r: seq<Edge>)
    ensures forall e :: e in r <==> e in es && e.target == n
  {
    if es == [] then []
    else if es[|es| - 1].target == n then EdgesTo(es[..|es| - 1], n) + [es[|es| - 1]]
    else EdgesTo(es[..|es| - 1], n)
  }

  /** The out-edges of n, oldest first. */
  function OutEdges(g: Graph, n: nat): (r: seq<Edge>)
    ensures forall e :: e in r <==> e in g.edges && e.source == n
  {
    EdgesFrom(g.edges, n)
  }

  // ---------- walks ----------

  /** p is a sequence of consecutive edges of g that leads from a to b. */
  ghost predicate IsWalk(g: Graph, a: nat, p: seq<Edge>, b: nat)
    decreases |p|
  {
    if p == [] then a == b
    else p[0] in g.edges && p[0].source == a && IsWalk(g, p[0].target, p[1..], b)
  }

  ghost predicate Reaches(g: Graph, a: nat, b: nat) {
    exists p :: IsWalk(g, a, p, b)
  }

  ghost predicate IsCycle(g: Graph, n: nat, p: seq<Edge>) {
    p != [] && IsWalk(g, n, p, n)
  }

  ghost predicate Acyclic(g: Graph) {
    forall n, p :: !IsCycle(g, n, p)
  }

  lemma {:induction false} WalkConcat(g: Graph, a: nat, p: seq<Edge>, b: nat, q: seq<Edge>, c: nat)
    requires IsWalk(g, a, p, b) && IsWalk(g, b, q, c)
    ensures IsWalk(g, a, p + q, c)
    decreases |p|
  {
    if p == [] {
      assert p + q == q;
    } else {
      assert (p + q)[1..] == p[1..] + q;
      WalkConcat(g, p[0].target, p[1..], b, q, c);
    }
  }

  lemma WalkAppend(g: Graph, a: nat, p: seq<Edge>, b: nat, e: Edge)
    requires IsWalk(g, a, p, b) && e in g.edges && e.source == b
    ensures IsWalk(g, a, p + [e], e.target)
  {
    assert IsWalk(g, b, [e], e.target) by {
      assert [e][1..] == [];
    }
    WalkConcat(g, a, p, b, [e], e.target);
  }

  /** A walk can be cut anywhere. */
  lemma {:induction false} WalkSplit(g: Graph, a: nat, p: seq<Edge>, c: nat, k: nat) returns (b: nat)
    requires IsWalk(g, a, p, c) && k <= |p|
    ensures IsWalk(g, a, p[..k], b) && IsWalk(g, b, p[k..], c)
    ensures k < |p| ==> b == p[k].source
    ensures k > 0 ==> b == p[k - 1].target
    decreases |p|
  {
    if k == 0 {
      b := a;
      assert p[..0] == [] && p[0..] == p;
    } else {
      b := WalkSplit(g, p[0].target, p[1..], c, k - 1);
      assert p[..k][1..] == p[1..][..k - 1];
      assert p[1..][k - 1..] == p[k..];
    }
  }

  lemma {:induction false} WalkInRange(g: Graph, a: nat, p: seq<Edge>, b: nat)
    requires g.Valid() && IsWalk(g, a, p, b) && p != []
    ensures a < |g.names| && b < |g.names|
    decreases |p|
  {
    if |p| > 1 {
      WalkInRange(g, p[0].target, p[1..], b);
    } else {
      assert p[1..] == [];
    }
  }

  lemma ReachesTransitive(g: Graph, a: nat, b: nat, c: nat)
    requires Reaches(g, a, b) && Reaches(g, b, c)
    ensures Reaches(g, a, c)
  {
    var p :| IsWalk(g, a, p, b);
    var q :| IsWalk(g, b, q, c);
    WalkConcat(g, a, p, b, q, c);
  }

  lemma ReachesSelf(g: Graph, a: nat)
    ensures Reaches(g, a, a)
  {
    assert IsWalk(g, a, [], a);
  }

  lemma ReachesEdge(g: Graph, e: Edge)
    requires e in g.edges
    ensures Reaches(g, e.source, e.target)
  {
    ReachesSelf(g, e.source);
    WalkAppend(g, e.source, [], e.source, e);
  }

  /** A set that contains a and is closed under successors contains all that a reaches. */
  lemma {:induction false} ClosedForward(g: Graph, s: set<nat>, a: nat, p: seq<Edge>, b: nat)
    requires a in s && forall e <- g.edges :: e.source in s ==> e.target in s
    requires IsWalk(g, a, p, b)
    ensures b in s
    decreases |p|
  {
    if p != [] {
      ClosedForward(g, s, p[0].target, p[1..], b);
    }
  }

  /** A set that contains b and is closed under predecessors contains all that reach b. */
  lemma {:induction false} ClosedBackward(g: Graph, s: set<nat>, a: nat, p: seq<Edge>, b: nat)
    requires b in s && forall e <- g.edges :: e.target in s ==> e.source in s
    requires IsWalk(g, a, p, b)
    ensures a in s
    decreases |p|
  {
    if p != [] {
      ClosedBackward(g, s, p[0].target, p[1..], b);
    }
  }

  // ---------- topological ranking ----------

  /** Every edge out of an entry of order leads to a strictly earlier entry. Entries may repeat. */
  ghost predicate Ranked(g: Graph, order: seq<nat>) {
    forall i, e :: 0 <= i < |order| && e in g.edges && e.source == order[i] ==> e.target in order[..i]
  }

  lemma {:induction false} RankedWalkDescends(g: Graph, order: seq<nat>, i: nat, p: seq<Edge>, b: nat) returns (j: nat)
    requires Ranked(g, order) && i < |order| && p != [] && IsWalk(g, order[i], p, b)
    ensures j < i && order[j] == b
    decreases |p|
  {
    var k: nat :| k < i && order[k] == p[0].target;
    if |p| == 1 {
      assert p[1..] == [];
      j := k;
    } else {
      j := RankedWalkDescends(g, order, k, p[1..], b);
    }
  }

  lemma {:induction false} RankedEntryNotOnCycle(g: Graph, order: seq<nat>, i: nat, p: seq<Edge>)
    requires Ranked(g, order) && i < |order| && IsCycle(g, order[i], p)
    ensures false
    decreases i
  {
    var j := RankedWalkDescends(g, order, i, p, order[i]);
    RankedEntryNotOnCycle(g, order, j, p);
  }

  /** A ranking of every node rules out cycles. */
  lemma RankedIsAcyclic(g: Graph, order: seq<nat>)
    requires g.Valid() && Ranked(g, order) && forall n: nat :: n < |g.names| ==> n in order
    ensures Acyclic(g)
  {
    forall n, p | IsCycle(g, n, p)
      ensures false
    {
      WalkInRange(g, n, p, n);
      assert n in order;
      var i: nat :| i < |order| && order[i] == n;
      RankedEntryNotOnCycle(g, order, i, p);
    }
  }

  // ---------- walks of acyclic graphs ----------

  /** The node at position k of a walk: the start for k == 0, else the target of the k-th edge. */
  function NodeAt(a: nat, p: seq<Edge>, k: nat): nat
    requires k <= |p|
  {
    if k == 0 then a else p[k - 1].target
  }

  /** Every stretch of a walk is a walk. */
  lemma WalkStretch(g: Graph, a: nat, p: seq<Edge>, b: nat, i: nat, j: nat)
    requires IsWalk(g, a, p, b) && i <= j <= |p|
    ensures IsWalk(g, NodeAt(a, p, i), p[i..j], NodeAt(a, p, j))
  {
    var c := WalkSplit(g, a, p, b, j);
    assert p[..j][i..] == p[i..j];
    var d := WalkSplit(g, a, p[..j], c, i);
    assert c == NodeAt(a, p, j) by {
      if j == 0 {
        assert p[..0] == [];
      }
    }
    assert d == NodeAt(a, p, i) by {
      if i == 0 {
        assert p[..j][..0] == [];
      } else {
        assert p[..j][i - 1] == p[i - 1];
      }
    }
  }

  /** A walk of an acyclic graph visits no node twice. */
  lemma AcyclicWalkIsSimple(g: Graph, a: nat, p: seq<Edge>, b: nat, i: nat, j: nat)
    requires Acyclic(g) && IsWalk(g, a, p, b) && i < j <= |p|
    ensures NodeAt(a, p, i) != NodeAt(a, p, j)
  {
    WalkStretch(g, a, p, b, i, j);
    assert !IsCycle(g, NodeAt(a, p, i), p[i..j]);
  }

  /** The node indices of a graph with n nodes. */
  function Range(n: nat): (r: set<nat>)
    ensures |r| == n && forall i: nat :: i in r <==> i < n
  {
    if n == 0 then {} else Range(n - 1) + {n - 1}
  }

  lemma {:induction false} DistinctCardinality(s: seq<nat>, elements: set<nat>)
    requires forall i, j :: 0 <= i < j < |s| ==> s[i] != s[j]
    requires forall x :: x in elements <==> x in s
    ensures |elements| == |s|
  {
    if s != [] {
      var front, last := s[..|s| - 1], s[|s| - 1];
      assert s == front + [last];
      assert last !in front;
      DistinctCardinality(front, elements - {last});
    }
  }

  /** Distinct node indices are at most as many as there are nodes. */
  lemma DistinctNodesBound(s: seq<nat>, n: nat)
    requires forall i, j :: 0 <= i < j < |s| ==> s[i] != s[j]
    requires forall x <- s :: x < n
    ensures |s| <= n
  {
    var elements := set x | x in s;
    DistinctCardinality(s, elements);
    assert Range(n) == elements + (Range(n) - elements);
  }

  /** A walk of an acyclic graph has fewer edges than the graph has nodes. */
  lemma AcyclicWalkBound(g: Graph, a: nat, p: seq<Edge>, b: nat)
    requires g.Valid() && Acyclic(g) && a < |g.names| && IsWalk(g, a, p, b)
    ensures |p| < |g.names|
  {
    var s := seq(|p| + 1, k requires 0 <= k <= |p| => NodeAt(a, p, k));
    forall i, j | 0 <= i < j < |s|
      ensures s[i] != s[j]
    {
      AcyclicWalkIsSimple(g, a, p, b, i, j);
    }
    forall x | x in s
      ensures x < |g.names|
    {
      var k :| 0 <= k < |s| && s[k] == x;
      WalkStretch(g, a, p, b, 0, k);
      if k > 0 {
        WalkInRange(g, NodeAt(a, p, 0), p[0..k], x);
      }
    }
    DistinctNodesBound(s, |g.names|);
  }
}
