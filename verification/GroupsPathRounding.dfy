/** The distances of the search in src/sorting/groups.rs are f32 values, with 24 significant bits: up to how many user
    edges they are the exact integers of GroupsPath, and what is lost with one more. */
module GroupsPathRounding {
  import opened Wrappers
  import opened Graphs
  import opened GroupsGraph
  import opened GroupsPath
  import opened Sequences

  // ---------- rounding ----------

  /** How far apart the f32 values around n are. */
  function Spacing(n: nat): (r: nat)
    ensures r >= 1
  {
    if n < 0x100_0000 then 1 else 2 * Spacing(n / 2)
  }

  /** The nearest f32 value, or of two that are equally near the one whose last bit is zero. */
  function RoundedMagnitude(n: nat): int {
    var spacing := Spacing(n);
    var quotient, remainder := n / spacing, n % spacing;
    if 2 * remainder < spacing || (2 * remainder == spacing && quotient % 2 == 0) then quotient * spacing
    else (quotient + 1) * spacing
  }

  function Rounded(n: int): int {
    if n < 0 then -RoundedMagnitude(-n) else RoundedMagnitude(n)
  }

  /** Adding up the weights of a path from its start, with rounding after each edge. */
  function RoundedWeight(p: seq<Edge>): int {
    if p == [] then 0 else Rounded(RoundedWeight(Front(p)) + WeightOf(Last(p)))
  }

  lemma SmallIsExact(n: int)
    requires -0x100_0000 <= n <= 0x100_0000
    ensures Rounded(n) == n
  {
    assert Spacing(0x100_0000) == 2 * Spacing(0x80_0000) == 2;
  }

  // ---------- within the limit ----------

  const MAX_USER_EDGES := 16

  lemma WeightInRange(p: seq<Edge>)
    requires UserEdges(p) <= MAX_USER_EDGES && |p| <= 0x100_0000
    ensures -0x100_0000 <= Weight(p) <= 0x100_0000
  {
    WeightCounts(p);
  }

  lemma {:induction false} RoundedWeightIsExact(p: seq<Edge>)
    requires UserEdges(p) <= MAX_USER_EDGES && |p| <= 0x100_0000
    ensures RoundedWeight(p) == Weight(p)
  {
    if p != [] {
      RoundedWeightIsExact(Front(p));
      WeightInRange(p);
      SmallIsExact(Weight(p));
    }
  }

  function UserEdgeSet(edges: seq<Edge>): set<Edge> {
    set e | e in edges && e.kind == UserLoadAfter
  }

  lemma UserEdgeSetLast(edges: seq<Edge>)
    requires edges != []
    ensures UserEdgeSet(edges)
         == UserEdgeSet(Front(edges)) + if Last(edges).kind == UserLoadAfter then {Last(edges)} else {}
    ensures (forall i :: 0 <= i < |edges| - 1 ==> edges[i] != Last(edges)) ==> Last(edges) !in UserEdgeSet(Front(edges))
  {
    assert edges == Front(edges) + [Last(edges)];
  }

  lemma {:induction false} UserEdgesCount(edges: seq<Edge>)
    ensures |UserEdgeSet(edges)| <= UserEdges(edges)
    ensures (forall i, j :: 0 <= i < j < |edges| ==> edges[i] != edges[j]) ==> |UserEdgeSet(edges)| == UserEdges(edges)
  {
    if edges != [] {
      UserEdgesCount(Front(edges));
      UserEdgeSetLast(edges);
    }
  }

  /** A path uses every edge at most once. */
  lemma WalkUserEdges(g: Graph, a: nat, p: seq<Edge>, b: nat)
    requires Acyclic(g) && IsWalk(g, a, p, b)
    ensures UserEdges(p) <= UserEdges(g.edges)
  {
    forall i, j | 0 <= i < j < |p|
      ensures p[i] != p[j]
    {
      AcyclicWalkIsSimple(g, a, p, b, i, j);
      SourceIs(g, a, p, b, i);
      SourceIs(g, a, p, b, j);
    }
    UserEdgesCount(p);
    UserEdgesCount(g.edges);
    WalkEdges(g, a, p, b);
    assert UserEdgeSet(g.edges) == UserEdgeSet(p) + (UserEdgeSet(g.edges) - UserEdgeSet(p));
  }

  lemma {:induction false} SourceIs(g: Graph, a: nat, p: seq<Edge>, b: nat, i: nat)
    requires IsWalk(g, a, p, b) && i < |p|
    ensures p[i].source == NodeAt(a, p, i)
    decreases i
  {
    if i > 0 {
      SourceIs(g, p[0].target, p[1..], b, i - 1);
    }
  }

  lemma {:induction false} WalkEdges(g: Graph, a: nat, p: seq<Edge>, b: nat)
    requires IsWalk(g, a, p, b)
    ensures forall e :: e in p ==> e in g.edges
    decreases |p|
  {
    if p != [] {
      WalkEdges(g, p[0].target, p[1..], b);
      HeadAndTail(p);
    }
  }

  /** With at most 16 user edges in the graph, every sum that the search forms is exact, and so are its distances,
      which are such sums: it takes the same steps as with exact integers. */
  lemma SumsAreExact(g: Graph, s: nat, dist: Distances, e: Edge)
    requires g.Valid() && Acyclic(g) && s < |g.names| <= 0x100_0000 && UserEdges(g.edges) <= MAX_USER_EDGES
    requires Attained(g, s, dist) && e in g.edges && dist[e.source].Some?
    ensures Rounded(dist[e.source].value + WeightOf(e)) == dist[e.source].value + WeightOf(e)
  {
    var p :| IsWalk(g, s, p, e.source) && Weight(p) == dist[e.source].value;
    WalkAppend(g, s, p, e.source, e);
    AcyclicWalkBound(g, s, p + [e], e.target);
    WalkUserEdges(g, s, p + [e], e.target);
    WeightAppend(p, e);
    WeightInRange(p + [e]);
    SmallIsExact(Weight(p + [e]));
  }

  // ---------- beyond the limit ----------

  /** After 17 user edges, masterlist edges no longer count, however many there are. */
  lemma {:induction false} MasterlistEdgesLost(p: seq<Edge>, q: seq<Edge>)
    requires |p| == MAX_USER_EDGES + 1 && (forall e <- p :: e.kind == UserLoadAfter)
    requires forall e <- q :: e.kind != UserLoadAfter
    ensures RoundedWeight(p + q) == (MAX_USER_EDGES + 1) * USER_EDGE_WEIGHT
    decreases |q|
  {
    if q == [] {
      assert p + q == p;
      UserEdgesOnly(p);
    } else {
      assert Front(p + q) == p + Front(q) && Last(p + q) == Last(q);
      MasterlistEdgesLost(p, Front(q));
      assert Last(q) in q;
      TieIsEven();
    }
  }

  lemma TieIsEven()
    ensures Rounded(-16_999_999) == -17_000_000
  {
    assert Spacing(16_999_999) == 2 * Spacing(8_499_999) == 2;
  }

  lemma {:induction false} UserEdgesOnly(p: seq<Edge>)
    requires |p| <= MAX_USER_EDGES + 1 && forall e <- p :: e.kind == UserLoadAfter
    ensures RoundedWeight(p) == |p| * USER_EDGE_WEIGHT
  {
    if p != [] {
      UserEdgesOnly(Front(p));
      assert Last(p) in p;
      if |p| <= MAX_USER_EDGES {
        SmallIsExact(|p| * USER_EDGE_WEIGHT);
      } else {
        assert Spacing(17_000_000) == 2 * Spacing(8_500_000) == 2;
      }
    }
  }

  /** Adding up weights in f32 is exact for all paths with at most u user edges if and only if u is at most 16. */
  ghost predicate ExactUpTo(u: nat) {
    forall p: seq<Edge> :: UserEdges(p) <= u && |p| <= 0x100_0000 ==> RoundedWeight(p) == Weight(p)
  }

  lemma RoundingLimitIsExact(u: nat)
    ensures ExactUpTo(u) <==> u <= MAX_USER_EDGES
  {
    if u <= MAX_USER_EDGES {
      forall p: seq<Edge> | UserEdges(p) <= u && |p| <= 0x100_0000
        ensures RoundedWeight(p) == Weight(p)
      {
        RoundedWeightIsExact(p);
      }
    } else {
      var p, e := seq(MAX_USER_EDGES + 1, i => Edge(0, 1, UserLoadAfter)), Edge(0, 1, MasterlistLoadAfter);
      MasterlistEdgesLost(p, [e]);
      AllUserEdges(p);
      WeightCounts(p);
      WeightAppend(p, e);
      assert (p + [e])[..|p|] == p;
      assert UserEdges(p + [e]) == MAX_USER_EDGES + 1;
    }
  }

  lemma {:induction false} AllUserEdges(p: seq<Edge>)
    requires forall e <- p :: e.kind == UserLoadAfter
    ensures UserEdges(p) == |p|
  {
    if p != [] {
      AllUserEdges(Front(p));
      assert Last(p) in p;
    }
  }
}
