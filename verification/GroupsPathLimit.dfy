/** The preference for user edges is a matter of weights, so it has a limit: in a large enough groups
    graph a path with a user edge loses to a path without one. */
module GroupsPathLimit {
  import opened Wrappers
  import opened Graphs
  import opened Metadata
  import opened StableSort
  import opened GroupsGraph
  import opened GroupsPath

  function NodeName(i: nat): (n: string)
    ensures |n| == i
  {
    seq(i, _ => 'a')
  }

  function ChainEdge(i: nat): Edge {
    Edge(i, i + 1, if i == 0 then UserLoadAfter else MasterlistLoadAfter)
  }

  function ChainNames(n: nat): seq<string> {
    seq(n, i requires 0 <= i => NodeName(i))
  }

  ghost predicate IsChainEdge(n: nat, e: Edge)
    requires n >= 3
  {
    e == Edge(0, n - 1, MasterlistLoadAfter) || (e.source < n - 1 && e == ChainEdge(e.source))
  }

  /** Nodes 0 to n - 1 in a chain whose first edge is the user's, and a masterlist edge from end to end. */
  ghost predicate IsChainGraph(g: Graph, n: nat) {
    n >= 3 && g.names == ChainNames(n) && forall e :: e in g.edges <==> IsChainEdge(n, e)
  }

  // ---------- groups with such a graph ----------

  /** The masterlist group of node i. */
  function ChainGroup(n: nat, i: nat): Group
    requires n >= 3
  {
    Group(NodeName(i), None,
          if i == n - 1 then [NodeName(0), NodeName(i - 1)] else if i >= 2 then [NodeName(i - 1)] else [])
  }

  function ChainMasterlist(n: nat): seq<Group>
    requires n >= 3
  {
    seq(n, i requires 0 <= i => ChainGroup(n, i))
  }

  function ChainUserlist(): seq<Group> {
    [Group(NodeName(1), None, [NodeName(0)])]
  }

  lemma {:induction false} PrefixIsLeq(s: string, t: string)
    requires s <= t
    ensures StringLeq(s, t)
  {
    if s != [] {
      assert s[1..] <= t[1..];
      PrefixIsLeq(s[1..], t[1..]);
    }
  }

  lemma NamesAscend(n: nat, i: nat, j: nat)
    requires n >= 3 && i <= j < n
    ensures ByName(ChainMasterlist(n)[i], ChainMasterlist(n)[j])
  {
    assert NodeName(i) <= NodeName(j);
    PrefixIsLeq(NodeName(i), NodeName(j));
  }

  lemma ChainNamesDistinct(n: nat)
    ensures NoRepeats(ChainNames(n))
  {
    forall i, j | 0 <= i < j < n
      ensures ChainNames(n)[i] != ChainNames(n)[j]
    {
      assert |ChainNames(n)[i]| == i && |ChainNames(n)[j]| == j;
    }
  }

  lemma MasterlistIsSorted(n: nat)
    requires n >= 3
    ensures SortedByName(ChainMasterlist(n)) == ChainMasterlist(n)
  {
    forall i, j | 0 <= i < j < n
      ensures ByName(ChainMasterlist(n)[i], ChainMasterlist(n)[j])
    {
      NamesAscend(n, i, j);
    }
    SortedStays(ChainMasterlist(n), ByName);
  }

  lemma KnownNameAdded(names: seq<string>, g: Group)
    requires g.name in names
    ensures AddedNames(names, [g]) == names
  {
    assert [g][1..] == [];
  }

  lemma ChainNamesAdded(n: nat)
    requires n >= 3
    ensures AddedNames([], SortedByName(ChainMasterlist(n))) == ChainNames(n)
    ensures AddedNames(ChainNames(n), SortedByName(ChainUserlist())) == ChainNames(n)
  {
    ChainNamesDistinct(n);
    MasterlistIsSorted(n);
    NamesAdded([], ChainMasterlist(n), ChainNames(n));
    SortedStays(ChainUserlist(), ByName);
    assert ChainNames(n)[1] == NodeName(1);
    KnownNameAdded(ChainNames(n), ChainUserlist()[0]);
  }

  lemma NodeNameInjective(i: nat, j: nat)
    ensures NodeName(i) == NodeName(j) ==> i == j
  {
    assert |NodeName(i)| == i && |NodeName(j)| == j;
  }

  /** The masterlist relates the ends of the chain and all neighbours but the first two. */
  lemma ChainAfter(n: nat, i: nat, j: nat)
    requires n >= 3 && i < n && j < n
    ensures LoadAfter(NodeName(i), NodeName(j)) in After(ChainMasterlist(n))
       <==> (i == 0 && j == n - 1) || (j >= 2 && i == j - 1)
    ensures LoadAfter(NodeName(i), NodeName(j)) in After(ChainUserlist()) <==> i == 0 && j == 1
  {
    var p := LoadAfter(NodeName(i), NodeName(j));
    AfterMembers(ChainMasterlist(n), p);
    AfterMembers(ChainUserlist(), p);
    forall k: nat | k < n
      ensures Declares(ChainGroup(n, k), p) <==> k == j && ((i == 0 && j == n - 1) || (j >= 2 && i == j - 1))
    {
      NodeNameInjective(k, j);
      NodeNameInjective(i, 0);
      if k > 0 {
        NodeNameInjective(i, k - 1);
      }
    }
    assert ChainMasterlist(n)[j] == ChainGroup(n, j);
    NodeNameInjective(1, j);
    NodeNameInjective(0, i);
  }

  lemma ChainDefined(n: nat)
    requires n >= 3
    ensures AllDefined(ChainMasterlist(n), ChainUserlist())
  {
    forall i: nat | i < n
      ensures NodeName(i) in Names(ChainMasterlist(n))
    {
      NamesMembers(ChainMasterlist(n), NodeName(i));
      assert ChainMasterlist(n)[i] == ChainGroup(n, i);
    }
    forall p | p in After(ChainMasterlist(n)) + After(ChainUserlist())
      ensures p.earlier in Names(ChainMasterlist(n))
    {
      AfterMembers(ChainMasterlist(n), p);
      AfterMembers(ChainUserlist(), p);
    }
  }

  /** The graph of these groups, which the next lemma shows to exist. */
  ghost function ChainGraph(n: nat): Graph
    requires n >= 3
  {
    ChainDefined(n);
    BuiltGraphMeaning(ChainMasterlist(n), ChainUserlist());
    BuiltGraph(ChainMasterlist(n), ChainUserlist()).value
  }

  lemma ChainGraphNames(n: nat)
    requires n >= 3
    ensures BuiltGraph(ChainMasterlist(n), ChainUserlist()) == Ok(ChainGraph(n))
    ensures Represents(ChainGraph(n), ChainMasterlist(n), ChainUserlist()) && ChainGraph(n).names == ChainNames(n)
  {
    ChainDefined(n);
    BuiltGraphMeaning(ChainMasterlist(n), ChainUserlist());
    BuiltNames(ChainMasterlist(n), ChainUserlist());
    ChainNamesAdded(n);
  }

  lemma ChainGraphIsChain(n: nat)
    requires n >= 3
    ensures BuiltGraph(ChainMasterlist(n), ChainUserlist()) == Ok(ChainGraph(n)) && IsChainGraph(ChainGraph(n), n)
    ensures Represents(ChainGraph(n), ChainMasterlist(n), ChainUserlist())
  {
    var g := ChainGraph(n);
    ChainGraphNames(n);
    forall e | e in g.edges
      ensures IsChainEdge(n, e)
    {
      BuiltIsChainEdge(n, g, e);
    }
    forall e | IsChainEdge(n, e)
      ensures e in g.edges
    {
      ChainEdgeIsBuilt(n, g, e);
    }
  }

  lemma BuiltIsChainEdge(n: nat, g: Graph, e: Edge)
    requires n >= 3 && g.names == ChainNames(n) && Represents(g, ChainMasterlist(n), ChainUserlist()) && e in g.edges
    ensures IsChainEdge(n, e)
  {
    assert Ends(g.names, e) == LoadAfter(NodeName(e.source), NodeName(e.target));
    ChainAfter(n, e.source, e.target);
  }

  lemma ChainEdgeIsBuilt(n: nat, g: Graph, e: Edge)
    requires n >= 3 && g.names == ChainNames(n) && Represents(g, ChainMasterlist(n), ChainUserlist())
    requires IsChainEdge(n, e)
    ensures e in g.edges
  {
    ChainAfter(n, e.source, e.target);
    var p := LoadAfter(NodeName(e.source), NodeName(e.target));
    assert StandsFor(g.names, g.edges, p);
    var f :| f in g.edges && Ends(g.names, f) == p;
    NodeNameInjective(e.source, f.source);
    NodeNameInjective(e.target, f.target);
    BuiltIsChainEdge(n, g, f);
  }

  /** The graphs that build_groups_graph can return. */
  ghost predicate IsBuilt(g: Graph) {
    exists masterlist, userlist ::
      BuiltGraph(masterlist, userlist) == Ok(g) && RelationAcyclic(After(masterlist) + After(userlist))
  }

  lemma BuiltIsGroupsGraph(g: Graph)
    requires IsBuilt(g)
    ensures IsGroupsGraph(g)
  {
    var masterlist, userlist :|
      BuiltGraph(masterlist, userlist) == Ok(g) && RelationAcyclic(After(masterlist) + After(userlist));
    BuiltGraphMeaning(masterlist, userlist);
    RepresentsAcyclic(g, masterlist, userlist);
  }

  // ---------- the paths of such a graph ----------

  lemma {:induction false} WalkAscends(g: Graph, n: nat, a: nat, p: seq<Edge>, b: nat)
    requires IsChainGraph(g, n) && IsWalk(g, a, p, b)
    ensures a + |p| <= b
    decreases |p|
  {
    if p != [] {
      assert IsChainEdge(n, p[0]);
      WalkAscends(g, n, p[0].target, p[1..], b);
    }
  }

  lemma ChainGraphIsBuilt(n: nat)
    requires n >= 3
    ensures IsBuilt(ChainGraph(n)) && |ChainGraph(n).names| == n
  {
    var g := ChainGraph(n);
    ChainGraphIsChain(n);
    forall a, p | IsCycle(g, a, p)
      ensures false
    {
      WalkAscends(g, n, a, p, a);
    }
    ChainDefined(n);
    RepresentsAcyclic(g, ChainMasterlist(n), ChainUserlist());
  }

  /** Beyond node 0 there is only the chain. */
  lemma {:induction false} ChainWeight(g: Graph, n: nat, a: nat, p: seq<Edge>, b: nat)
    requires IsChainGraph(g, n) && 0 < a && IsWalk(g, a, p, b)
    ensures UserEdges(p) == 0 && a + |p| == b
    decreases |p|
  {
    if p != [] {
      WalkLast(g, a, p, b);
      ChainWeight(g, n, a, p[..|p| - 1], p[|p| - 1].source);
      assert IsChainEdge(n, p[|p| - 1]);
    }
  }

  function Chain(n: nat): seq<Edge>
    requires n >= 3
  {
    seq(n - 1, i requires 0 <= i => ChainEdge(i))
  }

  lemma {:induction false} ChainIsWalk(g: Graph, n: nat, k: nat)
    requires IsChainGraph(g, n) && k < n
    ensures IsWalk(g, 0, Chain(n)[..k], k)
  {
    if k > 0 {
      ChainIsWalk(g, n, k - 1);
      assert IsChainEdge(n, ChainEdge(k - 1));
      WalkAppend(g, 0, Chain(n)[..k - 1], k - 1, ChainEdge(k - 1));
      assert Chain(n)[..k] == Chain(n)[..k - 1] + [ChainEdge(k - 1)];
    }
  }

  /** Every walk from end to end is the direct edge, or has as many edges as the chain and one of them the user's. */
  lemma EndToEnd(g: Graph, n: nat, w: seq<Edge>)
    requires IsChainGraph(g, n) && IsWalk(g, 0, w, n - 1)
    ensures || (|w| == 1 && UserEdges(w) == 0)
            || (|w| == n - 1 && UserEdges(w) == 1)
  {
    assert IsChainEdge(n, w[0]);
    assert w == [w[0]] + w[1..];
    ChainWeight(g, n, w[0].target, w[1..], n - 1);
    UserEdgesPrepend(w[0], w[1..]);
  }

  lemma {:induction false} UserEdgesPrepend(e: Edge, p: seq<Edge>)
    ensures UserEdges([e] + p) == (if e.kind == UserLoadAfter then 1 else 0) + UserEdges(p)
  {
    if p == [] {
      assert [e] + p == [e] && [e][..0] == [];
    } else {
      assert ([e] + p)[..|p|] == [e] + p[..|p| - 1];
      UserEdgesPrepend(e, p[..|p| - 1]);
    }
  }

  function Direct(n: nat): seq<Edge>
    requires n >= 3
  {
    [Edge(0, n - 1, MasterlistLoadAfter)]
  }

  lemma DirectIsWalk(g: Graph, n: nat)
    requires IsChainGraph(g, n)
    ensures IsWalk(g, 0, Direct(n), n - 1)
  {
    assert IsChainEdge(n, Direct(n)[0]);
    assert IsWalk(g, 0, [], 0) && [] + Direct(n) == Direct(n);
    WalkAppend(g, 0, [], 0, Direct(n)[0]);
  }

  lemma EndToEndWalks(g: Graph, n: nat)
    requires IsChainGraph(g, n)
    ensures IsWalk(g, 0, Chain(n), n - 1) && IsWalk(g, 0, Direct(n), n - 1)
    ensures Weight(Direct(n)) == 1 && Weight(Chain(n)) == USER_EDGE_WEIGHT + n - 2
    ensures !Preferred(Direct(n), Chain(n))
  {
    ChainIsWalk(g, n, n - 1);
    assert Chain(n)[..n - 1] == Chain(n);
    DirectIsWalk(g, n);
    EndToEnd(g, n, Direct(n));
    EndToEnd(g, n, Chain(n));
    WeightCounts(Direct(n));
    WeightCounts(Chain(n));
  }

  /** With more than MAX_NODES nodes a path without a user edge can be lightest although another has one. */
  lemma DirectIsLightest(g: Graph, n: nat)
    requires n > MAX_NODES && IsChainGraph(g, n)
    ensures IsLightest(g, 0, Direct(n), n - 1)
  {
    EndToEndWalks(g, n);
    forall q | IsWalk(g, 0, q, n - 1)
      ensures Weight(Direct(n)) <= Weight(q)
    {
      EndToEnd(g, n, q);
      WeightCounts(q);
    }
  }

  /** With one node more, there are groups for which no path with a user edge is lightest any more. */
  lemma PreferenceHasALimit(n: nat, w: seq<Edge>)
    requires n >= MAX_NODES + 2 && IsLightest(ChainGraph(n), 0, w, n - 1)
    ensures BuiltGraph(ChainMasterlist(n), ChainUserlist()) == Ok(ChainGraph(n)) && IsBuilt(ChainGraph(n))
    ensures IsWalk(ChainGraph(n), 0, Chain(n), n - 1) && !Preferred(w, Chain(n))
  {
    var g := ChainGraph(n);
    ChainGraphIsChain(n);
    ChainGraphIsBuilt(n);
    EndToEndWalks(g, n);
    EndToEnd(g, n, w);
    EndToEnd(g, n, Chain(n));
    WeightCounts(w);
  }

  /** In every graph of n groups that can be built, the lightest paths are the preferred ones. */
  ghost predicate LightestArePreferred(n: nat) {
    forall g, a: nat, w: seq<Edge>, b: nat, q: seq<Edge> ::
      IsBuilt(g) && |g.names| == n && a < n && IsLightest(g, a, w, b) && IsWalk(g, a, q, b) ==> Preferred(w, q)
  }

  /** The weights express the preference exactly up to MAX_NODES nodes. */
  lemma PreferenceLimitIsExact(n: nat)
    ensures LightestArePreferred(n) <==> n <= MAX_NODES
  {
    if n <= MAX_NODES {
      forall g, a: nat, w: seq<Edge>, b: nat, q: seq<Edge>
        | IsBuilt(g) && |g.names| == n && a < n && IsLightest(g, a, w, b) && IsWalk(g, a, q, b)
        ensures Preferred(w, q)
      {
        BuiltIsGroupsGraph(g);
        LightestIsPreferred(g, a, w, b, q);
      }
    } else {
      ChainGraphIsChain(n);
      ChainGraphIsBuilt(n);
      EndToEndWalks(ChainGraph(n), n);
      DirectIsLightest(ChainGraph(n), n);
    }
  }
}
