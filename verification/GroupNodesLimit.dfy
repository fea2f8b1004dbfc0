/** What the path lengths of src/sorting/groups.rs are not: a search visits every node once, so a node that it
    first meets by a short path hides the longer ones through it. */
module GroupNodesLimit {
  import opened Wrappers
  import opened Graphs
  import opened StableSort
  import opened Metadata
  import opened DepthFirst
  import opened GroupsGraph
  import opened GroupNodes

  // ---------- three groups ----------

  /** Three different names in alphabetical order. */
  predicate Ascending(a: string, b: string, c: string) {
    && StringLeq(a, b) && StringLeq(b, c) && StringLeq(a, c)
    && a != b && b != c && a != c
  }

  /** Group b loads after a, and also after c, which loads after a. */
  function Shortcut(a: string, b: string, c: string): seq<Group> {
    [Group(a, None, []), Group(b, None, [a, c]), Group(c, None, [a])]
  }

  const TO_LAST := Edge(0, 1, MasterlistLoadAfter)
  const MIDDLE_TO_LAST := Edge(2, 1, MasterlistLoadAfter)
  const TO_MIDDLE := Edge(0, 2, MasterlistLoadAfter)

  function ShortcutGraph(a: string, b: string, c: string): Graph {
    Graph([a, b, c], [TO_LAST, MIDDLE_TO_LAST, TO_MIDDLE])
  }

  lemma AfterGroupsSorted(a: string, b: string, c: string)
    requires Ascending(a, b, c)
    ensures SortedClone([]) == [] && SortedClone([a]) == [a] && SortedClone([a, c]) == [a, c]
  {
    SortedStays([], StringLeq);
    SortedStays([a], StringLeq);
    SortedStays([a, c], StringLeq);
  }

  lemma LastEdges(a: string, b: string, c: string)
    requires Ascending(a, b, c)
    ensures AddedGroupEdges([a, b, c], [], b, [a, c], MasterlistLoadAfter) == Ok([TO_LAST, MIDDLE_TO_LAST])
  {
    var names := [a, b, c];
    IndexUnique(names, 0);
    IndexUnique(names, 1);
    IndexUnique(names, 2);
    assert [a, c][1..] == [c] && [c][1..] == [];
    assert UpdatedEdges([], 0, 1, MasterlistLoadAfter) == [TO_LAST];
    UpdatedEdgesAt([TO_LAST], 2, 1, MasterlistLoadAfter, 1);
    assert [TO_LAST] + [MIDDLE_TO_LAST] == [TO_LAST, MIDDLE_TO_LAST];
    assert AddedGroupEdges(names, [TO_LAST], b, [c], MasterlistLoadAfter) == Ok([TO_LAST, MIDDLE_TO_LAST]);
  }

  lemma MiddleEdges(a: string, b: string, c: string)
    requires Ascending(a, b, c)
    ensures AddedGroupEdges([a, b, c], [TO_LAST, MIDDLE_TO_LAST], c, [a], MasterlistLoadAfter)
         == Ok(ShortcutGraph(a, b, c).edges)
  {
    var names := [a, b, c];
    IndexUnique(names, 0);
    IndexUnique(names, 2);
    assert [a][1..] == [];
    UpdatedEdgesAt([TO_LAST, MIDDLE_TO_LAST], 0, 2, MasterlistLoadAfter, 2);
    assert [TO_LAST, MIDDLE_TO_LAST] + [TO_MIDDLE] == ShortcutGraph(a, b, c).edges;
  }

  lemma ShortcutEdges(a: string, b: string, c: string)
    requires Ascending(a, b, c) && HasNodes([a, b, c], Shortcut(a, b, c))
    ensures AddedEdges([a, b, c], [], Shortcut(a, b, c), MasterlistLoadAfter) == Ok(ShortcutGraph(a, b, c).edges)
  {
    var names, groups, edges := [a, b, c], Shortcut(a, b, c), ShortcutGraph(a, b, c).edges;
    AfterGroupsSorted(a, b, c);
    LastEdges(a, b, c);
    MiddleEdges(a, b, c);
    assert groups[1..] == [groups[1], groups[2]] && groups[1..][1..] == [groups[2]] && groups[1..][1..][1..] == [];
    assert AddedEdges(names, edges, [], MasterlistLoadAfter) == Ok(edges);
    assert AddedEdges(names, [TO_LAST, MIDDLE_TO_LAST], groups[1..][1..], MasterlistLoadAfter) == Ok(edges);
    assert AddedEdges(names, [], groups[1..], MasterlistLoadAfter) == Ok(edges);
  }

  ghost predicate BuildsTo(masterlist: seq<Group>, names: seq<string>, edges: seq<Edge>) {
    && Sorted(masterlist, ByName) && AddedNames([], masterlist) == names
    && HasNodes(names, masterlist) && AddedEdges(names, [], masterlist, MasterlistLoadAfter) == Ok(edges)
  }

  lemma BuiltFromMasterlist(masterlist: seq<Group>, names: seq<string>, edges: seq<Edge>)
    requires BuildsTo(masterlist, names, edges)
    ensures BuiltGraph(masterlist, []) == Ok(Graph(names, edges))
  {
    SortedStays(masterlist, ByName);
    SortedStays([], ByName);
  }

  lemma ShortcutNames(a: string, b: string, c: string)
    requires Ascending(a, b, c)
    ensures AddedNames([], Shortcut(a, b, c)) == [a, b, c] && HasNodes([a, b, c], Shortcut(a, b, c))
  {
    NamesAdded([], Shortcut(a, b, c), [a, b, c]);
    AddedNamesMembers([], Shortcut(a, b, c));
  }

  lemma ShortcutSorted(a: string, b: string, c: string)
    requires Ascending(a, b, c)
    ensures Sorted(Shortcut(a, b, c), ByName)
  {
  }

  lemma ShortcutBuilds(a: string, b: string, c: string)
    requires Ascending(a, b, c)
    ensures BuildsTo(Shortcut(a, b, c), [a, b, c], [TO_LAST, MIDDLE_TO_LAST, TO_MIDDLE])
  {
    ShortcutNames(a, b, c);
    ShortcutSorted(a, b, c);
    ShortcutEdges(a, b, c);
  }

  /** The graph that is built for the three groups. */
  lemma ShortcutBuilt(a: string, b: string, c: string)
    requires Ascending(a, b, c)
    ensures BuiltGraph(Shortcut(a, b, c), []) == Ok(ShortcutGraph(a, b, c))
  {
    ShortcutBuilds(a, b, c);
    BuiltFromMasterlist(Shortcut(a, b, c), [a, b, c], [TO_LAST, MIDDLE_TO_LAST, TO_MIDDLE]);
  }

  lemma ShortcutValid(a: string, b: string, c: string)
    ensures ShortcutGraph(a, b, c).Valid()
  {
  }

  // ---------- what a search measures ----------

  lemma RunUnrolls(g: Graph, m: Machine, s: VisitorState)
    requires g.Valid() && Grounded(g, m) && m.stack != []
    ensures forall e <- Run(g, m).1 :: EventInRange(g.names, e)
    ensures forall e <- Step(g, m).1 :: EventInRange(g.names, e)
    ensures Grounded(g, Step(g, m).0)
    ensures forall e <- Run(g, Step(g, m).0).1 :: EventInRange(g.names, e)
    ensures ObserveAll(g.names, s, Run(g, m).1)
         == ObserveAll(g.names, ObserveAll(g.names, s, Step(g, m).1), Run(g, Step(g, m).0).1)
  {
    StepGrounded(g, m);
    StepDescends(g, m);
    RunEventsInRange(g, m);
    ObserveConcat(g.names, s, Step(g, m).1, Run(g, Step(g, m).0).1);
  }

  lemma StepMeasured(g: Graph, m: Machine, m': Machine, s: VisitorState, s': VisitorState)
    requires g.Valid() && Grounded(g, m) && m.stack != [] && Step(g, m).0 == m'
    requires forall e <- Step(g, m).1 :: EventInRange(g.names, e)
    requires ObserveAll(g.names, s, Step(g, m).1) == s'
    ensures Grounded(g, m') && (forall e <- Run(g, m').1 :: EventInRange(g.names, e))
    ensures forall e <- Run(g, m).1 :: EventInRange(g.names, e)
    ensures ObserveAll(g.names, s, Run(g, m).1) == ObserveAll(g.names, s', Run(g, m').1)
  {
    RunUnrolls(g, m, s);
  }

  lemma EdgesFromAppend(es: seq<Edge>, e: Edge, n: nat)
    ensures EdgesFrom(es + [e], n) == if e.source == n then EdgesFrom(es, n) + [e] else EdgesFrom(es, n)
  {
    assert (es + [e])[..|es|] == es;
  }

  lemma OutEdgesOfShortcut(g: Graph)
    requires g.edges == [TO_LAST, MIDDLE_TO_LAST, TO_MIDDLE]
    ensures OutEdges(g, 0) == [TO_LAST, TO_MIDDLE] && OutEdges(g, 1) == [] && OutEdges(g, 2) == [MIDDLE_TO_LAST]
  {
    assert [] + [TO_LAST] == [TO_LAST] && [TO_LAST] + [MIDDLE_TO_LAST] == [TO_LAST, MIDDLE_TO_LAST];
    assert [TO_LAST, MIDDLE_TO_LAST] + [TO_MIDDLE] == g.edges && [TO_LAST] + [TO_MIDDLE] == [TO_LAST, TO_MIDDLE];
    forall n: nat | n < 3
      ensures OutEdges(g, n) == if n == 0 then [TO_LAST, TO_MIDDLE] else if n == 1 then [] else [MIDDLE_TO_LAST]
    {
      EdgesFromAppend([], TO_LAST, n);
      EdgesFromAppend([TO_LAST], MIDDLE_TO_LAST, n);
      EdgesFromAppend([TO_LAST, MIDDLE_TO_LAST], TO_MIDDLE, n);
    }
  }

  lemma TreeTurn(g: Graph, colours: Colours, below: seq<Frame>, n: nat, edge: Edge, rest: seq<Edge>)
    requires ColourOf(colours, edge.target) == White
    ensures Step(g, Machine(colours, below + [Frame(n, [edge] + rest)]))
         == (Machine(colours[edge.target := Grey],
                     below + [Frame(n, rest)] + [Frame(edge.target, OutEdges(g, edge.target))]),
             [TreeEdge(edge), DiscoverNode(edge.target)])
  {
    var stack := below + [Frame(n, [edge] + rest)];
    assert stack[..|stack| - 1] == below && ([edge] + rest)[1..] == rest;
  }

  lemma CrossTurn(g: Graph, colours: Colours, below: seq<Frame>, n: nat, edge: Edge)
    requires ColourOf(colours, edge.target) == Black
    ensures Step(g, Machine(colours, below + [Frame(n, [edge])]))
         == (Machine(colours, below + [Frame(n, [])]), [ForwardOrCrossEdge(edge)])
  {
    var stack := below + [Frame(n, [edge])];
    assert stack[..|stack| - 1] == below && [edge][1..] == [];
  }

  lemma FinishTurn(g: Graph, colours: Colours, below: seq<Frame>, n: nat)
    ensures Step(g, Machine(colours, below + [Frame(n, [])]))
         == (Machine(colours[n := Black], below), [FinishNode(n)])
  {
    var stack := below + [Frame(n, [])];
    assert stack[..|stack| - 1] == below;
  }

  // The states of the search from node 0, turn by turn.

  function Turn0(): Machine {
    Machine(map[][0 := Grey], [Frame(0, [TO_LAST, TO_MIDDLE])])
  }

  function Turn1(): Machine {
    Machine(Turn0().colours[1 := Grey], [Frame(0, [TO_MIDDLE]), Frame(1, [])])
  }

  function Turn2(): Machine {
    Machine(Turn1().colours[1 := Black], [Frame(0, [TO_MIDDLE])])
  }

  function Turn3(): Machine {
    Machine(Turn2().colours[2 := Grey], [Frame(0, []), Frame(2, [MIDDLE_TO_LAST])])
  }

  function Turn4(): Machine {
    Machine(Turn3().colours, [Frame(0, []), Frame(2, [])])
  }

  function Turn5(): Machine {
    Machine(Turn4().colours[2 := Black], [Frame(0, [])])
  }

  function Turn6(): Machine {
    Machine(Turn5().colours[0 := Black], [])
  }

  lemma SearchStarts(g: Graph)
    requires g.edges == [TO_LAST, MIDDLE_TO_LAST, TO_MIDDLE]
    ensures Start(g, map[], 0) == Turn0()
  {
    OutEdgesOfShortcut(g);
  }

  lemma TurnsFirst(g: Graph)
    requires g.edges == [TO_LAST, MIDDLE_TO_LAST, TO_MIDDLE]
    ensures Step(g, Turn0()) == (Turn1(), [TreeEdge(TO_LAST), DiscoverNode(1)])
  {
    OutEdgesOfShortcut(g);
    TreeTurn(g, Turn0().colours, [], 0, TO_LAST, [TO_MIDDLE]);
    assert [TO_LAST] + [TO_MIDDLE] == [TO_LAST, TO_MIDDLE];
    assert [] + [Frame(0, [TO_LAST, TO_MIDDLE])] == Turn0().stack;
    assert [] + [Frame(0, [TO_MIDDLE])] + [Frame(1, [])] == Turn1().stack;
  }

  lemma TurnsSecond(g: Graph)
    ensures Step(g, Turn1()) == (Turn2(), [FinishNode(1)])
  {
    assert Turn1().stack == Turn2().stack + [Frame(1, [])];
    FinishTurn(g, Turn1().colours, Turn2().stack, 1);
  }

  lemma TurnsMiddle(g: Graph)
    requires g.edges == [TO_LAST, MIDDLE_TO_LAST, TO_MIDDLE]
    ensures Step(g, Turn2()) == (Turn3(), [TreeEdge(TO_MIDDLE), DiscoverNode(2)])
    ensures Step(g, Turn3()) == (Turn4(), [ForwardOrCrossEdge(MIDDLE_TO_LAST)])
  {
    OutEdgesOfShortcut(g);
    TreeTurn(g, Turn2().colours, [], 0, TO_MIDDLE, []);
    assert [TO_MIDDLE] + [] == [TO_MIDDLE] && [] + [Frame(0, [TO_MIDDLE])] == Turn2().stack;
    assert [] + [Frame(0, [])] + [Frame(2, [MIDDLE_TO_LAST])] == Turn3().stack;
    assert Turn3().stack == [Frame(0, [])] + [Frame(2, [MIDDLE_TO_LAST])];
    CrossTurn(g, Turn3().colours, [Frame(0, [])], 2, MIDDLE_TO_LAST);
    assert [Frame(0, [])] + [Frame(2, [])] == Turn4().stack;
  }

  lemma TurnsLast(g: Graph)
    requires g.edges == [TO_LAST, MIDDLE_TO_LAST, TO_MIDDLE]
    ensures Step(g, Turn4()) == (Turn5(), [FinishNode(2)])
    ensures Step(g, Turn5()) == (Turn6(), [FinishNode(0)])
  {
    assert [Frame(0, [])] + [Frame(2, [])] == Turn4().stack;
    FinishTurn(g, Turn4().colours, [Frame(0, [])], 2);
    assert [] + [Frame(0, [])] == Turn5().stack;
    FinishTurn(g, Turn5().colours, [], 0);
  }

  lemma ObserveTwo(names: seq<string>, s: VisitorState, a: Event, b: Event)
    requires EventInRange(names, a) && EventInRange(names, b)
    ensures ObserveAll(names, s, [a, b]) == Observe(names, Observe(names, s, a), b)
  {
    assert [a, b][1..] == [b];
    ObserveOne(names, Observe(names, s, a), b);
  }

  lemma SearchMeasured(g: Graph)
    requires g.Valid() && |g.names| == 3 && g.edges == [TO_LAST, MIDDLE_TO_LAST, TO_MIDDLE]
    ensures MeasuredLength(g, 0) == 2
  {
    var names := g.names;
    SearchStarts(g);
    TurnsFirst(g);
    TurnsSecond(g);
    TurnsMiddle(g);
    TurnsLast(g);
    StartGrounded(g, map[], 0);
    var none, s0 := PathLengthState(0, 0), PathLengthState(1, 1);
    ObserveTwo(names, s0, TreeEdge(TO_LAST), DiscoverNode(1));
    StepMeasured(g, Turn0(), Turn1(), s0, PathLengthState(2, 2));
    ObserveOne(names, PathLengthState(2, 2), FinishNode(1));
    StepMeasured(g, Turn1(), Turn2(), PathLengthState(2, 2), PathLengthState(2, 1));
    ObserveTwo(names, PathLengthState(2, 1), TreeEdge(TO_MIDDLE), DiscoverNode(2));
    StepMeasured(g, Turn2(), Turn3(), PathLengthState(2, 1), PathLengthState(2, 2));
    ObserveOne(names, PathLengthState(2, 2), ForwardOrCrossEdge(MIDDLE_TO_LAST));
    StepMeasured(g, Turn3(), Turn4(), PathLengthState(2, 2), PathLengthState(2, 2));
    ObserveOne(names, PathLengthState(2, 2), FinishNode(2));
    StepMeasured(g, Turn4(), Turn5(), PathLengthState(2, 2), PathLengthState(2, 1));
    ObserveOne(names, PathLengthState(2, 1), FinishNode(0));
    StepMeasured(g, Turn5(), Turn6(), PathLengthState(2, 1), PathLengthState(2, 0));
    ObserveOne(names, none, DiscoverNode(0));
    ObserveConcat(names, none, [DiscoverNode(0)], Run(g, Turn0()).1);
  }

  lemma {:induction false} NoneEnter(es: seq<Edge>, n: nat)
    requires forall e <- es :: e.target != n
    ensures EdgesTo(es, n) == []
  {
    if es != [] {
      NoneEnter(es[..|es| - 1], n);
    }
  }

  lemma LongWay(g: Graph)
    requires g.edges == [TO_LAST, MIDDLE_TO_LAST, TO_MIDDLE]
    ensures IsWalk(g, 0, [TO_MIDDLE, MIDDLE_TO_LAST], 1) && IsRootNode(g, 0)
  {
    assert [TO_MIDDLE, MIDDLE_TO_LAST][1..] == [MIDDLE_TO_LAST] && [MIDDLE_TO_LAST][1..] == [];
    assert g.edges[1] == MIDDLE_TO_LAST && g.edges[2] == TO_MIDDLE;
    assert IsWalk(g, 1, [], 1);
    assert IsWalk(g, 2, [MIDDLE_TO_LAST], 1);
    NoneEnter(g.edges, 0);
  }

  /** Nodes 0, 2 and 1, in the order of the walks. */
  function Rank(n: nat): nat {
    if n == 0 then 0 else if n == 2 then 1 else 2
  }

  lemma {:induction false} WalkAscends(g: Graph, a: nat, p: seq<Edge>, b: nat)
    requires g.edges == [TO_LAST, MIDDLE_TO_LAST, TO_MIDDLE] && IsWalk(g, a, p, b)
    ensures Rank(a) + |p| <= Rank(b)
    decreases |p|
  {
    if p != [] {
      WalkAscends(g, p[0].target, p[1..], b);
    }
  }

  lemma ShortcutAcyclic(a: string, b: string, c: string)
    requires Ascending(a, b, c)
    ensures RelationAcyclic(After(Shortcut(a, b, c)) + After([]))
  {
    var g := ShortcutGraph(a, b, c);
    ShortcutBuilt(a, b, c);
    BuiltGraphMeaning(Shortcut(a, b, c), []);
    forall n, p | IsCycle(g, n, p)
      ensures false
    {
      WalkAscends(g, n, p, n);
    }
    RepresentsAcyclic(g, Shortcut(a, b, c), []);
  }

  /** Masterlist groups for which the measured length is less than the number of nodes of a walk from the root. */
  lemma MeasuredLengthFallsShort(a: string, b: string, c: string)
    requires Ascending(a, b, c)
    ensures RelationAcyclic(After(Shortcut(a, b, c)) + After([]))
    ensures BuiltGraph(Shortcut(a, b, c), []) == Ok(ShortcutGraph(a, b, c)) && ShortcutGraph(a, b, c).Valid()
    ensures IsRootNode(ShortcutGraph(a, b, c), 0)
    ensures IsWalk(ShortcutGraph(a, b, c), 0, [TO_MIDDLE, MIDDLE_TO_LAST], 1)
    ensures MeasuredLength(ShortcutGraph(a, b, c), 0) < |[TO_MIDDLE, MIDDLE_TO_LAST]| + 1
  {
    ShortcutAcyclic(a, b, c);
    ShortcutBuilt(a, b, c);
    ShortcutValid(a, b, c);
    SearchMeasured(ShortcutGraph(a, b, c));
    LongWay(ShortcutGraph(a, b, c));
  }
}
