/** build_groups_graph of src/sorting/groups.rs. */
module GroupsGraph {
  import opened Wrappers
  import opened Graphs
  import opened StableSort
  import opened Metadata
  import CycleDetection

  datatype BuildError = UndefinedGroup(name: string) | CycleFound(cycle: seq<Vertex>)

  // ---------- the load-after relation ----------

  /** Some definition of the later group says that it loads after the earlier one. */
  datatype LoadAfter = LoadAfter(earlier: string, later: string)

  type Relation = set<LoadAfter>

  predicate Declares(g: Group, p: LoadAfter) {
    g.name == p.later && p.earlier in g.afterGroups
  }

  ghost function After(groups: seq<Group>): Relation {
    if groups == [] then {}
    else (set a | a in groups[0].afterGroups :: LoadAfter(a, groups[0].name)) + After(groups[1..])
  }

  lemma {:induction false} AfterMembers(groups: seq<Group>, p: LoadAfter)
    ensures p in After(groups) <==> exists g :: g in groups && Declares(g, p)
  {
    if groups != [] {
      AfterMembers(groups[1..], p);
      if p in After(groups[1..]) {
        var g :| g in groups[1..] && Declares(g, p);
        assert g in groups;
      } else if p in After(groups) {
        assert Declares(groups[0], p);
      }
      if exists g :: g in groups && Declares(g, p) {
        var g :| g in groups && Declares(g, p);
        assert g == groups[0] || g in groups[1..];
      }
    }
  }

  ghost function Names(groups: seq<Group>): set<string> {
    if groups == [] then {} else {groups[0].name} + Names(groups[1..])
  }

  lemma {:induction false} NamesMembers(groups: seq<Group>, n: string)
    ensures n in Names(groups) <==> exists g :: g in groups && g.name == n
  {
    if groups != [] {
      assert groups == [groups[0]] + groups[1..];
      NamesMembers(groups[1..], n);
    }
  }

  /** Every group that is loaded after is a masterlist group or, for the user's groups, a group of either. */
  ghost predicate AllDefined(masterlist: seq<Group>, userlist: seq<Group>) {
    && (forall p <- After(masterlist) :: p.earlier in Names(masterlist))
    && (forall p <- After(userlist) :: p.earlier in Names(masterlist) + Names(userlist))
  }

  /** n is loaded after by a group of a list, but does not name a group that the list may refer to. */
  ghost predicate IsUndefined(masterlist: seq<Group>, userlist: seq<Group>, n: string) {
    || (n !in Names(masterlist) && exists p :: p in After(masterlist) && p.earlier == n)
    || (n !in Names(masterlist) + Names(userlist) && exists p :: p in After(userlist) && p.earlier == n)
  }

  ghost predicate IsChain(rel: Relation, a: string, p: seq<string>, b: string)
    decreases |p|
  {
    if p == [] then a == b else LoadAfter(a, p[0]) in rel && IsChain(rel, p[0], p[1..], b)
  }

  ghost predicate RelationAcyclic(rel: Relation) {
    forall a, p :: p != [] ==> !IsChain(rel, a, p, a)
  }

  // ---------- what building does, as functions ----------

  function ByName(a: Group, b: Group): bool {
    StringLeq(a.name, b.name)
  }

  function SortedByName(groups: seq<Group>): (r: seq<Group>)
    ensures forall g :: g in r <==> g in groups
  {
    MembersOfMultiset(SortBy(groups, ByName), groups);
    SortBy(groups, ByName)
  }

  function SortedClone(strings: seq<string>): (r: seq<string>)
    ensures forall s :: s in r <==> s in strings
  {
    MembersOfMultiset(SortBy(strings, StringLeq), strings);
    SortBy(strings, StringLeq)
  }

  function AddedNames(names: seq<string>, groups: seq<Group>): seq<string>
    decreases |groups|
  {
    if groups == [] then names
    else AddedNames(if groups[0].name in names then names else names + [groups[0].name], groups[1..])
  }

  lemma {:induction false} AddedNamesMembers(names: seq<string>, groups: seq<Group>)
    ensures names <= AddedNames(names, groups)
    ensures forall n :: n in AddedNames(names, groups) <==> n in names || n in Names(groups)
    ensures NoRepeats(names) ==> NoRepeats(AddedNames(names, groups))
    decreases |groups|
  {
    if groups != [] {
      AddedNamesMembers(if groups[0].name in names then names else names + [groups[0].name], groups[1..]);
    }
  }

  ghost predicate NoRepeats(names: seq<string>) {
    forall i, j :: 0 <= i < j < |names| ==> names[i] != names[j]
  }

  function IndexOf(names: seq<string>, n: string): (i: nat)
    requires n in names
    ensures i < |names| && names[i] == n
  {
    if names[0] == n then 0 else 1 + IndexOf(names[1..], n)
  }

  /** The type of the edge from a to b is replaced if there is one, otherwise an edge is added. */
  function UpdatedEdges(edges: seq<Edge>, a: nat, b: nat, kind: EdgeType): seq<Edge> {
    if edges == [] then [Edge(a, b, kind)]
    else if edges[0].source == a && edges[0].target == b then [Edge(a, b, kind)] + edges[1..]
    else [edges[0]] + UpdatedEdges(edges[1..], a, b, kind)
  }

  /** Adds the edges into the group called name, or reports the first name that has no node. */
  function AddedGroupEdges(names: seq<string>, edges: seq<Edge>, name: string, after: seq<string>,
                           kind: EdgeType): Result<seq<Edge>, string>
    requires name in names
    decreases |after|
  {
    if after == [] then Ok(edges)
    else if after[0] !in names then Err(after[0])
    else
      var edges' := UpdatedEdges(edges, IndexOf(names, after[0]), IndexOf(names, name), kind);
      AddedGroupEdges(names, edges', name, after[1..], kind)
  }

  ghost predicate HasNodes(names: seq<string>, groups: seq<Group>) {
    forall n <- Names(groups) :: n in names
  }

  function AddedEdges(names: seq<string>, edges: seq<Edge>, groups: seq<Group>,
                      kind: EdgeType): Result<seq<Edge>, string>
    requires HasNodes(names, groups)
    decreases |groups|
  {
    if groups == [] then Ok(edges)
    else
      match AddedGroupEdges(names, edges, groups[0].name, SortedClone(groups[0].afterGroups), kind)
      case Err(n) => Err(n)
      case Ok(edges') => AddedEdges(names, edges', groups[1..], kind)
  }

  /** The graph before it is checked for cycles, or the undefined group that stops it being built. */
  function BuiltGraph(masterlist: seq<Group>, userlist: seq<Group>): Result<Graph, string> {
    var masterlist', userlist' := SortedByName(masterlist), SortedByName(userlist);
    var names1 := AddedNames([], masterlist');
    var names2 := AddedNames(names1, userlist');
    AddedNamesMembers([], masterlist');
    AddedNamesMembers(names1, userlist');
    match AddedEdges(names1, [], masterlist', MasterlistLoadAfter)
    case Err(n) => Err(n)
    case Ok(edges1) =>
      match AddedEdges(names2, edges1, userlist', UserLoadAfter)
      case Err(n) => Err(n)
      case Ok(edges2) => Ok(Graph(names2, edges2))
  }

  /** New names are added in the order of the groups. */
  lemma {:induction false} NamesAdded(names: seq<string>, groups: seq<Group>, all: seq<string>)
    requires |all| == |names| + |groups| && names <= all && NoRepeats(all)
    requires forall i :: 0 <= i < |groups| ==> groups[i].name == all[|names| + i]
    ensures AddedNames(names, groups) == all
    decreases |groups|
  {
    if groups != [] {
      assert groups[0].name == all[|names| + 0];
      assert groups[0].name !in names;
      NamesAdded(names + [groups[0].name], groups[1..], all);
    }
  }

  lemma BuiltNames(masterlist: seq<Group>, userlist: seq<Group>)
    ensures BuiltGraph(masterlist, userlist).Ok? ==>
              BuiltGraph(masterlist, userlist).value.names
              == AddedNames(AddedNames([], SortedByName(masterlist)), SortedByName(userlist))
  {
  }

  // ---------- the graph under construction ----------

  class MutableGraph {
    var names: seq<string>
    var edges: seq<Edge>

    constructor ()
      ensures names == [] && edges == []
    {
      names, edges := [], [];
    }

    method AddNode(name: string) returns (index: nat)
      modifies this`names
      ensures names == old(names) + [name] && index == |old(names)|
    {
      index := |names|;
      names := names + [name];
    }

    method UpdateEdge(a: nat, b: nat, kind: EdgeType)
      modifies this`edges
      ensures edges == UpdatedEdges(old(edges), a, b, kind)
    {
      edges := UpdatedEdges(edges, a, b, kind);
    }
  }

  /** groupNodes maps each node's name to its index. */
  ghost predicate Indexes(groupNodes: map<string, nat>, names: seq<string>) {
    && NoRepeats(names)
    && (forall n <- groupNodes :: groupNodes[n] < |names| && names[groupNodes[n]] == n)
    && (forall n <- names :: n in groupNodes)
  }

  lemma IndexesGrow(groupNodes: map<string, nat>, names: seq<string>, n: string)
    requires Indexes(groupNodes, names) && n !in groupNodes
    ensures Indexes(groupNodes[n := |names|], names + [n])
  {
  }

  method AddGroupNodes(graph: MutableGraph, groupNodes: map<string, nat>,
                       groups: seq<Group>) returns (nodes: map<string, nat>)
    requires Indexes(groupNodes, graph.names)
    modifies graph`names
    ensures graph.names == AddedNames(old(graph.names), groups) && Indexes(nodes, graph.names)
  {
    nodes := groupNodes;
    for i := 0 to |groups|
      invariant Indexes(nodes, graph.names)
      invariant AddedNames(graph.names, groups[i..]) == AddedNames(old(graph.names), groups)
    {
      assert groups[i..][1..] == groups[i + 1..];
      var key := groups[i].name;
      if key !in nodes {
        IndexesGrow(nodes, graph.names, key);
        var nodeIndex := graph.AddNode(key);
        nodes := nodes[key := nodeIndex];
      }
    }
  }

  method AddGroupEdges(graph: MutableGraph, nodes: map<string, nat>, group: Group, kind: EdgeType)
    returns (undefined: Option<string>)
    requires Indexes(nodes, graph.names) && group.name in graph.names
    modifies graph`edges
    ensures AddedGroupEdges(graph.names, old(graph.edges), group.name, SortedClone(group.afterGroups), kind)
         == if undefined.Some? then Err(undefined.value) else Ok(graph.edges)
  {
    if group.name !in nodes {
      // The source reports an error here; Indexes shows that this does not happen.
      return Some(group.name);
    }
    IndexUnique(graph.names, nodes[group.name]);
    var after := SortedClone(group.afterGroups);
    ghost var goal := AddedGroupEdges(graph.names, graph.edges, group.name, after, kind);
    assert after[0..] == after;
    for j := 0 to |after|
      invariant AddedGroupEdges(graph.names, graph.edges, group.name, after[j..], kind) == goal
    {
      assert after[j..][1..] == after[j + 1..];
      if after[j] !in nodes {
        return Some(after[j]);
      }
      IndexUnique(graph.names, nodes[after[j]]);
      graph.UpdateEdge(nodes[after[j]], nodes[group.name], kind);
    }
    return None;
  }

  method AddGroups(graph: MutableGraph, groupNodes: map<string, nat>, groups: seq<Group>, kind: EdgeType)
    returns (r: Result<map<string, nat>, string>)
    requires Indexes(groupNodes, graph.names)
    modifies graph
    ensures graph.names == AddedNames(old(graph.names), groups) && HasNodes(graph.names, groups)
    ensures var edges := AddedEdges(graph.names, old(graph.edges), groups, kind);
            if edges.Err? then r == Err(edges.error)
            else r.Ok? && graph.edges == edges.value && Indexes(r.value, graph.names)
  {
    var nodes := AddGroupNodes(graph, groupNodes, groups);
    AddedNamesMembers(old(graph.names), groups);
    ghost var names := graph.names;
    ghost var goal := AddedEdges(names, graph.edges, groups, kind);
    assert groups[0..] == groups;
    for i := 0 to |groups|
      invariant graph.names == names && HasNodes(names, groups[i..])
      invariant AddedEdges(names, graph.edges, groups[i..], kind) == goal
    {
      assert groups[i..][1..] == groups[i + 1..];
      var undefined := AddGroupEdges(graph, nodes, groups[i], kind);
      if undefined.Some? {
        return Err(undefined.value);
      }
    }
    r := Ok(nodes);
  }

  lemma IndexUnique(names: seq<string>, i: nat)
    requires NoRepeats(names) && i < |names|
    ensures IndexOf(names, names[i]) == i
  {
  }

  // ---------- what the graph means ----------

  predicate SameEnds(e: Edge, f: Edge) {
    e.source == f.source && e.target == f.target
  }

  ghost predicate OneEdgePerPair(edges: seq<Edge>) {
    forall i, j :: 0 <= i < j < |edges| ==> !SameEnds(edges[i], edges[j])
  }

  /** The pair of names that an edge stands for. */
  ghost function Ends(names: seq<string>, e: Edge): LoadAfter
    requires e.source < |names| && e.target < |names|
  {
    LoadAfter(names[e.source], names[e.target])
  }

  ghost predicate InRange(names: seq<string>, edges: seq<Edge>) {
    forall e <- edges :: e.source < |names| && e.target < |names|
  }

  ghost predicate StandsFor(names: seq<string>, edges: seq<Edge>, p: LoadAfter)
    requires InRange(names, edges)
  {
    exists e :: e in edges && Ends(names, e) == p
  }

  /** The edges stand for the pairs that rel types, with those types. */
  ghost predicate Means(names: seq<string>, edges: seq<Edge>, rel: map<LoadAfter, EdgeType>) {
    && InRange(names, edges)
    && (forall e <- edges :: Ends(names, e) in rel && rel[Ends(names, e)] == e.kind)
    && (forall p <- rel :: StandsFor(names, edges, p))
    && OneEdgePerPair(edges)
  }

  lemma {:induction false} UpdatedEdgesMembers(edges: seq<Edge>, a: nat, b: nat, kind: EdgeType)
    requires OneEdgePerPair(edges)
    ensures forall e :: e in UpdatedEdges(edges, a, b, kind) <==>
              e == Edge(a, b, kind) || (e in edges && !(e.source == a && e.target == b))
    ensures OneEdgePerPair(UpdatedEdges(edges, a, b, kind))
  {
    if edges != [] {
      OnlyOneEdge(edges);
      if edges[0].source != a || edges[0].target != b {
        UpdatedEdgesMembers(edges[1..], a, b, kind);
        EdgeBefore(edges[0], UpdatedEdges(edges[1..], a, b, kind));
      }
    }
  }

  /** The first edge with these ends takes the new type where it stands; if there is none, an edge is appended. */
  lemma {:induction false} UpdatedEdgesAt(edges: seq<Edge>, a: nat, b: nat, kind: EdgeType, i: nat)
    requires i <= |edges| && forall j :: 0 <= j < i ==> !SameEnds(edges[j], Edge(a, b, kind))
    requires i < |edges| ==> SameEnds(edges[i], Edge(a, b, kind))
    ensures UpdatedEdges(edges, a, b, kind)
         == if i < |edges| then edges[i := Edge(a, b, kind)] else edges + [Edge(a, b, kind)]
  {
    if edges != [] && i > 0 {
      UpdatedEdgesAt(edges[1..], a, b, kind, i - 1);
      assert edges == [edges[0]] + edges[1..];
    }
  }

  lemma OnlyOneEdge(edges: seq<Edge>)
    requires edges != [] && OneEdgePerPair(edges)
    ensures edges == [edges[0]] + edges[1..] && OneEdgePerPair(edges[1..])
    ensures forall e <- edges[1..] :: !SameEnds(edges[0], e)
  {
  }

  lemma EdgeBefore(e: Edge, edges: seq<Edge>)
    requires OneEdgePerPair(edges) && forall f <- edges :: !SameEnds(e, f)
    ensures OneEdgePerPair([e] + edges)
  {
  }

  lemma EndsDiffer(names: seq<string>, e: Edge, a: nat, b: nat)
    requires NoRepeats(names) && e.source < |names| && e.target < |names| && a < |names| && b < |names|
    requires !(e.source == a && e.target == b)
    ensures Ends(names, e) != LoadAfter(names[a], names[b])
  {
  }

  lemma UpdatedEdgesMean(names: seq<string>, edges: seq<Edge>, rel: map<LoadAfter, EdgeType>, a: nat, b: nat,
                         kind: EdgeType)
    requires NoRepeats(names) && Means(names, edges, rel) && a < |names| && b < |names|
    ensures Means(names, UpdatedEdges(edges, a, b, kind), rel[LoadAfter(names[a], names[b]) := kind])
  {
    UpdatedEdgesMembers(edges, a, b, kind);
    var r, rel' := UpdatedEdges(edges, a, b, kind), rel[LoadAfter(names[a], names[b]) := kind];
    forall e | e in r
      ensures e.source < |names| && e.target < |names| && Ends(names, e) in rel' && rel'[Ends(names, e)] == e.kind
    {
      if e != Edge(a, b, kind) {
        EndsDiffer(names, e, a, b);
      }
    }
    forall p | p in rel'
      ensures StandsFor(names, r, p)
    {
      if p == LoadAfter(names[a], names[b]) {
        assert Ends(names, Edge(a, b, kind)) == p;
      } else {
        assert StandsFor(names, edges, p);
        var e :| e in edges && Ends(names, e) == p;
        assert e in r;
      }
    }
  }

  ghost function Overlaid(rel: map<LoadAfter, EdgeType>, name: string, after: seq<string>,
                          kind: EdgeType): map<LoadAfter, EdgeType>
    decreases |after|
  {
    if after == [] then rel else Overlaid(rel[LoadAfter(after[0], name) := kind], name, after[1..], kind)
  }

  /** rel with the pairs that groups declare given the type kind. */
  ghost function OverlaidAll(rel: map<LoadAfter, EdgeType>, groups: seq<Group>,
                             kind: EdgeType): map<LoadAfter, EdgeType>
    decreases |groups|
  {
    if groups == [] then rel
    else OverlaidAll(Overlaid(rel, groups[0].name, SortedClone(groups[0].afterGroups), kind), groups[1..], kind)
  }

  lemma {:induction false} AddedGroupEdgesMean(names: seq<string>, edges: seq<Edge>, name: string, after: seq<string>,
                                               kind: EdgeType, rel: map<LoadAfter, EdgeType>)
    requires NoRepeats(names) && Means(names, edges, rel) && name in names
    ensures var r := AddedGroupEdges(names, edges, name, after, kind);
            && (r.Ok? <==> forall a <- after :: a in names)
            && (r.Ok? ==> Means(names, r.value, Overlaid(rel, name, after, kind)))
    decreases |after|
  {
    if after != [] {
      if after[0] in names {
        var a, b := IndexOf(names, after[0]), IndexOf(names, name);
        UpdatedEdgesMean(names, edges, rel, a, b, kind);
        AddedGroupEdgesMean(names, UpdatedEdges(edges, a, b, kind), name, after[1..], kind,
                            rel[LoadAfter(after[0], name) := kind]);
        assert after == [after[0]] + after[1..];
      }
    }
  }

  lemma {:induction false} AddedEdgesMean(names: seq<string>, edges: seq<Edge>, groups: seq<Group>, kind: EdgeType,
                                          rel: map<LoadAfter, EdgeType>)
    requires NoRepeats(names) && Means(names, edges, rel) && HasNodes(names, groups)
    ensures var r := AddedEdges(names, edges, groups, kind);
            && (r.Ok? <==> forall p <- After(groups) :: p.earlier in names)
            && (r.Ok? ==> Means(names, r.value, OverlaidAll(rel, groups, kind)))
    decreases |groups|
  {
    if groups != [] {
      var g := groups[0];
      var after := SortedClone(g.afterGroups);
      AddedGroupEdgesMean(names, edges, g.name, after, kind, rel);
      var r1 := AddedGroupEdges(names, edges, g.name, after, kind);
      if r1.Ok? {
        AddedEdgesMean(names, r1.value, groups[1..], kind, Overlaid(rel, g.name, after, kind));
      } else {
        var a :| a in after && a !in names;
        assert LoadAfter(a, g.name) in After(groups);
      }
    }
  }

  lemma {:induction false} OverlaidMembers(rel: map<LoadAfter, EdgeType>, name: string, after: seq<string>,
                                           kind: EdgeType, p: LoadAfter)
    ensures var r := Overlaid(rel, name, after, kind);
            var declared := p.later == name && p.earlier in after;
            && (p in r <==> p in rel || declared)
            && (p in r ==> r[p] == if declared then kind else rel[p])
    decreases |after|
  {
    if after != [] {
      OverlaidMembers(rel[LoadAfter(after[0], name) := kind], name, after[1..], kind, p);
      assert p.earlier in after <==> p.earlier == after[0] || p.earlier in after[1..];
    }
  }

  lemma {:induction false} OverlaidAllMembers(rel: map<LoadAfter, EdgeType>, groups: seq<Group>, kind: EdgeType,
                                              p: LoadAfter)
    ensures var r := OverlaidAll(rel, groups, kind);
            && (p in r <==> p in rel || p in After(groups))
            && (p in r ==> r[p] == if p in After(groups) then kind else rel[p])
    decreases |groups|
  {
    if groups != [] {
      var after := SortedClone(groups[0].afterGroups);
      OverlaidMembers(rel, groups[0].name, after, kind, p);
      OverlaidAllMembers(Overlaid(rel, groups[0].name, after, kind), groups[1..], kind, p);
    }
  }

  /** One node per name, one edge per related pair, typed as the user's exactly when the userlist declares it. */
  ghost predicate Represents(g: Graph, masterlist: seq<Group>, userlist: seq<Group>) {
    && g.Valid() && g.UniqueNames()
    && (forall n :: n in g.names <==> n in Names(masterlist) + Names(userlist))
    && InRange(g.names, g.edges) && OneEdgePerPair(g.edges)
    && (forall e <- g.edges ::
          if Ends(g.names, e) in After(userlist) then e.kind == UserLoadAfter
          else Ends(g.names, e) in After(masterlist) && e.kind == MasterlistLoadAfter)
    && (forall p <- After(masterlist) + After(userlist) :: StandsFor(g.names, g.edges, p))
  }

  lemma SameMembers(a: seq<Group>, b: seq<Group>)
    requires forall g :: g in a <==> g in b
    ensures After(a) == After(b) && Names(a) == Names(b)
  {
    forall p
      ensures p in After(a) <==> p in After(b)
    {
      AfterMembers(a, p);
      AfterMembers(b, p);
    }
    forall n
      ensures n in Names(a) <==> n in Names(b)
    {
      NamesMembers(a, n);
      NamesMembers(b, n);
    }
  }

  /** Adding nodes at the end does not change what the edges mean. */
  lemma MeansExtend(names: seq<string>, names': seq<string>, edges: seq<Edge>, rel: map<LoadAfter, EdgeType>)
    requires Means(names, edges, rel) && names <= names'
    ensures Means(names', edges, rel)
  {
    forall e | e in edges
      ensures e.source < |names'| && e.target < |names'| && Ends(names', e) == Ends(names, e)
    {
    }
    forall p | p in rel
      ensures StandsFor(names', edges, p)
    {
      assert StandsFor(names, edges, p);
      var e :| e in edges && Ends(names, e) == p;
      assert Ends(names', e) == p;
    }
  }

  lemma BuiltGraphMeaning(masterlist: seq<Group>, userlist: seq<Group>)
    ensures BuiltGraph(masterlist, userlist).Ok? <==> AllDefined(masterlist, userlist)
    ensures BuiltGraph(masterlist, userlist).Err? ==>
              IsUndefined(masterlist, userlist, BuiltGraph(masterlist, userlist).error)
    ensures BuiltGraph(masterlist, userlist).Ok? ==>
              Represents(BuiltGraph(masterlist, userlist).value, masterlist, userlist)
  {
    var masterlist', userlist' := SortedByName(masterlist), SortedByName(userlist);
    SameMembers(masterlist', masterlist);
    SameMembers(userlist', userlist);
    var names1 := AddedNames([], masterlist');
    var names2 := AddedNames(names1, userlist');
    AddedNamesMembers([], masterlist');
    AddedNamesMembers(names1, userlist');
    AddedEdgesMean(names1, [], masterlist', MasterlistLoadAfter, map[]);
    ErrorUndefined(names1, [], masterlist', MasterlistLoadAfter);
    var r1 := AddedEdges(names1, [], masterlist', MasterlistLoadAfter);
    if r1.Ok? {
      var rel1 := OverlaidAll(map[], masterlist', MasterlistLoadAfter);
      MeansExtend(names1, names2, r1.value, rel1);
      AddedEdgesMean(names2, r1.value, userlist', UserLoadAfter, rel1);
      ErrorUndefined(names2, r1.value, userlist', UserLoadAfter);
      var r2 := AddedEdges(names2, r1.value, userlist', UserLoadAfter);
      if r2.Ok? {
        MeaningRepresents(Graph(names2, r2.value), masterlist, userlist, OverlaidAll(rel1, userlist', UserLoadAfter));
      }
    }
  }

  lemma MeaningRepresents(g: Graph, masterlist: seq<Group>, userlist: seq<Group>, rel: map<LoadAfter, EdgeType>)
    requires NoRepeats(g.names) && (forall n :: n in g.names <==> n in Names(masterlist) + Names(userlist))
    requires Means(g.names, g.edges, rel)
    requires rel == OverlaidAll(OverlaidAll(map[], SortedByName(masterlist), MasterlistLoadAfter),
                                SortedByName(userlist), UserLoadAfter)
    ensures Represents(g, masterlist, userlist)
  {
    var masterlist', userlist' := SortedByName(masterlist), SortedByName(userlist);
    SameMembers(masterlist', masterlist);
    SameMembers(userlist', userlist);
    forall p
      ensures p in rel <==> p in After(masterlist) + After(userlist)
      ensures p in rel ==> rel[p] == if p in After(userlist) then UserLoadAfter else MasterlistLoadAfter
    {
      OverlaidAllMembers(map[], masterlist', MasterlistLoadAfter, p);
      OverlaidAllMembers(OverlaidAll(map[], masterlist', MasterlistLoadAfter), userlist', UserLoadAfter, p);
    }
  }

  lemma {:induction false} WalkIsChain(g: Graph, masterlist: seq<Group>, userlist: seq<Group>, a: nat, w: seq<Edge>,
                                       b: nat)
    returns (p: seq<string>)
    requires Represents(g, masterlist, userlist) && IsWalk(g, a, w, b) && a < |g.names|
    ensures |p| == |w| && b < |g.names| && IsChain(After(masterlist) + After(userlist), g.names[a], p, g.names[b])
    decreases |w|
  {
    if w == [] {
      p := [];
    } else {
      var rest := WalkIsChain(g, masterlist, userlist, w[0].target, w[1..], b);
      p := [g.names[w[0].target]] + rest;
      assert p[1..] == rest;
      assert Ends(g.names, w[0]) == LoadAfter(g.names[a], p[0]);
    }
  }

  lemma {:induction false} ChainIsWalk(g: Graph, masterlist: seq<Group>, userlist: seq<Group>, a: nat, p: seq<string>,
                                       n: string)
    returns (w: seq<Edge>, b: nat)
    requires Represents(g, masterlist, userlist) && a < |g.names|
    requires IsChain(After(masterlist) + After(userlist), g.names[a], p, n)
    ensures |w| == |p| && b < |g.names| && g.names[b] == n && IsWalk(g, a, w, b)
    decreases |p|
  {
    if p == [] {
      w, b := [], a;
    } else {
      var pair := LoadAfter(g.names[a], p[0]);
      assert StandsFor(g.names, g.edges, pair);
      var e :| e in g.edges && Ends(g.names, e) == pair;
      assert e.source == a;
      var rest;
      rest, b := ChainIsWalk(g, masterlist, userlist, e.target, p[1..], n);
      w := [e] + rest;
      assert w[1..] == rest;
    }
  }

  /** The graph has a cycle exactly when the load-after relation does. */
  lemma RepresentsAcyclic(g: Graph, masterlist: seq<Group>, userlist: seq<Group>)
    requires Represents(g, masterlist, userlist) && AllDefined(masterlist, userlist)
    ensures Acyclic(g) <==> RelationAcyclic(After(masterlist) + After(userlist))
  {
    var rel := After(masterlist) + After(userlist);
    if RelationAcyclic(rel) {
      forall a, w | IsCycle(g, a, w)
        ensures false
      {
        WalkInRange(g, a, w, a);
        var p := WalkIsChain(g, masterlist, userlist, a, w, a);
      }
    }
    if Acyclic(g) {
      forall n, p | p != [] && IsChain(rel, n, p, n)
        ensures false
      {
        var pair := LoadAfter(n, p[0]);
        assert pair in rel && StandsFor(g.names, g.edges, pair);
        var e :| e in g.edges && Ends(g.names, e) == pair;
        var w, b := ChainIsWalk(g, masterlist, userlist, e.source, p, n);
        assert IsCycle(g, e.source, w);
      }
    }
  }

  lemma {:induction false} GroupErrorUndefined(names: seq<string>, edges: seq<Edge>, name: string, after: seq<string>,
                                               kind: EdgeType)
    requires name in names
    ensures var r := AddedGroupEdges(names, edges, name, after, kind);
            r.Err? ==> r.error !in names && r.error in after
    decreases |after|
  {
    if after != [] && after[0] in names {
      var edges' := UpdatedEdges(edges, IndexOf(names, after[0]), IndexOf(names, name), kind);
      GroupErrorUndefined(names, edges', name, after[1..], kind);
    }
  }

  lemma {:induction false} ErrorUndefined(names: seq<string>, edges: seq<Edge>, groups: seq<Group>, kind: EdgeType)
    requires HasNodes(names, groups)
    ensures var r := AddedEdges(names, edges, groups, kind);
            r.Err? ==> r.error !in names && exists p :: p in After(groups) && p.earlier == r.error
    decreases |groups|
  {
    if groups != [] {
      var after := SortedClone(groups[0].afterGroups);
      GroupErrorUndefined(names, edges, groups[0].name, after, kind);
      var r1 := AddedGroupEdges(names, edges, groups[0].name, after, kind);
      if r1.Ok? {
        ErrorUndefined(names, r1.value, groups[1..], kind);
      } else {
        assert LoadAfter(r1.error, groups[0].name) in After(groups);
      }
    }
  }

  // ---------- building the graph ----------

  method BuildGroupsGraph(masterlist: seq<Group>, userlist: seq<Group>) returns (r: Result<Graph, BuildError>)
    ensures r.Ok? <==> AllDefined(masterlist, userlist) && RelationAcyclic(After(masterlist) + After(userlist))
    ensures r.Ok? ==> BuiltGraph(masterlist, userlist) == Ok(r.value)
    ensures r.Ok? ==> Represents(r.value, masterlist, userlist) && Acyclic(r.value)
    ensures r.Err? ==> (r.error.UndefinedGroup? <==> !AllDefined(masterlist, userlist))
    ensures r.Err? && r.error.UndefinedGroup? ==> IsUndefined(masterlist, userlist, r.error.name)
    ensures r.Err? && r.error.CycleFound? ==>
              && BuiltGraph(masterlist, userlist).Ok?
              && CycleDetection.IsGenuineCycle(BuiltGraph(masterlist, userlist).value, r.error.cycle)
  {
    BuiltGraphMeaning(masterlist, userlist);
    var masterlistGroups := SortedByName(masterlist);
    var userlistGroups := SortedByName(userlist);

    var graph := new MutableGraph();
    var added := AddGroups(graph, map[], masterlistGroups, MasterlistLoadAfter);
    if added.Err? {
      return Err(UndefinedGroup(added.error));
    }
    added := AddGroups(graph, added.value, userlistGroups, UserLoadAfter);
    if added.Err? {
      return Err(UndefinedGroup(added.error));
    }

    var g := Graph(graph.names, graph.edges);
    RepresentsAcyclic(g, masterlist, userlist);
    var cycle := CycleDetection.FindCycle(g);
    if cycle.Some? {
      return Err(CycleFound(cycle.value));
    }
    return Ok(g);
  }

}
