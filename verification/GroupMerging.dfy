/** merge_groups of src/database/mod.rs, and the independence of the groups graph from the order in
    which groups and their load-after lists are written. */
module GroupMerging {
  import opened Wrappers
  import opened Graphs
  import opened StableSort
  import opened Metadata
  import opened GroupsGraph
  import opened Sequences

  // ---------- merging ----------

  function AbsorbedOne(g: Group, r: Group): Group {
    Group(g.name, if r.description.Some? then r.description else g.description, g.afterGroups + r.afterGroups)
  }

  /** g with every definition of the same name in rhs absorbed, in order. */
  function Absorbed(g: Group, rhs: seq<Group>): (r: Group)
    ensures r.name == g.name
  {
    if rhs == [] then g
    else
      var g' := Absorbed(g, rhs[..|rhs| - 1]);
      if rhs[|rhs| - 1].name == g.name then AbsorbedOne(g', rhs[|rhs| - 1]) else g'
  }

  /** The index of the first group called n, or |groups| if there is none. */
  function FindByName(groups: seq<Group>, n: string): (i: nat)
    ensures i <= |groups| && (i < |groups| ==> groups[i].name == n)
    ensures forall j :: 0 <= j < i ==> groups[j].name != n
  {
    if groups == [] || groups[0].name == n then 0 else 1 + FindByName(groups[1..], n)
  }

  predicate IsFirst(groups: seq<Group>, i: nat)
    requires i < |groups|
  {
    FindByName(groups, groups[i].name) == i
  }

  /** The groups of rhs whose names are not in lhs. */
  function NewGroups(lhs: seq<Group>, rhs: seq<Group>): (r: seq<Group>)
    ensures forall g :: g in r <==> g in rhs && FindByName(lhs, g.name) == |lhs|
  {
    if rhs == [] then []
    else if FindByName(lhs, rhs[|rhs| - 1].name) == |lhs| then NewGroups(lhs, rhs[..|rhs| - 1]) + [rhs[|rhs| - 1]]
    else NewGroups(lhs, rhs[..|rhs| - 1])
  }

  function Updated(lhs: seq<Group>, rhs: seq<Group>): (r: seq<Group>)
    ensures |r| == |lhs|
    ensures forall i :: 0 <= i < |lhs| ==> r[i] == if IsFirst(lhs, i) then Absorbed(lhs[i], rhs) else lhs[i]
  {
    seq(|lhs|, i requires 0 <= i < |lhs| => if IsFirst(lhs, i) then Absorbed(lhs[i], rhs) else lhs[i])
  }

  lemma FindUnaffected(lhs: seq<Group>, rhs: seq<Group>, n: string)
    ensures FindByName(Updated(lhs, rhs), n) == FindByName(lhs, n)
  {
    var updated := Updated(lhs, rhs);
    assert forall i :: 0 <= i < |lhs| ==> updated[i].name == lhs[i].name;
  }

  /** Absorbing one more definition changes the first group of that name and nothing else. */
  lemma UpdatedAtStep(lhs: seq<Group>, rhs: seq<Group>, k: nat, j: nat)
    requires k < |rhs| && j < |lhs|
    ensures Updated(lhs, rhs[..k + 1])[j]
         == if j == FindByName(lhs, rhs[k].name) then AbsorbedOne(Updated(lhs, rhs[..k])[j], rhs[k])
            else Updated(lhs, rhs[..k])[j]
  {
    assert rhs[..k + 1][..k] == rhs[..k];
    if lhs[j].name == rhs[k].name {
      assert IsFirst(lhs, j) <==> j == FindByName(lhs, rhs[k].name);
    }
  }

  lemma UpdatedStep(lhs: seq<Group>, rhs: seq<Group>, k: nat, groups: seq<Group>)
    requires k < |rhs| && |groups| == |lhs|
    requires forall j :: 0 <= j < |lhs| ==>
      groups[j] == if j == FindByName(lhs, rhs[k].name) then AbsorbedOne(Updated(lhs, rhs[..k])[j], rhs[k])
                   else Updated(lhs, rhs[..k])[j]
    ensures groups == Updated(lhs, rhs[..k + 1])
  {
    forall j | 0 <= j < |lhs|
      ensures groups[j] == Updated(lhs, rhs[..k + 1])[j]
    {
      UpdatedAtStep(lhs, rhs, k, j);
    }
  }

  method MergeGroups(lhs: seq<Group>, rhs: seq<Group>) returns (groups: seq<Group>)
    ensures groups == Updated(lhs, rhs) + NewGroups(lhs, rhs)
    ensures After(groups) == After(lhs) + After(rhs) && Names(groups) == Names(lhs) + Names(rhs)
  {
    groups := lhs;
    var newGroups: seq<Group> := [];
    assert Updated(lhs, rhs[..0]) == lhs;
    for k := 0 to |rhs|
      invariant groups == Updated(lhs, rhs[..k]) && newGroups == NewGroups(lhs, rhs[..k])
    {
      var rhsGroup := rhs[k];
      FindUnaffected(lhs, rhs[..k], rhsGroup.name);
      assert rhs[..k + 1][..k] == rhs[..k];
      var i := FindByName(groups, rhsGroup.name);
      if i < |groups| {
        assert groups[i].afterGroups + [] == groups[i].afterGroups;
        if rhsGroup.description.Some? || rhsGroup.afterGroups != [] {
          var newGroup := groups[i];
          if rhsGroup.description.Some? {
            newGroup := newGroup.(description := rhsGroup.description);
          }
          if rhsGroup.afterGroups != [] {
            newGroup := newGroup.(afterGroups := newGroup.afterGroups + rhsGroup.afterGroups);
          }
          groups := groups[i := newGroup];
        }
      } else {
        newGroups := newGroups + [rhsGroup];
      }
      UpdatedStep(lhs, rhs, k, groups);
    }
    assert rhs[..|rhs|] == rhs;
    MergedRelation(lhs, rhs);
    groups := groups + newGroups;
  }

  /** All groups to load after that definitions of n give, in order. */
  function AfterGroupsOf(groups: seq<Group>, n: string): seq<string> {
    if groups == [] then []
    else AfterGroupsOf(groups[..|groups| - 1], n)
         + if groups[|groups| - 1].name == n then groups[|groups| - 1].afterGroups else []
  }

  lemma {:induction false} AbsorbedMeaning(g: Group, rhs: seq<Group>)
    ensures Absorbed(g, rhs).afterGroups == g.afterGroups + AfterGroupsOf(rhs, g.name)
    ensures forall k :: 0 <= k < |rhs| && IsLastDescription(rhs, k, g.name) ==>
                          Absorbed(g, rhs).description == rhs[k].description
    ensures (forall r :: r in rhs && r.name == g.name ==> r.description.None?) ==>
              Absorbed(g, rhs).description == g.description
  {
    if rhs != [] {
      var front, last := rhs[..|rhs| - 1], rhs[|rhs| - 1];
      assert rhs == front + [last];
      AbsorbedMeaning(g, front);
      assert forall k :: 0 <= k < |front| && IsLastDescription(rhs, k, g.name) ==> IsLastDescription(front, k, g.name);
    }
  }

  /** The k-th group describes n, and no later one does. */
  ghost predicate IsLastDescription(groups: seq<Group>, k: nat, n: string)
    requires k < |groups|
  {
    && groups[k].name == n && groups[k].description.Some?
    && forall j :: k < j < |groups| && groups[j].name == n ==> groups[j].description.None?
  }

  /** In the merged list, the first group of a name in the masterlist has the last description that the userlist gives
      for it, or else its own, and after its own groups to load after those of the userlist. The other groups of the
      masterlist stay as they are, and those with new names follow, as they are. */
  lemma MergeMeaning(lhs: seq<Group>, rhs: seq<Group>, i: nat)
    requires i < |lhs|
    ensures var r := (Updated(lhs, rhs) + NewGroups(lhs, rhs))[i];
            if exists j :: 0 <= j < i && lhs[j].name == lhs[i].name then r == lhs[i]
            else
              && r.name == lhs[i].name && r.afterGroups == lhs[i].afterGroups + AfterGroupsOf(rhs, lhs[i].name)
              && (forall k :: 0 <= k < |rhs| && IsLastDescription(rhs, k, lhs[i].name) ==>
                                r.description == rhs[k].description)
              && ((forall g :: g in rhs && g.name == lhs[i].name ==> g.description.None?) ==>
                    r.description == lhs[i].description)
  {
    AbsorbedMeaning(lhs[i], rhs);
    assert IsFirst(lhs, i) <==> !exists j :: 0 <= j < i && lhs[j].name == lhs[i].name;
  }

  function HasNewName(groups: seq<Group>): Group -> bool {
    (g: Group) => forall other :: other in groups ==> other.name != g.name
  }

  lemma {:induction false} NewGroupsAre(lhs: seq<Group>, rhs: seq<Group>)
    ensures NewGroups(lhs, rhs) == Where(rhs, HasNewName(lhs))
  {
    if rhs != [] {
      NewGroupsAre(lhs, rhs[..|rhs| - 1]);
      var last := rhs[|rhs| - 1];
      var i := FindByName(lhs, last.name);
      assert i < |lhs| ==> lhs[i] in lhs;
    }
  }

  lemma {:induction false} AbsorbedAfter(g: Group, rhs: seq<Group>, a: string)
    ensures a in Absorbed(g, rhs).afterGroups <==> a in g.afterGroups || LoadAfter(a, g.name) in After(rhs)
  {
    if rhs != [] {
      var front, last := rhs[..|rhs| - 1], rhs[|rhs| - 1];
      assert rhs == front + [last];
      AbsorbedAfter(g, front, a);
      AfterConcat(front, [last]);
      assert After([last]) == (set x | x in last.afterGroups :: LoadAfter(x, last.name)) + After([]);
    }
  }

  lemma {:induction false} AfterConcat(a: seq<Group>, b: seq<Group>)
    ensures After(a + b) == After(a) + After(b) && Names(a + b) == Names(a) + Names(b)
  {
    if a == [] {
      assert a + b == b;
    } else {
      assert (a + b)[1..] == a[1..] + b;
      AfterConcat(a[1..], b);
    }
  }

  /** Merging neither loses nor invents a load-after pair or a name. */
  lemma MergedRelation(lhs: seq<Group>, rhs: seq<Group>)
    ensures var r := Updated(lhs, rhs) + NewGroups(lhs, rhs);
            After(r) == After(lhs) + After(rhs) && Names(r) == Names(lhs) + Names(rhs)
  {
    var updated, added := Updated(lhs, rhs), NewGroups(lhs, rhs);
    AfterConcat(updated, added);
    forall p
      ensures p in After(updated) + After(added) <==> p in After(lhs) + After(rhs)
    {
      PairKept(lhs, rhs, p);
    }
    forall n
      ensures n in Names(updated) + Names(added) <==> n in Names(lhs) + Names(rhs)
    {
      NameKept(lhs, rhs, n);
    }
  }

  lemma NoPairInvented(lhs: seq<Group>, rhs: seq<Group>, p: LoadAfter)
    requires p in After(Updated(lhs, rhs)) + After(NewGroups(lhs, rhs))
    ensures p in After(lhs) + After(rhs)
  {
    if p in After(Updated(lhs, rhs)) {
      UpdatedPair(lhs, rhs, p);
    } else {
      AfterMembers(NewGroups(lhs, rhs), p);
      AfterMembers(rhs, p);
    }
  }

  lemma UpdatedPair(lhs: seq<Group>, rhs: seq<Group>, p: LoadAfter)
    requires p in After(Updated(lhs, rhs))
    ensures p in After(lhs) + After(rhs)
  {
    var updated := Updated(lhs, rhs);
    AfterMembers(updated, p);
    AfterMembers(lhs, p);
    AfterMembers(rhs, p);
    var g :| g in updated && Declares(g, p);
    var i :| 0 <= i < |updated| && updated[i] == g;
    AbsorbedAfter(lhs[i], rhs, p.earlier);
    assert lhs[i] in lhs;
  }

  lemma LhsPairKept(lhs: seq<Group>, rhs: seq<Group>, p: LoadAfter)
    requires p in After(lhs)
    ensures p in After(Updated(lhs, rhs))
  {
    var updated := Updated(lhs, rhs);
    AfterMembers(updated, p);
    AfterMembers(lhs, p);
    var g :| g in lhs && Declares(g, p);
    var i :| 0 <= i < |lhs| && lhs[i] == g;
    AbsorbedAfter(lhs[i], rhs, p.earlier);
    assert updated[i] in updated && Declares(updated[i], p);
  }

  lemma RhsPairKept(lhs: seq<Group>, rhs: seq<Group>, p: LoadAfter)
    requires p in After(rhs)
    ensures p in After(Updated(lhs, rhs)) + After(NewGroups(lhs, rhs))
  {
    var updated, added := Updated(lhs, rhs), NewGroups(lhs, rhs);
    AfterMembers(updated, p);
    AfterMembers(added, p);
    AfterMembers(rhs, p);
    var r :| r in rhs && Declares(r, p);
    var i := FindByName(lhs, r.name);
    if i == |lhs| {
      assert r in added;
    } else {
      AbsorbedAfter(lhs[i], rhs, p.earlier);
      assert updated[i] in updated && Declares(updated[i], p);
    }
  }

  lemma PairKept(lhs: seq<Group>, rhs: seq<Group>, p: LoadAfter)
    ensures p in After(Updated(lhs, rhs)) + After(NewGroups(lhs, rhs)) <==> p in After(lhs) + After(rhs)
  {
    if p in After(Updated(lhs, rhs)) + After(NewGroups(lhs, rhs)) {
      NoPairInvented(lhs, rhs, p);
    }
    if p in After(lhs) {
      LhsPairKept(lhs, rhs, p);
    }
    if p in After(rhs) {
      RhsPairKept(lhs, rhs, p);
    }
  }

  lemma UpdatedNames(lhs: seq<Group>, rhs: seq<Group>, n: string)
    ensures n in Names(Updated(lhs, rhs)) <==> n in Names(lhs)
  {
    var updated := Updated(lhs, rhs);
    NamesMembers(updated, n);
    NamesMembers(lhs, n);
    if n in Names(updated) {
      var g :| g in updated && g.name == n;
      var i :| 0 <= i < |updated| && updated[i] == g;
      assert lhs[i] in lhs && lhs[i].name == n;
    }
    if n in Names(lhs) {
      var g :| g in lhs && g.name == n;
      var i :| 0 <= i < |lhs| && lhs[i] == g;
      assert updated[i] in updated && updated[i].name == n;
    }
  }

  lemma NewNames(lhs: seq<Group>, rhs: seq<Group>, n: string)
    ensures n in Names(NewGroups(lhs, rhs)) ==> n in Names(rhs)
    ensures n in Names(rhs) ==> n in Names(NewGroups(lhs, rhs)) || n in Names(lhs)
  {
    NamesMembers(NewGroups(lhs, rhs), n);
    NamesMembers(rhs, n);
    NamesMembers(lhs, n);
    if n in Names(rhs) {
      var r :| r in rhs && r.name == n;
      if FindByName(lhs, n) == |lhs| {
        assert r in NewGroups(lhs, rhs);
      } else {
        assert lhs[FindByName(lhs, n)] in lhs;
      }
    }
  }

  lemma NameKept(lhs: seq<Group>, rhs: seq<Group>, n: string)
    ensures n in Names(Updated(lhs, rhs)) + Names(NewGroups(lhs, rhs)) <==> n in Names(lhs) + Names(rhs)
  {
    UpdatedNames(lhs, rhs, n);
    NewNames(lhs, rhs, n);
  }

  // ---------- definition order ----------

  /** What building the graph depends on: the name and the sorted load-after list. */
  function Canonical(g: Group): Group {
    Group(g.name, None, SortedClone(g.afterGroups))
  }

  function CanonicalAll(groups: seq<Group>): (r: seq<Group>)
    ensures |r| == |groups|
  {
    if groups == [] then [] else [Canonical(groups[0])] + CanonicalAll(groups[1..])
  }

  /** The same groups, written in another order and with their load-after lists in another order. */
  ghost predicate Reordered(a: seq<Group>, b: seq<Group>) {
    DistinctGroups(a) && multiset(CanonicalAll(a)) == multiset(CanonicalAll(b))
  }

  lemma ByNameIsPreorder()
    ensures TotalPreorder(ByName)
  {
    StringLeqIsOrder();
  }

  lemma CanonicalFirst(g: Group, groups: seq<Group>)
    ensures CanonicalAll([g] + groups) == [Canonical(g)] + CanonicalAll(groups)
  {
    assert ([g] + groups)[1..] == groups;
  }

  lemma {:induction false} InsertCanonical(g: Group, groups: seq<Group>)
    ensures CanonicalAll(Insert(g, groups, ByName)) == Insert(Canonical(g), CanonicalAll(groups), ByName)
  {
    if groups == [] {
      CanonicalFirst(g, []);
    } else {
      var first, rest := groups[0], groups[1..];
      assert groups == [first] + rest;
      InsertCanonical(g, rest);
      CanonicalFirst(first, rest);
      CanonicalFirst(g, groups);
      CanonicalFirst(first, Insert(g, rest, ByName));
      InsertSteps(g, first, rest, ByName);
      InsertSteps(Canonical(g), Canonical(first), CanonicalAll(rest), ByName);
    }
  }

  lemma {:induction false} SortCanonical(groups: seq<Group>)
    ensures CanonicalAll(SortBy(groups, ByName)) == SortBy(CanonicalAll(groups), ByName)
  {
    if groups != [] {
      SortCanonical(groups[1..]);
      InsertCanonical(groups[0], SortBy(groups[1..], ByName));
      assert CanonicalAll(groups)[1..] == CanonicalAll(groups[1..]);
    }
  }

  lemma SortedCloneTwice(strings: seq<string>)
    ensures SortedClone(SortedClone(strings)) == SortedClone(strings)
  {
    StringLeqIsOrder();
    SortByForgetsOrder(SortBy(strings, StringLeq), strings, StringLeq);
  }

  lemma {:induction false} NamesCanonical(names: seq<string>, groups: seq<Group>)
    ensures AddedNames(names, CanonicalAll(groups)) == AddedNames(names, groups)
    ensures Names(CanonicalAll(groups)) == Names(groups)
    decreases |groups|
  {
    if groups != [] {
      assert CanonicalAll(groups)[1..] == CanonicalAll(groups[1..]);
      NamesCanonical(if groups[0].name in names then names else names + [groups[0].name], groups[1..]);
    }
  }

  lemma {:induction false} EdgesCanonical(names: seq<string>, edges: seq<Edge>, groups: seq<Group>, kind: EdgeType)
    requires HasNodes(names, groups) && HasNodes(names, CanonicalAll(groups))
    ensures AddedEdges(names, edges, CanonicalAll(groups), kind) == AddedEdges(names, edges, groups, kind)
    decreases |groups|
  {
    if groups != [] {
      assert CanonicalAll(groups)[1..] == CanonicalAll(groups[1..]);
      SortedCloneTwice(groups[0].afterGroups);
      var added := AddedGroupEdges(names, edges, groups[0].name, SortedClone(groups[0].afterGroups), kind);
      if added.Ok? {
        NamesCanonical(names, groups[1..]);
        EdgesCanonical(names, added.value, groups[1..], kind);
      }
    }
  }

  lemma {:induction false} CanonicalAt(groups: seq<Group>, i: nat)
    requires i < |groups|
    ensures CanonicalAll(groups)[i] == Canonical(groups[i])
  {
    if i > 0 {
      CanonicalAt(groups[1..], i - 1);
    }
  }

  lemma NamesDecide(a: seq<Group>, x: Group, y: Group)
    requires DistinctGroups(a)
    requires x in CanonicalAll(a) && y in CanonicalAll(a) && ByName(x, y) && ByName(y, x)
    ensures x == y
  {
    var canonical := CanonicalAll(a);
    var i :| 0 <= i < |a| && canonical[i] == x;
    var j :| 0 <= j < |a| && canonical[j] == y;
    CanonicalAt(a, i);
    CanonicalAt(a, j);
    StringLeqTotal(x.name, y.name);
    assert a[i].name == a[j].name;
  }

  lemma SortedReordered(a: seq<Group>, b: seq<Group>)
    requires Reordered(a, b)
    ensures CanonicalAll(SortedByName(a)) == CanonicalAll(SortedByName(b))
  {
    SortCanonical(a);
    SortCanonical(b);
    forall x, y | x in CanonicalAll(a) && y in CanonicalAll(a) && ByName(x, y) && ByName(y, x)
      ensures x == y
    {
      NamesDecide(a, x, y);
    }
    ByNameIsPreorder();
    SortByForgetsOrder(CanonicalAll(a), CanonicalAll(b), ByName);
  }

  /** The graph does not depend on the order in which groups, or the groups they load after, are defined. */
  lemma DefinitionOrderIrrelevant(masterlist: seq<Group>, masterlist': seq<Group>, userlist: seq<Group>,
                                  userlist': seq<Group>)
    requires Reordered(masterlist, masterlist') && Reordered(userlist, userlist')
    ensures BuiltGraph(masterlist, userlist) == BuiltGraph(masterlist', userlist')
  {
    SortedReordered(masterlist, masterlist');
    SortedReordered(userlist, userlist');
    BuiltFromSorted(masterlist, userlist);
    BuiltFromSorted(masterlist', userlist');
  }

  /** Some edge of g stands for the pair p and has the given type. */
  ghost predicate Relates(g: Graph, p: LoadAfter, kind: EdgeType)
    requires InRange(g.names, g.edges)
  {
    exists e :: e in g.edges && Ends(g.names, e) == p && e.kind == kind
  }

  lemma RelatesIff(g: Graph, masterlist: seq<Group>, userlist: seq<Group>, p: LoadAfter, kind: EdgeType)
    requires Represents(g, masterlist, userlist)
    ensures Relates(g, p, kind)
       <==> if p in After(userlist) then kind == UserLoadAfter
            else p in After(masterlist) && kind == MasterlistLoadAfter
  {
    if p in After(masterlist) + After(userlist) {
      assert StandsFor(g.names, g.edges, p);
    }
  }

  /** Even if groups are defined several times, only what all their definitions say together matters: the names,
      and the typed pairs that the edges stand for. */
  lemma DefinitionsDetermineGraph(masterlist: seq<Group>, masterlist': seq<Group>, userlist: seq<Group>,
                                  userlist': seq<Group>)
    requires Names(masterlist) == Names(masterlist') && After(masterlist) == After(masterlist')
    requires Names(userlist) == Names(userlist') && After(userlist) == After(userlist')
    ensures var r, r' := BuiltGraph(masterlist, userlist), BuiltGraph(masterlist', userlist');
            && (r.Ok? <==> r'.Ok?)
            && (r.Ok? ==>
                  && InRange(r.value.names, r.value.edges) && InRange(r'.value.names, r'.value.edges)
                  && (forall n :: n in r.value.names <==> n in r'.value.names)
                  && (forall p, kind :: Relates(r.value, p, kind) <==> Relates(r'.value, p, kind)))
  {
    BuiltGraphMeaning(masterlist, userlist);
    BuiltGraphMeaning(masterlist', userlist');
    var r, r' := BuiltGraph(masterlist, userlist), BuiltGraph(masterlist', userlist');
    if r.Ok? {
      forall p, kind
        ensures Relates(r.value, p, kind) <==> Relates(r'.value, p, kind)
      {
        RelatesIff(r.value, masterlist, userlist, p, kind);
        RelatesIff(r'.value, masterlist', userlist', p, kind);
      }
    }
  }

  /** The graph as a function of the sorted canonical lists alone. */
  ghost function BuiltCanonical(masterlist: seq<Group>, userlist: seq<Group>): Result<Graph, string> {
    var names1 := AddedNames([], masterlist);
    var names2 := AddedNames(names1, userlist);
    AddedNamesMembers([], masterlist);
    AddedNamesMembers(names1, userlist);
    match AddedEdges(names1, [], masterlist, MasterlistLoadAfter)
    case Err(n) => Err(n)
    case Ok(edges1) =>
      match AddedEdges(names2, edges1, userlist, UserLoadAfter)
      case Err(n) => Err(n)
      case Ok(edges2) => Ok(Graph(names2, edges2))
  }

  lemma BuiltFromSorted(masterlist: seq<Group>, userlist: seq<Group>)
    ensures BuiltGraph(masterlist, userlist)
         == BuiltCanonical(CanonicalAll(SortedByName(masterlist)), CanonicalAll(SortedByName(userlist)))
  {
    var masterlist', userlist' := SortedByName(masterlist), SortedByName(userlist);
    NamesCanonical([], masterlist');
    var names1 := AddedNames([], masterlist');
    NamesCanonical(names1, userlist');
    var names2 := AddedNames(names1, userlist');
    AddedNamesMembers([], masterlist');
    AddedNamesMembers(names1, userlist');
    EdgesCanonical(names1, [], masterlist', MasterlistLoadAfter);
    var r1 := AddedEdges(names1, [], masterlist', MasterlistLoadAfter);
    if r1.Ok? {
      EdgesCanonical(names2, r1.value, userlist', UserLoadAfter);
    }
  }
}
