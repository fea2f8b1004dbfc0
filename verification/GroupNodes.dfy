/** sorted_group_nodes of src/sorting/groups.rs and the path lengths that it sorts by. */
module GroupNodes {
  import opened Graphs
  import opened StableSort
  import opened DepthFirst

  // ---------- path lengths ----------

  /** How many of the nodes discovered by the events have not been finished. */
  ghost function Height(events: seq<Event>): int {
    if events == [] then 0
    else Height(events[..|events| - 1]) +
         match events[|events| - 1]
         case DiscoverNode(_) => 1
         case FinishNode(_) => -1
         case _ => 0
  }

  /** The counter is the height so far and the recorded length is the greatest height there has been. */
  lemma {:induction false} LengthsObserved(names: seq<string>, events: seq<Event>)
    requires forall e <- events :: EventInRange(names, e)
    ensures var s := ObserveAll(names, PathLengthState(0, 0), events);
            s.PathLengthState? && s.currentLength == Height(events) && IsMaxHeight(events, s.maxLength)
  {
    if events == [] {
      assert Height(events[..0]) == 0;
    } else {
      var front, last := events[..|events| - 1], events[|events| - 1];
      assert events == front + [last];
      LengthsObserved(names, front);
      ObserveConcat(names, PathLengthState(0, 0), front, [last]);
      var s := ObserveAll(names, PathLengthState(0, 0), front);
      ObserveOne(names, s, last);
      MaxHeightGrows(front, last, s.maxLength);
    }
  }

  /** The greatest height that the stack has had. */
  ghost predicate IsMaxHeight(events: seq<Event>, max: int) {
    && (forall k :: 0 <= k <= |events| ==> Height(events[..k]) <= max)
    && (exists k :: 0 <= k <= |events| && Height(events[..k]) == max)
  }

  lemma MaxHeightGrows(front: seq<Event>, last: Event, max: int)
    requires IsMaxHeight(front, max)
    ensures Height(front) <= max
    ensures var events := front + [last];
            IsMaxHeight(events, if Height(events) > max then Height(events) else max)
  {
    var events := front + [last];
    assert events[..|events|] == events && front[..|front|] == front;
    forall k | 0 <= k <= |front|
      ensures events[..k] == front[..k]
    {
    }
    var k :| 0 <= k <= |front| && Height(front[..k]) == max;
    assert Height(events[..k]) == max;
    assert Height(events[..|events|]) == Height(events) && Height(front[..|front|]) == Height(front);
  }

  ghost predicate Adjacent(g: Graph, a: nat, b: nat) {
    exists k :: Edge(a, b, k) in g.edges
  }

  /** Each frame is joined by an edge to the next. */
  ghost predicate Linked(g: Graph, stack: seq<Frame>) {
    forall i :: 0 <= i < |stack| - 1 ==> Adjacent(g, stack[i].node, stack[i + 1].node)
  }

  lemma {:induction false} LinkedWalk(g: Graph, stack: seq<Frame>) returns (p: seq<Edge>)
    requires stack != [] && Linked(g, stack)
    ensures IsWalk(g, stack[0].node, p, stack[|stack| - 1].node) && |p| + 1 == |stack|
  {
    if |stack| == 1 {
      p := [];
    } else {
      var front := stack[..|stack| - 1];
      forall i | 0 <= i < |front| - 1
        ensures Adjacent(g, front[i].node, front[i + 1].node)
      {
        assert Adjacent(g, stack[i].node, stack[i + 1].node);
      }
      assert Adjacent(g, stack[|stack| - 2].node, stack[(|stack| - 2) + 1].node);
      p := LinkedWalk(g, front);
      var u, v := stack[|stack| - 2].node, stack[|stack| - 1].node;
      var k :| Edge(u, v, k) in g.edges;
      WalkAppend(g, stack[0].node, p, u, Edge(u, v, k));
      p := p + [Edge(u, v, k)];
    }
  }

  /** Some walk from n visits exactly length nodes. */
  ghost predicate Witnessed(g: Graph, n: nat, length: int) {
    exists p, b :: IsWalk(g, n, p, b) && |p| + 1 == length
  }

  ghost predicate Measuring(g: Graph, start: nat, m: Machine, s: VisitorState) {
    && Grounded(g, m) && Linked(g, m.stack) && (m.stack != [] ==> m.stack[0].node == start)
    && s.PathLengthState? && s.currentLength == |m.stack| <= s.maxLength
    && Witnessed(g, start, s.maxLength)
  }

  /** The counter is positive whenever a node is finished, so subtracting one never underflows. */
  ghost predicate NeverUnderflows(names: seq<string>, s: VisitorState, events: seq<Event>)
    requires s.PathLengthState? && forall e <- events :: EventInRange(names, e)
    decreases |events|
  {
    events != [] ==>
    assert EventInRange(names, events[0]);
    && (events[0].FinishNode? ==> s.currentLength >= 1)
    && NeverUnderflows(names, Observe(names, s, events[0]), events[1..])
  }

  lemma {:induction false} UnderflowsConcat(names: seq<string>, s: VisitorState, a: seq<Event>, b: seq<Event>)
    requires s.PathLengthState?
    requires (forall e <- a :: EventInRange(names, e)) && (forall e <- b :: EventInRange(names, e))
    requires NeverUnderflows(names, s, a) && NeverUnderflows(names, ObserveAll(names, s, a), b)
    ensures forall e <- a + b :: EventInRange(names, e)
    ensures NeverUnderflows(names, s, a + b)
    decreases |a|
  {
    if a == [] {
      assert a + b == b;
    } else {
      assert (a + b)[1..] == a[1..] + b && (a + b)[0] == a[0];
      UnderflowsConcat(names, Observe(names, s, a[0]), a[1..], b);
    }
  }

  lemma MeasureStep(g: Graph, start: nat, m: Machine, s: VisitorState)
    requires g.Valid() && Measuring(g, start, m, s) && m.stack != []
    ensures forall e <- Step(g, m).1 :: EventInRange(g.names, e)
    ensures NeverUnderflows(g.names, s, Step(g, m).1)
    ensures Measuring(g, start, Step(g, m).0, ObserveAll(g.names, s, Step(g, m).1))
  {
    StepGrounded(g, m);
    StepEventsInRange(g, m);
    var (m', events) := Step(g, m);
    StepLinked(g, m);
    if |events| == 1 {
      assert events[1..] == [] && events == [events[0]];
      ObserveOne(g.names, s, events[0]);
    } else {
      assert events[1..] == [events[1]] && events[1..][1..] == [];
      var s1 := Observe(g.names, s, events[0]);
      assert s1 == s;
      ObserveOne(g.names, s1, events[1]);
      var p := LinkedWalk(g, m'.stack);
      assert Witnessed(g, start, |m'.stack|);
    }
  }

  lemma StepLinked(g: Graph, m: Machine)
    requires g.Valid() && Grounded(g, m) && m.stack != [] && Linked(g, m.stack)
    ensures Linked(g, Step(g, m).0.stack)
    ensures Step(g, m).0.stack != [] ==> Step(g, m).0.stack[0].node == m.stack[0].node
  {
    var k := |m.stack| - 1;
    var stack := Step(g, m).0.stack;
    forall i | 0 <= i < |stack| - 1
      ensures Adjacent(g, stack[i].node, stack[i + 1].node)
    {
      if i < k {
        assert Adjacent(g, m.stack[i].node, m.stack[i + 1].node);
      } else {
        var e := m.stack[k].unprocessed[0];
        assert e in OutEdges(g, m.stack[k].node);
        assert e == Edge(stack[i].node, stack[i + 1].node, e.kind);
      }
    }
  }

  lemma {:induction false} MeasureRun(g: Graph, start: nat, m: Machine, s: VisitorState)
    requires g.Valid() && Measuring(g, start, m, s)
    ensures forall e <- Run(g, m).1 :: EventInRange(g.names, e)
    ensures NeverUnderflows(g.names, s, Run(g, m).1)
    ensures var s' := ObserveAll(g.names, s, Run(g, m).1);
            && s'.PathLengthState? && s'.currentLength == 0
            && s'.maxLength >= s.maxLength && Witnessed(g, start, s'.maxLength)
    decreases WhiteNodes(g, m.colours), Work(m.stack)
  {
    RunEventsInRange(g, m);
    if m.stack != [] {
      StepGrounded(g, m);
      StepDescends(g, m);
      MeasureStep(g, start, m, s);
      var (m', events) := Step(g, m);
      var s1 := ObserveAll(g.names, s, events);
      MeasureRun(g, start, m', s1);
      ObserveConcat(g.names, s, events, Run(g, m').1);
      UnderflowsConcat(g.names, s, events, Run(g, m').1);
      MaxNeverFalls(g.names, s, events);
    }
  }

  lemma {:induction false} MaxNeverFalls(names: seq<string>, s: VisitorState, events: seq<Event>)
    requires s.PathLengthState? && forall e <- events :: EventInRange(names, e)
    ensures ObserveAll(names, s, events).maxLength >= s.maxLength
    decreases |events|
  {
    if events != [] {
      MaxNeverFalls(names, Observe(names, s, events[0]), events[1..]);
    }
  }

  /** The length measured by a search from n with no node visited yet. */
  ghost function MeasuredLength(g: Graph, n: nat): int
    requires g.Valid() && n < |g.names|
  {
    StartGrounded(g, map[], n);
    ObserveAll(g.names, PathLengthState(0, 0), Search(g, map[], n).1).maxLength
  }

  /** The counter of a search from n never underflows and ends at zero, and some walk from n visits as many
      nodes as the measured length, which is the greatest number of nodes that were ever on the stack. */
  lemma CountNeverUnderflows(g: Graph, n: nat)
    requires g.Valid() && n < |g.names|
    ensures forall e <- Search(g, map[], n).1 :: EventInRange(g.names, e)
    ensures NeverUnderflows(g.names, PathLengthState(0, 0), Search(g, map[], n).1)
    ensures ObserveAll(g.names, PathLengthState(0, 0), Search(g, map[], n).1)
         == PathLengthState(MeasuredLength(g, n), 0)
    ensures MeasuredLength(g, n) >= 1 && Witnessed(g, n, MeasuredLength(g, n))
    ensures IsMaxHeight(Search(g, map[], n).1, MeasuredLength(g, n))
  {
    StartGrounded(g, map[], n);
    var m := Start(g, map[], n);
    var first := [DiscoverNode(n)];
    var s1 := PathLengthState(1, 1);
    ObserveOne(g.names, PathLengthState(0, 0), first[0]);
    var none: seq<Edge> := [];
    assert IsWalk(g, n, none, n) && |none| + 1 == 1;
    assert Measuring(g, n, m, s1);
    MeasureRun(g, n, m, s1);
    ObserveConcat(g.names, PathLengthState(0, 0), first, Run(g, m).1);
    assert first[1..] == [];
    UnderflowsConcat(g.names, PathLengthState(0, 0), first, Run(g, m).1);
    LengthsObserved(g.names, Search(g, map[], n).1);
  }

  // ---------- sorting the nodes ----------

  predicate IsRootNode(g: Graph, n: nat) {
    EdgesTo(g.edges, n) == []
  }

  datatype Rank = Rank(node: nat, isRoot: bool, length: int)

  ghost function RankOf(g: Graph, n: nat): Rank
    requires g.Valid() && n < |g.names|
  {
    Rank(n, IsRootNode(g, n), if IsRootNode(g, n) then MeasuredLength(g, n) else 0)
  }

  /** The reverse order of (isRoot, length). */
  predicate NoLater(a: Rank, b: Rank) {
    (a.isRoot && !b.isRoot) || (a.isRoot == b.isRoot && a.length >= b.length)
  }

  /** Root nodes come before others, by decreasing length, and nodes that tie keep their original order. */
  ghost predicate ComesBefore(g: Graph, a: nat, b: nat)
    requires g.Valid() && a < |g.names| && b < |g.names|
  {
    var x, y := RankOf(g, a), RankOf(g, b);
    NoLater(x, y) && (NoLater(y, x) ==> a < b)
  }

  method Ranks(g: Graph) returns (nodes: seq<Rank>)
    requires g.Valid()
    ensures |nodes| == |g.names| && forall i :: 0 <= i < |nodes| ==> nodes[i] == RankOf(g, i)
  {
    nodes := [];
    for n := 0 to |g.names|
      invariant |nodes| == n && forall i :: 0 <= i < n ==> nodes[i] == RankOf(g, i)
    {
      if IsRootNode(g, n) {
        CountNeverUnderflows(g, n);
        var visitor := new GroupsPathLengthVisitor();
        var _ := DepthFirstSearch(g, map[], n, PathLengths(visitor));
        nodes := nodes + [Rank(n, true, visitor.maxPathLength)];
      } else {
        nodes := nodes + [Rank(n, false, 0)];
      }
    }
  }

  /** Some edge leads to the node, so that it is no root. */
  ghost predicate IsEntered(g: Graph, n: nat) {
    exists e :: e in g.edges && e.target == n
  }

  lemma {:induction false} EdgesToIff(es: seq<Edge>, n: nat)
    ensures EdgesTo(es, n) == [] <==> forall e :: e in es ==> e.target != n
  {
    if es != [] {
      EdgesToIff(es[..|es| - 1], n);
      assert es == es[..|es| - 1] + [es[|es| - 1]];
    }
  }

  /** What the order means: no root comes after a node that an edge leads to, no root after one with a shorter
      measured length, and nodes that agree in this stay in their original order. */
  lemma OrderMeaning(g: Graph, a: nat, b: nat)
    requires g.Valid() && a < |g.names| && b < |g.names| && ComesBefore(g, a, b)
    ensures IsEntered(g, a) ==> IsEntered(g, b)
    ensures !IsEntered(g, b) ==> MeasuredLength(g, a) >= MeasuredLength(g, b)
    ensures IsEntered(g, a) || (!IsEntered(g, b) && MeasuredLength(g, a) == MeasuredLength(g, b)) ==> a < b
  {
    EdgesToIff(g.edges, a);
    EdgesToIff(g.edges, b);
    assert IsRootNode(g, a) <==> !IsEntered(g, a);
    assert IsRootNode(g, b) <==> !IsEntered(g, b);
  }

  lemma SortedMeaning(g: Graph, r: seq<nat>)
    requires g.Valid()
    requires forall i, j :: 0 <= i < j < |r| ==> r[i] < |g.names| && r[j] < |g.names| && ComesBefore(g, r[i], r[j])
    ensures forall i, j :: 0 <= i < j < |r| && IsEntered(g, r[i]) ==> IsEntered(g, r[j]) && r[i] < r[j]
    ensures forall i, j :: 0 <= i < j < |r| && !IsEntered(g, r[j]) ==>
                             r[i] < |g.names| && r[j] < |g.names|
                             && MeasuredLength(g, r[i]) >= MeasuredLength(g, r[j])
                             && (MeasuredLength(g, r[i]) == MeasuredLength(g, r[j]) ==> r[i] < r[j])
  {
    forall i, j | 0 <= i < j < |r|
      ensures IsEntered(g, r[i]) ==> IsEntered(g, r[j]) && r[i] < r[j]
      ensures !IsEntered(g, r[j]) ==> MeasuredLength(g, r[i]) >= MeasuredLength(g, r[j])
                                      && (MeasuredLength(g, r[i]) == MeasuredLength(g, r[j]) ==> r[i] < r[j])
    {
      OrderMeaning(g, r[i], r[j]);
    }
  }

  /** Roots come first, by decreasing measured length, and all nodes that tie are in their original order. */
  method SortedGroupNodes(g: Graph) returns (r: seq<nat>)
    requires g.Valid()
    ensures |r| == |g.names| && forall n: nat :: n in r <==> n < |g.names|
    ensures forall i, j :: 0 <= i < j < |r| ==> r[i] != r[j]
    ensures forall i, j :: 0 <= i < j < |r| ==> r[i] < |g.names| && r[j] < |g.names| && ComesBefore(g, r[i], r[j])
    ensures forall i, j :: 0 <= i < j < |r| && IsEntered(g, r[i]) ==> IsEntered(g, r[j]) && r[i] < r[j]
    ensures forall i, j :: 0 <= i < j < |r| && !IsEntered(g, r[j]) ==>
                             MeasuredLength(g, r[i]) >= MeasuredLength(g, r[j])
                             && (MeasuredLength(g, r[i]) == MeasuredLength(g, r[j]) ==> r[i] < r[j])
  {
    var nodes := Ranks(g);
    var sorted := SortBy(nodes, NoLater);
    r := seq(|sorted|, i requires 0 <= i < |sorted| => sorted[i].node);
    SortedRanks(g, nodes, sorted);
    NodesAreAll(g, nodes, sorted, r);
    NodesInOrder(g, nodes, sorted, r);
    SortedMeaning(g, r);
  }

  lemma NodesAreAll(g: Graph, nodes: seq<Rank>, sorted: seq<Rank>, r: seq<nat>)
    requires g.Valid() && |nodes| == |g.names| && forall i :: 0 <= i < |nodes| ==> nodes[i] == RankOf(g, i)
    requires forall x :: x in sorted <==> x in nodes
    requires |r| == |sorted| && forall i :: 0 <= i < |r| ==> r[i] == sorted[i].node < |g.names|
    ensures forall n: nat :: n in r <==> n < |g.names|
  {
    forall n: nat | n < |g.names|
      ensures n in r
    {
      assert nodes[n] in sorted;
      var i :| 0 <= i < |sorted| && sorted[i] == nodes[n];
      assert r[i] == n;
    }
  }

  lemma NodesInOrder(g: Graph, nodes: seq<Rank>, sorted: seq<Rank>, r: seq<nat>)
    requires g.Valid() && |nodes| == |g.names| && forall i :: 0 <= i < |nodes| ==> nodes[i] == RankOf(g, i)
    requires sorted == SortBy(nodes, NoLater) && |r| == |sorted|
    requires forall i :: 0 <= i < |r| ==> r[i] == sorted[i].node < |g.names| && sorted[i] == RankOf(g, r[i])
    ensures forall i, j :: 0 <= i < j < |r| ==> r[i] < |g.names| && r[j] < |g.names| && ComesBefore(g, r[i], r[j])
  {
    RanksInOrder(nodes);
    forall i, j | 0 <= i < j < |r|
      ensures ComesBefore(g, r[i], r[j])
    {
      assert NoLater(sorted[i], sorted[j]) && (NoLater(sorted[j], sorted[i]) ==> sorted[i].node < sorted[j].node);
    }
  }

  lemma RanksInOrder(nodes: seq<Rank>)
    requires forall i :: 0 <= i < |nodes| ==> nodes[i].node == i
    ensures var sorted := SortBy(nodes, NoLater);
            forall i, j :: 0 <= i < j < |sorted| ==>
              NoLater(sorted[i], sorted[j]) && (NoLater(sorted[j], sorted[i]) ==> sorted[i].node < sorted[j].node)
  {
    SortBySorted(nodes, NoLater);
    SortByStable(nodes, NoLater, (a: Rank, b: Rank) => a.node < b.node);
  }

  lemma SortedRanks(g: Graph, nodes: seq<Rank>, sorted: seq<Rank>)
    requires g.Valid() && |nodes| == |g.names| && forall i :: 0 <= i < |nodes| ==> nodes[i] == RankOf(g, i)
    requires multiset(sorted) == multiset(nodes) && |sorted| == |nodes|
    ensures forall x :: x in sorted <==> x in nodes
    ensures forall i :: 0 <= i < |sorted| ==> sorted[i].node < |g.names| && sorted[i] == RankOf(g, sorted[i].node)
    ensures forall i, j :: 0 <= i < j < |sorted| ==> sorted[i].node != sorted[j].node
  {
    MembersOfMultiset(sorted, nodes);
    forall i | 0 <= i < |sorted|
      ensures sorted[i].node < |g.names| && sorted[i] == RankOf(g, sorted[i].node)
    {
      assert sorted[i] in nodes;
    }
    forall i, j | 0 <= i < j < |sorted|
      ensures sorted[i].node != sorted[j].node
    {
      if sorted[i].node == sorted[j].node {
        assert sorted[i] == sorted[j];
        assert multiset(sorted)[sorted[i]] >= 2 by {
          assert sorted == sorted[..i] + [sorted[i]] + sorted[i + 1..j] + [sorted[j]] + sorted[j + 1..];
        }
        DistinctMultiplicity(nodes, sorted[i]);
      }
    }
  }

  lemma {:induction false} DistinctMultiplicity(s: seq<Rank>, x: Rank)
    requires forall i, j :: 0 <= i < j < |s| ==> s[i] != s[j]
    ensures multiset(s)[x] <= 1
  {
    if s != [] {
      assert s == s[..|s| - 1] + [s[|s| - 1]];
      DistinctMultiplicity(s[..|s| - 1], x);
      assert x == s[|s| - 1] ==> x !in s[..|s| - 1];
    }
  }
}
