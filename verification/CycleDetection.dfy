/** find_cycle of src/sorting/search.rs: it reports a cycle exactly when there is one, and what it
    reports is a genuine simple cycle. */
module CycleDetection {
  import opened Wrappers
  import opened Graphs
  import opened DepthFirst

  // ---------- what the search has established before a cycle is found ----------

  ghost predicate OnStack(stack: seq<Frame>, n: nat) {
    exists i :: 0 <= i < |stack| && stack[i].node == n
  }

  /** Each out-edge of a frame is unprocessed, leads to a finished node, or leads to the next frame. */
  ghost predicate FrameAccounted(g: Graph, stack: seq<Frame>, i: nat, order: seq<nat>)
    requires i < |stack|
  {
    forall e <- OutEdges(g, stack[i].node) ::
      || e in stack[i].unprocessed
      || e.target in order
      || (i + 1 < |stack| && e.target == stack[i + 1].node)
  }

  ghost predicate Accounted(g: Graph, stack: seq<Frame>, order: seq<nat>) {
    forall i :: 0 <= i < |stack| ==> FrameAccounted(g, stack, i, order)
  }

  /** The grey nodes are exactly those on the stack, and order ranks every node that has been finished.
      A search that restarts from a black node makes it grey again, but leaves its place in order. */
  ghost predicate Searching(g: Graph, m: Machine, order: seq<nat>) {
    && Grounded(g, m)
    && (forall i, j :: 0 <= i < j < |m.stack| ==> m.stack[i].node != m.stack[j].node)
    && (forall n :: ColourOf(m.colours, n) == Grey <==> OnStack(m.stack, n))
    && (forall n :: ColourOf(m.colours, n) == Black ==> n in order)
    && Ranked(g, order)
    && Accounted(g, m.stack, order)
  }

  /** The i-th vertex of the trail stands for the edge from the i-th frame to the one above it. */
  ghost predicate TrailMatches(g: Graph, stack: seq<Frame>, trail: seq<Vertex>) {
    && |trail| == (if stack == [] then 0 else |stack| - 1)
    && forall i {:trigger trail[i]} :: 0 <= i < |trail| ==> Joins(g, stack[i].node, trail[i], stack[i + 1].node)
  }

  /** v names node a, and its out-edge type is the type of an edge from a to b. */
  ghost predicate Joins(g: Graph, a: nat, v: Vertex, b: nat) {
    && a < |g.names| && v.name == g.names[a]
    && v.outEdgeType.Some? && Edge(a, b, v.outEdgeType.value) in g.edges
  }

  /** cycle lists distinct nodes, each joined to the next and the last joined to the first. */
  ghost predicate IsGenuineCycle(g: Graph, cycle: seq<Vertex>) {
    exists nodes :: Witnesses(g, cycle, nodes)
  }

  ghost predicate Witnesses(g: Graph, cycle: seq<Vertex>, nodes: seq<nat>) {
    && cycle != [] && |nodes| == |cycle|
    && (forall i, j :: 0 <= i < j < |nodes| ==> nodes[i] != nodes[j])
    && (forall i :: 0 <= i < |cycle| ==>
          Joins(g, nodes[i], cycle[i], if i + 1 < |nodes| then nodes[i + 1] else nodes[0]))
  }

  // ---------- one step ----------

  lemma RankedAppend(g: Graph, order: seq<nat>, n: nat)
    requires Ranked(g, order) && forall e <- OutEdges(g, n) :: e.target in order
    ensures Ranked(g, order + [n])
  {
    forall i, e | 0 <= i < |order + [n]| && e in g.edges && e.source == (order + [n])[i]
      ensures e.target in (order + [n])[..i]
    {
      if i == |order| {
        assert e in OutEdges(g, n);
        assert (order + [n])[..i] == order;
      } else {
        assert (order + [n])[..i] == order[..i];
      }
    }
  }

  lemma FinishStep(g: Graph, m: Machine, order: seq<nat>)
    requires g.Valid() && Searching(g, m, order) && m.stack != [] && m.stack[|m.stack| - 1].unprocessed == []
    ensures Searching(g, Step(g, m).0, order + [m.stack[|m.stack| - 1].node])
  {
    var k := |m.stack| - 1;
    var top, order' := m.stack[k].node, order + [m.stack[k].node];
    var m' := Step(g, m).0;
    StepGrounded(g, m);
    assert FrameAccounted(g, m.stack, k, order);
    RankedAppend(g, order, top);
    forall i | 0 <= i < |m'.stack|
      ensures FrameAccounted(g, m'.stack, i, order')
    {
      assert FrameAccounted(g, m.stack, i, order);
    }
    forall n
      ensures ColourOf(m'.colours, n) == Grey <==> OnStack(m'.stack, n)
    {
      if OnStack(m'.stack, n) {
        var i :| 0 <= i < |m'.stack| && m'.stack[i].node == n;
        assert m.stack[i].node != m.stack[k].node;
        assert OnStack(m.stack, n);
      }
      if OnStack(m.stack, n) && n != top {
        var i :| 0 <= i < |m.stack| && m.stack[i].node == n;
        assert m'.stack[i].node == n;
      }
    }
  }

  /** Processing the top frame's next edge keeps its other edges accounted for. */
  lemma EdgeProcessed(g: Graph, m: Machine, order: seq<nat>)
    requires g.Valid() && Searching(g, m, order) && m.stack != [] && m.stack[|m.stack| - 1].unprocessed != []
    requires ColourOf(m.colours, m.stack[|m.stack| - 1].unprocessed[0].target) != Grey
    ensures Accounted(g, Step(g, m).0.stack, order)
  {
    var k := |m.stack| - 1;
    var edge := m.stack[k].unprocessed[0];
    var m' := Step(g, m).0;
    forall i | 0 <= i < |m'.stack|
      ensures FrameAccounted(g, m'.stack, i, order)
    {
      if i < k {
        assert FrameAccounted(g, m.stack, i, order);
      } else if i == k {
        assert FrameAccounted(g, m.stack, k, order);
        assert m.stack[k].unprocessed == [edge] + m'.stack[k].unprocessed;
      }
    }
  }

  lemma TreeStep(g: Graph, m: Machine, order: seq<nat>)
    requires g.Valid() && Searching(g, m, order) && m.stack != [] && m.stack[|m.stack| - 1].unprocessed != []
    requires ColourOf(m.colours, m.stack[|m.stack| - 1].unprocessed[0].target) == White
    ensures Searching(g, Step(g, m).0, order)
  {
    var k := |m.stack| - 1;
    var edge := m.stack[k].unprocessed[0];
    var m' := Step(g, m).0;
    StepGrounded(g, m);
    EdgeProcessed(g, m, order);
    assert forall i :: 0 <= i <= k ==> m'.stack[i].node == m.stack[i].node;
    assert m'.stack[k + 1].node == edge.target;
    assert !OnStack(m.stack, edge.target);
    forall n
      ensures ColourOf(m'.colours, n) == Grey <==> OnStack(m'.stack, n)
    {
      if OnStack(m.stack, n) {
        var i :| 0 <= i < |m.stack| && m.stack[i].node == n;
        assert m'.stack[i].node == n;
      }
      if OnStack(m'.stack, n) {
        var i :| 0 <= i < |m'.stack| && m'.stack[i].node == n;
        assert i == k + 1 || m.stack[i].node == n;
      }
    }
  }

  lemma CrossStep(g: Graph, m: Machine, order: seq<nat>)
    requires g.Valid() && Searching(g, m, order) && m.stack != [] && m.stack[|m.stack| - 1].unprocessed != []
    requires ColourOf(m.colours, m.stack[|m.stack| - 1].unprocessed[0].target) == Black
    ensures Searching(g, Step(g, m).0, order)
  {
    var k := |m.stack| - 1;
    var m' := Step(g, m).0;
    StepGrounded(g, m);
    EdgeProcessed(g, m, order);
    assert forall i :: 0 <= i <= k ==> m'.stack[i].node == m.stack[i].node;
    forall n
      ensures OnStack(m'.stack, n) <==> OnStack(m.stack, n)
    {
      if OnStack(m.stack, n) {
        var i :| 0 <= i < |m.stack| && m.stack[i].node == n;
        assert m'.stack[i].node == n;
      }
    }
  }

  // ---------- back edges ----------

  lemma {:induction false} StackWalk(g: Graph, stack: seq<Frame>, trail: seq<Vertex>, i: nat,
                                     j: nat) returns (p: seq<Edge>)
    requires TrailMatches(g, stack, trail) && i <= j < |stack|
    ensures IsWalk(g, stack[i].node, p, stack[j].node)
    decreases j
  {
    if i == j {
      p := [];
    } else {
      p := StackWalk(g, stack, trail, i, j - 1);
      assert Joins(g, stack[j - 1].node, trail[j - 1], stack[j].node);
      var e := Edge(stack[j - 1].node, stack[j].node, trail[j - 1].outEdgeType.value);
      WalkAppend(g, stack[i].node, p, stack[j - 1].node, e);
      p := p + [e];
    }
  }

  /** The top frame's next edge leads back to a node on the stack. */
  ghost predicate AtBackEdge(g: Graph, m: Machine, trail: seq<Vertex>, t: nat) {
    && g.Valid() && Grounded(g, m) && TrailMatches(g, m.stack, trail)
    && m.stack != [] && m.stack[|m.stack| - 1].unprocessed != []
    && t < |m.stack| && m.stack[t].node == m.stack[|m.stack| - 1].unprocessed[0].target
  }

  lemma BackEdgeClosesWalk(g: Graph, m: Machine, trail: seq<Vertex>, t: nat)
    requires AtBackEdge(g, m, trail, t)
    ensures !Acyclic(g)
  {
    var k := |m.stack| - 1;
    var edge := m.stack[k].unprocessed[0];
    assert edge in OutEdges(g, m.stack[k].node);
    var p := StackWalk(g, m.stack, trail, t, k);
    WalkAppend(g, edge.target, p, m.stack[k].node, edge);
    assert IsCycle(g, edge.target, p + [edge]);
  }

  /** With the back edge's source appended, the i-th vertex of the trail names the i-th frame's node. */
  lemma ExtendedTrail(g: Graph, m: Machine, trail: seq<Vertex>, t: nat, i: nat)
    requires AtBackEdge(g, m, trail, t) && i < |m.stack|
    ensures var edge := m.stack[|m.stack| - 1].unprocessed[0];
            && EventInRange(g.names, BackEdge(edge))
            && var extended := trail + [TrailVertex(g.names, edge)];
               && |extended| == |m.stack|
               && Joins(g, m.stack[i].node, extended[i],
                        if i + 1 < |m.stack| then m.stack[i + 1].node else edge.target)
  {
    var k := |m.stack| - 1;
    var edge := m.stack[k].unprocessed[0];
    assert edge in OutEdges(g, m.stack[k].node);
    assert i < k ==> Joins(g, m.stack[i].node, trail[i], m.stack[i + 1].node);
    assert edge == Edge(m.stack[k].node, edge.target, edge.kind);
  }

  /** Cutting the trail at the back edge's target leaves a genuine cycle. */
  lemma CutTrailIsCycle(g: Graph, m: Machine, trail: seq<Vertex>, t: nat)
    requires AtBackEdge(g, m, trail, t)
    requires forall i, j :: 0 <= i < j < |m.stack| ==> m.stack[i].node != m.stack[j].node
    requires EventInRange(g.names, BackEdge(m.stack[|m.stack| - 1].unprocessed[0]))
    ensures IsGenuineCycle(g, (trail + [TrailVertex(g.names, m.stack[|m.stack| - 1].unprocessed[0])])[t..])
  {
    var edge := m.stack[|m.stack| - 1].unprocessed[0];
    var cycle := (trail + [TrailVertex(g.names, edge)])[t..];
    var nodes := seq(|m.stack| - t, i requires 0 <= i < |m.stack| - t => m.stack[t + i].node);
    ExtendedTrail(g, m, trail, t, t);
    forall i | 0 <= i < |cycle|
      ensures Joins(g, nodes[i], cycle[i], if i + 1 < |nodes| then nodes[i + 1] else nodes[0])
    {
      ExtendedTrail(g, m, trail, t, t + i);
    }
    assert Witnesses(g, cycle, nodes);
  }

  /** A back edge closes the part of the trail that starts at its target. */
  lemma BackStep(g: Graph, m: Machine, order: seq<nat>, trail: seq<Vertex>)
    requires g.Valid() && Searching(g, m, order) && TrailMatches(g, m.stack, trail)
    requires m.stack != [] && m.stack[|m.stack| - 1].unprocessed != []
    requires ColourOf(m.colours, m.stack[|m.stack| - 1].unprocessed[0].target) == Grey
    ensures var edge := m.stack[|m.stack| - 1].unprocessed[0];
            && EventInRange(g.names, BackEdge(edge))
            && var extended := trail + [TrailVertex(g.names, edge)];
               var pos := Position(extended, g.names[edge.target]);
               && pos < |extended|
               && (g.UniqueNames() ==> IsGenuineCycle(g, extended[pos..]))
    ensures !Acyclic(g)
  {
    var edge := m.stack[|m.stack| - 1].unprocessed[0];
    assert OnStack(m.stack, edge.target);
    var t :| 0 <= t < |m.stack| && m.stack[t].node == edge.target;
    assert AtBackEdge(g, m, trail, t);
    BackEdgeClosesWalk(g, m, trail, t);
    ExtendedTrail(g, m, trail, t, t);
    var extended := trail + [TrailVertex(g.names, edge)];
    var pos := Position(extended, g.names[edge.target]);
    if g.UniqueNames() {
      ExtendedTrail(g, m, trail, t, pos);
      assert g.names[m.stack[pos].node] == g.names[edge.target];
      assert m.stack[pos].node == edge.target;
      CutTrailIsCycle(g, m, trail, pos);
    }
  }

  // ---------- whole runs ----------

  /** Whenever a back edge is observed before a cycle has been found, its target is in the trail, so the
      branch that logs an error is never taken. */
  ghost predicate BackEdgesResolve(names: seq<string>, s: VisitorState, events: seq<Event>)
    requires s.CycleState? && forall e <- events :: EventInRange(names, e)
    decreases |events|
  {
    events != [] ==>
    assert EventInRange(names, events[0]);
    && (events[0].BackEdge? && !s.foundCycle ==>
          var extended := s.trail + [TrailVertex(names, events[0].edge)];
          Position(extended, names[events[0].edge.target]) < |extended|)
    && BackEdgesResolve(names, Observe(names, s, events[0]), events[1..])
  }

  /** Once a cycle has been found the trail is frozen. */
  lemma {:induction false} FoundIsFrozen(names: seq<string>, s: VisitorState, events: seq<Event>)
    requires s.CycleState? && s.foundCycle && forall e <- events :: EventInRange(names, e)
    ensures ObserveAll(names, s, events) == s && BackEdgesResolve(names, s, events)
    decreases |events|
  {
    if events != [] {
      FoundIsFrozen(names, s, events[1..]);
    }
  }

  /** What a search leaves behind: a genuine cycle, or a ranking that includes every node it finished. */
  ghost predicate Outcome(g: Graph, colours: Colours, s: VisitorState, order: seq<nat>) {
    && s.CycleState?
    && if s.foundCycle then !Acyclic(g) && (g.UniqueNames() ==> IsGenuineCycle(g, s.trail))
       else s.trail == [] && Searching(g, Machine(colours, []), order)
  }

  lemma {:induction false} ResolveConcat(names: seq<string>, s: VisitorState, a: seq<Event>, b: seq<Event>)
    requires s.CycleState? && (forall e <- a :: EventInRange(names, e)) && (forall e <- b :: EventInRange(names, e))
    requires BackEdgesResolve(names, s, a) && BackEdgesResolve(names, ObserveAll(names, s, a), b)
    ensures forall e <- a + b :: EventInRange(names, e)
    ensures BackEdgesResolve(names, s, a + b)
    decreases |a|
  {
    if a == [] {
      assert a + b == b;
    } else {
      assert (a + b)[1..] == a[1..] + b && (a + b)[0] == a[0];
      ResolveConcat(names, Observe(names, s, a[0]), a[1..], b);
    }
  }

  lemma TrailGrows(g: Graph, m: Machine, trail: seq<Vertex>)
    requires g.Valid() && Grounded(g, m) && TrailMatches(g, m.stack, trail)
    requires m.stack != [] && m.stack[|m.stack| - 1].unprocessed != []
    requires ColourOf(m.colours, m.stack[|m.stack| - 1].unprocessed[0].target) == White
    ensures var edge := m.stack[|m.stack| - 1].unprocessed[0];
            && edge.source < |g.names|
            && TrailMatches(g, Step(g, m).0.stack, trail + [TrailVertex(g.names, edge)])
  {
    var edge := m.stack[|m.stack| - 1].unprocessed[0];
    assert edge in OutEdges(g, m.stack[|m.stack| - 1].node);
    var stack, trail' := Step(g, m).0.stack, trail + [TrailVertex(g.names, edge)];
    forall i | 0 <= i < |trail'|
      ensures Joins(g, stack[i].node, trail'[i], stack[i + 1].node)
    {
      assert i < |trail| ==> Joins(g, m.stack[i].node, trail[i], m.stack[i + 1].node);
    }
  }

  lemma TrailStays(g: Graph, m: Machine, trail: seq<Vertex>)
    requires TrailMatches(g, m.stack, trail)
    requires m.stack != [] && m.stack[|m.stack| - 1].unprocessed != []
    requires ColourOf(m.colours, m.stack[|m.stack| - 1].unprocessed[0].target) == Black
    ensures TrailMatches(g, Step(g, m).0.stack, trail)
  {
    var stack := Step(g, m).0.stack;
    forall i | 0 <= i < |trail|
      ensures Joins(g, stack[i].node, trail[i], stack[i + 1].node)
    {
      assert Joins(g, m.stack[i].node, trail[i], m.stack[i + 1].node);
    }
  }

  lemma TrailShrinks(g: Graph, m: Machine, trail: seq<Vertex>)
    requires TrailMatches(g, m.stack, trail)
    requires m.stack != [] && m.stack[|m.stack| - 1].unprocessed == []
    ensures TrailMatches(g, Step(g, m).0.stack, if trail == [] then [] else trail[..|trail| - 1])
  {
    var stack, trail' := Step(g, m).0.stack, if trail == [] then [] else trail[..|trail| - 1];
    forall i | 0 <= i < |trail'|
      ensures Joins(g, stack[i].node, trail'[i], stack[i + 1].node)
    {
      assert Joins(g, m.stack[i].node, trail[i], m.stack[i + 1].node);
    }
  }

  /** The trail after a step that does not process a back edge. */
  ghost function NextTrail(g: Graph, m: Machine, trail: seq<Vertex>): seq<Vertex>
    requires g.Valid() && Grounded(g, m) && m.stack != []
  {
    var top := m.stack[|m.stack| - 1];
    if top.unprocessed == [] then (if trail == [] then [] else trail[..|trail| - 1])
    else
      assert top.unprocessed[0] in OutEdges(g, top.node);
      if ColourOf(m.colours, top.unprocessed[0].target) == White then
        trail + [TrailVertex(g.names, top.unprocessed[0])]
      else trail
  }

  ghost predicate NotAtBackEdge(m: Machine)
    requires m.stack != []
  {
    var top := m.stack[|m.stack| - 1];
    top.unprocessed != [] ==> ColourOf(m.colours, top.unprocessed[0].target) != Grey
  }

  lemma NextTrailObserved(g: Graph, m: Machine, trail: seq<Vertex>)
    requires g.Valid() && Grounded(g, m) && m.stack != [] && NotAtBackEdge(m)
    ensures forall e <- Step(g, m).1 :: EventInRange(g.names, e)
    ensures ObserveAll(g.names, CycleState(trail, false), Step(g, m).1) == CycleState(NextTrail(g, m, trail), false)
    ensures BackEdgesResolve(g.names, CycleState(trail, false), Step(g, m).1)
  {
    StepEventsInRange(g, m);
    var events, s := Step(g, m).1, CycleState(trail, false);
    if |events| == 1 {
      assert events[1..] == [];
    } else {
      assert events == [events[0]] + [events[1]];
      assert events[1..] == [events[1]] && events[1..][1..] == [];
      var s1 := Observe(g.names, s, events[0]);
      assert s1 == CycleState(NextTrail(g, m, trail), false);
      ObserveOne(g.names, s1, events[1]);
    }
  }

  lemma NextTrailMatches(g: Graph, m: Machine, trail: seq<Vertex>)
    requires g.Valid() && Grounded(g, m) && m.stack != [] && NotAtBackEdge(m)
    requires TrailMatches(g, m.stack, trail)
    ensures TrailMatches(g, Step(g, m).0.stack, NextTrail(g, m, trail))
  {
    var top := m.stack[|m.stack| - 1];
    if top.unprocessed == [] {
      TrailShrinks(g, m, trail);
    } else if ColourOf(m.colours, top.unprocessed[0].target) == White {
      TrailGrows(g, m, trail);
    } else {
      TrailStays(g, m, trail);
    }
  }

  /** A step that does not process a back edge keeps what the search has established. */
  lemma Advance(g: Graph, m: Machine, order: seq<nat>) returns (order': seq<nat>)
    requires g.Valid() && Searching(g, m, order) && m.stack != [] && NotAtBackEdge(m)
    ensures Searching(g, Step(g, m).0, order')
    ensures forall n <- order :: n in order'
    ensures forall n :: OnStack(m.stack, n) ==> n in order' || OnStack(Step(g, m).0.stack, n)
  {
    var m' := Step(g, m).0;
    var top := m.stack[|m.stack| - 1];
    if top.unprocessed == [] {
      FinishStep(g, m, order);
      order' := order + [top.node];
    } else {
      order' := order;
      if ColourOf(m.colours, top.unprocessed[0].target) == White {
        TreeStep(g, m, order);
      } else {
        CrossStep(g, m, order);
      }
    }
    forall n | OnStack(m.stack, n)
      ensures n in order' || OnStack(m'.stack, n)
    {
      var i :| 0 <= i < |m.stack| && m.stack[i].node == n;
      if i < |m'.stack| {
        assert m'.stack[i].node == n;
      } else {
        assert n == top.node;
      }
    }
  }

  /** The search and the trail after k turns, or at the first back edge if that comes earlier. */
  ghost function StateAt(g: Graph, m: Machine, trail: seq<Vertex>, k: nat): (r: (Machine, seq<Vertex>))
    requires g.Valid() && Grounded(g, m)
    decreases k
  {
    if k == 0 || m.stack == [] || !NotAtBackEdge(m) then (m, trail)
    else
      StepGrounded(g, m);
      StateAt(g, Step(g, m).0, NextTrail(g, m, trail), k - 1)
  }

  /** At every turn up to the first back edge the grey nodes are those on the stack, the finished nodes are
      ranked, and the trail lists the edges between the frames of the stack. */
  lemma {:induction false} EveryStateKept(g: Graph, m: Machine, trail: seq<Vertex>, order: seq<nat>,
                                          k: nat) returns (order': seq<nat>)
    requires g.Valid() && Searching(g, m, order) && TrailMatches(g, m.stack, trail)
    ensures Searching(g, StateAt(g, m, trail, k).0, order')
    ensures TrailMatches(g, StateAt(g, m, trail, k).0.stack, StateAt(g, m, trail, k).1)
    decreases k
  {
    order' := order;
    if k > 0 && m.stack != [] && NotAtBackEdge(m) {
      var m1, trail1, order1 := TurnKept(g, m, trail, order);
      order' := EveryStateKept(g, m1, trail1, order1, k - 1);
    }
  }

  lemma TurnKept(g: Graph, m: Machine, trail: seq<Vertex>, order: seq<nat>)
    returns (m': Machine, trail': seq<Vertex>, order': seq<nat>)
    requires g.Valid() && Searching(g, m, order) && TrailMatches(g, m.stack, trail)
    requires m.stack != [] && NotAtBackEdge(m)
    ensures m' == Step(g, m).0 && trail' == NextTrail(g, m, trail)
    ensures Searching(g, m', order') && TrailMatches(g, m'.stack, trail')
  {
    StepGrounded(g, m);
    NextTrailMatches(g, m, trail);
    m', trail' := Step(g, m).0, NextTrail(g, m, trail);
    order' := Advance(g, m, order);
  }

  lemma {:induction false} RunOutcome(g: Graph, m: Machine, trail: seq<Vertex>,
                                      order: seq<nat>) returns (order': seq<nat>)
    requires g.Valid() && Searching(g, m, order) && TrailMatches(g, m.stack, trail)
    ensures forall e <- Run(g, m).1 :: EventInRange(g.names, e)
    ensures BackEdgesResolve(g.names, CycleState(trail, false), Run(g, m).1)
    ensures var s := ObserveAll(g.names, CycleState(trail, false), Run(g, m).1);
            && Outcome(g, Run(g, m).0, s, order')
            && (!s.foundCycle ==> forall n :: n in order || OnStack(m.stack, n) ==> n in order')
    decreases WhiteNodes(g, m.colours), Work(m.stack)
  {
    RunEventsInRange(g, m);
    order' := order;
    if m.stack != [] {
      StepGrounded(g, m);
      StepDescends(g, m);
      StepEventsInRange(g, m);
      var (m', events) := Step(g, m);
      var rest := Run(g, m').1;
      RunEventsInRange(g, m');
      var s := CycleState(trail, false);
      ObserveConcat(g.names, s, events, rest);
      var top := m.stack[|m.stack| - 1];
      if top.unprocessed != [] && ColourOf(m.colours, top.unprocessed[0].target) == Grey {
        BackStep(g, m, order, trail);
        assert events[1..] == [];
        FoundIsFrozen(g.names, ObserveAll(g.names, s, events), rest);
      } else {
        NextTrailObserved(g, m, trail);
        NextTrailMatches(g, m, trail);
        var order1 := Advance(g, m, order);
        order' := RunOutcome(g, m', NextTrail(g, m, trail), order1);
      }
      ResolveConcat(g.names, s, events, rest);
    }
  }

  lemma SearchOutcome(g: Graph, colours: Colours, n: nat, order: seq<nat>) returns (order': seq<nat>)
    requires g.Valid() && n < |g.names| && Searching(g, Machine(colours, []), order)
    ensures forall e <- Search(g, colours, n).1 :: EventInRange(g.names, e)
    ensures BackEdgesResolve(g.names, CycleState([], false), Search(g, colours, n).1)
    ensures var s := ObserveAll(g.names, CycleState([], false), Search(g, colours, n).1);
            && Outcome(g, Search(g, colours, n).0, s, order')
            && (!s.foundCycle ==> n in order' && forall k <- order :: k in order')
  {
    var m := Start(g, colours, n);
    StartGrounded(g, colours, n);
    assert m.stack[0].node == n;
    forall k
      ensures ColourOf(m.colours, k) == Grey <==> OnStack(m.stack, k)
    {
      assert ColourOf(colours, k) == Grey ==> OnStack([], k);
    }
    order' := RunOutcome(g, m, [], order);
    assert ([DiscoverNode(n)] + Run(g, m).1)[1..] == Run(g, m).1;
    ObserveConcat(g.names, CycleState([], false), [DiscoverNode(n)], Run(g, m).1);
  }

  // ---------- the method ----------

  method FindCycle(g: Graph) returns (r: Option<seq<Vertex>>)
    requires g.Valid()
    ensures r.None? <==> Acyclic(g)
    ensures r.Some? && g.UniqueNames() ==> IsGenuineCycle(g, r.value)
  {
    var detector := new CycleDetector(g.names);
    var colours: Colours := map[];
    ghost var order: seq<nat> := [];

    for n := 0 to |g.names|
      invariant detector.names == g.names && detector.State() == CycleState([], false)
      invariant Searching(g, Machine(colours, []), order)
      invariant forall k: nat :: k < n ==> k in order
    {
      order := SearchOutcome(g, colours, n, order);
      colours := DepthFirstSearch(g, colours, n, Cycles(detector));

      if detector.foundCycle {
        return Some(detector.trail);
      }
    }

    RankedIsAcyclic(g, order);
    return None;
  }
}
