/** The depth-first search of src/sorting/search.rs and the two visitors that run over it. The search
    is specified as a small-step machine that emits events; a visitor is a state driven by events. */
module DepthFirst {
  import opened Wrappers
  import opened Graphs

  // ---------- the machine ----------

  datatype Colour = White | Grey | Black

  type Colours = map<nat, Colour>

  function ColourOf(colours: Colours, n: nat): Colour {
    if n in colours then colours[n] else White
  }

  datatype Event =
    | DiscoverNode(node: nat)
    | TreeEdge(edge: Edge)
    | BackEdge(edge: Edge)
    | ForwardOrCrossEdge(edge: Edge)
    | FinishNode(node: nat)

  /** A node being explored, with the out-edges it has still to process. */
  datatype Frame = Frame(node: nat, unprocessed: seq<Edge>)

  datatype Machine = Machine(colours: Colours, stack: seq<Frame>)

  function Start(g: Graph, colours: Colours, n: nat): Machine {
    Machine(colours[n := Grey], [Frame(n, OutEdges(g, n))])
  }

  /** One turn of the search loop, with the visitor calls it makes. */
  function Step(g: Graph, m: Machine): (Machine, seq<Event>)
    requires m.stack != []
  {
    var below, top := m.stack[..|m.stack| - 1], m.stack[|m.stack| - 1];
    if top.unprocessed == [] then
      (Machine(m.colours[top.node := Black], below), [FinishNode(top.node)])
    else
      var edge := top.unprocessed[0];
      var stack := below + [Frame(top.node, top.unprocessed[1..])];
      match ColourOf(m.colours, edge.target)
      case White =>
        (Machine(m.colours[edge.target := Grey], stack + [Frame(edge.target, OutEdges(g, edge.target))]),
         [TreeEdge(edge), DiscoverNode(edge.target)])
      case Grey => (Machine(m.colours, stack), [BackEdge(edge)])
      case Black => (Machine(m.colours, stack), [ForwardOrCrossEdge(edge)])
  }

  ghost predicate Grounded(g: Graph, m: Machine) {
    forall i :: 0 <= i < |m.stack| ==>
      m.stack[i].node < |g.names| && forall e <- m.stack[i].unprocessed :: e in OutEdges(g, m.stack[i].node)
  }

  ghost function WhiteNodes(g: Graph, colours: Colours): set<nat> {
    set n | n in Range(|g.names|) && ColourOf(colours, n) == White
  }

  ghost function Work(stack: seq<Frame>): nat {
    if stack == [] then 0 else Work(stack[..|stack| - 1]) + |stack[|stack| - 1].unprocessed| + 1
  }

  lemma StepGrounded(g: Graph, m: Machine)
    requires g.Valid() && Grounded(g, m) && m.stack != []
    ensures Grounded(g, Step(g, m).0)
  {
    var top := m.stack[|m.stack| - 1];
    if top.unprocessed != [] {
      assert top.unprocessed[0] in OutEdges(g, top.node);
      assert forall e <- top.unprocessed[1..] :: e in top.unprocessed;
    }
  }

  /** Each turn colours a white node or leaves fewer edges and frames to process. */
  lemma StepDescends(g: Graph, m: Machine)
    requires g.Valid() && Grounded(g, m) && m.stack != []
    ensures var m' := Step(g, m).0;
            || WhiteNodes(g, m'.colours) < WhiteNodes(g, m.colours)
            || (WhiteNodes(g, m'.colours) == WhiteNodes(g, m.colours) && Work(m'.stack) < Work(m.stack))
  {
    var below, top := m.stack[..|m.stack| - 1], m.stack[|m.stack| - 1];
    var m' := Step(g, m).0;
    if top.unprocessed != [] {
      var edge := top.unprocessed[0];
      assert edge in OutEdges(g, top.node);
      if ColourOf(m.colours, edge.target) == White {
        assert edge.target in WhiteNodes(g, m.colours);
        assert edge.target !in WhiteNodes(g, m'.colours);
      } else {
        assert m'.stack[..|m'.stack| - 1] == below;
      }
    } else if WhiteNodes(g, m'.colours) != WhiteNodes(g, m.colours) {
      assert WhiteNodes(g, m'.colours) < WhiteNodes(g, m.colours);
    }
  }

  /** The colours and the events of a search run to completion. */
  ghost function Run(g: Graph, m: Machine): (r: (Colours, seq<Event>))
    requires g.Valid() && Grounded(g, m)
    decreases WhiteNodes(g, m.colours), Work(m.stack)
  {
    if m.stack == [] then (m.colours, [])
    else
      StepGrounded(g, m);
      StepDescends(g, m);
      var (m', events) := Step(g, m);
      var (colours, rest) := Run(g, m');
      (colours, events + rest)
  }

  /** A whole search from n, starting with the given colours. */
  ghost function Search(g: Graph, colours: Colours, n: nat): (r: (Colours, seq<Event>))
    requires g.Valid() && n < |g.names|
  {
    var (colours', events) := Run(g, Start(g, colours, n));
    (colours', [DiscoverNode(n)] + events)
  }

  // ---------- visitors ----------

  /** The part of a visitor's state that its callbacks may change. */
  datatype VisitorState =
    | CycleState(trail: seq<Vertex>, foundCycle: bool)
    | PathLengthState(maxLength: int, currentLength: int)

  /** The index of the first vertex with the given name, or |trail| if there is none. */
  function Position(trail: seq<Vertex>, name: string): (i: nat)
    ensures i <= |trail| && (i < |trail| ==> trail[i].name == name)
    ensures forall j :: 0 <= j < i ==> trail[j].name != name
  {
    if trail == [] || trail[0].name == name then 0 else 1 + Position(trail[1..], name)
  }

  function TrailVertex(names: seq<string>, edge: Edge): Vertex
    requires edge.source < |names|
  {
    Vertex(names[edge.source], Some(edge.kind))
  }

  ghost predicate EventInRange(names: seq<string>, event: Event) {
    match event
    case DiscoverNode(n) => n < |names|
    case FinishNode(n) => n < |names|
    case TreeEdge(e) => e.source < |names| && e.target < |names|
    case BackEdge(e) => e.source < |names| && e.target < |names|
    case ForwardOrCrossEdge(e) => e.source < |names| && e.target < |names|
  }

  /** How one event changes a visitor's state. */
  ghost function Observe(names: seq<string>, s: VisitorState, event: Event): (s': VisitorState)
    requires EventInRange(names, event)
    ensures s'.CycleState? == s.CycleState?
  {
    match s
    case CycleState(trail, found) =>
      if found then s
      else (
        match event
        case TreeEdge(e) => s.(trail := trail + [TrailVertex(names, e)])
        case BackEdge(e) =>
          var extended := trail + [TrailVertex(names, e)];
          var pos := Position(extended, names[e.target]);
          if pos < |extended| then CycleState(extended[pos..], true) else CycleState(extended, false)
        case FinishNode(_) => s.(trail := if trail == [] then [] else trail[..|trail| - 1])
        case _ => s
      )
    case PathLengthState(longest, current) =>
      match event
      case DiscoverNode(_) =>
        PathLengthState(if current + 1 > longest then current + 1 else longest, current + 1)
      case FinishNode(_) => s.(currentLength := current - 1)
      case _ => s
  }

  ghost function ObserveAll(names: seq<string>, s: VisitorState, events: seq<Event>): (s': VisitorState)
    requires forall e <- events :: EventInRange(names, e)
    ensures s'.CycleState? == s.CycleState?
    decreases |events|
  {
    if events == [] then s else ObserveAll(names, Observe(names, s, events[0]), events[1..])
  }

  lemma ObserveOne(names: seq<string>, s: VisitorState, event: Event)
    requires EventInRange(names, event)
    ensures ObserveAll(names, s, [event]) == Observe(names, s, event)
  {
    assert [event][1..] == [];
  }

  lemma {:induction false} ObserveConcat(names: seq<string>, s: VisitorState, a: seq<Event>, b: seq<Event>)
    requires forall e <- a + b :: EventInRange(names, e)
    ensures forall e <- a :: EventInRange(names, e)
    ensures forall e <- b :: EventInRange(names, e)
    ensures ObserveAll(names, s, a + b) == ObserveAll(names, ObserveAll(names, s, a), b)
    decreases |a|
  {
    assert forall e <- a :: e in a + b;
    assert forall e <- b :: e in a + b;
    if a == [] {
      assert a + b == b;
    } else {
      assert (a + b)[1..] == a[1..] + b;
      ObserveConcat(names, Observe(names, s, a[0]), a[1..], b);
    }
  }

  lemma StepEventsInRange(g: Graph, m: Machine)
    requires g.Valid() && Grounded(g, m) && m.stack != []
    ensures forall e <- Step(g, m).1 :: EventInRange(g.names, e)
  {
    var top := m.stack[|m.stack| - 1];
    if top.unprocessed != [] {
      assert top.unprocessed[0] in OutEdges(g, top.node);
    }
  }

  lemma {:induction false} RunEventsInRange(g: Graph, m: Machine)
    requires g.Valid() && Grounded(g, m)
    ensures forall e <- Run(g, m).1 :: EventInRange(g.names, e)
    decreases WhiteNodes(g, m.colours), Work(m.stack)
  {
    if m.stack != [] {
      StepGrounded(g, m);
      StepDescends(g, m);
      StepEventsInRange(g, m);
      RunEventsInRange(g, Step(g, m).0);
    }
  }

  lemma StartGrounded(g: Graph, colours: Colours, n: nat)
    requires g.Valid() && n < |g.names|
    ensures Grounded(g, Start(g, colours, n))
    ensures forall e <- Search(g, colours, n).1 :: EventInRange(g.names, e)
  {
    RunEventsInRange(g, Start(g, colours, n));
  }

  class CycleDetector {
    const names: seq<string>
    var trail: seq<Vertex>
    var foundCycle: bool

    constructor (names: seq<string>)
      ensures this.names == names && trail == [] && !foundCycle
    {
      this.names, trail, foundCycle := names, [], false;
    }

    ghost function State(): VisitorState
      reads this
    {
      CycleState(trail, foundCycle)
    }

    method VisitTreeEdge(edge: Edge)
      requires EventInRange(names, TreeEdge(edge))
      modifies this
      ensures State() == Observe(names, old(State()), TreeEdge(edge))
    {
      if foundCycle {
        return;
      }
      trail := trail + [TrailVertex(names, edge)];
    }

    method VisitForwardOrCrossEdge(edge: Edge)
      requires EventInRange(names, ForwardOrCrossEdge(edge))
      ensures State() == Observe(names, old(State()), ForwardOrCrossEdge(edge))
    {
    }

    method VisitBackEdge(edge: Edge)
      requires EventInRange(names, BackEdge(edge))
      modifies this
      ensures State() == Observe(names, old(State()), BackEdge(edge))
    {
      if foundCycle {
        return;
      }
      VisitTreeEdge(edge);

      var pos := Position(trail, names[edge.target]);
      if pos < |trail| {
        trail := trail[pos..];
        foundCycle := true;
      }
      // Otherwise the source logs an error: CycleDetection.BackEdgesResolve shows that this does not happen.
    }

    method DiscoverNode(node: nat)
      requires EventInRange(names, Event.DiscoverNode(node))
      ensures State() == Observe(names, old(State()), Event.DiscoverNode(node))
    {
    }

    method FinishNode(node: nat)
      requires EventInRange(names, Event.FinishNode(node))
      modifies this
      ensures State() == Observe(names, old(State()), Event.FinishNode(node))
    {
      if !foundCycle && trail != [] {
        trail := trail[..|trail| - 1];
      }
    }
  }

  /** The lengths are usize in the source. They are integers here so that an underflow is visible;
      CountNeverUnderflows rules it out. */
  class GroupsPathLengthVisitor {
    var maxPathLength: int
    var currentPathLength: int

    constructor ()
      ensures maxPathLength == currentPathLength == 0
    {
      maxPathLength, currentPathLength := 0, 0;
    }

    ghost function State(): VisitorState
      reads this
    {
      PathLengthState(maxPathLength, currentPathLength)
    }

    method DiscoverNode(ghost names: seq<string>, node: nat)
      requires EventInRange(names, Event.DiscoverNode(node))
      modifies this
      ensures State() == Observe(names, old(State()), Event.DiscoverNode(node))
    {
      currentPathLength := currentPathLength + 1;
      if currentPathLength > maxPathLength {
        maxPathLength := currentPathLength;
      }
    }

    method FinishNode(ghost names: seq<string>, node: nat)
      requires EventInRange(names, Event.FinishNode(node))
      modifies this
      ensures State() == Observe(names, old(State()), Event.FinishNode(node))
    {
      currentPathLength := currentPathLength - 1;
    }
  }

  /** The visitors that the search can be given. */
  datatype Visitor =
    | Cycles(detector: CycleDetector)
    | PathLengths(counter: GroupsPathLengthVisitor)
  {
    ghost function Repr(): set<object> {
      match this
      case Cycles(detector) => {detector}
      case PathLengths(counter) => {counter}
    }

    ghost function State(): VisitorState
      reads Repr()
    {
      match this
      case Cycles(detector) => detector.State()
      case PathLengths(counter) => counter.State()
    }

    /** The visitor was made for a graph with these node names. */
    ghost predicate Serves(names: seq<string>) {
      Cycles? ==> detector.names == names
    }

    method Visit(ghost names: seq<string>, event: Event)
      requires Serves(names) && EventInRange(names, event)
      modifies Repr()
      ensures State() == Observe(names, old(State()), event)
    {
      match this
      case Cycles(detector) =>
        match event {
          case DiscoverNode(n) => detector.DiscoverNode(n);
          case TreeEdge(e) => detector.VisitTreeEdge(e);
          case BackEdge(e) => detector.VisitBackEdge(e);
          case ForwardOrCrossEdge(e) => detector.VisitForwardOrCrossEdge(e);
          case FinishNode(n) => detector.FinishNode(n);
        }
      case PathLengths(counter) =>
        match event {
          case DiscoverNode(n) => counter.DiscoverNode(names, n);
          case FinishNode(n) => counter.FinishNode(names, n);
          case _ =>
        }
    }
  }

  // ---------- the search loop ----------

  /** With state, the machine's remaining events lead to the final state, and its run to the final colours. */
  ghost predicate Remaining(g: Graph, m: Machine, state: VisitorState, colours: Colours, final: VisitorState) {
    && g.Valid() && Grounded(g, m) && Run(g, m).0 == colours
    && (forall e <- Run(g, m).1 :: EventInRange(g.names, e))
    && ObserveAll(g.names, state, Run(g, m).1) == final
  }

  lemma RemainingStep(g: Graph, m: Machine, state: VisitorState, colours: Colours, final: VisitorState)
    requires Remaining(g, m, state, colours, final) && m.stack != []
    ensures forall e <- Step(g, m).1 :: EventInRange(g.names, e)
    ensures Remaining(g, Step(g, m).0, ObserveAll(g.names, state, Step(g, m).1), colours, final)
  {
    StepGrounded(g, m);
    StepDescends(g, m);
    StepEventsInRange(g, m);
    RunEventsInRange(g, Step(g, m).0);
    ObserveConcat(g.names, state, Step(g, m).1, Run(g, Step(g, m).0).1);
  }

  lemma RemainingAtStart(g: Graph, colours: Colours, start: nat, state: VisitorState)
    requires g.Valid() && start < |g.names|
    ensures forall e <- Search(g, colours, start).1 :: EventInRange(g.names, e)
    ensures Remaining(g, Start(g, colours, start), Observe(g.names, state, DiscoverNode(start)),
                      Search(g, colours, start).0, ObserveAll(g.names, state, Search(g, colours, start).1))
  {
    StartGrounded(g, colours, start);
    var m := Start(g, colours, start);
    RunEventsInRange(g, m);
    ObserveConcat(g.names, state, [DiscoverNode(start)], Run(g, m).1);
    ObserveOne(g.names, state, DiscoverNode(start));
  }

  /** One turn of the search loop. */
  method Turn(g: Graph, colours: Colours, stack: seq<Frame>, visitor: Visitor)
    returns (colours': Colours, stack': seq<Frame>)
    requires visitor.Serves(g.names) && stack != []
    requires forall e <- Step(g, Machine(colours, stack)).1 :: EventInRange(g.names, e)
    modifies visitor.Repr()
    ensures Machine(colours', stack') == Step(g, Machine(colours, stack)).0
    ensures visitor.State() == ObserveAll(g.names, old(visitor.State()), Step(g, Machine(colours, stack)).1)
  {
    var top := stack[|stack| - 1];
    colours', stack' := colours, stack[..|stack| - 1];
    if top.unprocessed != [] {
      var edge := top.unprocessed[0];
      stack' := stack' + [Frame(top.node, top.unprocessed[1..])];
      match ColourOf(colours', edge.target) {
        case White =>
          ObserveConcat(g.names, visitor.State(), [TreeEdge(edge)], [DiscoverNode(edge.target)]);
          visitor.Visit(g.names, TreeEdge(edge));
          colours' := colours'[edge.target := Grey];
          visitor.Visit(g.names, DiscoverNode(edge.target));
          stack' := stack' + [Frame(edge.target, OutEdges(g, edge.target))];
        case Grey => visitor.Visit(g.names, BackEdge(edge));
        case Black => visitor.Visit(g.names, ForwardOrCrossEdge(edge));
      }
    } else {
      colours' := colours'[top.node := Black];
      visitor.Visit(g.names, FinishNode(top.node));
    }
  }

  /** The loop reports to the visitor exactly the events of the machine's run, as they happen. */
  method DepthFirstSearch(g: Graph, colours: Colours, start: nat, visitor: Visitor) returns (colours': Colours)
    requires g.Valid() && start < |g.names| && visitor.Serves(g.names)
    modifies visitor.Repr()
    ensures colours' == Search(g, colours, start).0
    ensures forall e <- Search(g, colours, start).1 :: EventInRange(g.names, e)
    ensures visitor.State() == ObserveAll(g.names, old(visitor.State()), Search(g, colours, start).1)
  {
    ghost var m := Start(g, colours, start);
    ghost var goal := Search(g, colours, start);
    RemainingAtStart(g, colours, start, visitor.State());

    var stack := [Frame(start, OutEdges(g, start))];
    colours' := colours[start := Grey];
    visitor.Visit(g.names, DiscoverNode(start));

    while stack != []
      invariant m == Machine(colours', stack)
      invariant Remaining(g, m, visitor.State(), goal.0, ObserveAll(g.names, old(visitor.State()), goal.1))
      decreases WhiteNodes(g, m.colours), Work(m.stack)
    {
      StepDescends(g, m);
      RemainingStep(g, m, visitor.State(), goal.0, ObserveAll(g.names, old(visitor.State()), goal.1));

      colours', stack := Turn(g, colours', stack, visitor);
      m := Step(g, m).0;
    }
  }
}
