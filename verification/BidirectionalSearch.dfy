/** The bidirectional breadth-first search of src/sorting/search.rs, with the PathFinder visitor
    of src/sorting/plugins.rs that turns what the search reports into a path. */
module BidirectionalSearch {
  import opened Wrappers
  import opened Graphs

  datatype PathfindingError =
    | PrecedingNodeNotFound(node: nat)
    | FollowingNodeNotFound(node: nat)

  type PathResult = Result<Option<seq<nat>>, PathfindingError>

  /** A newly discovered node and the neighbour it was discovered from. */
  datatype Link = Link(child: nat, parent: nat)

  /** Some edge of g leads from a to b or, searching in reverse, from b to a. */
  ghost predicate Arc(g: Graph, forward: bool, a: nat, b: nat) {
    exists k :: (if forward then Edge(a, b, k) else Edge(b, a, k)) in g.edges
  }

  ghost function Seen(root: nat, links: seq<Link>): (r: set<nat>)
    ensures root in r
  {
    if links == [] then {root} else Seen(root, links[..|links| - 1]) + {links[|links| - 1].child}
  }

  /** Every child is new, every parent has been seen before, and an edge joins the two. */
  ghost predicate IsTree(g: Graph, forward: bool, root: nat, links: seq<Link>) {
    links == [] ||
    var front, last := links[..|links| - 1], links[|links| - 1];
    && IsTree(g, forward, root, front)
    && last.child !in Seen(root, front) && last.parent in Seen(root, front)
    && Arc(g, forward, last.parent, last.child)
  }

  /** The map a visitor builds by inserting each link in turn. */
  ghost function ParentMap(links: seq<Link>): map<nat, nat> {
    if links == [] then map[]
    else ParentMap(links[..|links| - 1])[links[|links| - 1].child := links[|links| - 1].parent]
  }

  /** root leads to n: by a walk from root to n or, searching in reverse, from n to root. */
  ghost predicate Leads(g: Graph, forward: bool, root: nat, n: nat) {
    if forward then Reaches(g, root, n) else Reaches(g, n, root)
  }

  lemma LeadsStep(g: Graph, forward: bool, root: nat, a: nat, b: nat)
    requires Leads(g, forward, root, a) && Arc(g, forward, a, b)
    ensures Leads(g, forward, root, b)
  {
    if forward {
      var k :| Edge(a, b, k) in g.edges;
      ReachesEdge(g, Edge(a, b, k));
      ReachesTransitive(g, root, a, b);
    } else {
      var k :| Edge(b, a, k) in g.edges;
      ReachesEdge(g, Edge(b, a, k));
      ReachesTransitive(g, b, a, root);
    }
  }

  /** One direction of a search in progress: queue holds the visited nodes still to be expanded. */
  ghost predicate Frontier(g: Graph, forward: bool, root: nat, visited: set<nat>, queue: seq<nat>, links: seq<Link>) {
    && IsTree(g, forward, root, links)
    && visited == Seen(root, links)
    && (forall n <- queue :: n in visited)
    && (forall i, j :: 0 <= i < j < |queue| ==> queue[i] != queue[j])
  }

  lemma TreeAppend(g: Graph, forward: bool, root: nat, links: seq<Link>, link: Link)
    requires IsTree(g, forward, root, links) && Arc(g, forward, link.parent, link.child)
    requires link.child !in Seen(root, links) && link.parent in Seen(root, links)
    ensures IsTree(g, forward, root, links + [link])
    ensures Seen(root, links + [link]) == Seen(root, links) + {link.child}
    ensures ParentMap(links + [link]) == ParentMap(links)[link.child := link.parent]
  {
    assert (links + [link])[..|links|] == links;
  }

  lemma {:induction false} TreeLeads(g: Graph, forward: bool, root: nat, links: seq<Link>, n: nat)
    requires IsTree(g, forward, root, links) && n in Seen(root, links)
    ensures Leads(g, forward, root, n)
    decreases |links|
  {
    ReachesSelf(g, root);
    if n != root {
      var front, last := links[..|links| - 1], links[|links| - 1];
      if n == last.child {
        TreeLeads(g, forward, root, front, last.parent);
        LeadsStep(g, forward, root, last.parent, n);
      } else {
        TreeLeads(g, forward, root, front, n);
      }
    }
  }

  /** A node in both trees lies on a walk from one root to the other. */
  lemma MeetingReaches(g: Graph, fromIndex: nat, toIndex: nat, forwardLinks: seq<Link>, reverseLinks: seq<Link>, n: nat)
    requires IsTree(g, true, fromIndex, forwardLinks) && n in Seen(fromIndex, forwardLinks)
    requires IsTree(g, false, toIndex, reverseLinks) && n in Seen(toIndex, reverseLinks)
    ensures Reaches(g, fromIndex, toIndex)
  {
    TreeLeads(g, true, fromIndex, forwardLinks, n);
    TreeLeads(g, false, toIndex, reverseLinks, n);
    ReachesTransitive(g, fromIndex, n, toIndex);
  }

  lemma {:induction false} TreeInRange(g: Graph, forward: bool, root: nat, links: seq<Link>)
    requires g.Valid() && root < |g.names| && IsTree(g, forward, root, links)
    ensures Seen(root, links) <= Range(|g.names|)
    decreases |links|
  {
    if links != [] {
      TreeInRange(g, forward, root, links[..|links| - 1]);
    }
  }

  /** A node seen within the first r links has its parent recorded, and that was seen before it. */
  lemma {:induction false} TreeParent(g: Graph, forward: bool, root: nat, links: seq<Link>, r: nat,
                                      n: nat) returns (k: nat)
    requires IsTree(g, forward, root, links) && r <= |links| && n in Seen(root, links[..r]) && n != root
    ensures n in ParentMap(links) && k < r && ParentMap(links)[n] in Seen(root, links[..k])
    ensures Arc(g, forward, ParentMap(links)[n], n)
    decreases |links|
  {
    var front, last := links[..|links| - 1], links[|links| - 1];
    if r == |links| && n == last.child {
      k := |links| - 1;
    } else {
      var r' := if r == |links| then r - 1 else r;
      assert front[..r'] == links[..r'] && links[..|links|] == links;
      k := TreeParent(g, forward, root, front, r', n);
      assert front[..k] == links[..k];
      SeenPrefix(root, front, r', n);
    }
  }

  lemma {:induction false} SeenPrefix(root: nat, links: seq<Link>, r: nat, n: nat)
    requires r <= |links| && n in Seen(root, links[..r])
    ensures n in Seen(root, links)
    decreases |links|
  {
    if r < |links| {
      assert links[..|links| - 1][..r] == links[..r];
      SeenPrefix(root, links[..|links| - 1], r, n);
    } else {
      assert links[..r] == links;
    }
  }

  /** Every visited node outside pending has all its neighbours visited. */
  ghost predicate Expanded(g: Graph, forward: bool, visited: set<nat>, pending: seq<nat>) {
    forall a, b :: a in visited && a !in pending && Arc(g, forward, a, b) ==> b in visited
  }

  /** Nodes are only ever added to visited, and exactly the nodes that were added have joined the queue. */
  ghost predicate Grown(visited: set<nat>, queue: seq<nat>, visited': set<nat>, queue': seq<nat>) {
    visited <= visited' && forall n <- visited' :: n in queue' <==> n in queue || n !in visited
  }

  /** The state while the neighbours of current are being visited. */
  ghost predicate Expanding(g: Graph, forward: bool, root: nat, visited: set<nat>, queue: seq<nat>, links: seq<Link>,
                            current: nat) {
    && Frontier(g, forward, root, visited, queue, links)
    && current in visited && current !in queue
    && Expanded(g, forward, visited, queue + [current])
  }

  lemma PopFront(g: Graph, forward: bool, root: nat, visited: set<nat>, queue: seq<nat>, links: seq<Link>)
    requires Frontier(g, forward, root, visited, queue, links) && Expanded(g, forward, visited, queue) && queue != []
    ensures Expanding(g, forward, root, visited, queue[1..], links, queue[0])
    ensures Leads(g, forward, root, queue[0])
  {
    assert queue == [queue[0]] + queue[1..];
    forall a, b | a in visited && a !in queue[1..] + [queue[0]] && Arc(g, forward, a, b)
      ensures b in visited
    {
      assert a !in queue;
    }
    TreeLeads(g, forward, root, links, queue[0]);
  }

  /** The first i neighbours of current have been visited, since visited0 and queue0. */
  ghost predicate Partway(g: Graph, forward: bool, root: nat, visited0: set<nat>, queue0: seq<nat>, visited: set<nat>,
                          queue: seq<nat>, links: seq<Link>, current: nat, i: nat) {
    && Expanding(g, forward, root, visited, queue, links, current)
    && Grown(visited0, queue0, visited, queue)
    && i <= |Neighbours(g, forward, current)|
    && forall j :: 0 <= j < i ==> Neighbours(g, forward, current)[j] in visited
  }

  lemma Discover(g: Graph, forward: bool, root: nat, visited0: set<nat>, queue0: seq<nat>, visited: set<nat>,
                 queue: seq<nat>, links: seq<Link>, current: nat, i: nat, adjacent: nat)
    requires Partway(g, forward, root, visited0, queue0, visited, queue, links, current, i)
    requires i < |Neighbours(g, forward, current)| && adjacent == Neighbours(g, forward, current)[i]
    requires adjacent !in visited
    ensures Partway(g, forward, root, visited0, queue0, visited + {adjacent}, queue + [adjacent],
                    links + [Link(adjacent, current)], current, i + 1)
    ensures IsTree(g, forward, root, links + [Link(adjacent, current)])
    ensures ParentMap(links + [Link(adjacent, current)]) == ParentMap(links)[adjacent := current]
    ensures Leads(g, forward, root, adjacent)
  {
    NeighboursAreArcs(g, forward, current, adjacent);
    TreeAppend(g, forward, root, links, Link(adjacent, current));
    TreeLeads(g, forward, root, links + [Link(adjacent, current)], adjacent);
  }

  lemma ExpansionDone(g: Graph, forward: bool, root: nat, visited0: set<nat>, queue0: seq<nat>, visited: set<nat>,
                      queue: seq<nat>, links: seq<Link>, current: nat)
    requires Partway(g, forward, root, visited0, queue0, visited, queue, links, current,
                     |Neighbours(g, forward, current)|)
    ensures Expanded(g, forward, visited, queue)
  {
    forall a, b | a in visited && a !in queue && Arc(g, forward, a, b)
      ensures b in visited
    {
      NeighboursAreArcs(g, forward, a, b);
      assert a !in queue + [current] || a == current;
    }
  }

  /** Once nothing is pending, the visited nodes are all that the root leads to. */
  lemma FrontierComplete(g: Graph, forward: bool, root: nat, visited: set<nat>, n: nat)
    requires root in visited && Expanded(g, forward, visited, []) && Leads(g, forward, root, n)
    ensures n in visited
  {
    forall e | e in g.edges
      ensures forward && e.source in visited ==> e.target in visited
      ensures !forward && e.target in visited ==> e.source in visited
    {
      assert e == Edge(e.source, e.target, e.kind);
      assert Arc(g, true, e.source, e.target) && Arc(g, false, e.target, e.source);
    }
    if forward {
      var p :| IsWalk(g, root, p, n);
      ClosedForward(g, visited, root, p, n);
    } else {
      var p :| IsWalk(g, n, p, root);
      ClosedBackward(g, visited, n, p, root);
    }
  }

  /** If in addition the other node was not among them, the root does not lead to it. */
  lemma Exhausted(g: Graph, forward: bool, root: nat, other: nat, visited: set<nat>)
    requires root in visited && Expanded(g, forward, visited, []) && other !in visited
    ensures !Leads(g, forward, root, other)
  {
    if Leads(g, forward, root, other) {
      FrontierComplete(g, forward, root, visited, other);
    }
  }

  /** The other ends of the given edges, newest edge first. */
  function OtherEnds(es: seq<Edge>, forward: bool): (r: seq<nat>)
    ensures forall n :: n in r ==> exists e :: e in es && n == OtherEnd(e, forward)
    ensures forall e <- es :: OtherEnd(e, forward) in r
  {
    if es == [] then []
    else [OtherEnd(es[|es| - 1], forward)] + OtherEnds(es[..|es| - 1], forward)
  }

  function OtherEnd(e: Edge, forward: bool): nat {
    if forward then e.target else e.source
  }

  /** The neighbours of n in the order petgraph iterates over them: newest edge first. */
  function Neighbours(g: Graph, forward: bool, n: nat): seq<nat> {
    OtherEnds(if forward then EdgesFrom(g.edges, n) else EdgesTo(g.edges, n), forward)
  }

  lemma NeighboursAreArcs(g: Graph, forward: bool, n: nat, m: nat)
    ensures m in Neighbours(g, forward, n) <==> Arc(g, forward, n, m)
  {
    var es := if forward then EdgesFrom(g.edges, n) else EdgesTo(g.edges, n);
    if m in OtherEnds(es, forward) {
      var e :| e in es && m == OtherEnd(e, forward);
      assert e == if forward then Edge(n, m, e.kind) else Edge(m, n, e.kind);
    }
    if Arc(g, forward, n, m) {
      var k :| (if forward then Edge(n, m, k) else Edge(m, n, k)) in g.edges;
      assert OtherEnd(if forward then Edge(n, m, k) else Edge(m, n, k), forward) in OtherEnds(es, forward);
    }
  }

  /** Every pair of nodes in the cache is joined by a walk. */
  ghost predicate CacheSound(g: Graph, cache: map<nat, set<nat>>) {
    forall a, b :: a in cache && b in cache[a] ==> Reaches(g, a, b)
  }

  function WithPath(cache: map<nat, set<nat>>, a: nat, b: nat): map<nat, set<nat>> {
    cache[a := (if a in cache then cache[a] else {}) + {b}]
  }

  lemma WithPathSound(g: Graph, cache: map<nat, set<nat>>, a: nat, b: nat)
    requires CacheSound(g, cache) && Reaches(g, a, b)
    ensures CacheSound(g, WithPath(cache, a, b))
  {
  }

  class PathFinder {
    const fromNode: nat
    const toNode: nat
    var cache: map<nat, set<nat>>
    var forwardParents: map<nat, nat>
    var reverseChildren: map<nat, nat>
    var intersectionNode: Option<nat>

    // The calls the search has made, in order.
    ghost var forwardLinks: seq<Link>
    ghost var reverseLinks: seq<Link>
    ghost var intersections: seq<nat>

    constructor (cache: map<nat, set<nat>>, fromNode: nat, toNode: nat)
      ensures this.fromNode == fromNode && this.toNode == toNode && this.cache == cache
      ensures Unused()
    {
      this.fromNode, this.toNode, this.cache := fromNode, toNode, cache;
      forwardParents, reverseChildren, intersectionNode := map[], map[], None;
      forwardLinks, reverseLinks, intersections := [], [], [];
    }

    ghost predicate Unused()
      reads this
    {
      && forwardLinks == [] && reverseLinks == [] && intersections == []
      && forwardParents == map[] && reverseChildren == map[] && intersectionNode == None
    }

    /** The recorded maps hold exactly what was reported, with no report overwriting another. */
    ghost predicate Faithful(g: Graph)
      reads this
    {
      && IsTree(g, true, fromNode, forwardLinks) && forwardParents == ParentMap(forwardLinks)
      && IsTree(g, false, toNode, reverseLinks) && reverseChildren == ParentMap(reverseLinks)
      && (intersectionNode == if intersections == [] then None else Some(intersections[|intersections| - 1]))
    }

    method CachePath(a: nat, b: nat)
      modifies this`cache
      ensures cache == WithPath(old(cache), a, b)
    {
      cache := cache[a := (if a in cache then cache[a] else {}) + {b}];
    }

    method VisitForwardBfsEdge(source: nat, target: nat)
      modifies this
      ensures forwardParents == old(forwardParents)[target := source]
      ensures forwardLinks == old(forwardLinks) + [Link(target, source)]
      ensures unchanged(`reverseChildren, `reverseLinks, `intersectionNode, `intersections)
      ensures cache == WithPath(old(cache), fromNode, target)
    {
      CachePath(fromNode, target);
      forwardParents := forwardParents[target := source];
      forwardLinks := forwardLinks + [Link(target, source)];
    }

    method VisitReverseBfsEdge(source: nat, target: nat)
      modifies this
      ensures reverseChildren == old(reverseChildren)[source := target]
      ensures reverseLinks == old(reverseLinks) + [Link(source, target)]
      ensures unchanged(`forwardParents, `forwardLinks, `intersectionNode, `intersections)
      ensures cache == WithPath(old(cache), source, toNode)
    {
      CachePath(source, toNode);
      reverseChildren := reverseChildren[source := target];
      reverseLinks := reverseLinks + [Link(source, target)];
    }

    method VisitIntersectionNode(node: nat)
      modifies this
      ensures intersectionNode == Some(node) && intersections == old(intersections) + [node]
      ensures unchanged(`cache, `forwardParents, `forwardLinks, `reverseChildren, `reverseLinks)
    {
      intersectionNode := Some(node);
      intersections := intersections + [node];
    }

    /** The path through the intersection node; both error branches are dead after a search. */
    method Path(g: Graph) returns (r: PathResult)
      requires Faithful(g)
      requires intersectionNode.Some? ==> Meets(this, intersectionNode.value)
      ensures intersectionNode.None? ==> r == Ok(None)
      ensures intersectionNode.Some? ==> r.Ok? && r.value.Some? && IsNodePath(g, fromNode, r.value.value, toNode)
      ensures intersectionNode.Some? ==> intersectionNode.value in r.value.value
    {
      match intersectionNode
      case None => return Ok(None);
      case Some(node) =>
        var current := node;
        var path := [current];
        ghost var rank := |forwardLinks|;
        assert forwardLinks[..rank] == forwardLinks && reverseLinks[..|reverseLinks|] == reverseLinks;
        while current != fromNode
          invariant 0 <= rank <= |forwardLinks| && current in Seen(fromNode, forwardLinks[..rank])
          invariant path != [] && path[0] == node && path[|path| - 1] == current
          invariant forall i :: 0 <= i < |path| - 1 ==> Arc(g, true, path[i + 1], path[i])
          decreases rank
        {
          rank := TreeParent(g, true, fromNode, forwardLinks, rank, current);
          if current !in forwardParents {
            return Err(PrecedingNodeNotFound(current));
          }
          path := path + [forwardParents[current]];
          current := forwardParents[current];
        }

        path := Reversed(path);
        current := node;
        rank := |reverseLinks|;
        while current != toNode
          invariant 0 <= rank <= |reverseLinks| && current in Seen(toNode, reverseLinks[..rank])
          invariant path != [] && path[0] == fromNode && path[|path| - 1] == current
          invariant node in path
          invariant forall i :: 0 <= i < |path| - 1 ==> Arc(g, true, path[i], path[i + 1])
          decreases rank
        {
          rank := TreeParent(g, false, toNode, reverseLinks, rank, current);
          if current !in reverseChildren {
            return Err(FollowingNodeNotFound(current));
          }
          ArcReversed(g, reverseChildren[current], current);
          path := path + [reverseChildren[current]];
          current := reverseChildren[current];
        }
        return Ok(Some(path));
    }
  }

  /** Consecutive nodes of path are joined by edges, and it leads from a to b. */
  ghost predicate IsNodePath(g: Graph, a: nat, path: seq<nat>, b: nat) {
    && path != [] && path[0] == a && path[|path| - 1] == b
    && forall i :: 0 <= i < |path| - 1 ==> Arc(g, true, path[i], path[i + 1])
  }

  /** n was visited in both directions. */
  ghost predicate Meets(f: PathFinder, n: nat)
    reads f
  {
    n in Seen(f.fromNode, f.forwardLinks) && n in Seen(f.toNode, f.reverseLinks)
  }

  lemma ArcReversed(g: Graph, a: nat, b: nat)
    requires Arc(g, false, a, b)
    ensures Arc(g, true, b, a)
  {
    var k :| Edge(b, a, k) in g.edges;
  }

  function Reversed(s: seq<nat>): (r: seq<nat>)
    ensures |r| == |s| && forall i :: 0 <= i < |s| ==> r[i] == s[|s| - 1 - i]
    ensures forall x :: x in s ==> x in r
  {
    var r := seq(|s|, i requires 0 <= i < |s| => s[|s| - 1 - i]);
    assert forall i :: 0 <= i < |s| ==> s[i] == r[|s| - 1 - i];
    r
  }

  lemma {:induction false} NodePathReaches(g: Graph, a: nat, path: seq<nat>, b: nat)
    requires IsNodePath(g, a, path, b)
    ensures Reaches(g, a, b)
    decreases |path|
  {
    ReachesSelf(g, a);
    if |path| > 1 {
      assert Arc(g, true, path[0], path[1]);
      LeadsStep(g, true, a, a, path[1]);
      var rest := path[1..];
      forall i | 0 <= i < |rest| - 1
        ensures Arc(g, true, rest[i], rest[i + 1])
      {
        assert Arc(g, true, path[i + 1], path[(i + 1) + 1]);
      }
      NodePathReaches(g, path[1], rest, b);
      ReachesTransitive(g, a, path[1], b);
    }
  }

  /** The nodes whose neighbours have been recorded. */
  ghost function Expanders(links: seq<Link>): set<nat> {
    set link | link in links :: link.parent
  }

  /** No node's neighbours have been visited in both directions. */
  ghost predicate NoneTwice(forwardLinks: seq<Link>, reverseLinks: seq<Link>) {
    Expanders(forwardLinks) !! Expanders(reverseLinks)
  }

  ghost predicate Apart(forwardLinks: seq<Link>, reverseLinks: seq<Link>, forwardVisited: set<nat>,
                        reverseVisited: set<nat>) {
    && Expanders(forwardLinks) <= forwardVisited && Expanders(reverseLinks) <= reverseVisited
    && NoneTwice(forwardLinks, reverseLinks)
  }

  lemma ApartForward(links: seq<Link>, links': seq<Link>, others: seq<Link>, visited: set<nat>, visited': set<nat>,
                     otherVisited: set<nat>, current: nat)
    requires Apart(links, others, visited, otherVisited) && Expanders(links') <= Expanders(links) + {current}
    requires visited <= visited' && current in visited' && current !in otherVisited
    ensures Apart(links', others, visited', otherVisited)
  {
  }

  lemma ApartReverse(links: seq<Link>, links': seq<Link>, others: seq<Link>, visited: set<nat>, visited': set<nat>,
                     otherVisited: set<nat>, current: nat)
    requires Apart(others, links, otherVisited, visited) && Expanders(links') <= Expanders(links) + {current}
    requires visited <= visited' && current in visited' && current !in otherVisited
    ensures Apart(others, links', otherVisited, visited')
  {
  }

  lemma ExpandersAppend(links: seq<Link>, link: Link)
    ensures Expanders(links + [link]) == Expanders(links) + {link.parent}
  {
    assert link in links + [link];
    assert forall l :: l in links + [link] <==> l in links || l == link;
  }

  /** Visits the neighbours of a node just popped from the forward queue. */
  method ExpandForward(g: Graph, current: nat, visited: set<nat>, queue: seq<nat>, visitor: PathFinder)
    returns (visited': set<nat>, queue': seq<nat>)
    requires visitor.Faithful(g) && CacheSound(g, visitor.cache)
    requires Expanding(g, true, visitor.fromNode, visited, queue, visitor.forwardLinks, current)
    modifies visitor
    ensures visitor.Faithful(g) && CacheSound(g, visitor.cache)
    ensures Expanding(g, true, visitor.fromNode, visited', queue', visitor.forwardLinks, current)
    ensures Expanded(g, true, visited', queue') && Grown(visited, queue, visited', queue')
    ensures visitor.reverseLinks == old(visitor.reverseLinks) && visitor.intersections == old(visitor.intersections)
    ensures Expanders(visitor.forwardLinks) <= Expanders(old(visitor.forwardLinks)) + {current}
  {
    visited', queue' := visited, queue;
    var neighbours := Neighbours(g, true, current);
    for i := 0 to |neighbours|
      invariant visitor.Faithful(g) && CacheSound(g, visitor.cache)
      invariant Partway(g, true, visitor.fromNode, visited, queue, visited', queue', visitor.forwardLinks, current, i)
      invariant visitor.reverseLinks == old(visitor.reverseLinks) && visitor.intersections == old(visitor.intersections)
      invariant Expanders(visitor.forwardLinks) <= Expanders(old(visitor.forwardLinks)) + {current}
    {
      var adjacent := neighbours[i];
      if adjacent !in visited' {
        Discover(g, true, visitor.fromNode, visited, queue, visited', queue', visitor.forwardLinks, current, i,
                 adjacent);
        WithPathSound(g, visitor.cache, visitor.fromNode, adjacent);
        ExpandersAppend(visitor.forwardLinks, Link(adjacent, current));
        visitor.VisitForwardBfsEdge(current, adjacent);
        visited' := visited' + {adjacent};
        queue' := queue' + [adjacent];
      }
    }
    ExpansionDone(g, true, visitor.fromNode, visited, queue, visited', queue', visitor.forwardLinks, current);
  }

  /** Visits the neighbours of a node just popped from the reverse queue. */
  method ExpandReverse(g: Graph, current: nat, visited: set<nat>, queue: seq<nat>, visitor: PathFinder)
    returns (visited': set<nat>, queue': seq<nat>)
    requires visitor.Faithful(g) && CacheSound(g, visitor.cache)
    requires Expanding(g, false, visitor.toNode, visited, queue, visitor.reverseLinks, current)
    modifies visitor
    ensures visitor.Faithful(g) && CacheSound(g, visitor.cache)
    ensures Expanding(g, false, visitor.toNode, visited', queue', visitor.reverseLinks, current)
    ensures Expanded(g, false, visited', queue') && Grown(visited, queue, visited', queue')
    ensures visitor.forwardLinks == old(visitor.forwardLinks) && visitor.intersections == old(visitor.intersections)
    ensures Expanders(visitor.reverseLinks) <= Expanders(old(visitor.reverseLinks)) + {current}
  {
    visited', queue' := visited, queue;
    var neighbours := Neighbours(g, false, current);
    for i := 0 to |neighbours|
      invariant visitor.Faithful(g) && CacheSound(g, visitor.cache)
      invariant Partway(g, false, visitor.toNode, visited, queue, visited', queue', visitor.reverseLinks, current, i)
      invariant visitor.forwardLinks == old(visitor.forwardLinks) && visitor.intersections == old(visitor.intersections)
      invariant Expanders(visitor.reverseLinks) <= Expanders(old(visitor.reverseLinks)) + {current}
    {
      var adjacent := neighbours[i];
      if adjacent !in visited' {
        Discover(g, false, visitor.toNode, visited, queue, visited', queue', visitor.reverseLinks, current, i,
                 adjacent);
        WithPathSound(g, visitor.cache, adjacent, visitor.toNode);
        ExpandersAppend(visitor.reverseLinks, Link(adjacent, current));
        visitor.VisitReverseBfsEdge(adjacent, current);
        visited' := visited' + {adjacent};
        queue' := queue' + [adjacent];
      }
    }
    ExpansionDone(g, false, visitor.toNode, visited, queue, visited', queue', visitor.reverseLinks, current);
  }

  /** One direction between two turns of the search: every node taken from the queue has been expanded, and
      none of them was the root of the other direction. */
  ghost predicate Side(g: Graph, forward: bool, root: nat, other: nat, visited: set<nat>, queue: seq<nat>,
                       links: seq<Link>) {
    && Frontier(g, forward, root, visited, queue, links)
    && Expanded(g, forward, visited, queue)
    && (other in visited ==> other in queue)
  }

  lemma SideStarts(g: Graph, forward: bool, root: nat, other: nat)
    ensures Side(g, forward, root, other, {root}, [root], [])
  {
  }

  lemma SideTaken(g: Graph, forward: bool, root: nat, other: nat, visited: set<nat>, queue: seq<nat>, links: seq<Link>)
    requires Side(g, forward, root, other, visited, queue, links) && queue != []
    ensures Expanding(g, forward, root, visited, queue[1..], links, queue[0])
    ensures Leads(g, forward, root, queue[0])
    ensures other in visited && queue[0] != other ==> other in queue[1..]
  {
    PopFront(g, forward, root, visited, queue, links);
    assert queue == [queue[0]] + queue[1..];
  }

  lemma SideExpanded(g: Graph, forward: bool, root: nat, other: nat, visited: set<nat>, queue: seq<nat>,
                     visited': set<nat>, queue': seq<nat>, links: seq<Link>, current: nat)
    requires other in visited ==> other in queue
    requires Expanding(g, forward, root, visited', queue', links, current) && Expanded(g, forward, visited', queue')
    requires Grown(visited, queue, visited', queue')
    ensures Side(g, forward, root, other, visited', queue', links)
  {
  }

  lemma SideExhausted(g: Graph, forward: bool, root: nat, other: nat, visited: set<nat>, links: seq<Link>)
    requires Side(g, forward, root, other, visited, [], links)
    ensures !Leads(g, forward, root, other)
  {
    Exhausted(g, forward, root, other, visited);
  }

  /** The finished nodes have been visited and are no longer queued. */
  ghost predicate Finished(finished: set<nat>, visited: set<nat>, queue: seq<nat>) {
    finished <= visited && forall n <- queue :: n !in finished
  }

  lemma FinishedGrows(finished: set<nat>, visited: set<nat>, queue: seq<nat>, visited': set<nat>, queue': seq<nat>)
    requires queue != [] && queue[0] in visited && queue[0] !in queue[1..] && Finished(finished, visited, queue)
    requires Grown(visited, queue[1..], visited', queue') && forall n <- queue' :: n in visited'
    ensures queue[0] !in finished && queue[0] in visited' && Finished(finished + {queue[0]}, visited', queue')
  {
    assert queue == [queue[0]] + queue[1..];
    forall n | n in queue'
      ensures n !in finished + {queue[0]}
    {
      assert n in queue[1..] || n !in visited;
    }
  }

  method BidirectionalBfs(g: Graph, fromIndex: nat, toIndex: nat, visitor: PathFinder) returns (found: bool)
    requires g.Valid() && fromIndex < |g.names| && toIndex < |g.names|
    requires visitor.Unused() && visitor.fromNode == fromIndex && visitor.toNode == toIndex
    requires CacheSound(g, visitor.cache)
    modifies visitor
    ensures found <==> Reaches(g, fromIndex, toIndex)
    ensures visitor.Faithful(g) && CacheSound(g, visitor.cache)
    ensures if found then |visitor.intersections| == 1 && Meets(visitor, visitor.intersections[0])
            else visitor.intersections == []
    ensures NoneTwice(visitor.forwardLinks, visitor.reverseLinks)
  {
    var forwardQueue, reverseQueue := [fromIndex], [toIndex];
    var forwardVisited, reverseVisited := {fromIndex}, {toIndex};
    ReachesSelf(g, fromIndex);
    SideStarts(g, true, fromIndex, toIndex);
    SideStarts(g, false, toIndex, fromIndex);

    ghost var finished: set<nat> := {};
    // When one queue is empty the node at the front of the other is not examined.
    while forwardQueue != [] && reverseQueue != []
      invariant visitor.Faithful(g) && CacheSound(g, visitor.cache) && visitor.intersections == []
      invariant Side(g, true, fromIndex, toIndex, forwardVisited, forwardQueue, visitor.forwardLinks)
      invariant Side(g, false, toIndex, fromIndex, reverseVisited, reverseQueue, visitor.reverseLinks)
      invariant Finished(finished, forwardVisited, forwardQueue)
      invariant Apart(visitor.forwardLinks, visitor.reverseLinks, forwardVisited, reverseVisited)
      decreases Range(|g.names|) - finished
    {
      SideTaken(g, true, fromIndex, toIndex, forwardVisited, forwardQueue, visitor.forwardLinks);
      SideTaken(g, false, toIndex, fromIndex, reverseVisited, reverseQueue, visitor.reverseLinks);
      ghost var queueBefore, visitedBefore, reverseBefore := forwardQueue, forwardVisited, reverseVisited;
      var forwardCurrent, reverseCurrent := forwardQueue[0], reverseQueue[0];
      forwardQueue, reverseQueue := forwardQueue[1..], reverseQueue[1..];

      if forwardCurrent == toIndex || forwardCurrent in reverseVisited {
        MeetingReaches(g, fromIndex, toIndex, visitor.forwardLinks, visitor.reverseLinks, forwardCurrent);
        visitor.VisitIntersectionNode(forwardCurrent);
        return true;
      }

      ghost var linksBefore := visitor.forwardLinks;
      forwardVisited, forwardQueue := ExpandForward(g, forwardCurrent, forwardVisited, forwardQueue, visitor);
      ApartForward(linksBefore, visitor.forwardLinks, visitor.reverseLinks, visitedBefore, forwardVisited,
                   reverseVisited, forwardCurrent);
      SideExpanded(g, true, fromIndex, toIndex, visitedBefore, queueBefore[1..], forwardVisited, forwardQueue,
                   visitor.forwardLinks, forwardCurrent);

      if reverseCurrent == fromIndex || reverseCurrent in forwardVisited {
        MeetingReaches(g, fromIndex, toIndex, visitor.forwardLinks, visitor.reverseLinks, reverseCurrent);
        visitor.VisitIntersectionNode(reverseCurrent);
        return true;
      }

      ghost var reverseQueueBefore, reverseLinksBefore := reverseQueue, visitor.reverseLinks;
      reverseVisited, reverseQueue := ExpandReverse(g, reverseCurrent, reverseVisited, reverseQueue, visitor);
      ApartReverse(reverseLinksBefore, visitor.reverseLinks, visitor.forwardLinks, reverseBefore, reverseVisited,
                   forwardVisited, reverseCurrent);
      SideExpanded(g, false, toIndex, fromIndex, reverseBefore, reverseQueueBefore, reverseVisited, reverseQueue,
                   visitor.reverseLinks, reverseCurrent);
      TreeInRange(g, true, fromIndex, visitor.forwardLinks);
      FinishedGrows(finished, visitedBefore, queueBefore, forwardVisited, forwardQueue);
      finished := finished + {forwardCurrent};
    }

    if forwardQueue == [] {
      SideExhausted(g, true, fromIndex, toIndex, forwardVisited, visitor.forwardLinks);
    } else {
      SideExhausted(g, false, toIndex, fromIndex, reverseVisited, visitor.reverseLinks);
    }
    return false;
  }

  /** The search and the path reconstruction of PluginsGraph::find_path. */
  method FindPath(g: Graph, fromIndex: nat, toIndex: nat, cache: map<nat, set<nat>>)
    returns (r: PathResult, cache': map<nat, set<nat>>)
    requires g.Valid() && fromIndex < |g.names| && toIndex < |g.names| && CacheSound(g, cache)
    ensures r.Ok? && CacheSound(g, cache')
    ensures r.value.Some? <==> Reaches(g, fromIndex, toIndex)
    ensures r.value.Some? ==> IsNodePath(g, fromIndex, r.value.value, toIndex)
  {
    var pathFinder := new PathFinder(cache, fromIndex, toIndex);
    var found := BidirectionalBfs(g, fromIndex, toIndex, pathFinder);
    if found {
      r := pathFinder.Path(g);
    } else {
      r := Ok(None);
    }
    cache' := pathFinder.cache;
  }
}
