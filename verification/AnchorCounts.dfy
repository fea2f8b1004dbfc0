/** How a common section, which is written before the rest of a document, changes how often values are written. */
module AnchorCounts {
  import Sequences
  import opened MetadataYaml
  import opened AnchoredYaml
  import opened SharedValues
  import opened CommonValues
  import opened AnchorNames

  ghost predicate AreNodes(nodes: seq<Shareable>, scalars: bool) {
    Distinct(nodes) && forall id <- nodes :: Depth(id) == 1 && Counted(id, scalars)
  }

  /** How often id is inside those nodes that log does not have. */
  ghost function Pending(nodes: seq<Shareable>, log: seq<Shareable>, id: Shareable): nat
    decreases |nodes|
  {
    if nodes == [] then 0
    else (if nodes[0] in log then 0 else Occurrences(Parts(nodes[0]), id)) + Pending(nodes[1..], log, id)
  }

  ghost predicate HasNodes(log: seq<Shareable>, log': seq<Shareable>, nodes: seq<Shareable>) {
    forall v :: Depth(v) == 1 ==> (v in log' <==> v in log || v in nodes)
  }

  /** log' is log after a section with the given nodes: it has the nodes, and what is inside them has been
      logged, so that it is not logged again where log still has to. */
  ghost predicate Ahead(log: seq<Shareable>, log': seq<Shareable>, nodes: seq<Shareable>, extra: nat, id: Shareable) {
    HasNodes(log, log', nodes) && Occurrences(log', id) == Occurrences(log, id) + extra + Pending(nodes, log, id)
  }

  lemma {:induction false} PendingSame(nodes: seq<Shareable>, log: seq<Shareable>, log': seq<Shareable>, id: Shareable)
    requires forall v <- nodes :: v in log <==> v in log'
    ensures Pending(nodes, log, id) == Pending(nodes, log', id)
    decreases |nodes|
  {
    if nodes != [] {
      assert nodes[0] in nodes;
      PendingSame(nodes[1..], log, log', id);
    }
  }

  lemma {:induction false} PendingNone(nodes: seq<Shareable>, log: seq<Shareable>, id: Shareable)
    requires forall v <- nodes :: v in log
    ensures Pending(nodes, log, id) == 0
    decreases |nodes|
  {
    if nodes != [] {
      assert nodes[0] in nodes;
      PendingNone(nodes[1..], log, id);
    }
  }

  /** Meeting a pending node leaves less pending. */
  lemma {:induction false} PendingMet(nodes: seq<Shareable>, log: seq<Shareable>, log': seq<Shareable>, u: Shareable,
                                      id: Shareable)
    requires Distinct(nodes) && u in nodes && u !in log
    requires forall v <- nodes :: v in log' <==> v in log || v == u
    ensures Pending(nodes, log, id) == Pending(nodes, log', id) + Occurrences(Parts(u), id)
    decreases |nodes|
  {
    var rest := nodes[1..];
    assert nodes == [nodes[0]] + rest;
    if nodes[0] == u {
      assert u !in rest;
      PendingSame(rest, log, log', id);
    } else {
      assert nodes[0] in nodes;
      PendingMet(rest, log, log', u, id);
    }
  }

  lemma LeavesKeepNodes(log: seq<Shareable>, leaves: seq<Shareable>)
    requires AreLeaves(leaves)
    ensures forall v :: Depth(v) == 1 ==> (v in log + leaves <==> v in log)
  {
  }

  lemma LogIdMeets(u: Shareable, scalars: bool, log: seq<Shareable>)
    ensures forall v :: Depth(v) == 1 ==>
              (v in LogId(u, scalars, log) <==> v in log || (v == u && Counted(u, scalars)))
  {
    PartsAreLeaves(u);
    LeavesKeepNodes(log, Parts(u));
    LeavesKeepNodes(log + [u], Parts(u));
  }

  lemma LogIdCounts(u: Shareable, scalars: bool, log: seq<Shareable>, id: Shareable)
    ensures Occurrences(LogId(u, scalars, log), id)
         == Occurrences(log, id) + (if Counted(u, scalars) && u == id then 1 else 0)
            + (if Counted(u, scalars) && u in log then 0 else Occurrences(Parts(u), id))
  {
    OccurrencesConcat(log, Parts(u), id);
    OccurrencesConcat(log, [u], id);
    OccurrencesConcat(log + [u], Parts(u), id);
  }

  lemma AheadStep(u: Shareable, scalars: bool, log: seq<Shareable>, log': seq<Shareable>, nodes: seq<Shareable>,
                  extra: nat, id: Shareable)
    requires AreNodes(nodes, scalars) && Ahead(log, log', nodes, extra, id)
    ensures Ahead(LogId(u, scalars, log), LogId(u, scalars, log'), nodes, extra, id)
  {
    LogIdMeets(u, scalars, log);
    LogIdMeets(u, scalars, log');
    LogIdCounts(u, scalars, log, id);
    LogIdCounts(u, scalars, log', id);
    if u in nodes && u !in log {
      PendingMet(nodes, log, LogId(u, scalars, log), u, id);
    } else {
      PendingSame(nodes, log, LogId(u, scalars, log), id);
      if Depth(u) == 0 {
        assert Parts(u) == [];
      }
    }
  }

  lemma {:induction false} AheadAll(ids: seq<Shareable>, scalars: bool, log: seq<Shareable>, log': seq<Shareable>,
                                    nodes: seq<Shareable>, extra: nat, id: Shareable)
    requires AreNodes(nodes, scalars) && Ahead(log, log', nodes, extra, id)
    ensures Ahead(LogIds(ids, scalars, log), LogIds(ids, scalars, log'), nodes, extra, id)
    decreases |ids|
  {
    if ids != [] {
      AheadStep(ids[0], scalars, log, log', nodes, extra, id);
      AheadAll(ids[1..], scalars, LogId(ids[0], scalars, log), LogId(ids[0], scalars, log'), nodes, extra, id);
    }
  }

  lemma NodesFirst(nodes: seq<Shareable>, scalars: bool, log: seq<Shareable>)
    requires nodes != [] && AreNodes(nodes, scalars) && forall v <- nodes :: v !in log
    ensures nodes == [nodes[0]] + nodes[1..] && AreNodes(nodes[1..], scalars)
    ensures Depth(nodes[0]) == 1 && Counted(nodes[0], scalars) && nodes[0] !in log
    ensures forall v <- nodes[1..] :: v !in LogId(nodes[0], scalars, log)
  {
    var u, rest := nodes[0], nodes[1..];
    assert nodes == [u] + rest && u in nodes;
    LogIdMeets(u, scalars, log);
    assert forall v <- rest :: v in nodes && v != u && Depth(v) == 1;
  }

  /** New nodes are logged with everything inside them. */
  lemma {:induction false} NodesLog(nodes: seq<Shareable>, scalars: bool, log: seq<Shareable>, id: Shareable)
    requires AreNodes(nodes, scalars) && forall v <- nodes :: v !in log
    ensures HasNodes(log, LogIds(nodes, scalars, log), nodes)
    ensures Occurrences(LogIds(nodes, scalars, log), id)
         == Occurrences(log, id) + Occurrences(nodes, id) + Pending(nodes, [], id)
    decreases |nodes|
  {
    if nodes != [] {
      var u, rest := nodes[0], nodes[1..];
      NodesFirst(nodes, scalars, log);
      LogIdMeets(u, scalars, log);
      LogIdCounts(u, scalars, log, id);
      NodesLog(rest, scalars, LogId(u, scalars, log), id);
      OccurrencesConcat([u], rest, id);
    }
  }

  lemma {:induction false} LogIdsExtends(ids: seq<Shareable>, scalars: bool, log: seq<Shareable>)
    ensures log <= LogIds(ids, scalars, log)
    decreases |ids|
  {
    if ids != [] {
      LogIdsExtends(ids[1..], scalars, LogId(ids[0], scalars, log));
    }
  }

  lemma SectionLog(leaves: seq<Shareable>, nodes: seq<Shareable>, ids: seq<Shareable>, scalars: bool)
    requires AreLeaves(leaves)
    ensures LogIds(leaves + nodes + ids, scalars, []) == LogIds(ids, scalars, LogIds(nodes, scalars, leaves))
  {
    LogIdsConcat(leaves + nodes, ids, scalars, []);
    LogIdsConcat(leaves, nodes, scalars, []);
    LeavesLog(leaves, scalars, []);
    assert [] + leaves == leaves;
  }

  /** After a section with values that are met again anyway, every value is logged as often as without the
      section, and once more if it is in the section. */
  lemma CountedOnceMore(leaves: seq<Shareable>, nodes: seq<Shareable>, ids: seq<Shareable>, scalars: bool,
                        id: Shareable)
    requires AreLeaves(leaves) && AreNodes(nodes, scalars)
    requires forall v <- nodes :: v in LogIds(ids, scalars, [])
    ensures Occurrences(LogIds(leaves + nodes + ids, scalars, []), id)
         == Occurrences(LogIds(ids, scalars, []), id) + Occurrences(leaves + nodes, id)
  {
    SectionLog(leaves, nodes, ids, scalars);
    assert forall v <- nodes :: v !in leaves;
    NodesLog(nodes, scalars, leaves, id);
    OccurrencesConcat(leaves, nodes, id);
    var section := LogIds(nodes, scalars, leaves);
    assert HasNodes([], section, nodes) by {
      LeavesKeepNodes([], leaves);
    }
    AheadAll(ids, scalars, [], section, nodes, Occurrences(leaves + nodes, id), id);
    PendingNone(nodes, LogIds(ids, scalars, []), id);
  }

  // ---------- the order of the values in a common section ----------

  function Leaves(c: Common): seq<Shareable> {
    CommonIds(c, Contents) + CommonIds(c, Conditions)
  }

  function Nodes(c: Common): seq<Shareable> {
    CommonIds(c, Messages) + CommonIds(c, Files)
  }

  lemma SelectOne(ids: seq<Shareable>, ids': seq<Shareable>, kind: Kind, kind': Kind)
    requires kind != kind'
    requires forall id <- ids :: KindOf(id) == kind
    requires forall id <- ids' :: KindOf(id) == kind'
    ensures Select(ids + ids', kind) == ids && Select(ids + ids', kind') == ids'
  {
    SelectConcat(ids, ids', kind);
    SelectConcat(ids, ids', kind');
    SelectAll(ids, kind);
    SelectNone(ids', kind);
    SelectNone(ids, kind');
    SelectAll(ids', kind');
  }

  lemma SelectCommon(c: Common, kind: Kind)
    ensures Select(Leaves(c), kind) == if kind.Contents? || kind.Conditions? then CommonIds(c, kind) else []
    ensures Select(Nodes(c), kind) == if kind.Contents? || kind.Conditions? then [] else CommonIds(c, kind)
  {
    CommonIdsKind(c, Contents);
    CommonIdsKind(c, Conditions);
    CommonIdsKind(c, Messages);
    CommonIdsKind(c, Files);
    if kind.Contents? || kind.Conditions? {
      SelectOne(CommonIds(c, Contents), CommonIds(c, Conditions), Contents, Conditions);
      SelectNone(Nodes(c), kind);
    } else {
      SelectOne(CommonIds(c, Messages), CommonIds(c, Files), Messages, Files);
      SelectNone(Leaves(c), kind);
    }
  }

  lemma SelectNode(u: Shareable, scalars: bool, log: seq<Shareable>, kind: Kind)
    requires Depth(u) == 1 && Counted(u, scalars) && u !in log && (kind.Messages? || kind.Files?)
    ensures Select(LogId(u, scalars, log), kind) == Select(log, kind) + Select([u], kind)
  {
    PartsAreLeaves(u);
    SelectNone(Parts(u), kind);
    SelectConcat(log + [u], Parts(u), kind);
    SelectConcat(log, [u], kind);
  }

  lemma {:induction false} SelectNodes(nodes: seq<Shareable>, scalars: bool, log: seq<Shareable>, kind: Kind)
    requires AreNodes(nodes, scalars) && (forall v <- nodes :: v !in log) && (kind.Messages? || kind.Files?)
    ensures Select(LogIds(nodes, scalars, log), kind) == Select(log, kind) + Select(nodes, kind)
    decreases |nodes|
  {
    if nodes == [] {
      assert Select(log, kind) + [] == Select(log, kind);
    } else {
      var u, rest := nodes[0], nodes[1..];
      NodesFirst(nodes, scalars, log);
      SelectNodes(rest, scalars, LogId(u, scalars, log), kind);
      SelectNode(u, scalars, log, kind);
      SelectConcat([u], rest, kind);
      Sequences.Regroup(Select(log, kind), Select([u], kind), Select(rest, kind));
    }
  }

  lemma SelectPrefix(log: seq<Shareable>, log': seq<Shareable>, kind: Kind)
    requires log <= log'
    ensures Select(log, kind) <= Select(log', kind)
  {
    SelectConcat(log, log'[|log|..], kind);
    assert log' == log + log'[|log|..];
  }

  lemma FirstInSection(c: Common, scalars: bool, kind: Kind)
    requires AreNodes(Nodes(c), scalars)
    ensures CommonIds(c, kind) <= Select(LogIds(Nodes(c), scalars, Leaves(c)), kind)
  {
    SelectCommon(c, kind);
    if kind.Messages? || kind.Files? {
      CommonIdsKind(c, Contents);
      CommonIdsKind(c, Conditions);
      assert forall v <- Nodes(c) :: v !in Leaves(c);
      SelectNodes(Nodes(c), scalars, Leaves(c), kind);
      assert Select(Leaves(c), kind) + Select(Nodes(c), kind) == CommonIds(c, kind);
    } else {
      LogIdsExtends(Nodes(c), scalars, Leaves(c));
      SelectPrefix(Leaves(c), LogIds(Nodes(c), scalars, Leaves(c)), kind);
    }
  }

  /** Each kind's common values come first among the values of that kind, in their order. */
  lemma SectionComesFirst(c: Common, ids: seq<Shareable>, scalars: bool, kind: Kind)
    requires AreNodes(Nodes(c), scalars)
    ensures CommonIds(c, kind) <= Select(LogIds(Leaves(c) + Nodes(c) + ids, scalars, []), kind)
  {
    CommonLeaves(c);
    SectionLog(Leaves(c), Nodes(c), ids, scalars);
    FirstInSection(c, scalars, kind);
    var section := LogIds(Nodes(c), scalars, Leaves(c));
    LogIdsExtends(ids, scalars, section);
    SelectPrefix(section, LogIds(ids, scalars, section), kind);
  }

  lemma CommonLeaves(c: Common)
    ensures AreLeaves(Leaves(c))
  {
    CommonIdsKind(c, Contents);
    CommonIdsKind(c, Conditions);
  }
}
