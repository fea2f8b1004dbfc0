/** How YamlEmitter (src/metadata/yaml/emit.rs) writes a tree with anchors and aliases, how a YAML reader
    expands them again, and what both preserve. */
module AnchoredYaml {
  import opened Metadata
  import opened MetadataYaml
  import Sequences

  type Anchors = map<Shareable, string>

  // ---------- writing ----------

  /** The written tree and the anchors written so far. A value with an anchor is written in full, with
      its anchor, the first time and as an alias from then on. */
  function Emit(y: Yaml, anchors: Anchors, written: set<string>): (Yaml, set<string>)
    decreases y
  {
    match y
    case Pair(key, value) =>
      var (v, w) := Emit(value, anchors, written);
      (Pair(key, v), w)
    case Mapping(pairs) =>
      var (ps, w) := EmitAll(pairs, anchors, written);
      (Mapping(ps), w)
    case Sequence(items) =>
      var (ts, w) := EmitAll(items, anchors, written);
      (Sequence(ts), w)
    case Shared(id, inner) =>
      if id !in anchors then
        var (t, w) := Emit(inner, anchors, written);
        (Shared(id, t), w)
      else if anchors[id] in written then (Alias(anchors[id]), written)
      else
        var (t, w) := Emit(inner, anchors, written + {anchors[id]});
        (Anchored(anchors[id], Shared(id, t)), w)
    case _ => (y, written)
  }

  function EmitAll(ys: seq<Yaml>, anchors: Anchors, written: set<string>): (seq<Yaml>, set<string>)
    decreases ys
  {
    if ys == [] then ([], written)
    else
      var (t, w) := Emit(ys[0], anchors, written);
      var (ts, w') := EmitAll(ys[1..], anchors, w);
      ([t] + ts, w')
  }

  // ---------- reading ----------

  datatype Expansion = Expanded(node: Yaml, env: map<string, Yaml>) | Invalid

  datatype ExpansionAll = ExpandedAll(nodes: seq<Yaml>, env: map<string, Yaml>) | InvalidAll

  /** Replaces aliases by the values of their anchors. It is invalid to use an alias before its anchor or
      to write an anchor twice. */
  ghost function Expand(y: Yaml, env: map<string, Yaml>): Expansion
    decreases y
  {
    match y
    case Pair(key, value) =>
      (match Expand(value, env)
       case Invalid => Invalid
       case Expanded(v, env') => Expanded(Pair(key, v), env'))
    case Mapping(pairs) =>
      (match ExpandAll(pairs, env)
       case InvalidAll => Invalid
       case ExpandedAll(ps, env') => Expanded(Mapping(ps), env'))
    case Sequence(items) =>
      (match ExpandAll(items, env)
       case InvalidAll => Invalid
       case ExpandedAll(ts, env') => Expanded(Sequence(ts), env'))
    case Shared(id, inner) =>
      (match Expand(inner, env)
       case Invalid => Invalid
       case Expanded(t, env') => Expanded(Shared(id, t), env'))
    case Anchored(n, node) =>
      (match Expand(node, env)
       case Invalid => Invalid
       case Expanded(t, env') => if n in env' then Invalid else Expanded(t, env'[n := t]))
    case Alias(n) => if n in env then Expanded(env[n], env) else Invalid
    case _ => Expanded(y, env)
  }

  ghost function ExpandAll(ys: seq<Yaml>, env: map<string, Yaml>): ExpansionAll
    decreases ys
  {
    if ys == [] then ExpandedAll([], env)
    else
      match Expand(ys[0], env)
      case Invalid => InvalidAll
      case Expanded(t, env1) =>
        match ExpandAll(ys[1..], env1)
        case InvalidAll => InvalidAll
        case ExpandedAll(ts, env2) => ExpandedAll([t] + ts, env2)
  }

  /** The tree with the case of file names folded. */
  ghost function Folded(y: Yaml): Yaml
    decreases y
  {
    match y
    case FileName(n) => FileName(Filename(n.key, n.key))
    case Pair(key, value) => Pair(key, Folded(value))
    case Mapping(pairs) => Mapping(FoldedAll(pairs))
    case Sequence(items) => Sequence(FoldedAll(items))
    case Shared(id, inner) => Shared(id, Folded(inner))
    case _ => y
  }

  ghost function FoldedAll(ys: seq<Yaml>): seq<Yaml>
    decreases ys
  {
    if ys == [] then [] else [Folded(ys[0])] + FoldedAll(ys[1..])
  }

  /** The tree without its marks, which have no syntax: what a reader sees. */
  ghost function Stripped(y: Yaml): Yaml
    decreases y
  {
    match y
    case Pair(key, value) => Pair(key, Stripped(value))
    case Mapping(pairs) => Mapping(StrippedAll(pairs))
    case Sequence(items) => Sequence(StrippedAll(items))
    case Shared(_, inner) => Stripped(inner)
    case _ => y
  }

  ghost function StrippedAll(ys: seq<Yaml>): seq<Yaml>
    decreases ys
  {
    if ys == [] then [] else [Stripped(ys[0])] + StrippedAll(ys[1..])
  }

  /** Trees with the same marks that differ at most in the case of file names are told apart by what a reader sees. */
  lemma {:induction false} FoldedAndStripped(y: Yaml, z: Yaml)
    requires Folded(y) == Folded(z) && Stripped(y) == Stripped(z)
    ensures y == z
    decreases y
  {
    match y
    case Pair(_, value) => FoldedAndStripped(value, z.value);
    case Mapping(pairs) => FoldedAndStrippedAll(pairs, z.pairs);
    case Sequence(items) => FoldedAndStrippedAll(items, z.items);
    case Shared(_, inner) => FoldedAndStripped(inner, z.inner);
    case _ =>
  }

  lemma {:induction false} FoldedAndStrippedAll(ys: seq<Yaml>, zs: seq<Yaml>)
    requires FoldedAll(ys) == FoldedAll(zs) && StrippedAll(ys) == StrippedAll(zs)
    ensures ys == zs
    decreases ys
  {
    if ys != [] && zs != [] {
      AllFirst(ys);
      AllFirst(zs);
      FoldedAndStripped(ys[0], zs[0]);
      FoldedAndStrippedAll(ys[1..], zs[1..]);
      assert ys == [ys[0]] + ys[1..] && zs == [zs[0]] + zs[1..];
    }
  }

  lemma AllFirst(ys: seq<Yaml>)
    requires ys != []
    ensures FoldedAll(ys)[0] == Folded(ys[0]) && FoldedAll(ys)[1..] == FoldedAll(ys[1..])
    ensures StrippedAll(ys)[0] == Stripped(ys[0]) && StrippedAll(ys)[1..] == StrippedAll(ys[1..])
  {
  }

  // ---------- trees that can be written with anchors ----------

  /** Trees are compared exactly or up to the case of file names, marks included. */
  ghost function Norm(y: Yaml, exact: bool): Yaml {
    if exact then y else Folded(y)
  }

  ghost function NormAll(ys: seq<Yaml>, exact: bool): seq<Yaml> {
    if exact then ys else FoldedAll(ys)
  }

  /** What the values that may be anchored stand for, in the chosen comparison. */
  datatype Meaning = Meaning(exact: bool, of: map<Shareable, Yaml>)

  /** Files and messages may hold contents and conditions, which hold nothing that is shared. */
  function Depth(id: Shareable): nat {
    match id
    case SharedFile(_) => 1
    case SharedMessage(_) => 1
    case _ => 0
  }

  /** The identities of the outermost marked values, in order. */
  ghost function RootIds(y: Yaml): seq<Shareable>
    decreases y
  {
    match y
    case Pair(_, value) => RootIds(value)
    case Mapping(pairs) => RootIdsAll(pairs)
    case Sequence(items) => RootIdsAll(items)
    case Shared(id, _) => [id]
    case _ => []
  }

  ghost function RootIdsAll(ys: seq<Yaml>): seq<Shareable>
    decreases ys
  {
    if ys == [] then [] else RootIds(ys[0]) + RootIdsAll(ys[1..])
  }

  /** Every marked value means and holds what its identity says, and shared values nest by decreasing depth. */
  ghost predicate Coherent(y: Yaml, bound: nat, m: Meaning)
    decreases y
  {
    match y
    case Pair(_, value) => Coherent(value, bound, m)
    case Mapping(pairs) => CoherentAll(pairs, bound, m)
    case Sequence(items) => CoherentAll(items, bound, m)
    case Shared(id, inner) =>
      && Depth(id) < bound && (id in m.of ==> Norm(inner, m.exact) == m.of[id])
      && RootIds(inner) == Parts(id) && Coherent(inner, Depth(id), m)
    case Anchored(_, _) => false
    case Alias(_) => false
    case _ => true
  }

  ghost predicate CoherentAll(ys: seq<Yaml>, bound: nat, m: Meaning)
    decreases ys
  {
    ys == [] || (Coherent(ys[0], bound, m) && CoherentAll(ys[1..], bound, m))
  }

  ghost predicate Injective(anchors: Anchors) {
    forall i, j :: i in anchors && j in anchors && anchors[i] == anchors[j] ==> i == j
  }

  /** Every anchor that has been read stands for the value it was given to. */
  ghost predicate Good(anchors: Anchors, env: map<string, Yaml>, m: Meaning) {
    forall id :: id in anchors && anchors[id] in env ==> MeantBy(env[anchors[id]], id, m)
  }

  ghost predicate MeantBy(node: Yaml, id: Shareable, m: Meaning) {
    node.Shared? && node.id == id && id in m.of && Norm(node.inner, m.exact) == m.of[id]
  }

  /** What the reader knows when the writer has written the given anchors; those in open are still being written. */
  ghost predicate InStep(anchors: Anchors, written: set<string>, env: map<string, Yaml>, open: set<string>,
                         bound: nat, m: Meaning) {
    && Good(anchors, env, m)
    && written == env.Keys + open && open !! env.Keys
    && (forall id :: id in anchors && anchors[id] in open ==> Depth(id) >= bound)
  }

  /** Reading t in env gives something that means y, and leaves env'. */
  ghost predicate ReadsAs(t: Yaml, env: map<string, Yaml>, y: Yaml, env': map<string, Yaml>, exact: bool) {
    var r := Expand(t, env);
    r.Expanded? && Norm(r.node, exact) == Norm(y, exact) && r.env == env'
  }

  ghost predicate ReadsAllAs(ts: seq<Yaml>, env: map<string, Yaml>, ys: seq<Yaml>, env': map<string, Yaml>,
                             exact: bool) {
    var r := ExpandAll(ts, env);
    r.ExpandedAll? && NormAll(r.nodes, exact) == NormAll(ys, exact) && r.env == env'
  }

  /** Anchors preserve meaning: reading back what was written gives what was to be written. */
  lemma {:induction false} EmitReads(y: Yaml, anchors: Anchors, m: Meaning, written: set<string>,
                                     env: map<string, Yaml>, open: set<string>, bound: nat)
    returns (env': map<string, Yaml>)
    requires Coherent(y, bound, m) && Injective(anchors) && anchors.Keys <= m.of.Keys
    requires InStep(anchors, written, env, open, bound, m)
    ensures var (t, w) := Emit(y, anchors, written);
            ReadsAs(t, env, y, env', m.exact) && InStep(anchors, w, env', open, bound, m)
    decreases y, 1
  {
    env' := env;
    match y
    case Pair(key, value) =>
      env' := EmitReads(value, anchors, m, written, env, open, bound);
      PairReads(key, Emit(value, anchors, written).0, env, value, env', m.exact);
    case Mapping(pairs) =>
      env' := EmitAllReads(pairs, anchors, m, written, env, open, bound);
      ListReads(EmitAll(pairs, anchors, written).0, env, pairs, env', m.exact);
    case Sequence(items) =>
      env' := EmitAllReads(items, anchors, m, written, env, open, bound);
      ListReads(EmitAll(items, anchors, written).0, env, items, env', m.exact);
    case Shared(_, _) =>
      env' := SharedReads(y, anchors, m, written, env, open, bound);
    case _ =>
  }

  lemma {:induction false} SharedReads(y: Yaml, anchors: Anchors, m: Meaning, written: set<string>,
                                       env: map<string, Yaml>, open: set<string>, bound: nat)
    returns (env': map<string, Yaml>)
    requires y.Shared? && Coherent(y, bound, m) && Injective(anchors) && anchors.Keys <= m.of.Keys
    requires InStep(anchors, written, env, open, bound, m)
    ensures var (t, w) := Emit(y, anchors, written);
            ReadsAs(t, env, y, env', m.exact) && InStep(anchors, w, env', open, bound, m)
    decreases y, 0
  {
    var Shared(id, inner) := y;
    if id !in anchors {
      InStepRebound(anchors, m, written, env, open, bound, Depth(id));
      env' := EmitReads(inner, anchors, m, written, env, open, Depth(id));
      var (t, w) := Emit(inner, anchors, written);
      InStepRebound(anchors, m, w, env', open, Depth(id), bound);
      MarkReads(id, t, env, inner, env', m.exact);
    } else if anchors[id] in written {
      env' := env;
      assert MeantBy(env[anchors[id]], id, m);
    } else {
      var n := anchors[id];
      AnchorOpened(anchors, m, written, env, open, bound, id);
      var env1 := EmitReads(inner, anchors, m, written + {n}, env, open + {n}, Depth(id));
      var (t, w) := Emit(inner, anchors, written + {n});
      MarkReads(id, t, env, inner, env1, m.exact);
      var node := Expand(Shared(id, t), env).node;
      AnchorClosed(anchors, m, w, env1, open, bound, id, node);
      env' := env1[n := node];
      AnchorReads(n, Shared(id, t), env, y, env1, m.exact);
    }
  }

  lemma PairReads(key: string, t: Yaml, env: map<string, Yaml>, value: Yaml, env': map<string, Yaml>, exact: bool)
    requires ReadsAs(t, env, value, env', exact)
    ensures ReadsAs(Pair(key, t), env, Pair(key, value), env', exact)
  {
  }

  lemma ListReads(ts: seq<Yaml>, env: map<string, Yaml>, ys: seq<Yaml>, env': map<string, Yaml>, exact: bool)
    requires ReadsAllAs(ts, env, ys, env', exact)
    ensures ReadsAs(Mapping(ts), env, Mapping(ys), env', exact)
    ensures ReadsAs(Sequence(ts), env, Sequence(ys), env', exact)
  {
  }

  lemma MarkReads(id: Shareable, t: Yaml, env: map<string, Yaml>, inner: Yaml, env': map<string, Yaml>, exact: bool)
    requires ReadsAs(t, env, inner, env', exact)
    ensures ReadsAs(Shared(id, t), env, Shared(id, inner), env', exact)
    ensures Expand(Shared(id, t), env).node == Shared(id, Expand(t, env).node)
  {
  }

  lemma AnchorReads(n: string, t: Yaml, env: map<string, Yaml>, y: Yaml, env1: map<string, Yaml>, exact: bool)
    requires ReadsAs(t, env, y, env1, exact) && n !in env1
    ensures ReadsAs(Anchored(n, t), env, y, env1[n := Expand(t, env).node], exact)
  {
  }

  lemma InStepRebound(anchors: Anchors, m: Meaning, written: set<string>, env: map<string, Yaml>, open: set<string>,
                      bound: nat, bound': nat)
    requires InStep(anchors, written, env, open, bound, m)
    requires forall id :: id in anchors && anchors[id] in open ==> Depth(id) >= bound'
    ensures InStep(anchors, written, env, open, bound', m)
  {
  }

  lemma AnchorOpened(anchors: Anchors, m: Meaning, written: set<string>, env: map<string, Yaml>, open: set<string>,
                     bound: nat, id: Shareable)
    requires InStep(anchors, written, env, open, bound, m) && Injective(anchors)
    requires id in anchors && anchors[id] !in written && Depth(id) < bound
    ensures InStep(anchors, written + {anchors[id]}, env, open + {anchors[id]}, Depth(id), m)
  {
  }

  lemma AnchorClosed(anchors: Anchors, m: Meaning, written: set<string>, env: map<string, Yaml>, open: set<string>,
                     bound: nat, id: Shareable, node: Yaml)
    requires id in anchors && Injective(anchors) && anchors[id] !in open
    requires InStep(anchors, written, env, open + {anchors[id]}, Depth(id), m)
    requires forall i :: i in anchors && anchors[i] in open ==> Depth(i) >= bound
    requires MeantBy(node, id, m)
    ensures anchors[id] !in env && InStep(anchors, written, env[anchors[id] := node], open, bound, m)
  {
    assert written == env[anchors[id] := node].Keys + open;
  }

  lemma {:induction false} EmitAllReads(ys: seq<Yaml>, anchors: Anchors, m: Meaning, written: set<string>,
                                        env: map<string, Yaml>, open: set<string>, bound: nat)
    returns (env': map<string, Yaml>)
    requires CoherentAll(ys, bound, m) && Injective(anchors) && anchors.Keys <= m.of.Keys
    requires InStep(anchors, written, env, open, bound, m)
    ensures var (ts, w) := EmitAll(ys, anchors, written);
            ReadsAllAs(ts, env, ys, env', m.exact) && InStep(anchors, w, env', open, bound, m)
    decreases ys
  {
    env' := env;
    if ys != [] {
      var (t, w) := Emit(ys[0], anchors, written);
      var env1 := EmitReads(ys[0], anchors, m, written, env, open, bound);
      env' := EmitAllReads(ys[1..], anchors, m, w, env1, open, bound);
      ReadsAllStep(ys, t, EmitAll(ys[1..], anchors, w).0, env, env1, env', m.exact);
    }
  }

  lemma ReadsAllStep(ys: seq<Yaml>, t: Yaml, ts: seq<Yaml>, env: map<string, Yaml>, env1: map<string, Yaml>,
                     env': map<string, Yaml>, exact: bool)
    requires ys != [] && ReadsAs(t, env, ys[0], env1, exact) && ReadsAllAs(ts, env1, ys[1..], env', exact)
    ensures ReadsAllAs([t] + ts, env, ys, env', exact)
  {
    assert ([t] + ts)[1..] == ts;
    var r, rs := Expand(t, env).node, ExpandAll(ts, env1).nodes;
    assert ([r] + rs)[1..] == rs;
    assert ys == [ys[0]] + ys[1..];
  }

  // ---------- what aliases do to values that are equal but not the same ----------

  /** Every outermost marked value with an anchor is the very value that the reader has for its anchor. */
  ghost predicate Uniform(y: Yaml, anchors: Anchors, env: map<string, Yaml>)
    decreases y
  {
    match y
    case Pair(_, value) => Uniform(value, anchors, env)
    case Mapping(pairs) => UniformAll(pairs, anchors, env)
    case Sequence(items) => UniformAll(items, anchors, env)
    case Shared(id, _) => id in anchors ==> anchors[id] in env && env[anchors[id]] == y
    case _ => true
  }

  ghost predicate UniformAll(ys: seq<Yaml>, anchors: Anchors, env: map<string, Yaml>)
    decreases ys
  {
    ys == [] || (Uniform(ys[0], anchors, env) && UniformAll(ys[1..], anchors, env))
  }

  ghost predicate Extends(env: map<string, Yaml>, env': map<string, Yaml>) {
    forall n <- env :: n in env' && env'[n] == env[n]
  }

  lemma {:induction false} UniformExtends(y: Yaml, anchors: Anchors, env: map<string, Yaml>, env': map<string, Yaml>)
    requires Uniform(y, anchors, env) && Extends(env, env')
    ensures Uniform(y, anchors, env')
    decreases y
  {
    match y
    case Pair(_, value) => UniformExtends(value, anchors, env, env');
    case Mapping(pairs) => UniformAllExtends(pairs, anchors, env, env');
    case Sequence(items) => UniformAllExtends(items, anchors, env, env');
    case _ =>
  }

  lemma {:induction false} UniformAllExtends(ys: seq<Yaml>, anchors: Anchors, env: map<string, Yaml>,
                                             env': map<string, Yaml>)
    requires UniformAll(ys, anchors, env) && Extends(env, env')
    ensures UniformAll(ys, anchors, env')
    decreases ys
  {
    if ys != [] {
      UniformExtends(ys[0], anchors, env, env');
      UniformAllExtends(ys[1..], anchors, env, env');
    }
  }

  lemma UniformMember(ys: seq<Yaml>, y: Yaml, anchors: Anchors, env: map<string, Yaml>)
    requires UniformAll(ys, anchors, env) && y in ys
    ensures Uniform(y, anchors, env)
    decreases ys
  {
    if y != ys[0] {
      UniformMember(ys[1..], y, anchors, env);
    }
  }

  /** Reading only adds to what is known of anchors. */
  lemma {:induction false} ExpandExtends(t: Yaml, env: map<string, Yaml>)
    requires Expand(t, env).Expanded?
    ensures Extends(env, Expand(t, env).env)
    decreases t
  {
    match t
    case Pair(_, value) => ExpandExtends(value, env);
    case Mapping(pairs) => ExpandAllExtends(pairs, env);
    case Sequence(items) => ExpandAllExtends(items, env);
    case Shared(_, inner) => ExpandExtends(inner, env);
    case Anchored(_, node) => ExpandExtends(node, env);
    case _ =>
  }

  lemma {:induction false} ExpandAllExtends(ts: seq<Yaml>, env: map<string, Yaml>)
    requires ExpandAll(ts, env).ExpandedAll?
    ensures Extends(env, ExpandAll(ts, env).env)
    decreases ts
  {
    if ts != [] {
      ExpandExtends(ts[0], env);
      ExpandAllExtends(ts[1..], Expand(ts[0], env).env);
    }
  }

  /** Whatever was to be written, all values with one anchor are read as the same value. */
  lemma {:induction false} EmitUniform(y: Yaml, anchors: Anchors, m: Meaning, written: set<string>,
                                       env: map<string, Yaml>, open: set<string>, bound: nat)
    requires Coherent(y, bound, m) && Injective(anchors) && anchors.Keys <= m.of.Keys
    requires InStep(anchors, written, env, open, bound, m)
    ensures var r := Expand(Emit(y, anchors, written).0, env);
            r.Expanded? && Uniform(r.node, anchors, r.env)
    decreases y
  {
    match y
    case Pair(_, value) => EmitUniform(value, anchors, m, written, env, open, bound);
    case Mapping(pairs) => EmitAllUniform(pairs, anchors, m, written, env, open, bound);
    case Sequence(items) => EmitAllUniform(items, anchors, m, written, env, open, bound);
    case Shared(_, _) => SharedUniform(y, anchors, m, written, env, open, bound);
    case _ =>
  }

  lemma SharedUniform(y: Yaml, anchors: Anchors, m: Meaning, written: set<string>, env: map<string, Yaml>,
                      open: set<string>, bound: nat)
    requires y.Shared? && Coherent(y, bound, m) && Injective(anchors) && anchors.Keys <= m.of.Keys
    requires InStep(anchors, written, env, open, bound, m)
    ensures var r := Expand(Emit(y, anchors, written).0, env);
            r.Expanded? && Uniform(r.node, anchors, r.env)
  {
    var _ := SharedReads(y, anchors, m, written, env, open, bound);
    var Shared(id, inner) := y;
    if id in anchors {
      if anchors[id] in written {
        assert MeantBy(env[anchors[id]], id, m);
      } else {
        var t := Emit(inner, anchors, written + {anchors[id]}).0;
        assert Emit(y, anchors, written).0 == Anchored(anchors[id], Shared(id, t));
      }
    }
  }

  lemma {:induction false} EmitAllUniform(ys: seq<Yaml>, anchors: Anchors, m: Meaning, written: set<string>,
                                          env: map<string, Yaml>, open: set<string>, bound: nat)
    requires CoherentAll(ys, bound, m) && Injective(anchors) && anchors.Keys <= m.of.Keys
    requires InStep(anchors, written, env, open, bound, m)
    ensures var r := ExpandAll(EmitAll(ys, anchors, written).0, env);
            r.ExpandedAll? && UniformAll(r.nodes, anchors, r.env)
    decreases ys
  {
    if ys != [] {
      var (t, w) := Emit(ys[0], anchors, written);
      var env1 := EmitReads(ys[0], anchors, m, written, env, open, bound);
      EmitUniform(ys[0], anchors, m, written, env, open, bound);
      EmitAllUniform(ys[1..], anchors, m, w, env1, open, bound);
      UniformStep(t, EmitAll(ys[1..], anchors, w).0, anchors, env);
    }
  }

  lemma UniformStep(t: Yaml, ts: seq<Yaml>, anchors: Anchors, env: map<string, Yaml>)
    requires Expand(t, env).Expanded? && Uniform(Expand(t, env).node, anchors, Expand(t, env).env)
    requires var r := ExpandAll(ts, Expand(t, env).env); r.ExpandedAll? && UniformAll(r.nodes, anchors, r.env)
    ensures var r := ExpandAll([t] + ts, env); r.ExpandedAll? && UniformAll(r.nodes, anchors, r.env)
  {
    assert ([t] + ts)[1..] == ts;
    var node, env1 := Expand(t, env).node, Expand(t, env).env;
    ExpandAllExtends(ts, env1);
    UniformExtends(node, anchors, env1, ExpandAll(ts, env1).env);
    assert ([node] + ExpandAll(ts, env1).nodes)[1..] == ExpandAll(ts, env1).nodes;
  }

  /** Without anchors the writer changes nothing. */
  lemma {:induction false} EmitPlain(y: Yaml, written: set<string>)
    ensures Emit(y, map[], written) == (y, written)
    decreases y
  {
    match y
    case Pair(_, value) => EmitPlain(value, written);
    case Mapping(pairs) => EmitAllPlain(pairs, written);
    case Sequence(items) => EmitAllPlain(items, written);
    case Shared(_, inner) => EmitPlain(inner, written);
    case _ =>
  }

  lemma {:induction false} EmitAllPlain(ys: seq<Yaml>, written: set<string>)
    ensures EmitAll(ys, map[], written) == (ys, written)
    decreases ys
  {
    if ys != [] {
      EmitPlain(ys[0], written);
      EmitAllPlain(ys[1..], written);
      assert ys == [ys[0]] + ys[1..];
    }
  }

  // ---------- which values are written, and how often ----------

  /** Files that have only a name are not candidates for an anchor unless the option says so. */
  predicate Counted(id: Shareable, anchorScalarFiles: bool) {
    id.SharedFile? ==> anchorScalarFiles || !IsScalarFile(id.file)
  }

  /** log extended by the values met in y, in order. What is inside a value that has been met before is skipped. */
  ghost function Log(y: Yaml, anchorScalarFiles: bool, log: seq<Shareable>): seq<Shareable>
    decreases y
  {
    match y
    case Pair(_, value) => Log(value, anchorScalarFiles, log)
    case Mapping(pairs) => LogAll(pairs, anchorScalarFiles, log)
    case Sequence(items) => LogAll(items, anchorScalarFiles, log)
    case Shared(id, inner) =>
      if !Counted(id, anchorScalarFiles) then Log(inner, anchorScalarFiles, log)
      else if id in log then log + [id]
      else Log(inner, anchorScalarFiles, log + [id])
    case _ => log
  }

  ghost function LogAll(ys: seq<Yaml>, anchorScalarFiles: bool, log: seq<Shareable>): seq<Shareable>
    decreases ys
  {
    if ys == [] then log else LogAll(ys[1..], anchorScalarFiles, Log(ys[0], anchorScalarFiles, log))
  }

  /** The values that a written tree writes, in order: in full or as an alias. */
  ghost function Writes(t: Yaml, values: map<string, Shareable>, anchorScalarFiles: bool): seq<Shareable>
    decreases t
  {
    match t
    case Pair(_, value) => Writes(value, values, anchorScalarFiles)
    case Mapping(pairs) => WritesAll(pairs, values, anchorScalarFiles)
    case Sequence(items) => WritesAll(items, values, anchorScalarFiles)
    case Shared(id, inner) =>
      (if Counted(id, anchorScalarFiles) then [id] else []) + Writes(inner, values, anchorScalarFiles)
    case Anchored(_, node) => Writes(node, values, anchorScalarFiles)
    case Alias(n) => if n in values then [values[n]] else []
    case _ => []
  }

  ghost function WritesAll(ts: seq<Yaml>, values: map<string, Shareable>, anchorScalarFiles: bool): seq<Shareable>
    decreases ts
  {
    if ts == [] then []
    else Writes(ts[0], values, anchorScalarFiles) + WritesAll(ts[1..], values, anchorScalarFiles)
  }

  ghost predicate Inverse(anchors: Anchors, values: map<string, Shareable>) {
    forall id <- anchors :: anchors[id] in values && values[anchors[id]] == id
  }

  /** Exactly the values logged more than once have an anchor. */
  ghost predicate AnchorsRepeats(anchors: Anchors, total: seq<Shareable>) {
    forall id :: id in anchors <==> multiset(total)[id] > 1
  }

  /** An anchor has been written exactly when its value has been logged. */
  ghost predicate LogInStep(anchors: Anchors, written: set<string>, log: seq<Shareable>) {
    forall id <- anchors :: anchors[id] in written <==> id in log
  }

  lemma {:induction false} LogExtends(y: Yaml, anchorScalarFiles: bool, log: seq<Shareable>)
    ensures log <= Log(y, anchorScalarFiles, log)
    decreases y
  {
    match y
    case Pair(_, value) => LogExtends(value, anchorScalarFiles, log);
    case Mapping(pairs) => LogAllExtends(pairs, anchorScalarFiles, log);
    case Sequence(items) => LogAllExtends(items, anchorScalarFiles, log);
    case Shared(id, inner) =>
      LogExtends(inner, anchorScalarFiles, log);
      LogExtends(inner, anchorScalarFiles, log + [id]);
    case _ =>
  }

  lemma {:induction false} LogAllExtends(ys: seq<Yaml>, anchorScalarFiles: bool, log: seq<Shareable>)
    ensures log <= LogAll(ys, anchorScalarFiles, log)
    decreases ys
  {
    if ys != [] {
      LogExtends(ys[0], anchorScalarFiles, log);
      LogAllExtends(ys[1..], anchorScalarFiles, Log(ys[0], anchorScalarFiles, log));
    }
  }

  ghost predicate AllCounted(log: seq<Shareable>, anchorScalarFiles: bool) {
    forall id <- log :: Counted(id, anchorScalarFiles)
  }

  /** A value with no anchor is logged only once, so it is new whenever it is met. */
  lemma UnanchoredIsNew(anchors: Anchors, total: seq<Shareable>, log: seq<Shareable>, id: Shareable)
    requires AnchorsRepeats(anchors, total) && id !in anchors && log + [id] <= total
    ensures id !in log
  {
    assert total == log + [id] + total[|log| + 1..];
    assert multiset(total) == multiset(log) + multiset{id} + multiset(total[|log| + 1..]);
  }

  /** What the writer writes, counting aliases, is what was logged. */
  lemma {:induction false} EmitWrites(y: Yaml, anchors: Anchors, values: map<string, Shareable>, scalars: bool,
                                      written: set<string>, log: seq<Shareable>, total: seq<Shareable>,
                                      bound: nat, m: Meaning)
    requires Coherent(y, bound, m) && Injective(anchors) && Inverse(anchors, values)
    requires AnchorsRepeats(anchors, total) && AllCounted(total, scalars)
    requires LogInStep(anchors, written, log) && Log(y, scalars, log) <= total
    ensures var (t, w) := Emit(y, anchors, written);
            Log(y, scalars, log) == log + Writes(t, values, scalars) && LogInStep(anchors, w, Log(y, scalars, log))
    decreases y, 1
  {
    LogExtends(y, scalars, log);
    match y
    case Pair(_, value) => EmitWrites(value, anchors, values, scalars, written, log, total, bound, m);
    case Mapping(pairs) => EmitAllWrites(pairs, anchors, values, scalars, written, log, total, bound, m);
    case Sequence(items) => EmitAllWrites(items, anchors, values, scalars, written, log, total, bound, m);
    case Shared(_, _) => SharedWrites(y, anchors, values, scalars, written, log, total, bound, m);
    case _ =>
  }

  lemma {:induction false} SharedWrites(y: Yaml, anchors: Anchors, values: map<string, Shareable>, scalars: bool,
                                        written: set<string>, log: seq<Shareable>, total: seq<Shareable>,
                                        bound: nat, m: Meaning)
    requires y.Shared? && Coherent(y, bound, m) && Injective(anchors) && Inverse(anchors, values)
    requires AnchorsRepeats(anchors, total) && AllCounted(total, scalars)
    requires LogInStep(anchors, written, log) && Log(y, scalars, log) <= total
    ensures var (t, w) := Emit(y, anchors, written);
            Log(y, scalars, log) == log + Writes(t, values, scalars) && LogInStep(anchors, w, Log(y, scalars, log))
    decreases y, 0
  {
    var Shared(id, inner) := y;
    if !Counted(id, scalars) {
      RepeatsCounted(anchors, total, scalars, id);
      EmitWrites(inner, anchors, values, scalars, written, log, total, Depth(id), m);
    } else if id in log {
      LogStep(anchors, written, log, id);
      RepeatWrites(y, anchors, values, scalars, written, log, total);
    } else {
      var written' := if id in anchors then written + {anchors[id]} else written;
      LogStep(anchors, written, log, id);
      EmitWrites(inner, anchors, values, scalars, written', log + [id], total, Depth(id), m);
      var (t, w) := Emit(inner, anchors, written');
      WritesMark(id, t, values, scalars, log);
      FirstEmitted(y, anchors, written);
    }
  }

  /** A value that has been logged before is written as an alias. */
  lemma RepeatWrites(y: Yaml, anchors: Anchors, values: map<string, Shareable>, scalars: bool, written: set<string>,
                     log: seq<Shareable>, total: seq<Shareable>)
    requires y.Shared? && y.id in log && Counted(y.id, scalars) && Inverse(anchors, values)
    requires AnchorsRepeats(anchors, total) && LogInStep(anchors, written, log) && log + [y.id] <= total
    ensures y.id in anchors && Emit(y, anchors, written) == (Alias(anchors[y.id]), written)
    ensures Writes(Alias(anchors[y.id]), values, scalars) == [y.id]
  {
    if y.id !in anchors {
      UnanchoredIsNew(anchors, total, log, y.id);
    }
  }

  /** A value whose anchor has not been written yet is written in full. */
  lemma FirstEmitted(y: Yaml, anchors: Anchors, written: set<string>)
    requires y.Shared? && (y.id in anchors ==> anchors[y.id] !in written)
    ensures var written' := if y.id in anchors then written + {anchors[y.id]} else written;
            var (t, w) := Emit(y.inner, anchors, written');
            Emit(y, anchors, written)
            == (if y.id in anchors then Anchored(anchors[y.id], Shared(y.id, t)) else Shared(y.id, t), w)
  {
  }

  lemma WritesMark(id: Shareable, t: Yaml, values: map<string, Shareable>, scalars: bool, log: seq<Shareable>)
    requires Counted(id, scalars)
    ensures log + Writes(Shared(id, t), values, scalars) == log + [id] + Writes(t, values, scalars)
    ensures forall n :: Writes(Anchored(n, Shared(id, t)), values, scalars) == Writes(Shared(id, t), values, scalars)
  {
  }

  lemma RepeatsCounted(anchors: Anchors, total: seq<Shareable>, scalars: bool, id: Shareable)
    requires AnchorsRepeats(anchors, total) && AllCounted(total, scalars) && !Counted(id, scalars)
    ensures id !in anchors
  {
    assert id !in total && id !in multiset(total);
  }

  lemma LogStep(anchors: Anchors, written: set<string>, log: seq<Shareable>, id: Shareable)
    requires LogInStep(anchors, written, log) && Injective(anchors)
    ensures LogInStep(anchors, if id in anchors then written + {anchors[id]} else written, log + [id])
  {
  }

  lemma WritesAllFirst(t: Yaml, ts: seq<Yaml>, values: map<string, Shareable>, scalars: bool, log: seq<Shareable>)
    ensures log + WritesAll([t] + ts, values, scalars)
         == log + Writes(t, values, scalars) + WritesAll(ts, values, scalars)
  {
    assert ([t] + ts)[1..] == ts;
    Sequences.Regroup(log, Writes(t, values, scalars), WritesAll(ts, values, scalars));
  }

  lemma {:induction false} EmitAllWrites(ys: seq<Yaml>, anchors: Anchors, values: map<string, Shareable>, scalars: bool,
                                         written: set<string>, log: seq<Shareable>, total: seq<Shareable>,
                                         bound: nat, m: Meaning)
    requires CoherentAll(ys, bound, m) && Injective(anchors) && Inverse(anchors, values)
    requires AnchorsRepeats(anchors, total) && AllCounted(total, scalars)
    requires LogInStep(anchors, written, log) && LogAll(ys, scalars, log) <= total
    ensures var (ts, w) := EmitAll(ys, anchors, written);
            && LogAll(ys, scalars, log) == log + WritesAll(ts, values, scalars)
            && LogInStep(anchors, w, LogAll(ys, scalars, log))
    decreases ys
  {
    if ys != [] {
      var log1 := Log(ys[0], scalars, log);
      LogAllExtends(ys[1..], scalars, log1);
      EmitWrites(ys[0], anchors, values, scalars, written, log, total, bound, m);
      var (t, w) := Emit(ys[0], anchors, written);
      EmitAllWrites(ys[1..], anchors, values, scalars, w, log1, total, bound, m);
      var ts := EmitAll(ys[1..], anchors, w).0;
      WritesAllFirst(t, ts, values, scalars, log);
    }
  }

  // ---------- after the common section ----------

  ghost predicate AnchorFree(t: Yaml)
    decreases t
  {
    match t
    case Pair(_, value) => AnchorFree(value)
    case Mapping(pairs) => AnchorFreeAll(pairs)
    case Sequence(items) => AnchorFreeAll(items)
    case Shared(_, inner) => AnchorFree(inner)
    case Anchored(_, _) => false
    case _ => true
  }

  ghost predicate AnchorFreeAll(ts: seq<Yaml>)
    decreases ts
  {
    ts == [] || (AnchorFree(ts[0]) && AnchorFreeAll(ts[1..]))
  }

  /** Once every anchor has been written, only aliases are written. */
  lemma {:induction false} AllWrittenAnchorFree(y: Yaml, anchors: Anchors, written: set<string>, bound: nat, m: Meaning)
    requires Coherent(y, bound, m) && anchors.Values <= written
    ensures var (t, w) := Emit(y, anchors, written); AnchorFree(t) && w == written
    decreases y
  {
    match y
    case Pair(_, value) => AllWrittenAnchorFree(value, anchors, written, bound, m);
    case Mapping(pairs) => AllWrittenAnchorFreeAll(pairs, anchors, written, bound, m);
    case Sequence(items) => AllWrittenAnchorFreeAll(items, anchors, written, bound, m);
    case Shared(id, inner) =>
      if id in anchors {
        assert anchors[id] in anchors.Values;
      } else {
        AllWrittenAnchorFree(inner, anchors, written, Depth(id), m);
      }
    case _ =>
  }

  lemma {:induction false} AllWrittenAnchorFreeAll(ys: seq<Yaml>, anchors: Anchors, written: set<string>, bound: nat,
                                                   m: Meaning)
    requires CoherentAll(ys, bound, m) && anchors.Values <= written
    ensures var (ts, w) := EmitAll(ys, anchors, written); AnchorFreeAll(ts) && w == written
    decreases ys
  {
    if ys != [] {
      AllWrittenAnchorFree(ys[0], anchors, written, bound, m);
      AllWrittenAnchorFreeAll(ys[1..], anchors, written, bound, m);
      var t, ts := Emit(ys[0], anchors, written).0, EmitAll(ys[1..], anchors, written).0;
      assert ([t] + ts)[1..] == ts;
    }
  }

  lemma {:induction false} EmitWrittenGrows(y: Yaml, anchors: Anchors, written: set<string>)
    ensures written <= Emit(y, anchors, written).1
    decreases y
  {
    match y
    case Pair(_, value) => EmitWrittenGrows(value, anchors, written);
    case Mapping(pairs) => EmitAllWrittenGrows(pairs, anchors, written);
    case Sequence(items) => EmitAllWrittenGrows(items, anchors, written);
    case Shared(id, inner) =>
      EmitWrittenGrows(inner, anchors, written);
      if id in anchors {
        EmitWrittenGrows(inner, anchors, written + {anchors[id]});
      }
    case _ =>
  }

  lemma {:induction false} EmitAllWrittenGrows(ys: seq<Yaml>, anchors: Anchors, written: set<string>)
    ensures written <= EmitAll(ys, anchors, written).1
    decreases ys
  {
    if ys != [] {
      EmitWrittenGrows(ys[0], anchors, written);
      EmitAllWrittenGrows(ys[1..], anchors, Emit(ys[0], anchors, written).1);
    }
  }

  /** Writing a tree writes the anchors of its outermost values. */
  lemma {:induction false} RootsWritten(y: Yaml, id: Shareable, anchors: Anchors, written: set<string>)
    requires id in anchors && id in RootIds(y)
    ensures anchors[id] in Emit(y, anchors, written).1
    decreases y
  {
    match y
    case Pair(_, value) => RootsWritten(value, id, anchors, written);
    case Mapping(pairs) => RootsAllWritten(pairs, id, anchors, written);
    case Sequence(items) => RootsAllWritten(items, id, anchors, written);
    case Shared(_, inner) => EmitWrittenGrows(inner, anchors, written + {anchors[id]});
    case _ =>
  }

  lemma {:induction false} RootsAllWritten(ys: seq<Yaml>, id: Shareable, anchors: Anchors, written: set<string>)
    requires id in anchors && id in RootIdsAll(ys)
    ensures anchors[id] in EmitAll(ys, anchors, written).1
    decreases ys
  {
    var w := Emit(ys[0], anchors, written).1;
    if id in RootIds(ys[0]) {
      RootsWritten(ys[0], id, anchors, written);
      EmitAllWrittenGrows(ys[1..], anchors, w);
    } else {
      RootsAllWritten(ys[1..], id, anchors, w);
    }
  }
}
