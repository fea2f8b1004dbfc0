/** MetadataDocument::save of src/metadata/metadata_document.rs and the YamlEmitter that it writes with: the tree
    that is written for a document. */
module MetadataWriter {
  import Sequences
  import opened Metadata
  import opened MetadataYaml
  import opened AnchoredYaml
  import opened SharedValues
  import opened CommonValues
  import opened AnchorNames
  import opened AnchorCounts

  datatype WriteOptions = WriteOptions(writeAnchors: bool, writeCommonSection: bool, anchorFileStrings: bool)

  datatype Document = Document(
    bashTags: seq<string>,
    groups: seq<Group>,
    messages: seq<Message>,
    plugins: seq<PluginMetadata>)

  // ---------- the common values of a whole document ----------

  function Pairs(d: Document): seq<Yaml> {
    DocumentPairs(d.bashTags, d.groups, d.messages, d.plugins)
  }

  method CountDocumentValues(counters: Counters, messages: seq<Message>, plugins: seq<PluginMetadata>,
                             anchorScalarFiles: bool)
    requires counters.Agree([]) && counters.files.log == []
    modifies counters.Repr()
    ensures counters.Agree(DocumentLog(messages, plugins, anchorScalarFiles))
    ensures counters.files.log == CountedFiles(AllFiles(plugins), anchorScalarFiles)
  {
    ghost var log := counters.CountMessages(messages, anchorScalarFiles, []);
    LogIdsConcat(Ids(MessageId, messages), PluginsIds(plugins), anchorScalarFiles, []);
    assert plugins[0..] == plugins;
    for i := 0 to |plugins|
      invariant counters.Agree(log)
      invariant Remaining(plugins, i, anchorScalarFiles, log, counters.files.log,
                          DocumentLog(messages, plugins, anchorScalarFiles))
    {
      RemainingStep(plugins, i, anchorScalarFiles, log, counters.files.log,
                    DocumentLog(messages, plugins, anchorScalarFiles));
      log := counters.CountPlugin(plugins[i], anchorScalarFiles, log);
    }
  }

  /** Counting the plugins from the i-th gives the log of all of them, and all their files. */
  ghost predicate Remaining(plugins: seq<PluginMetadata>, i: nat, scalars: bool, log: seq<Shareable>, files: seq<File>,
                            total: seq<Shareable>)
    requires i <= |plugins|
  {
    && LogIds(PluginsIds(plugins[i..]), scalars, log) == total
    && files + CountedFiles(AllFiles(plugins[i..]), scalars) == CountedFiles(AllFiles(plugins), scalars)
  }

  lemma RemainingStep(plugins: seq<PluginMetadata>, i: nat, scalars: bool, log: seq<Shareable>, files: seq<File>,
                      total: seq<Shareable>)
    requires i < |plugins| && Remaining(plugins, i, scalars, log, files, total)
    ensures Remaining(plugins, i + 1, scalars, LogIds(PluginIds(plugins[i]), scalars, log),
                      files + CountedFiles(PluginFiles(plugins[i]), scalars), total)
  {
    assert plugins[i..][1..] == plugins[i + 1..];
    LogIdsConcat(PluginIds(plugins[i]), PluginsIds(plugins[i + 1..]), scalars, log);
    CountedFilesConcat(PluginFiles(plugins[i]), AllFiles(plugins[i + 1..]), scalars);
    Sequences.Regroup(files, CountedFiles(PluginFiles(plugins[i]), scalars),
                      CountedFiles(AllFiles(plugins[i + 1..]), scalars));
  }

  method GetCommonMetadataValues(messages: seq<Message>, plugins: seq<PluginMetadata>, anchorScalarFiles: bool)
    returns (r: Common)
    ensures r == CommonOf(DocumentLog(messages, plugins, anchorScalarFiles),
                          CountedFiles(AllFiles(plugins), anchorScalarFiles))
  {
    var files := new OrderedCounts<File>(FileId);
    var messageCounts := new OrderedCounts<Message>(MessageId);
    var contents := new OrderedCounts<seq<MessageContent>>(ContentsId);
    var conditions := new OrderedCounts<string>(ConditionId);
    CountDocumentValues(Counters(files, messageCounts, contents, conditions), messages, plugins, anchorScalarFiles);

    var commonFiles := files.IntoCommonValues();
    var commonMessages := messageCounts.IntoCommonValues();
    var commonContents := contents.IntoCommonValues();
    var commonConditions := conditions.IntoCommonValues();
    r := Common(commonFiles, commonMessages, commonContents, commonConditions);
  }

  // ---------- what is saved ----------

  function Marked(ids: seq<Shareable>): seq<Yaml> {
    if ids == [] then [] else [Shared(ids[0], InnerOf(ids[0]))] + Marked(ids[1..])
  }

  /** The items of the common section: contents, conditions, messages and then files. */
  function CommonItems(c: Common): seq<Yaml> {
    Marked(Leaves(c)) + (MessageYamls(c.messages) + FileYamls(c.files))
  }

  predicate IsEmptyCommon(c: Common) {
    c.files == [] && c.messages == [] && c.contents == [] && c.conditions == []
  }

  ghost function CommonFor(d: Document, o: WriteOptions): Common {
    if o.writeAnchors
    then CommonOf(DocumentLog(d.messages, d.plugins, o.anchorFileStrings),
                  CountedFiles(AllFiles(d.plugins), o.anchorFileStrings))
    else Common([], [], [], [])
  }

  ghost predicate HasSection(d: Document, o: WriteOptions) {
    o.writeAnchors && o.writeCommonSection && !IsEmptyCommon(CommonFor(d, o))
  }

  ghost function CommonSection(d: Document, o: WriteOptions): seq<Yaml> {
    if HasSection(d, o) then [Pair("common", Sequence(CommonItems(CommonFor(d, o))))] else []
  }

  ghost function Saved(d: Document, o: WriteOptions): Yaml {
    Emit(Mapping(CommonSection(d, o) + Pairs(d)), SetAnchors(CommonFor(d, o)), {}).0
  }

  class YamlEmitter {
    const anchors: Anchors
    var written: set<string>

    constructor (anchors: Anchors)
      ensures this.anchors == anchors && written == {}
    {
      this.anchors, written := anchors, {};
    }

    method Write(y: Yaml) returns (t: Yaml)
      modifies this
      ensures (t, written) == Emit(y, anchors, old(written))
      decreases y
    {
      match y
      case Pair(key, value) =>
        var v := Write(value);
        t := Pair(key, v);
      case Mapping(pairs) =>
        var ps := WriteAll(pairs);
        t := Mapping(ps);
      case Sequence(items) =>
        var ts := WriteAll(items);
        t := Sequence(ts);
      case Shared(id, inner) =>
        if id in anchors {
          if anchors[id] in written {
            t := Alias(anchors[id]);
          } else {
            written := written + {anchors[id]};
            var node := Write(inner);
            t := Anchored(anchors[id], Shared(id, node));
          }
        } else {
          var node := Write(inner);
          t := Shared(id, node);
        }
      case _ => t := y;
    }

    method WriteAll(ys: seq<Yaml>) returns (ts: seq<Yaml>)
      modifies this
      ensures (ts, written) == EmitAll(ys, anchors, old(written))
      decreases ys
    {
      if ys == [] {
        return [];
      }
      var t := Write(ys[0]);
      var rest := WriteAll(ys[1..]);
      ts := [t] + rest;
    }

    /** Writes the values that have not been written yet, in the order given. */
    method WriteUnwritten(ids: seq<Shareable>) returns (ts: seq<Yaml>)
      requires Distinct(ids) && Injective(anchors)
      requires forall id <- ids :: Depth(id) == 0 && id in anchors && anchors[id] !in written
      modifies this
      ensures (ts, written) == EmitAll(Marked(ids), anchors, old(written))
    {
      ts := [];
      for k := 0 to |ids|
        invariant (ts, written) == EmitAll(Marked(ids[..k]), anchors, old(written))
      {
        assert ids[..k + 1] == ids[..k] + [ids[k]];
        MarkedAppend(ids[..k], ids[k]);
        EmitAllAppend(Marked(ids[..k]), Shared(ids[k], InnerOf(ids[k])), anchors, old(written));
        LeavesWritten(ids[..k], anchors, old(written));
        if ids[k] in anchors {
          if anchors[ids[k]] !in written {
            var t := Write(Shared(ids[k], InnerOf(ids[k])));
            ts := ts + [t];
          }
        }
      }
      assert ids[..|ids|] == ids;
    }

    method EmitCommonValues(c: Common) returns (ts: seq<Yaml>)
      requires NoDuplicates(c) && anchors == SetAnchors(c) && written == {}
      modifies this
      ensures (ts, written) == EmitAll(CommonItems(c), anchors, {})
    {
      LeavesHaveAnchors(c);
      EmitAllConcat(Marked(Leaves(c)), MessageYamls(c.messages) + FileYamls(c.files), anchors, {});
      var leaves := WriteUnwritten(Leaves(c));
      var nodes := WriteAll(MessageYamls(c.messages) + FileYamls(c.files));
      ts := leaves + nodes;
    }
  }

  lemma {:induction false} MarkedAppend(ids: seq<Shareable>, id: Shareable)
    ensures Marked(ids + [id]) == Marked(ids) + [Shared(id, InnerOf(id))]
  {
    if ids != [] {
      assert (ids + [id])[1..] == ids[1..] + [id];
      MarkedAppend(ids[1..], id);
    }
  }

  lemma {:induction false} EmitAllConcat(a: seq<Yaml>, b: seq<Yaml>, anchors: Anchors, w: set<string>)
    ensures var (ts, w1) := EmitAll(a, anchors, w);
            var (us, w2) := EmitAll(b, anchors, w1);
            EmitAll(a + b, anchors, w) == (ts + us, w2)
    decreases |a|
  {
    if a == [] {
      assert a + b == b;
      var us := EmitAll(b, anchors, w).0;
      assert [] + us == us;
    } else {
      assert (a + b)[1..] == a[1..] + b;
      var (t, w0) := Emit(a[0], anchors, w);
      EmitAllConcat(a[1..], b, anchors, w0);
      var (ts, w1) := EmitAll(a[1..], anchors, w0);
      var us := EmitAll(b, anchors, w1).0;
      assert [t] + (ts + us) == [t] + ts + us;
    }
  }

  lemma EmitAllOne(y: Yaml, anchors: Anchors, w: set<string>)
    ensures EmitAll([y], anchors, w) == ([Emit(y, anchors, w).0], Emit(y, anchors, w).1)
  {
    var w1 := Emit(y, anchors, w).1;
    assert [y][1..] == [] && EmitAll([], anchors, w1) == ([], w1);
    assert [Emit(y, anchors, w).0] + [] == [Emit(y, anchors, w).0];
  }

  lemma EmitAllAppend(a: seq<Yaml>, y: Yaml, anchors: Anchors, w: set<string>)
    ensures var (ts, w1) := EmitAll(a, anchors, w);
            var (t, w2) := Emit(y, anchors, w1);
            EmitAll(a + [y], anchors, w) == (ts + [t], w2)
  {
    EmitAllConcat(a, [y], anchors, w);
    EmitAllOne(y, anchors, EmitAll(a, anchors, w).1);
  }

  /** Writing contents or a condition writes no other anchor than its own. */
  lemma LeafWritten(id: Shareable, anchors: Anchors, w: set<string>)
    requires Depth(id) == 0 && id in anchors
    ensures Emit(Shared(id, InnerOf(id)), anchors, w).1 == w + {anchors[id]}
  {
    if id.SharedContents? {
      ContentsInnerPlain(id.contents);
      PlainEmitsItself(InnerOf(id), anchors, w + {anchors[id]});
    }
  }

  lemma {:induction false} PlainEmitsItself(y: Yaml, anchors: Anchors, w: set<string>)
    requires IsPlain(y)
    ensures Emit(y, anchors, w) == (y, w)
    decreases y
  {
    match y
    case Pair(_, value) => PlainEmitsItself(value, anchors, w);
    case Mapping(pairs) => AllPlainEmits(pairs, anchors, w);
    case Sequence(items) => AllPlainEmits(items, anchors, w);
    case _ =>
  }

  lemma {:induction false} AllPlainEmits(ys: seq<Yaml>, anchors: Anchors, w: set<string>)
    requires AllPlain(ys)
    ensures EmitAll(ys, anchors, w) == (ys, w)
    decreases ys
  {
    if ys != [] {
      PlainEmitsItself(ys[0], anchors, w);
      AllPlainEmits(ys[1..], anchors, w);
      assert ys == [ys[0]] + ys[1..];
    }
  }

  lemma {:induction false} LeavesWritten(ids: seq<Shareable>, anchors: Anchors, w: set<string>)
    requires forall id <- ids :: Depth(id) == 0 && id in anchors
    ensures EmitAll(Marked(ids), anchors, w).1 == w + set id | id in ids :: anchors[id]
    decreases |ids|
  {
    if ids == [] {
      assert (set id | id in ids :: anchors[id]) == {};
    } else {
      var front, last := ids[..|ids| - 1], ids[|ids| - 1];
      assert ids == front + [last];
      LeavesWritten(front, anchors, w);
      MarkedAppend(front, last);
      var w1 := EmitAll(Marked(front), anchors, w).1;
      EmitAllAppend(Marked(front), Shared(last, InnerOf(last)), anchors, w);
      LeafWritten(last, anchors, w1);
      assert (set id | id in ids :: anchors[id]) == (set id | id in front :: anchors[id]) + {anchors[last]};
    }
  }

  lemma LeavesHaveAnchors(c: Common)
    requires NoDuplicates(c)
    ensures Distinct(Leaves(c)) && Injective(SetAnchors(c))
    ensures forall id <- Leaves(c) :: Depth(id) == 0 && id in SetAnchors(c)
  {
    AnchorsInjective(c);
    CommonLeaves(c);
    DistinctConcat(CommonIds(c, Contents), CommonIds(c, Conditions), Contents, Conditions) by {
      CommonIdsKind(c, Contents);
      CommonIdsKind(c, Conditions);
    }
    forall id | id in Leaves(c)
      ensures Depth(id) == 0 && id in SetAnchors(c)
    {
      AnchorIsOfKind(c, id);
    }
  }

  /** The section and the document are written one after the other. */
  lemma SavedParts(d: Document, o: WriteOptions)
    ensures var anchors := SetAnchors(CommonFor(d, o));
            var (ts, w) := EmitAll(CommonSection(d, o), anchors, {});
            Saved(d, o) == Mapping(ts + EmitAll(Pairs(d), anchors, w).0)
  {
    EmitAllConcat(CommonSection(d, o), Pairs(d), SetAnchors(CommonFor(d, o)), {});
  }

  lemma SectionParts(items: seq<Yaml>, anchors: Anchors)
    ensures var (ts, w) := EmitAll(items, anchors, {});
            EmitAll([Pair("common", Sequence(items))], anchors, {}) == ([Pair("common", Sequence(ts))], w)
  {
    var (ts, w) := EmitAll(items, anchors, {});
    assert Emit(Sequence(items), anchors, {}) == (Sequence(ts), w);
    EmitAllOne(Pair("common", Sequence(items)), anchors, {});
  }

  method Save(d: Document, o: WriteOptions) returns (t: Yaml)
    ensures t == Saved(d, o)
  {
    var common := Common([], [], [], []);
    if o.writeAnchors {
      common := GetCommonMetadataValues(d.messages, d.plugins, o.anchorFileStrings);
    }
    CommonForInjective(d, o);
    SavedParts(d, o);
    var emitter := new YamlEmitter(SetAnchors(common));
    var section := [];
    if o.writeAnchors && o.writeCommonSection && !IsEmptyCommon(common) {
      SectionParts(CommonItems(common), SetAnchors(common));
      var items := emitter.EmitCommonValues(common);
      section := [Pair("common", Sequence(items))];
    }
    var pairs := emitter.WriteAll(Pairs(d));
    t := Mapping(section + pairs);
  }

  lemma CommonForNoDuplicates(d: Document, o: WriteOptions)
    ensures NoDuplicates(CommonFor(d, o))
  {
    if o.writeAnchors {
      DocumentFiles(d.messages, d.plugins, o.anchorFileStrings);
      CommonHasNoDuplicates(DocumentLog(d.messages, d.plugins, o.anchorFileStrings),
                            CountedFiles(AllFiles(d.plugins), o.anchorFileStrings));
    } else {
      NothingInCommon();
    }
  }

  lemma NothingInCommon()
    ensures NoDuplicates(Common([], [], [], []))
  {
    forall kind
      ensures Distinct(CommonIds(Common([], [], [], []), kind))
    {
      assert CommonIds(Common([], [], [], []), kind) == [];
    }
  }

  lemma CommonForInjective(d: Document, o: WriteOptions)
    ensures NoDuplicates(CommonFor(d, o)) && Injective(SetAnchors(CommonFor(d, o)))
  {
    CommonForNoDuplicates(d, o);
    AnchorsInjective(CommonFor(d, o));
  }
}
