/** The guarantees that saving a document gives: its anchors and aliases change nothing for a reader, and values
    have anchors exactly if they are written more than once. */
module SavedDocuments {
  import opened Wrappers
  import opened Metadata
  import opened MetadataYaml
  import opened AnchoredYaml
  import opened SharedValues
  import opened CommonValues
  import opened AnchorNames
  import opened AnchorCounts
  import opened MetadataWriter

  // ---------- what anchored values stand for ----------

  lemma {:induction false} FoldedConcat(a: seq<Yaml>, b: seq<Yaml>)
    ensures FoldedAll(a + b) == FoldedAll(a) + FoldedAll(b)
    decreases |a|
  {
    if a == [] {
      assert a + b == b;
    } else {
      assert (a + b)[1..] == a[1..] + b;
      FoldedConcat(a[1..], b);
    }
  }

  lemma SameFoldedFirst(a: seq<Yaml>, b: seq<Yaml>, rest: seq<Yaml>)
    requires |a| == |b| == 1 && Folded(a[0]) == Folded(b[0])
    ensures Folded(Mapping(a + rest)) == Folded(Mapping(b + rest))
  {
    FoldedConcat(a, rest);
    FoldedConcat(b, rest);
    assert a[1..] == [] && b[1..] == [];
    assert FoldedAll(a) == [Folded(a[0])] && FoldedAll(b) == [Folded(b[0])];
  }

  /** Equal files are written as the same value, up to the case of their names. */
  lemma FileFolded(f: File)
    ensures Folded(FileInner(f)) == Folded(FileInner(FileKey(f)))
  {
    if !IsScalarFile(f) {
      var rest := TextPair("display", f.displayName) + ContentsPair("detail", f.detail)
                  + ConditionPair("condition", f.condition) + ConditionPair("constraint", f.constraint);
      var name, name' := [Pair("name", FileName(f.name))], [Pair("name", FileName(FileKey(f).name))];
      assert FileInner(f) == Mapping(name + rest) && FileInner(FileKey(f)) == Mapping(name' + rest);
      SameFoldedFirst(name, name', rest);
    }
  }

  /** What is written in full for an identity: of equal files, the common one. */
  ghost function InnerIn(files: seq<File>, id: Shareable): Yaml {
    if exists f :: f in files && FileId(f) == id then
      var f :| f in files && FileId(f) == id;
      FileInner(f)
    else InnerOf(id)
  }

  ghost function Meant(c: Common, exact: bool): Meaning {
    Meaning(exact, map id | id in SetAnchors(c) :: Norm(InnerIn(c.files, id), exact))
  }

  lemma MeantIsSound(c: Common, exact: bool)
    ensures Sound(Meant(c, exact))
  {
  }

  lemma InnerInFolded(files: seq<File>, f: File)
    ensures Folded(InnerIn(files, FileId(f))) == Folded(FileInner(f))
  {
    FileFolded(f);
    if exists g :: g in files && FileId(g) == FileId(f) {
      var g :| g in files && FileId(g) == FileId(f) && InnerIn(files, FileId(f)) == FileInner(g);
      FileFolded(g);
    }
  }

  lemma FoldedFileMeans(c: Common, f: File)
    ensures FileMeans(Meant(c, false), f)
  {
    InnerInFolded(c.files, f);
  }

  lemma CommonFileMeans(c: Common, exact: bool, f: File)
    requires Distinct(CommonIds(c, Files)) && f in c.files
    ensures FileMeans(Meant(c, exact), f)
  {
    var i :| 0 <= i < |c.files| && c.files[i] == f;
    forall g | g in c.files && FileId(g) == FileId(f)
      ensures g == f
    {
      var j :| 0 <= j < |c.files| && c.files[j] == g;
      assert CommonIds(c, Files)[i] == CommonIds(c, Files)[j];
    }
  }

  /** Equal files are the same, so that they do not differ in the case of their names either. */
  ghost predicate AgreeInCase(files: seq<File>) {
    forall f, g :: f in files && g in files && FileKey(f) == FileKey(g) ==> f == g
  }

  ghost predicate CaseIsKept(d: Document, o: WriteOptions) {
    o.writeAnchors ==> AgreeInCase(CountedFiles(AllFiles(d.plugins), o.anchorFileStrings))
  }

  lemma HasId<T>(id: T -> Shareable, s: seq<T>, x: Shareable) returns (t: T)
    requires x in Ids(id, s)
    ensures t in s && id(t) == x
  {
    var i :| 0 <= i < |s| && Ids(id, s)[i] == x;
    t := s[i];
  }

  lemma CommonFileOf(d: Document, o: WriteOptions, id: Shareable) returns (f: File)
    requires id in SetAnchors(CommonFor(d, o)) && id.SharedFile?
    ensures f in CommonFor(d, o).files && FileId(f) == id
    ensures o.writeAnchors && f in CountedFiles(AllFiles(d.plugins), o.anchorFileStrings)
  {
    AnchorIsOfKind(CommonFor(d, o), id);
    f := HasId(FileId, CommonFor(d, o).files, id);
    RepeatedAreFirst(FileId, CountedFiles(AllFiles(d.plugins), o.anchorFileStrings), f);
  }

  lemma ExactFileMeans(d: Document, o: WriteOptions, f: File)
    requires CaseIsKept(d, o) && f in AllFiles(d.plugins)
    ensures FileMeans(Meant(CommonFor(d, o), true), f)
  {
    if FileId(f) in SetAnchors(CommonFor(d, o)) {
      CommonForNoDuplicates(d, o);
      var g := CommonFileOf(d, o, FileId(f));
      CountedFilesMembers(AllFiles(d.plugins), o.anchorFileStrings);
      CommonFileMeans(CommonFor(d, o), true, g);
    }
  }

  lemma PairsHold(d: Document, o: WriteOptions, exact: bool)
    requires exact ==> CaseIsKept(d, o)
    ensures Holds(Pairs(d), DocumentIds(d.messages, d.plugins), 2, Meant(CommonFor(d, o), exact))
  {
    MeantIsSound(CommonFor(d, o), exact);
    forall f | f in AllFiles(d.plugins)
      ensures FileMeans(Meant(CommonFor(d, o), exact), f)
    {
      if exact {
        ExactFileMeans(d, o, f);
      } else {
        FoldedFileMeans(CommonFor(d, o), f);
      }
    }
    DocumentHolds(d.bashTags, d.groups, d.messages, d.plugins, Meant(CommonFor(d, o), exact));
  }

  lemma LeafHolds(id: Shareable, m: Meaning)
    requires Depth(id) == 0 && Sound(m)
    ensures Coherent(Shared(id, InnerOf(id)), 2, m)
  {
    if id.SharedContents? {
      ContentsCoherent(id.contents, m);
    }
  }

  lemma {:induction false} MarkedHold(ids: seq<Shareable>, m: Meaning)
    requires AreLeaves(ids) && Sound(m)
    ensures Holds(Marked(ids), ids, 2, m)
  {
    if ids != [] {
      assert ids[0] in ids;
      var y := Shared(ids[0], InnerOf(ids[0]));
      LeafHolds(ids[0], m);
      HoldsOne(y, 2, m);
      MarkedHold(ids[1..], m);
      HoldsConcat([y], Marked(ids[1..]), [ids[0]], ids[1..], 2, m);
      assert ids == [ids[0]] + ids[1..];
    }
  }

  lemma ItemsHold(c: Common, exact: bool)
    requires Distinct(CommonIds(c, Files))
    ensures Holds(CommonItems(c), Leaves(c) + Nodes(c), 2, Meant(c, exact))
  {
    var m := Meant(c, exact);
    MeantIsSound(c, exact);
    CommonLeaves(c);
    MarkedHold(Leaves(c), m);
    MessagesHold(c.messages, m);
    forall f | f in c.files
      ensures FileMeans(m, f)
    {
      CommonFileMeans(c, exact, f);
    }
    FilesHold(c.files, m);
    HoldsConcat(MessageYamls(c.messages), FileYamls(c.files), CommonIds(c, Messages), CommonIds(c, Files), 2, m);
    HoldsConcat(Marked(Leaves(c)), MessageYamls(c.messages) + FileYamls(c.files), Leaves(c), Nodes(c), 2, m);
  }

  ghost function SectionIds(d: Document, o: WriteOptions): seq<Shareable> {
    if HasSection(d, o) then Leaves(CommonFor(d, o)) + Nodes(CommonFor(d, o)) else []
  }

  lemma SectionHolds(d: Document, o: WriteOptions, exact: bool)
    ensures Holds(CommonSection(d, o), SectionIds(d, o), 2, Meant(CommonFor(d, o), exact))
  {
    if HasSection(d, o) {
      var c, m := CommonFor(d, o), Meant(CommonFor(d, o), exact);
      CommonForNoDuplicates(d, o);
      ItemsHold(c, exact);
      var y := Pair("common", Sequence(CommonItems(c)));
      assert RootIds(y) == RootIds(Sequence(CommonItems(c))) == SectionIds(d, o);
      assert Coherent(Sequence(CommonItems(c)), 2, m);
      HoldsOne(y, 2, m);
    }
  }

  // ---------- what a reader gets back ----------

  lemma {:induction false} ExpandAllConcat(a: seq<Yaml>, b: seq<Yaml>, env: map<string, Yaml>)
    requires ExpandAll(a, env).ExpandedAll? && ExpandAll(b, ExpandAll(a, env).env).ExpandedAll?
    ensures ExpandAll(a + b, env)
         == var b' := ExpandAll(b, ExpandAll(a, env).env); ExpandedAll(ExpandAll(a, env).nodes + b'.nodes, b'.env)
    decreases |a|
  {
    if a == [] {
      assert a + b == b;
    } else {
      assert (a + b)[1..] == a[1..] + b;
      ExpandAllConcat(a[1..], b, Expand(a[0], env).env);
    }
  }

  lemma PartsReadBack(a: seq<Yaml>, b: seq<Yaml>, anchors: Anchors, m: Meaning)
    returns (section: seq<Yaml>, pairs: seq<Yaml>, env: map<string, Yaml>)
    requires CoherentAll(a, 2, m) && CoherentAll(b, 2, m) && Injective(anchors) && anchors.Keys <= m.of.Keys
    ensures NormAll(section, m.exact) == NormAll(a, m.exact) && NormAll(pairs, m.exact) == NormAll(b, m.exact)
    ensures var (ts, w) := EmitAll(a, anchors, {});
            ExpandAll(ts + EmitAll(b, anchors, w).0, map[]) == ExpandedAll(section + pairs, env)
    ensures UniformAll(pairs, anchors, env)
  {
    assert InStep(anchors, {}, map[], {}, 2, m);
    var (ts, w1) := EmitAll(a, anchors, {});
    var env1 := EmitAllReads(a, anchors, m, {}, map[], {}, 2);
    var us := EmitAll(b, anchors, w1).0;
    env := EmitAllReads(b, anchors, m, w1, env1, {}, 2);
    EmitAllUniform(b, anchors, m, w1, env1, {}, 2);
    ExpandAllConcat(ts, us, map[]);
    section, pairs := ExpandAll(ts, map[]).nodes, ExpandAll(us, env1).nodes;
  }

  lemma ReadsBack(d: Document, o: WriteOptions, exact: bool)
    returns (section: seq<Yaml>, pairs: seq<Yaml>, env: map<string, Yaml>)
    requires exact ==> CaseIsKept(d, o)
    ensures NormAll(section, exact) == NormAll(CommonSection(d, o), exact)
    ensures NormAll(pairs, exact) == NormAll(Pairs(d), exact)
    ensures Expand(Saved(d, o), map[]) == Expanded(Mapping(section + pairs), env)
    ensures UniformAll(pairs, SetAnchors(CommonFor(d, o)), env)
  {
    CommonForInjective(d, o);
    SectionHolds(d, o, exact);
    PairsHold(d, o, exact);
    SavedParts(d, o);
    section, pairs, env := PartsReadBack(CommonSection(d, o), Pairs(d), SetAnchors(CommonFor(d, o)),
                                         Meant(CommonFor(d, o), exact));
  }

  /** Whatever the options, reading back what was saved gives the document, up to the case of file names,
      after the common section if there is one. No alias comes before its anchor and no anchor is written
      twice, or reading would fail. Even the marks, which a reader does not see, are the same. */
  lemma SavedReadsBack(d: Document, o: WriteOptions) returns (section: seq<Yaml>, pairs: seq<Yaml>)
    ensures FoldedAll(section) == FoldedAll(CommonSection(d, o)) && FoldedAll(pairs) == FoldedAll(Pairs(d))
    ensures |section| == |CommonSection(d, o)|
    ensures Expand(Saved(d, o), map[]).Expanded? && Expand(Saved(d, o), map[]).node == Mapping(section + pairs)
  {
    var env;
    section, pairs, env := ReadsBack(d, o, false);
    FoldedLength(section);
    FoldedLength(CommonSection(d, o));
  }

  lemma {:induction false} FoldedLength(ys: seq<Yaml>)
    ensures |FoldedAll(ys)| == |ys|
  {
    if ys != [] {
      FoldedLength(ys[1..]);
    }
  }

  lemma {:induction false} FileInYamls(files: seq<File>, f: File)
    requires f in files
    ensures FileYaml(f) in FileYamls(files)
  {
    if f != files[0] {
      FileInYamls(files[1..], f);
    }
  }

  lemma {:induction false} PluginInYamls(plugins: seq<PluginMetadata>, p: PluginMetadata)
    requires p in plugins && !HasNameOnly(p)
    ensures PluginYaml(p) in PluginYamls(plugins)
  {
    if p != plugins[0] {
      PluginInYamls(plugins[1..], p);
    }
  }

  lemma {:induction false} FileInPlugin(plugins: seq<PluginMetadata>, f: File) returns (p: PluginMetadata)
    requires f in AllFiles(plugins)
    ensures p in plugins && f in PluginFiles(p)
  {
    if f in PluginFiles(plugins[0]) {
      p := plugins[0];
    } else {
      p := FileInPlugin(plugins[1..], f);
    }
  }

  lemma ListUniform(ys: seq<Yaml>, key: string, files: seq<File>, f: File, anchors: Anchors, env: map<string, Yaml>)
    requires UniformAll(ys, anchors, env) && f in files && Pair(key, Sequence(FileYamls(files))) in ys
    ensures Uniform(FileYaml(f), anchors, env)
  {
    UniformMember(ys, Pair(key, Sequence(FileYamls(files))), anchors, env);
    assert Uniform(Sequence(FileYamls(files)), anchors, env);
    FileInYamls(files, f);
    UniformMember(FileYamls(files), FileYaml(f), anchors, env);
  }

  lemma PluginFileUniform(p: PluginMetadata, f: File, anchors: Anchors, env: map<string, Yaml>)
    requires Uniform(PluginYaml(p), anchors, env) && f in PluginFiles(p)
    ensures Uniform(FileYaml(f), anchors, env)
  {
    var ys := PluginYaml(p).pairs;
    if f in p.loadAfter {
      ListUniform(ys, "after", p.loadAfter, f, anchors, env);
    } else if f in p.requirements {
      ListUniform(ys, "req", p.requirements, f, anchors, env);
    } else {
      ListUniform(ys, "inc", p.incompatibilities, f, anchors, env);
    }
  }

  lemma FileUniform(d: Document, f: File, anchors: Anchors, env: map<string, Yaml>)
    requires UniformAll(Pairs(d), anchors, env) && f in AllFiles(d.plugins)
    ensures Uniform(FileYaml(f), anchors, env)
  {
    var p := FileInPlugin(d.plugins, f);
    var yamls := PluginYamls(d.plugins);
    UniformMember(Pairs(d), Pair("plugins", Sequence(yamls)), anchors, env);
    assert Uniform(Sequence(yamls), anchors, env);
    PluginInYamls(d.plugins, p);
    UniformMember(yamls, PluginYaml(p), anchors, env);
    PluginFileUniform(p, f, anchors, env);
  }

  /** The name is written in its own case. */
  lemma FileInnerInjective(f: File, g: File)
    requires FileKey(f) == FileKey(g) && FileInner(f) == FileInner(g)
    ensures f == g
  {
    if !IsScalarFile(f) {
      assert FileInner(f).pairs[0] == Pair("name", FileName(f.name));
      assert FileInner(g).pairs[0] == Pair("name", FileName(g.name));
    }
  }

  lemma RepeatedHasAnchor(d: Document, o: WriteOptions, f: File, g: File)
    requires o.writeAnchors && f != g && FileKey(f) == FileKey(g)
    requires var files := CountedFiles(AllFiles(d.plugins), o.anchorFileStrings); f in files && g in files
    ensures FileId(f) in SetAnchors(CommonFor(d, o))
  {
    var files, log := CountedFiles(AllFiles(d.plugins), o.anchorFileStrings),
        DocumentLog(d.messages, d.plugins, o.anchorFileStrings);
    DocumentFiles(d.messages, d.plugins, o.anchorFileStrings);
    OccursTwice(files, f, g);
    SelectCounts(log, FileId(f));
    AnchorIffRepeated(log, files, FileId(f));
  }

  lemma {:induction false} OccursTwice(files: seq<File>, f: File, g: File)
    requires f != g && f in files && g in files && FileId(f) == FileId(g)
    ensures Occurrences(Ids(FileId, files), FileId(f)) > 1
  {
    IdsFirst(FileId, files);
    OccurrencesConcat([FileId(files[0])], Ids(FileId, files[1..]), FileId(f));
    if f in files[1..] && g in files[1..] {
      OccursTwice(files[1..], f, g);
    } else {
      var h := if f in files[1..] then f else g;
      var i :| 0 <= i < |files[1..]| && files[1..][i] == h;
      assert Ids(FileId, files[1..])[i] == FileId(f);
      OccursIff(Ids(FileId, files[1..]), FileId(f));
    }
  }

  /** What a reader sees is the document with nothing changed if and only if no two equal files that may be
      anchored differ in the case of their names. Otherwise one of them is read in the case of the other. */
  lemma SavedReadsBackExactlyIff(d: Document, o: WriteOptions) returns (section: seq<Yaml>, pairs: seq<Yaml>)
    ensures Expand(Saved(d, o), map[]).Expanded? && Expand(Saved(d, o), map[]).node == Mapping(section + pairs)
    ensures |section| == |CommonSection(d, o)|
    ensures FoldedAll(section) == FoldedAll(CommonSection(d, o)) && FoldedAll(pairs) == FoldedAll(Pairs(d))
    ensures CaseIsKept(d, o) ==> section == CommonSection(d, o)
    ensures CaseIsKept(d, o) ==> pairs == Pairs(d)
    ensures StrippedAll(pairs) == StrippedAll(Pairs(d)) <==> CaseIsKept(d, o)
  {
    var env;
    if CaseIsKept(d, o) {
      section, pairs, env := ReadsBack(d, o, true);
    } else {
      section, pairs, env := ReadsBack(d, o, false);
      FoldedLength(section);
      FoldedLength(CommonSection(d, o));
      if StrippedAll(pairs) == StrippedAll(Pairs(d)) {
        FoldedAndStrippedAll(pairs, Pairs(d));
        CaseLost(d, o, env);
      }
    }
  }

  /** One plugin that loads after a file and requires it, with different case. */
  function TwoCases(): Document {
    var upper, lower := Filename("Blank.esm", "blank.esm"), Filename("blank.esm", "blank.esm");
    Document([], [], [], [WithName(Filename("a.esp", "a.esp")).(loadAfter := [File(upper, None, [], None, None)],
                                                                requirements := [File(lower, None, [], None, None)])])
  }

  /** If files that have only a name may have anchors, that document reads back with the case of a name changed. */
  lemma CaseCanBeLost(o: WriteOptions) returns (section: seq<Yaml>, pairs: seq<Yaml>)
    requires o.writeAnchors && o.anchorFileStrings
    ensures Expand(Saved(TwoCases(), o), map[]).Expanded?
    ensures Expand(Saved(TwoCases(), o), map[]).node == Mapping(section + pairs)
    ensures |section| == |CommonSection(TwoCases(), o)|
    ensures StrippedAll(pairs) != StrippedAll(Pairs(TwoCases()))
  {
    section, pairs := SavedReadsBackExactlyIff(TwoCases(), o);
    TwoCasesDisagree(o);
  }

  lemma TwoCasesDisagree(o: WriteOptions)
    requires o.writeAnchors && o.anchorFileStrings
    ensures !CaseIsKept(TwoCases(), o)
  {
    var p := TwoCases().plugins[0];
    var f, g := p.loadAfter[0], p.requirements[0];
    assert f in PluginFiles(p) && g in PluginFiles(p);
    assert f in AllFiles(TwoCases().plugins) && g in AllFiles(TwoCases().plugins);
    CountedFilesMembers(AllFiles(TwoCases().plugins), true);
    assert FileKey(f) == FileKey(g) && f.name.text[0] != g.name.text[0];
  }

  lemma CaseLost(d: Document, o: WriteOptions, env: map<string, Yaml>)
    requires UniformAll(Pairs(d), SetAnchors(CommonFor(d, o)), env)
    ensures CaseIsKept(d, o)
  {
    if !CaseIsKept(d, o) {
      var files := CountedFiles(AllFiles(d.plugins), o.anchorFileStrings);
      var f, g :| f in files && g in files && FileKey(f) == FileKey(g) && f != g;
      CountedFilesMembers(AllFiles(d.plugins), o.anchorFileStrings);
      RepeatedHasAnchor(d, o, f, g);
      FileUniform(d, f, SetAnchors(CommonFor(d, o)), env);
      FileUniform(d, g, SetAnchors(CommonFor(d, o)), env);
      FileInnerInjective(f, g);
    }
  }

  /** Without anchors the document is saved as it is. */
  lemma SavedPlain(d: Document, o: WriteOptions)
    requires !o.writeAnchors
    ensures Saved(d, o) == Mapping(Pairs(d))
  {
    NothingAnchored();
    assert CommonSection(d, o) + Pairs(d) == Pairs(d);
    EmitAllPlain(Pairs(d), {});
  }

  // ---------- how often values are written ----------

  ghost function InverseOf(anchors: Anchors): map<string, Shareable> {
    map n | n in anchors.Values :: var id :| id in anchors && anchors[id] == n; id
  }

  lemma InverseIsInverse(anchors: Anchors)
    requires Injective(anchors)
    ensures Inverse(anchors, InverseOf(anchors))
  {
    forall x | x in anchors
      ensures anchors[x] in InverseOf(anchors) && InverseOf(anchors)[anchors[x]] == x
    {
      assert anchors[x] in anchors.Values;
    }
  }

  lemma {:induction false} LogCountedOne(y: Yaml, scalars: bool, log: seq<Shareable>)
    requires AllCounted(log, scalars)
    ensures AllCounted(Log(y, scalars, log), scalars)
    decreases y
  {
    match y
    case Pair(_, value) => LogCountedOne(value, scalars, log);
    case Mapping(pairs) => LogCounted(pairs, scalars, log);
    case Sequence(items) => LogCounted(items, scalars, log);
    case Shared(id, inner) =>
      LogCountedOne(inner, scalars, log);
      if Counted(id, scalars) {
        LogCountedOne(inner, scalars, log + [id]);
      }
    case _ =>
  }

  lemma {:induction false} LogCounted(ys: seq<Yaml>, scalars: bool, log: seq<Shareable>)
    requires AllCounted(log, scalars)
    ensures AllCounted(LogAll(ys, scalars, log), scalars)
    decreases ys
  {
    if ys != [] {
      LogCountedOne(ys[0], scalars, log);
      LogCounted(ys[1..], scalars, Log(ys[0], scalars, log));
    }
  }

  lemma PairsWriteLog(ys: seq<Yaml>, anchors: Anchors, scalars: bool, m: Meaning)
    requires CoherentAll(ys, 2, m) && Injective(anchors) && AnchorsRepeats(anchors, LogAll(ys, scalars, []))
    ensures Writes(Mapping(EmitAll(ys, anchors, {}).0), InverseOf(anchors), scalars) == LogAll(ys, scalars, [])
  {
    var total := LogAll(ys, scalars, []);
    LogCounted(ys, scalars, []);
    InverseIsInverse(anchors);
    EmitAllWrites(ys, anchors, InverseOf(anchors), scalars, {}, [], total, 2, m);
    var writes := WritesAll(EmitAll(ys, anchors, {}).0, InverseOf(anchors), scalars);
    assert [] + writes == writes;
  }

  /** The values that save counts are those that writing the document's tree meets. */
  lemma PairsLog(d: Document, scalars: bool)
    ensures LogAll(Pairs(d), scalars, []) == DocumentLog(d.messages, d.plugins, scalars)
  {
    var o := WriteOptions(false, false, false);
    PairsHold(d, o, false);
    LogAllIsLogIds(Pairs(d), scalars, [], 2, Meant(CommonFor(d, o), false));
  }

  /** The values that writing the whole tree meets. */
  ghost function SavedLog(d: Document, o: WriteOptions): seq<Shareable> {
    LogIds(SectionIds(d, o) + DocumentIds(d.messages, d.plugins), o.anchorFileStrings, [])
  }

  lemma SavedHolds(d: Document, o: WriteOptions)
    ensures Holds(CommonSection(d, o) + Pairs(d), SectionIds(d, o) + DocumentIds(d.messages, d.plugins), 2,
                  Meant(CommonFor(d, o), false))
    ensures LogAll(CommonSection(d, o) + Pairs(d), o.anchorFileStrings, []) == SavedLog(d, o)
  {
    var m := Meant(CommonFor(d, o), false);
    SectionHolds(d, o, false);
    PairsHold(d, o, false);
    HoldsConcat(CommonSection(d, o), Pairs(d), SectionIds(d, o), DocumentIds(d.messages, d.plugins), 2, m);
    LogAllIsLogIds(CommonSection(d, o) + Pairs(d), o.anchorFileStrings, [], 2, m);
  }

  lemma AnchorIffInCommon(c: Common, id: Shareable)
    ensures id in SetAnchors(c) <==> id in Leaves(c) + Nodes(c)
  {
    AnchorIsOfKind(c, id);
    CommonIdsKind(c, Files);
    CommonIdsKind(c, Messages);
    CommonIdsKind(c, Contents);
    CommonIdsKind(c, Conditions);
  }

  lemma AnchoredIffLoggedTwice(d: Document, o: WriteOptions, id: Shareable)
    requires o.writeAnchors
    ensures id in SetAnchors(CommonFor(d, o))
       <==> Occurrences(DocumentLog(d.messages, d.plugins, o.anchorFileStrings), id) > 1
  {
    DocumentFiles(d.messages, d.plugins, o.anchorFileStrings);
    AnchorIffRepeated(DocumentLog(d.messages, d.plugins, o.anchorFileStrings),
                      CountedFiles(AllFiles(d.plugins), o.anchorFileStrings), id);
  }

  lemma DocumentLogCounted(d: Document, scalars: bool)
    ensures AllCounted(DocumentLog(d.messages, d.plugins, scalars), scalars)
  {
    PairsLog(d, scalars);
    LogCounted(Pairs(d), scalars, []);
  }

  lemma NodesDistinct(c: Common)
    requires NoDuplicates(c)
    ensures Distinct(Leaves(c)) && Distinct(Nodes(c))
  {
    DistinctConcat(CommonIds(c, Messages), CommonIds(c, Files), Messages, Files) by {
      CommonIdsKind(c, Messages);
      CommonIdsKind(c, Files);
    }
    DistinctConcat(CommonIds(c, Contents), CommonIds(c, Conditions), Contents, Conditions) by {
      CommonIdsKind(c, Contents);
      CommonIdsKind(c, Conditions);
    }
  }

  lemma NodeIsLogged(d: Document, o: WriteOptions, v: Shareable)
    requires o.writeAnchors && v in Nodes(CommonFor(d, o))
    ensures v in DocumentLog(d.messages, d.plugins, o.anchorFileStrings) && Counted(v, o.anchorFileStrings)
  {
    var log := DocumentLog(d.messages, d.plugins, o.anchorFileStrings);
    AnchorIffInCommon(CommonFor(d, o), v);
    AnchoredIffLoggedTwice(d, o, v);
    OccursIff(log, v);
    DocumentLogCounted(d, o.anchorFileStrings);
  }

  lemma NodesAreDeep(c: Common)
    ensures forall v <- Nodes(c) :: Depth(v) == 1
  {
    CommonIdsKind(c, Messages);
    CommonIdsKind(c, Files);
  }

  /** The messages and files in the common section are met again in the document. */
  lemma NodesAreLogged(d: Document, o: WriteOptions)
    requires o.writeAnchors
    ensures AreNodes(Nodes(CommonFor(d, o)), o.anchorFileStrings)
    ensures forall v <- Nodes(CommonFor(d, o)) :: v in DocumentLog(d.messages, d.plugins, o.anchorFileStrings)
  {
    CommonForNoDuplicates(d, o);
    NodesDistinct(CommonFor(d, o));
    NodesAreDeep(CommonFor(d, o));
    forall v | v in Nodes(CommonFor(d, o))
      ensures v in DocumentLog(d.messages, d.plugins, o.anchorFileStrings) && Counted(v, o.anchorFileStrings)
    {
      NodeIsLogged(d, o, v);
    }
  }

  lemma {:induction false} OccursOnce(s: seq<Shareable>, x: Shareable)
    requires Distinct(s)
    ensures Occurrences(s, x) == if x in s then 1 else 0
  {
    if s != [] {
      assert s == [s[0]] + s[1..];
      OccursOnce(s[1..], x);
      OccurrencesConcat([s[0]], s[1..], x);
    }
  }

  lemma CommonOccursOnce(c: Common, id: Shareable)
    requires NoDuplicates(c)
    ensures Occurrences(Leaves(c) + Nodes(c), id) == if id in SetAnchors(c) then 1 else 0
  {
    NodesDistinct(c);
    AnchorIffInCommon(c, id);
    OccursOnce(Leaves(c), id);
    OccursOnce(Nodes(c), id);
    OccurrencesConcat(Leaves(c), Nodes(c), id);
    if id in Leaves(c) {
      CommonLeaves(c);
      CommonIdsKind(c, Messages);
      CommonIdsKind(c, Files);
    }
  }

  lemma NothingAnchored()
    ensures SetAnchors(Common([], [], [], [])) == map[]
  {
    forall id
      ensures id !in SetAnchors(Common([], [], [], []))
    {
      AnchorIsOfKind(Common([], [], [], []), id);
    }
  }

  lemma EmptySection(ids: seq<Shareable>)
    ensures [] + ids == ids
  {
  }

  lemma NoSection(d: Document, o: WriteOptions)
    requires o.writeAnchors && !HasSection(d, o)
    ensures SavedLog(d, o) == DocumentLog(d.messages, d.plugins, o.anchorFileStrings)
    ensures o.writeCommonSection ==> SetAnchors(CommonFor(d, o)) == map[]
  {
    EmptySection(DocumentIds(d.messages, d.plugins));
    if o.writeCommonSection {
      NoAnchorsWithoutSection(d, o);
    }
  }

  lemma SectionCounts(d: Document, o: WriteOptions, id: Shareable)
    requires HasSection(d, o)
    ensures Occurrences(SavedLog(d, o), id)
         == Occurrences(DocumentLog(d.messages, d.plugins, o.anchorFileStrings), id)
            + Occurrences(Leaves(CommonFor(d, o)) + Nodes(CommonFor(d, o)), id)
  {
    var c := CommonFor(d, o);
    NodesAreLogged(d, o);
    CommonLeaves(c);
    CountedOnceMore(Leaves(c), Nodes(c), DocumentIds(d.messages, d.plugins), o.anchorFileStrings, id);
  }

  lemma SavedLogCounts(d: Document, o: WriteOptions, id: Shareable)
    requires o.writeAnchors
    ensures Occurrences(SavedLog(d, o), id)
         == Occurrences(DocumentLog(d.messages, d.plugins, o.anchorFileStrings), id)
            + if o.writeCommonSection && id in SetAnchors(CommonFor(d, o)) then 1 else 0
  {
    if HasSection(d, o) {
      SectionCounts(d, o, id);
      CommonForNoDuplicates(d, o);
      CommonOccursOnce(CommonFor(d, o), id);
    } else {
      NoSection(d, o);
    }
  }

  lemma AnchorsOfSaved(d: Document, o: WriteOptions)
    requires o.writeAnchors
    ensures AnchorsRepeats(SetAnchors(CommonFor(d, o)), SavedLog(d, o))
  {
    forall id
      ensures id in SetAnchors(CommonFor(d, o)) <==> multiset(SavedLog(d, o))[id] > 1
    {
      SavedLogCounts(d, o, id);
      AnchoredIffLoggedTwice(d, o, id);
    }
  }

  lemma SavedWritesLog(d: Document, o: WriteOptions)
    requires o.writeAnchors
    ensures Writes(Saved(d, o), InverseOf(SetAnchors(CommonFor(d, o))), o.anchorFileStrings) == SavedLog(d, o)
  {
    var anchors := SetAnchors(CommonFor(d, o));
    CommonForInjective(d, o);
    SavedHolds(d, o);
    AnchorsOfSaved(d, o);
    PairsWriteLog(CommonSection(d, o) + Pairs(d), anchors, o.anchorFileStrings, Meant(CommonFor(d, o), false));
  }

  /** Every value is written, in full or as an alias, as often as it was counted, and once more if it is in the
      common section. */
  lemma WritesAreLogged(d: Document, o: WriteOptions, id: Shareable)
    requires o.writeAnchors
    ensures var anchors, log := SetAnchors(CommonFor(d, o)), DocumentLog(d.messages, d.plugins, o.anchorFileStrings);
            var writes := Writes(Saved(d, o), InverseOf(anchors), o.anchorFileStrings);
            && Occurrences(writes, id)
               == Occurrences(log, id) + (if o.writeCommonSection && id in anchors then 1 else 0)
            && (!o.writeCommonSection ==> writes == log)
  {
    SavedWritesLog(d, o);
    SavedLogCounts(d, o, id);
    if !o.writeCommonSection {
      NoSection(d, o);
    }
  }

  /** The anchor's number is the value's place among the repeated values of its kind, in the order in which
      they are first written. */
  ghost predicate Numbered(anchors: Anchors, writes: seq<Shareable>, id: Shareable) {
    var ids := Repeated(Self, Select(writes, KindOf(id)));
    id in anchors
    && exists i: nat :: i < |ids| && ids[i] == id && anchors[id] == AnchorName(KindOf(id), i)
  }

  /** The common values are the repeated values of the saved tree, in the same order. */
  lemma CommonRepeats(d: Document, o: WriteOptions, kind: Kind)
    requires o.writeAnchors
    ensures Repeated(Self, Select(SavedLog(d, o), kind)) == CommonIds(CommonFor(d, o), kind)
  {
    var c, ids := CommonFor(d, o), DocumentIds(d.messages, d.plugins);
    if HasSection(d, o) {
      NodesAreLogged(d, o);
      SectionComesFirst(c, ids, o.anchorFileStrings, kind);
      CommonForNoDuplicates(d, o);
      forall x
        ensures x in CommonIds(c, kind) <==> Occurrences(Select(SavedLog(d, o), kind), x) > 1
      {
        CommonMember(d, o, kind, x);
      }
      RepeatedPrefix(Select(SavedLog(d, o), kind), CommonIds(c, kind));
    } else {
      NoSection(d, o);
      DocumentFiles(d.messages, d.plugins, o.anchorFileStrings);
      CommonIdsRepeat(DocumentLog(d.messages, d.plugins, o.anchorFileStrings),
                      CountedFiles(AllFiles(d.plugins), o.anchorFileStrings), kind);
    }
  }

  lemma CommonMember(d: Document, o: WriteOptions, kind: Kind, x: Shareable)
    requires o.writeAnchors
    ensures x in CommonIds(CommonFor(d, o), kind) <==> Occurrences(Select(SavedLog(d, o), kind), x) > 1
  {
    if KindOf(x) == kind {
      SelectCounts(SavedLog(d, o), x);
      SavedLogCounts(d, o, x);
      AnchoredIffLoggedTwice(d, o, x);
      AnchorIsOfKind(CommonFor(d, o), x);
    } else {
      CommonIdsKind(CommonFor(d, o), kind);
      SelectKind(SavedLog(d, o), kind);
      OccursIff(Select(SavedLog(d, o), kind), x);
    }
  }

  /** A value gets an anchor exactly when it is written at least twice, whether or not there is a common section. */
  lemma AnchoredIffWrittenTwice(d: Document, o: WriteOptions, id: Shareable)
    requires o.writeAnchors
    ensures var anchors := SetAnchors(CommonFor(d, o));
            var writes := Writes(Saved(d, o), InverseOf(anchors), o.anchorFileStrings);
            && (id in anchors <==> Occurrences(writes, id) > 1)
            && (id in anchors ==> Numbered(anchors, writes, id))
  {
    SavedWritesLog(d, o);
    SavedLogCounts(d, o, id);
    AnchoredIffLoggedTwice(d, o, id);
    CommonForNoDuplicates(d, o);
    if id in SetAnchors(CommonFor(d, o)) {
      var i := AnchorNamed(CommonFor(d, o), id);
      CommonRepeats(d, o, KindOf(id));
    }
  }

  // ---------- after the common section ----------

  lemma AnchorInSection(d: Document, o: WriteOptions, id: Shareable)
    requires o.writeCommonSection && id in SetAnchors(CommonFor(d, o))
    ensures id in RootIdsAll(CommonSection(d, o))
  {
    AnchorIffInCommon(CommonFor(d, o), id);
    if HasSection(d, o) {
      SectionHolds(d, o, false);
    } else {
      NoAnchorsWithoutSection(d, o);
    }
  }

  lemma NoAnchorsWithoutSection(d: Document, o: WriteOptions)
    requires o.writeCommonSection && !HasSection(d, o)
    ensures SetAnchors(CommonFor(d, o)) == map[]
  {
    assert CommonFor(d, o) == Common([], [], [], []);
    NothingAnchored();
  }

  /** Writing the common section writes every anchor. */
  lemma SectionWritesAll(d: Document, o: WriteOptions)
    requires o.writeCommonSection
    ensures SetAnchors(CommonFor(d, o)).Values <= EmitAll(CommonSection(d, o), SetAnchors(CommonFor(d, o)), {}).1
  {
    var anchors := SetAnchors(CommonFor(d, o));
    forall n | n in anchors.Values
      ensures n in EmitAll(CommonSection(d, o), anchors, {}).1
    {
      var id :| id in anchors && anchors[id] == n;
      AnchorInSection(d, o, id);
      RootsAllWritten(CommonSection(d, o), id, anchors, {});
    }
  }

  /** With a common section, every anchor is in it: nothing after it has one. */
  lemma CommonSectionHoldsAllAnchors(d: Document, o: WriteOptions) returns (section: seq<Yaml>, pairs: seq<Yaml>)
    requires o.writeCommonSection
    ensures Saved(d, o) == Mapping(section + pairs) && |section| == |CommonSection(d, o)| && AnchorFreeAll(pairs)
  {
    var anchors := SetAnchors(CommonFor(d, o));
    SavedParts(d, o);
    SectionWritesAll(d, o);
    PairsHold(d, o, false);
    section := EmitAll(CommonSection(d, o), anchors, {}).0;
    var w := EmitAll(CommonSection(d, o), anchors, {}).1;
    pairs := EmitAll(Pairs(d), anchors, w).0;
    AllWrittenAnchorFreeAll(Pairs(d), anchors, w, 2, Meant(CommonFor(d, o), false));
    EmitLength(CommonSection(d, o), anchors, {});
  }

  lemma {:induction false} EmitLength(ys: seq<Yaml>, anchors: Anchors, w: set<string>)
    ensures |EmitAll(ys, anchors, w).0| == |ys|
    decreases |ys|
  {
    if ys != [] {
      EmitLength(ys[1..], anchors, Emit(ys[0], anchors, w).1);
    }
  }
}
