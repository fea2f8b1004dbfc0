/** Saving and reading back gives the tree of a document that differs from the one that was saved at most in the case
    of file names. */
module Recasing {
  import opened Wrappers
  import opened Metadata
  import opened MetadataYaml
  import opened AnchoredYaml
  import opened SharedValues
  import opened CommonValues
  import opened AnchorNames
  import opened AnchorCounts
  import opened MetadataWriter
  import opened SavedDocuments

  // ---------- the file names in a tree ----------

  ghost predicate NamesIn(y: Yaml, names: set<Filename>)
    decreases y
  {
    match y
    case FileName(name) => name in names
    case Pair(_, value) => NamesIn(value, names)
    case Mapping(pairs) => forall x | x in pairs :: NamesIn(x, names)
    case Sequence(items) => forall x | x in items :: NamesIn(x, names)
    case Shared(_, inner) => NamesIn(inner, names)
    case Anchored(_, node) => NamesIn(node, names)
    case _ => true
  }

  ghost predicate AllNamesIn(ys: seq<Yaml>, names: set<Filename>) {
    forall y :: y in ys ==> NamesIn(y, names)
  }

  ghost predicate EnvNamesIn(env: map<string, Yaml>, names: set<Filename>) {
    forall n :: n in env ==> NamesIn(env[n], names)
  }

  lemma {:induction false} EmitNames(y: Yaml, anchors: Anchors, written: set<string>, names: set<Filename>)
    requires NamesIn(y, names)
    ensures NamesIn(Emit(y, anchors, written).0, names)
    decreases y
  {
    match y
    case Pair(_, value) => EmitNames(value, anchors, written, names);
    case Mapping(pairs) => EmitAllNames(pairs, anchors, written, names);
    case Sequence(items) => EmitAllNames(items, anchors, written, names);
    case Shared(id, inner) =>
      EmitNames(inner, anchors, written, names);
      if id in anchors {
        EmitNames(inner, anchors, written + {anchors[id]}, names);
      }
    case _ =>
  }

  lemma {:induction false} EmitAllNames(ys: seq<Yaml>, anchors: Anchors, written: set<string>, names: set<Filename>)
    requires AllNamesIn(ys, names)
    ensures AllNamesIn(EmitAll(ys, anchors, written).0, names)
    decreases ys
  {
    if ys != [] {
      EmitNames(ys[0], anchors, written, names);
      EmitAllNames(ys[1..], anchors, Emit(ys[0], anchors, written).1, names);
    }
  }

  lemma {:induction false} ExpandNames(t: Yaml, env: map<string, Yaml>, names: set<Filename>)
    requires NamesIn(t, names) && EnvNamesIn(env, names) && Expand(t, env).Expanded?
    ensures NamesIn(Expand(t, env).node, names) && EnvNamesIn(Expand(t, env).env, names)
    decreases t
  {
    match t
    case Pair(_, value) => ExpandNames(value, env, names);
    case Mapping(pairs) => ExpandAllNames(pairs, env, names);
    case Sequence(items) => ExpandAllNames(items, env, names);
    case Shared(_, inner) => ExpandNames(inner, env, names);
    case Anchored(_, node) => ExpandNames(node, env, names);
    case _ =>
  }

  lemma {:induction false} ExpandAllNames(ts: seq<Yaml>, env: map<string, Yaml>, names: set<Filename>)
    requires AllNamesIn(ts, names) && EnvNamesIn(env, names) && ExpandAll(ts, env).ExpandedAll?
    ensures AllNamesIn(ExpandAll(ts, env).nodes, names) && EnvNamesIn(ExpandAll(ts, env).env, names)
    decreases ts
  {
    if ts != [] {
      ExpandNames(ts[0], env, names);
      ExpandAllNames(ts[1..], Expand(ts[0], env).env, names);
    }
  }

  /** A tree without file names is told apart even if their case is folded. */
  lemma {:induction false} FoldedNameless(y: Yaml, z: Yaml)
    requires NamesIn(z, {}) && Folded(y) == Folded(z)
    ensures y == z
    decreases y
  {
    match y
    case Pair(_, value) => FoldedNameless(value, z.value);
    case Mapping(pairs) => AllFoldedNameless(pairs, z.pairs);
    case Sequence(items) => AllFoldedNameless(items, z.items);
    case Shared(_, inner) => FoldedNameless(inner, z.inner);
    case _ =>
  }

  lemma {:induction false} AllFoldedNameless(ys: seq<Yaml>, zs: seq<Yaml>)
    requires AllNamesIn(zs, {}) && FoldedAll(ys) == FoldedAll(zs)
    ensures ys == zs
    decreases ys
  {
    FoldedLength(ys);
    FoldedLength(zs);
    if ys != [] {
      AllFirst(ys);
      AllFirst(zs);
      FoldedNameless(ys[0], zs[0]);
      AllFoldedNameless(ys[1..], zs[1..]);
      Sequences.HeadAndTail(ys);
      Sequences.HeadAndTail(zs);
    }
  }

  // ---------- the file names in what is written ----------

  lemma TextNameless(key: string, text: string)
    ensures NamesIn(Pair(key, Text(text)), {})
  {
    assert NamesIn(Text(text), {});
  }

  lemma {:induction false} ContentYamlsNameless(contents: seq<MessageContent>)
    ensures AllNamesIn(ContentYamls(contents), {})
  {
    if contents != [] {
      TextNameless("lang", contents[0].language);
      TextNameless("text", contents[0].text);
      assert NamesIn(ContentYaml(contents[0]), {});
      ContentYamlsNameless(contents[1..]);
    }
  }

  lemma ContentsNameless(key: string, contents: seq<MessageContent>)
    ensures NamesIn(ContentsYaml(contents), {}) && AllNamesIn(ContentsPair(key, contents), {})
  {
    ContentYamlsNameless(contents);
    assert NamesIn(ContentsInner(contents), {});
    assert NamesIn(ContentsYaml(contents), {});
  }

  lemma ConditionNameless(key: string, condition: Option<string>)
    ensures AllNamesIn(ConditionPair(key, condition), {})
  {
    if condition.Some? {
      assert NamesIn(Text(condition.value), {});
      assert NamesIn(ConditionYaml(condition.value), {});
    }
  }

  lemma MessageNameless(message: Message)
    ensures NamesIn(MessageYaml(message), {})
  {
    TextNameless("type", LevelText(message.level));
    ContentsNameless("content", message.content);
    ConditionNameless("condition", message.condition);
    assert NamesIn(MessageInner(message), {});
  }

  lemma {:induction false} MessagesNameless(messages: seq<Message>)
    ensures AllNamesIn(MessageYamls(messages), {})
  {
    if messages != [] {
      MessageNameless(messages[0]);
      MessagesNameless(messages[1..]);
    }
  }

  lemma {:induction false} TagsNameless(tags: seq<Tag>)
    ensures AllNamesIn(TagYamls(tags), {})
  {
    if tags != [] {
      TextNameless("name", TagText(tags[0]));
      ConditionNameless("condition", tags[0].condition);
      assert NamesIn(TagYaml(tags[0]), {});
      TagsNameless(tags[1..]);
    }
  }

  lemma CleaningDataNameless(c: PluginCleaningData)
    ensures NamesIn(CleaningDataYaml(c), {})
  {
    TextNameless("util", c.cleaningUtility);
    ContentsNameless("detail", c.detail);
    ConditionNameless("condition", c.condition);
  }

  lemma {:induction false} AllCleaningDataNameless(data: seq<PluginCleaningData>)
    ensures AllNamesIn(CleaningDataYamls(data), {})
  {
    if data != [] {
      CleaningDataNameless(data[0]);
      AllCleaningDataNameless(data[1..]);
    }
  }

  lemma {:induction false} LocationsNameless(locations: seq<Location>)
    ensures AllNamesIn(LocationYamls(locations), {})
  {
    if locations != [] {
      TextNameless("link", locations[0].url);
      if locations[0].name.Some? {
        TextNameless("name", locations[0].name.value);
      }
      assert NamesIn(LocationYaml(locations[0]), {});
      LocationsNameless(locations[1..]);
    }
  }

  lemma {:induction false} TextsNameless(texts: seq<string>)
    ensures AllNamesIn(TextYamls(texts), {})
  {
    if texts != [] {
      TextsNameless(texts[1..]);
    }
  }

  lemma GroupNameless(g: Group)
    ensures NamesIn(GroupYaml(g), {})
  {
    TextsNameless(g.afterGroups);
    TextNameless("name", g.name);
    assert NamesIn(Sequence(TextYamls(g.afterGroups)), {});
  }

  lemma {:induction false} GroupsNameless(groups: seq<Group>)
    ensures AllNamesIn(GroupYamls(groups), {})
  {
    if groups != [] {
      GroupNameless(groups[0]);
      GroupsNameless(groups[1..]);
    }
  }

  lemma {:induction false} NamesGrow(y: Yaml, names: set<Filename>, more: set<Filename>)
    requires NamesIn(y, names) && names <= more
    ensures NamesIn(y, more)
    decreases y
  {
    match y
    case Pair(_, value) => NamesGrow(value, names, more);
    case Mapping(pairs) =>
      forall x | x in pairs
        ensures NamesIn(x, more)
      {
        NamesGrow(x, names, more);
      }
    case Sequence(items) =>
      forall x | x in items
        ensures NamesIn(x, more)
      {
        NamesGrow(x, names, more);
      }
    case Shared(_, inner) => NamesGrow(inner, names, more);
    case Anchored(_, node) => NamesGrow(node, names, more);
    case _ =>
  }

  lemma AllNamesGrow(ys: seq<Yaml>, names: set<Filename>)
    requires AllNamesIn(ys, {})
    ensures AllNamesIn(ys, names)
  {
    forall y | y in ys
      ensures NamesIn(y, names)
    {
      NamesGrow(y, {}, names);
    }
  }

  // ---------- files ----------

  /** What is written for a file with more than a name after its name. */
  function FileRest(f: File): seq<Yaml> {
    TextPair("display", f.displayName) + ContentsPair("detail", f.detail) + ConditionPair("condition", f.condition)
    + ConditionPair("constraint", f.constraint)
  }

  lemma FileRestNameless(f: File)
    ensures AllNamesIn(FileRest(f), {})
  {
    if f.displayName.Some? {
      TextNameless("display", f.displayName.value);
    }
    ContentsNameless("detail", f.detail);
    ConditionNameless("condition", f.condition);
    ConditionNameless("constraint", f.constraint);
  }

  lemma FileParts(f: File)
    requires !IsScalarFile(f)
    ensures FileInner(f) == Mapping([Pair("name", FileName(f.name))] + FileRest(f))
  {
    assert FileInner(f).pairs == [Pair("name", FileName(f.name))] + FileRest(f);
  }

  lemma FileHasName(f: File, names: set<Filename>)
    requires f.name in names
    ensures NamesIn(FileYaml(f), names)
  {
    assert NamesIn(FileName(f.name), names);
    if !IsScalarFile(f) {
      FileParts(f);
      FileRestNameless(f);
      AllNamesGrow(FileRest(f), names);
      assert NamesIn(Pair("name", FileName(f.name)), names);
    }
    assert NamesIn(FileInner(f), names);
  }

  lemma {:induction false} FilesHaveNames(files: seq<File>, names: set<Filename>)
    requires forall f :: f in files ==> f.name in names
    ensures AllNamesIn(FileYamls(files), names)
  {
    if files != [] {
      FileHasName(files[0], names);
      FilesHaveNames(files[1..], names);
    }
  }

  /** A tree that is that of a file up to case is the tree of a file that equals it. */
  lemma FileOf(y: Yaml, f: File, names: set<Filename>) returns (g: File)
    requires Folded(y) == Folded(FileYaml(f)) && NamesIn(y, names)
    ensures y == FileYaml(g) && FileKey(g) == FileKey(f) && g.name in names
  {
    var inner := y.inner;
    assert y == Shared(FileId(f), inner) && Folded(inner) == Folded(FileInner(f)) && NamesIn(inner, names);
    if IsScalarFile(f) {
      g := f.(name := inner.name);
    } else {
      FileParts(f);
      FileRestNameless(f);
      var ys := inner.pairs;
      FoldedLength(ys);
      FoldedLength([Pair("name", FileName(f.name))] + FileRest(f));
      AllFirst(ys);
      AllFirst([Pair("name", FileName(f.name))] + FileRest(f));
      assert ([Pair("name", FileName(f.name))] + FileRest(f))[1..] == FileRest(f);
      AllFoldedNameless(ys[1..], FileRest(f));
      NameOf(ys[0], f.name, names);
      g := f.(name := ys[0].value.name);
      FileParts(g);
      Sequences.HeadAndTail(ys);
    }
  }

  lemma NameOf(y: Yaml, name: Filename, names: set<Filename>)
    requires Folded(y) == Folded(Pair("name", FileName(name))) && NamesIn(y, names)
    ensures y.Pair? && y.key == "name" && y.value.FileName? && y.value.name.key == name.key && y.value.name in names
  {
    assert Folded(y.value) == Folded(FileName(name)) && NamesIn(y.value, names);
  }

  lemma {:induction false} FilesOf(ys: seq<Yaml>, files: seq<File>, names: set<Filename>) returns (gs: seq<File>)
    requires FoldedAll(ys) == FoldedAll(FileYamls(files)) && AllNamesIn(ys, names)
    ensures ys == FileYamls(gs) && Sequences.Mapped(gs, FileKey) == Sequences.Mapped(files, FileKey)
    ensures forall g :: g in gs ==> g.name in names
  {
    FoldedLength(ys);
    FoldedLength(FileYamls(files));
    if files == [] {
      gs := [];
    } else {
      AllFirst(ys);
      AllFirst(FileYamls(files));
      assert FileYamls(files)[1..] == FileYamls(files[1..]);
      var g := FileOf(ys[0], files[0], names);
      var rest := FilesOf(ys[1..], files[1..], names);
      gs := [g] + rest;
      assert gs[1..] == rest;
      Sequences.HeadAndTail(ys);
    }
  }

  // ---------- plugins ----------

  lemma FoldedSplit(ys: seq<Yaml>, a: seq<Yaml>, b: seq<Yaml>) returns (xs: seq<Yaml>, zs: seq<Yaml>)
    requires FoldedAll(ys) == FoldedAll(a + b)
    ensures ys == xs + zs && FoldedAll(xs) == FoldedAll(a) && FoldedAll(zs) == FoldedAll(b)
  {
    FoldedLength(ys);
    FoldedLength(a + b);
    xs, zs := ys[..|a|], ys[|a|..];
    assert ys == xs + zs;
    FoldedLength(a);
    FoldedLength(xs);
    FoldedConcat(a, b);
    FoldedConcat(xs, zs);
    SamePrefix(FoldedAll(xs), FoldedAll(zs), FoldedAll(a), FoldedAll(b));
  }

  lemma SamePrefix(a: seq<Yaml>, b: seq<Yaml>, c: seq<Yaml>, d: seq<Yaml>)
    requires a + b == c + d && |a| == |c|
    ensures a == c && b == d
  {
    assert a == (a + b)[..|a|] && b == (a + b)[|a|..];
    assert c == (c + d)[..|c|] && d == (c + d)[|c|..];
  }

  lemma ItemsOf(ys: seq<Yaml>, key: string, items: seq<Yaml>, names: set<Filename>) returns (xs: seq<Yaml>)
    requires FoldedAll(ys) == FoldedAll([Pair(key, Sequence(items))]) && AllNamesIn(ys, names)
    ensures ys == [Pair(key, Sequence(xs))] && FoldedAll(xs) == FoldedAll(items) && AllNamesIn(xs, names)
  {
    FoldedLength(ys);
    FoldedLength([Pair(key, Sequence(items))]);
    AllFirst(ys);
    AllFirst([Pair(key, Sequence(items))]);
    var y := ys[0];
    assert NamesIn(y, names) && Folded(y) == Pair(key, Folded(Sequence(items)));
    assert NamesIn(y.value, names) && Folded(y.value) == Folded(Sequence(items));
    xs := y.value.items;
    assert ys == [y];
  }

  lemma FileListOf(ys: seq<Yaml>, key: string, files: seq<File>, names: set<Filename>) returns (gs: seq<File>)
    requires FoldedAll(ys) == FoldedAll(ListPair(key, FileYamls(files))) && AllNamesIn(ys, names)
    ensures ys == ListPair(key, FileYamls(gs)) && Sequences.Mapped(gs, FileKey) == Sequences.Mapped(files, FileKey)
    ensures forall g :: g in gs ==> g.name in names
  {
    if files == [] {
      FoldedLength(ys);
      gs := [];
    } else {
      var items := ItemsOf(ys, key, FileYamls(files), names);
      gs := FilesOf(items, files, names);
    }
  }

  /** What is written for a plugin after its files. */
  function PluginTail(p: PluginMetadata): seq<Yaml> {
    ListPair("msg", MessageYamls(p.messages)) + ListPair("tag", TagYamls(p.tags))
    + ListPair("dirty", CleaningDataYamls(p.dirtyInfo)) + ListPair("clean", CleaningDataYamls(p.cleanInfo))
  }

  function PluginTree(head: seq<Yaml>, after: seq<File>, req: seq<File>, inc: seq<File>, tail: seq<Yaml>): seq<Yaml> {
    head + ListPair("after", FileYamls(after)) + ListPair("req", FileYamls(req)) + ListPair("inc", FileYamls(inc))
    + tail
  }

  lemma PluginParts(p: PluginMetadata)
    ensures PluginYaml(p)
         == Mapping(PluginTree(PluginHead(p), p.loadAfter, p.requirements, p.incompatibilities, PluginTail(p)))
  {
    var s := PluginHead(p) + ListPair("after", FileYamls(p.loadAfter)) + ListPair("req", FileYamls(p.requirements))
             + ListPair("inc", FileYamls(p.incompatibilities));
    Sequences.RegroupFour(s, ListPair("msg", MessageYamls(p.messages)), ListPair("tag", TagYamls(p.tags)),
                          ListPair("dirty", CleaningDataYamls(p.dirtyInfo)),
                          ListPair("clean", CleaningDataYamls(p.cleanInfo)));
  }

  lemma ListNameless(key: string, items: seq<Yaml>)
    requires AllNamesIn(items, {})
    ensures AllNamesIn(ListPair(key, items), {})
  {
    assert NamesIn(Sequence(items), {});
  }

  lemma HeadNameless(p: PluginMetadata)
    ensures AllNamesIn(PluginHead(p), {})
  {
    TextNameless("name", p.name.text);
    LocationsNameless(p.locations);
    ListNameless("url", LocationYamls(p.locations));
    if p.group.Some? {
      TextNameless("group", p.group.value);
    }
  }

  lemma TailNameless(p: PluginMetadata)
    ensures AllNamesIn(PluginTail(p), {})
  {
    MessagesNameless(p.messages);
    ListNameless("msg", MessageYamls(p.messages));
    TagsNameless(p.tags);
    ListNameless("tag", TagYamls(p.tags));
    AllCleaningDataNameless(p.dirtyInfo);
    ListNameless("dirty", CleaningDataYamls(p.dirtyInfo));
    AllCleaningDataNameless(p.cleanInfo);
    ListNameless("clean", CleaningDataYamls(p.cleanInfo));
  }

  lemma FileListHasNames(key: string, files: seq<File>, names: set<Filename>)
    requires forall f :: f in files ==> f.name in names
    ensures AllNamesIn(ListPair(key, FileYamls(files)), names)
  {
    FilesHaveNames(files, names);
    assert NamesIn(Sequence(FileYamls(files)), names);
  }

  lemma PluginHasNames(p: PluginMetadata, names: set<Filename>)
    requires forall f :: f in PluginFiles(p) ==> f.name in names
    ensures NamesIn(PluginYaml(p), names)
  {
    PluginParts(p);
    HeadNameless(p);
    AllNamesGrow(PluginHead(p), names);
    FileListHasNames("after", p.loadAfter, names);
    FileListHasNames("req", p.requirements, names);
    FileListHasNames("inc", p.incompatibilities, names);
    TailNameless(p);
    AllNamesGrow(PluginTail(p), names);
  }

  /** What plugins that differ at most in the case of file names share. */
  function PluginKey(p: PluginMetadata): PluginMetadata {
    p.(loadAfter := Sequences.Mapped(p.loadAfter, FileKey), requirements := Sequences.Mapped(p.requirements, FileKey),
       incompatibilities := Sequences.Mapped(p.incompatibilities, FileKey))
  }

  lemma PluginOf(y: Yaml, p: PluginMetadata, names: set<Filename>) returns (q: PluginMetadata)
    requires Folded(y) == Folded(PluginYaml(p)) && NamesIn(y, names)
    ensures y == PluginYaml(q) && PluginKey(q) == PluginKey(p)
    ensures forall f :: f in PluginFiles(q) ==> f.name in names
  {
    PluginParts(p);
    var after, req, inc := TreeOf(y.pairs, PluginHead(p), p.loadAfter, p.requirements, p.incompatibilities,
                                  PluginTail(p), names) by {
      HeadNameless(p);
      TailNameless(p);
    }
    q := p.(loadAfter := after, requirements := req, incompatibilities := inc);
    PluginParts(q);
  }

  lemma TreeOf(ys: seq<Yaml>, head: seq<Yaml>, after: seq<File>, req: seq<File>, inc: seq<File>, tail: seq<Yaml>,
               names: set<Filename>)
    returns (after': seq<File>, req': seq<File>, inc': seq<File>)
    requires FoldedAll(ys) == FoldedAll(PluginTree(head, after, req, inc, tail)) && AllNamesIn(ys, names)
    requires AllNamesIn(head, {}) && AllNamesIn(tail, {})
    ensures ys == PluginTree(head, after', req', inc', tail)
    ensures Sequences.Mapped(after', FileKey) == Sequences.Mapped(after, FileKey)
    ensures Sequences.Mapped(req', FileKey) == Sequences.Mapped(req, FileKey)
    ensures Sequences.Mapped(inc', FileKey) == Sequences.Mapped(inc, FileKey)
    ensures forall f :: f in after' + req' + inc' ==> f.name in names
  {
    var a, r := ListPair("after", FileYamls(after)), ListPair("req", FileYamls(req));
    var i := ListPair("inc", FileYamls(inc));
    var xs, t := FoldedSplit(ys, head + a + r + i, tail);
    AllFoldedNameless(t, tail);
    var zs;
    xs, zs := FoldedSplit(xs, head + a + r, i);
    inc' := FileListOf(zs, "inc", inc, names);
    xs, zs := FoldedSplit(xs, head + a, r);
    req' := FileListOf(zs, "req", req, names);
    xs, zs := FoldedSplit(xs, head, a);
    after' := FileListOf(zs, "after", after, names);
    AllFoldedNameless(xs, head);
  }

  lemma {:induction false} PluginsOf(ys: seq<Yaml>, plugins: seq<PluginMetadata>, names: set<Filename>)
    returns (qs: seq<PluginMetadata>)
    requires FoldedAll(ys) == FoldedAll(PluginYamls(plugins)) && AllNamesIn(ys, names)
    ensures ys == PluginYamls(qs) && Sequences.Mapped(qs, PluginKey) == Sequences.Mapped(plugins, PluginKey)
    ensures forall f :: f in AllFiles(qs) ==> f.name in names
  {
    if plugins == [] {
      FoldedLength(ys);
      qs := [];
    } else if HasNameOnly(plugins[0]) {
      assert PluginYamls(plugins) == PluginYamls(plugins[1..]);
      var rest := PluginsOf(ys, plugins[1..], names);
      qs := [plugins[0]] + rest;
      assert qs[1..] == rest;
      assert PluginYamls(qs) == PluginYamls(rest);
    } else {
      FoldedLength(ys);
      FoldedLength(PluginYamls(plugins));
      AllFirst(ys);
      AllFirst(PluginYamls(plugins));
      assert PluginYamls(plugins)[1..] == PluginYamls(plugins[1..]);
      var q := PluginOf(ys[0], plugins[0], names);
      var rest := PluginsOf(ys[1..], plugins[1..], names);
      qs := [q] + rest;
      assert qs[1..] == rest && HasNameOnly(q) == HasNameOnly(PluginKey(q)) == HasNameOnly(plugins[0]);
      Sequences.HeadAndTail(ys);
    }
  }

  // ---------- documents ----------

  function DocumentFront(d: Document): seq<Yaml> {
    DocumentHead(d.bashTags, d.groups) + ListPair("globals", MessageYamls(d.messages))
  }

  lemma DocumentParts(d: Document)
    ensures Pairs(d) == DocumentFront(d) + PluginsPair(d.plugins)
  {
  }

  lemma FrontNameless(d: Document)
    ensures AllNamesIn(DocumentFront(d), {})
  {
    TextsNameless(d.bashTags);
    ListNameless("bash_tags", TextYamls(d.bashTags));
    GroupsNameless(d.groups);
    assert NamesIn(Sequence(GroupYamls(d.groups)), {});
    MessagesNameless(d.messages);
    ListNameless("globals", MessageYamls(d.messages));
  }

  /** The names of all files in a document. */
  function FileNames(d: Document): set<Filename> {
    set f | f in AllFiles(d.plugins) :: f.name
  }

  lemma {:induction false} PluginsHaveNames(plugins: seq<PluginMetadata>, names: set<Filename>)
    requires forall f :: f in AllFiles(plugins) ==> f.name in names
    ensures AllNamesIn(PluginYamls(plugins), names)
  {
    if plugins != [] {
      PluginHasNames(plugins[0], names);
      PluginsHaveNames(plugins[1..], names);
    }
  }

  lemma DocumentHasNames(d: Document)
    ensures AllNamesIn(Pairs(d), FileNames(d))
  {
    DocumentParts(d);
    FrontNameless(d);
    AllNamesGrow(DocumentFront(d), FileNames(d));
    PluginsHaveNames(d.plugins, FileNames(d));
    assert NamesIn(Sequence(PluginYamls(d.plugins)), FileNames(d));
  }

  lemma {:induction false} LeavesNameless(ids: seq<Shareable>)
    requires AreLeaves(ids)
    ensures AllNamesIn(Marked(ids), {})
  {
    if ids != [] {
      assert ids[0] in ids;
      if ids[0].SharedContents? {
        ContentsNameless("", ids[0].contents);
      } else {
        assert NamesIn(InnerOf(ids[0]), {});
      }
      LeavesNameless(ids[1..]);
    }
  }

  lemma ItemsHaveNames(c: Common, names: set<Filename>)
    requires forall f :: f in c.files ==> f.name in names
    ensures AllNamesIn(CommonItems(c), names)
  {
    CommonLeaves(c);
    LeavesNameless(Leaves(c));
    AllNamesGrow(Marked(Leaves(c)), names);
    MessagesNameless(c.messages);
    AllNamesGrow(MessageYamls(c.messages), names);
    FilesHaveNames(c.files, names);
  }

  lemma SectionHasNames(d: Document, o: WriteOptions)
    ensures AllNamesIn(CommonSection(d, o), FileNames(d))
  {
    if HasSection(d, o) {
      var items := CommonItems(CommonFor(d, o));
      CommonFilesAreFiles(d, o);
      ItemsHaveNames(CommonFor(d, o), FileNames(d));
      PairHasNames("common", items, FileNames(d));
    }
  }

  lemma PairHasNames(key: string, items: seq<Yaml>, names: set<Filename>)
    requires AllNamesIn(items, names)
    ensures NamesIn(Pair(key, Sequence(items)), names)
  {
    assert NamesIn(Sequence(items), names);
  }

  lemma CommonFilesAreFiles(d: Document, o: WriteOptions)
    ensures forall f :: f in CommonFor(d, o).files ==> f in AllFiles(d.plugins)
  {
    if o.writeAnchors {
      CountedFilesMembers(AllFiles(d.plugins), o.anchorFileStrings);
      forall f | f in CommonFor(d, o).files
        ensures f in AllFiles(d.plugins)
      {
        RepeatedAreFirst(FileId, CountedFiles(AllFiles(d.plugins), o.anchorFileStrings), f);
      }
    }
  }

  /** Documents that differ at most in the case of file names. */
  predicate SameUpToCase(d: Document, d': Document) {
    d'.(plugins := Sequences.Mapped(d'.plugins, PluginKey)) == d.(plugins := Sequences.Mapped(d.plugins, PluginKey))
  }

  lemma PluginsPairOf(ys: seq<Yaml>, plugins: seq<PluginMetadata>, names: set<Filename>)
    returns (qs: seq<PluginMetadata>)
    requires FoldedAll(ys) == FoldedAll(PluginsPair(plugins)) && AllNamesIn(ys, names)
    ensures ys == PluginsPair(qs) && Sequences.Mapped(qs, PluginKey) == Sequences.Mapped(plugins, PluginKey)
    ensures forall f :: f in AllFiles(qs) ==> f.name in names
  {
    if plugins == [] {
      FoldedLength(ys);
      qs := [];
    } else {
      var items := ItemsOf(ys, "plugins", PluginYamls(plugins), names);
      qs := PluginsOf(items, plugins, names);
      assert |qs| == |Sequences.Mapped(qs, PluginKey)| == |plugins|;
    }
  }

  lemma DocumentOf(ys: seq<Yaml>, d: Document, names: set<Filename>) returns (d': Document)
    requires FoldedAll(ys) == FoldedAll(Pairs(d)) && AllNamesIn(ys, names)
    ensures ys == Pairs(d') && SameUpToCase(d, d') && FileNames(d') <= names
  {
    DocumentParts(d);
    var front, rest := FoldedSplit(ys, DocumentFront(d), PluginsPair(d.plugins));
    FrontNameless(d);
    AllFoldedNameless(front, DocumentFront(d));
    var plugins := PluginsPairOf(rest, d.plugins, names);
    d' := d.(plugins := plugins);
    DocumentParts(d');
  }

  /** Saving and reading back adds no file names. */
  lemma SavedNames(d: Document, o: WriteOptions, ys: seq<Yaml>)
    requires Expand(Saved(d, o), map[]).Expanded? && Expand(Saved(d, o), map[]).node == Mapping(ys)
    ensures AllNamesIn(ys, FileNames(d))
  {
    SectionHasNames(d, o);
    DocumentHasNames(d);
    EmitNames(Mapping(CommonSection(d, o) + Pairs(d)), SetAnchors(CommonFor(d, o)), {}, FileNames(d));
    ExpandNames(Saved(d, o), map[], FileNames(d));
  }

  /** Reading back what was saved gives the tree of a document that differs at most in the case of file names, all of
      which occur in the document that was saved, and that is the same if and only if case is kept. */
  lemma SavedReadsBackAs(d: Document, o: WriteOptions) returns (section: seq<Yaml>, d': Document)
    ensures Expand(Saved(d, o), map[]).Expanded? && Expand(Saved(d, o), map[]).node == Mapping(section + Pairs(d'))
    ensures FoldedAll(section) == FoldedAll(CommonSection(d, o))
    ensures SameUpToCase(d, d') && FileNames(d') <= FileNames(d)
    ensures d' == d <==> CaseIsKept(d, o)
  {
    var pairs;
    section, pairs := SavedReadsBackExactlyIff(d, o);
    if CaseIsKept(d, o) {
      d' := d;
    } else {
      SavedNames(d, o, section + pairs);
      d' := DocumentOf(pairs, d, FileNames(d));
    }
  }
}
