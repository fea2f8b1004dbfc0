/** Saving a document and loading the result (src/metadata/metadata_document.rs): what comes back, and which documents
    come back unchanged. */
module SavedAndLoaded {
  import opened Wrappers
  import opened Metadata
  import opened MetadataYaml
  import opened AnchoredYaml
  import opened SharedValues
  import opened MetadataWriter
  import opened SavedDocuments
  import opened MetadataReader
  import opened ReadingBack
  import opened Recasing
  import opened DocumentSaving
  import opened Sequences

  // ---------- what is loaded from a tree ----------

  function ReadEach<T>(ys: seq<Yaml>, read: Yaml -> Option<T>): seq<Option<T>> {
    seq(|ys|, i requires 0 <= i < |ys| => read(ys[i]))
  }

  function SectionOf<T>(m: map<string, Yaml>, key: string, read: Yaml -> Option<T>): MetadataDocument.Section<T> {
    if key !in m then MetadataDocument.Items([])
    else if AsSequence(m[key]).None? then MetadataDocument.NotAList
    else MetadataDocument.Items(ReadEach(AsSequence(m[key]).value, read))
  }

  /** Other keys, such as that of the common section, are not looked at. */
  function ContentsOf(m: map<string, Yaml>, ps: Parsers): MetadataDocument.Contents {
    MetadataDocument.Contents(SectionOf(m, "plugins", PluginReader(ps)), SectionOf(m, "globals", MessageReader(ps)),
                              SectionOf(m, "bash_tags", AsString), SectionOf(m, "groups", ReadGroup))
  }

  ghost function Scanned(t: Yaml, ps: Parsers): MetadataDocument.Yaml {
    match Expand(t, map[])
    case Invalid => MetadataDocument.InvalidYaml
    case Expanded(node, _) =>
      MetadataDocument.Documents([if AsMapping(node).None? then MetadataDocument.NotAMapping
                                  else MetadataDocument.Mapping(ContentsOf(AsMapping(node).value, ps))])
  }

  // ---------- what is loaded for a document ----------

  function PluginCheck(ps: Parsers): PluginMetadata -> bool {
    p => PluginLoads(p, ps)
  }

  function PluginResult(ps: Parsers): PluginMetadata -> PluginMetadata {
    p => LoadedPlugin(p, ps)
  }

  function LoadedEntries(plugins: seq<PluginMetadata>, ps: Parsers): seq<PluginMetadata> {
    Mapped(Written(plugins), PluginResult(ps))
  }

  /** Everything that is written can be read, and no name is read twice. */
  ghost predicate Loads(d: Document, ps: Parsers) {
    && Each(Written(d.plugins), PluginCheck(ps)) && MetadataDocument.Distinct(LoadedEntries(d.plugins, ps))
    && Each(d.messages, MessageCheck(ps)) && (|d.groups| > 1 ==> DistinctGroups(d.groups))
  }

  function LoadedFrom(d: Document, ps: Parsers): MetadataDocument.Loaded {
    MetadataDocument.Loaded(LoadedEntries(d.plugins, ps), Mapped(d.messages, LoadedMessage), d.bashTags,
                            MetadataDocument.WithDefaultGroup(WrittenGroups(d.groups)))
  }

  lemma ParsesIff<T>(items: seq<Option<T>>, xs: seq<T>, check: T -> bool, result: T -> T, values: seq<T>)
    requires |items| == |xs| && forall i :: 0 <= i < |xs| ==> items[i] == Outcome(check(xs[i]), result(xs[i]))
    ensures MetadataDocument.AllParse(items, values) <==> Each(xs, check) && values == Mapped(xs, result)
  {
  }

  lemma {:induction false} WrittenAt(plugins: seq<PluginMetadata>, i: nat)
    requires i < |Written(plugins)|
    ensures |PluginYamls(plugins)| == |Written(plugins)| && PluginYamls(plugins)[i] == PluginYaml(Written(plugins)[i])
  {
    WrittenYamls(plugins);
    if HasNameOnly(plugins[0]) {
      WrittenAt(plugins[1..], i);
      assert Written(plugins) == Written(plugins[1..]) && PluginYamls(plugins) == PluginYamls(plugins[1..]);
    } else if i != 0 {
      WrittenAt(plugins[1..], i - 1);
      assert Written(plugins)[1..] == Written(plugins[1..]) && PluginYamls(plugins)[1..] == PluginYamls(plugins[1..]);
    }
  }

  lemma PluginsAre(plugins: seq<PluginMetadata>, ps: Parsers)
    ensures var r := MetadataDocument.PluginElements(ReadEach(PluginYamls(plugins), PluginReader(ps)));
            var loads := Each(Written(plugins), PluginCheck(ps))
                         && MetadataDocument.Distinct(LoadedEntries(plugins, ps));
            r.Ok? == loads && (loads ==> r.value == LoadedEntries(plugins, ps))
  {
    var items, xs := ReadEach(PluginYamls(plugins), PluginReader(ps)), Written(plugins);
    WrittenYamls(plugins);
    forall i | 0 <= i < |xs|
      ensures items[i] == Outcome(PluginCheck(ps)(xs[i]), PluginResult(ps)(xs[i]))
    {
      WrittenAt(plugins, i);
      PluginReads(xs[i], ps);
    }
    var r := MetadataDocument.PluginElements(items);
    if r.Ok? {
      MetadataDocument.PluginsLoadIff(items, r.value);
      ParsesIff(items, xs, PluginCheck(ps), PluginResult(ps), r.value);
    }
    MetadataDocument.PluginsLoadIff(items, LoadedEntries(plugins, ps));
    ParsesIff(items, xs, PluginCheck(ps), PluginResult(ps), LoadedEntries(plugins, ps));
  }

  lemma {:induction false} MessageAt(messages: seq<Message>, i: nat)
    requires i < |messages|
    ensures |MessageYamls(messages)| == |messages| && MessageYamls(messages)[i] == MessageYaml(messages[i])
  {
    MessagesLength(messages);
    if i != 0 {
      MessageAt(messages[1..], i - 1);
      assert MessageYamls(messages)[1..] == MessageYamls(messages[1..]);
    }
  }

  lemma {:induction false} MessagesLength(messages: seq<Message>)
    ensures |MessageYamls(messages)| == |messages|
  {
    if messages != [] {
      MessagesLength(messages[1..]);
    }
  }

  lemma MessagesAre(messages: seq<Message>, ps: Parsers)
    ensures var r := MetadataDocument.Elements(ReadEach(MessageYamls(messages), MessageReader(ps)),
                                               MetadataDocument.Globals);
            var loads := Each(messages, MessageCheck(ps));
            r.Ok? == loads && (loads ==> r.value == Mapped(messages, LoadedMessage))
  {
    var items := ReadEach(MessageYamls(messages), MessageReader(ps));
    MessagesLength(messages);
    forall i | 0 <= i < |messages|
      ensures items[i] == Outcome(MessageCheck(ps)(messages[i]), LoadedMessage(messages[i]))
    {
      MessageAt(messages, i);
      MessageReads(messages[i], ps);
    }
    var r := MetadataDocument.Elements(items, MetadataDocument.Globals);
    if r.Ok? {
      MetadataDocument.ElementsLoadIff(items, MetadataDocument.Globals, r.value);
      ParsesIff(items, messages, MessageCheck(ps), LoadedMessage, r.value);
    }
    MetadataDocument.ElementsLoadIff(items, MetadataDocument.Globals, Mapped(messages, LoadedMessage));
    ParsesIff(items, messages, MessageCheck(ps), LoadedMessage, Mapped(messages, LoadedMessage));
  }

  lemma {:induction false} TextAt(texts: seq<string>, i: nat)
    requires i < |texts|
    ensures |TextYamls(texts)| == |texts| && TextYamls(texts)[i] == Text(texts[i])
  {
    TextsLength(texts);
    if i != 0 {
      TextAt(texts[1..], i - 1);
      assert TextYamls(texts)[1..] == TextYamls(texts[1..]);
    }
  }

  lemma {:induction false} TextsLength(texts: seq<string>)
    ensures |TextYamls(texts)| == |texts|
  {
    if texts != [] {
      TextsLength(texts[1..]);
    }
  }

  lemma BashTagsAre(tags: seq<string>)
    ensures MetadataDocument.Elements(ReadEach(TextYamls(tags), AsString), MetadataDocument.BashTags) == Ok(tags)
  {
    TextsLength(tags);
    forall i | 0 <= i < |tags|
      ensures AsString(TextYamls(tags)[i]) == Some(tags[i])
    {
      TextAt(tags, i);
    }
    MetadataDocument.ElementsLoadIff(ReadEach(TextYamls(tags), AsString), MetadataDocument.BashTags, tags);
  }

  lemma GroupsAre(groups: seq<Group>)
    ensures var r := MetadataDocument.GroupElements(ReadEach(GroupYamls(groups), ReadGroup));
            r.Ok? == DistinctGroups(groups) && (r.Ok? ==> r.value == groups)
  {
    var items := ReadEach(GroupYamls(groups), ReadGroup);
    GroupsLength(groups);
    forall i | 0 <= i < |groups|
      ensures items[i] == Some(groups[i])
    {
      GroupsRead(groups, i);
    }
    var r := MetadataDocument.GroupElements(items);
    if r.Ok? {
      MetadataDocument.GroupsLoadIff(items, r.value);
      assert r.value == groups;
    }
    MetadataDocument.GroupsLoadIff(items, groups);
  }

  // ---------- the keys of a document ----------

  const DOCUMENT_KEYS := ["common", "bash_tags", "groups", "globals", "plugins"]

  lemma DocumentKeys()
    ensures Distinct(DOCUMENT_KEYS)
  {
  }

  lemma DocumentHas(values: seq<Option<Yaml>>, common: seq<Yaml>, tags: seq<Yaml>, groups: seq<Yaml>,
                    globals: seq<Yaml>, plugins: seq<Yaml>)
    requires |values| == 5 && common == PairIf("common", values[0]) && tags == PairIf("bash_tags", values[1])
    requires groups == PairIf("groups", values[2]) && globals == PairIf("globals", values[3])
    requires plugins == PairIf("plugins", values[4])
    ensures Has(common + (tags + groups + globals + plugins), DOCUMENT_KEYS, values, 5)
  {
    assert [] + common == common;
    HasMore([], DOCUMENT_KEYS, values, 0);
    HasThreeMore(common, DOCUMENT_KEYS, values, 1, tags, groups, globals);
    HasMore(common + tags + groups + globals, DOCUMENT_KEYS, values, 4);
    RegroupFour(common, tags, groups, globals, plugins);
  }

  lemma ValuesOf(ys: seq<Yaml>, common: Option<Yaml>, tags: Option<Yaml>, groups: Option<Yaml>, globals: Option<Yaml>,
                 plugins: Option<Yaml>)
    requires Has(ys, DOCUMENT_KEYS, [common, tags, groups, globals, plugins], 5)
    ensures HasValue(Values(ys), "bash_tags", tags) && HasValue(Values(ys), "groups", groups)
    ensures HasValue(Values(ys), "globals", globals) && HasValue(Values(ys), "plugins", plugins)
  {
    var values := [common, tags, groups, globals, plugins];
    DocumentKeys();
    ValueAt(ys, DOCUMENT_KEYS, values, 1);
    ValueAt(ys, DOCUMENT_KEYS, values, 2);
    ValueAt(ys, DOCUMENT_KEYS, values, 3);
    ValueAt(ys, DOCUMENT_KEYS, values, 4);
  }

  function GroupsValue(groups: seq<Group>): Option<Yaml> {
    if |groups| > 1 then Some(Sequence(GroupYamls(groups))) else None
  }

  function PluginsValue(plugins: seq<PluginMetadata>): Option<Yaml> {
    if plugins == [] then None else Some(Sequence(PluginYamls(plugins)))
  }

  lemma PairsAre(d: Document)
    ensures Pairs(d) == PairIf("bash_tags", ListValue(TextYamls(d.bashTags))) + PairIf("groups", GroupsValue(d.groups))
                        + PairIf("globals", ListValue(MessageYamls(d.messages)))
                        + PairIf("plugins", PluginsValue(d.plugins))
  {
  }

  lemma SectionGet<T>(m: map<string, Yaml>, key: string, items: seq<Yaml>, value: Option<Yaml>, read: Yaml -> Option<T>)
    requires HasValue(m, key, value) && value == (if value.None? then None else Some(Sequence(items)))
    requires value.None? ==> items == []
    ensures SectionOf(m, key, read) == MetadataDocument.Items(ReadEach(items, read))
  {
    assert value.None? ==> ReadEach(items, read) == [];
  }

  lemma DocumentValues(section: Option<Yaml>, d: Document) returns (m: map<string, Yaml>)
    ensures m == Values(PairIf("common", section) + Pairs(d))
    ensures HasValue(m, "bash_tags", ListValue(TextYamls(d.bashTags))) && HasValue(m, "groups", GroupsValue(d.groups))
    ensures HasValue(m, "globals", ListValue(MessageYamls(d.messages)))
    ensures HasValue(m, "plugins", PluginsValue(d.plugins))
  {
    var tags, globals := ListValue(TextYamls(d.bashTags)), ListValue(MessageYamls(d.messages));
    var groups, plugins := GroupsValue(d.groups), PluginsValue(d.plugins);
    PairsAre(d);
    DocumentHas([section, tags, groups, globals, plugins], PairIf("common", section), PairIf("bash_tags", tags),
                PairIf("groups", groups), PairIf("globals", globals), PairIf("plugins", plugins));
    ValuesOf(PairIf("common", section) + Pairs(d), section, tags, groups, globals, plugins);
    m := Values(PairIf("common", section) + Pairs(d));
  }

  /** The groups that are written. */
  function WrittenGroups(groups: seq<Group>): seq<Group> {
    if |groups| > 1 then groups else []
  }

  ghost predicate HasSections(c: MetadataDocument.Contents, d: Document, ps: Parsers) {
    && c.plugins == MetadataDocument.Items(ReadEach(PluginYamls(d.plugins), PluginReader(ps)))
    && c.globals == MetadataDocument.Items(ReadEach(MessageYamls(d.messages), MessageReader(ps)))
    && c.bashTags == MetadataDocument.Items(ReadEach(TextYamls(d.bashTags), AsString))
    && c.groups == MetadataDocument.Items(ReadEach(GroupYamls(WrittenGroups(d.groups)), ReadGroup))
  }

  lemma MapSections(m: map<string, Yaml>, d: Document, ps: Parsers)
    requires HasValue(m, "bash_tags", ListValue(TextYamls(d.bashTags))) && HasValue(m, "groups", GroupsValue(d.groups))
    requires HasValue(m, "globals", ListValue(MessageYamls(d.messages)))
    requires HasValue(m, "plugins", PluginsValue(d.plugins))
    ensures HasSections(ContentsOf(m, ps), d, ps)
  {
    SectionGet(m, "plugins", PluginYamls(d.plugins), PluginsValue(d.plugins), PluginReader(ps));
    SectionGet(m, "globals", MessageYamls(d.messages), ListValue(MessageYamls(d.messages)), MessageReader(ps));
    SectionGet(m, "bash_tags", TextYamls(d.bashTags), ListValue(TextYamls(d.bashTags)), AsString);
    SectionGet(m, "groups", GroupYamls(WrittenGroups(d.groups)), GroupsValue(d.groups), ReadGroup);
  }

  lemma GetContents(section: Option<Yaml>, d: Document, ps: Parsers)
    ensures HasSections(ContentsOf(Values(PairIf("common", section) + Pairs(d)), ps), d, ps)
  {
    var m := DocumentValues(section, d);
    MapSections(m, d, ps);
  }

  lemma SectionsLoad(c: MetadataDocument.Contents, d: Document, ps: Parsers)
    requires HasSections(c, d, ps)
    ensures MetadataDocument.LoadContents(c).Ok? == Loads(d, ps)
    ensures Loads(d, ps) ==> MetadataDocument.LoadContents(c).value == LoadedFrom(d, ps)
  {
    MetadataDocument.ContentsLoadIff(c);
    PluginsAre(d.plugins, ps);
    MessagesAre(d.messages, ps);
    BashTagsAre(d.bashTags);
    GroupsAre(WrittenGroups(d.groups));
  }

  /** Loading the tree of a document, after a common section or not, succeeds exactly if everything written can be
      read and no name is repeated. */
  lemma TreeLoads(section: Option<Yaml>, d: Document, ps: Parsers)
    ensures var r := MetadataDocument.LoadContents(ContentsOf(Values(PairIf("common", section) + Pairs(d)), ps));
            r.Ok? == Loads(d, ps) && (r.Ok? ==> r.value == LoadedFrom(d, ps))
  {
    GetContents(section, d, ps);
    SectionsLoad(ContentsOf(Values(PairIf("common", section) + Pairs(d)), ps), d, ps);
  }

  lemma SectionIs(section: seq<Yaml>, d: Document, o: WriteOptions) returns (common: Option<Yaml>)
    requires FoldedAll(section) == FoldedAll(CommonSection(d, o))
    ensures section == PairIf("common", common)
  {
    common := PairOf(section, "common", CommonSection(d, o));
  }

  lemma PairOf(ys: seq<Yaml>, key: string, zs: seq<Yaml>) returns (value: Option<Yaml>)
    requires FoldedAll(ys) == FoldedAll(zs) && |zs| <= 1 && forall z :: z in zs ==> z.Pair? && z.key == key
    ensures ys == PairIf(key, value)
  {
    FoldedLength(ys);
    FoldedLength(zs);
    if zs == [] {
      value := None;
    } else {
      AllFirst(ys);
      AllFirst(zs);
      assert zs[0] in zs;
      value := Some(ys[0].value);
      assert ys == [ys[0]];
    }
  }

  // ---------- saving and loading ----------

  lemma ScannedIs(t: Yaml, pairs: seq<Yaml>, ps: Parsers)
    requires Expand(t, map[]).Expanded? && Expand(t, map[]).node == Mapping(pairs)
    ensures MetadataDocument.LoadYaml(Scanned(t, ps)) == MetadataDocument.LoadContents(ContentsOf(Values(pairs), ps))
  {
  }

  lemma FileLoadsUpToCase(f: File, ps: Parsers)
    ensures FileLoads(FileKey(f), ps) == FileLoads(f, ps)
  {
  }

  lemma EachUpToCase(files: seq<File>, files': seq<File>, ps: Parsers)
    requires Mapped(files, FileKey) == Mapped(files', FileKey)
    ensures Each(files, FileCheck(ps)) == Each(files', FileCheck(ps))
  {
    forall i | 0 <= i < |files|
      ensures FileCheck(ps)(files[i]) == FileCheck(ps)(files'[i])
    {
      assert Mapped(files, FileKey)[i] == Mapped(files', FileKey)[i];
      FileLoadsUpToCase(files[i], ps);
      FileLoadsUpToCase(files'[i], ps);
    }
  }

  lemma PluginUpToCase(p: PluginMetadata, q: PluginMetadata, ps: Parsers)
    requires PluginKey(p) == PluginKey(q)
    ensures PluginLoads(p, ps) == PluginLoads(q, ps) && HasNameOnly(p) == HasNameOnly(q)
    ensures LoadedPlugin(p, ps).name == LoadedPlugin(q, ps).name
  {
    assert PluginKey(p).name == PluginKey(q).name && PluginKey(p).group == PluginKey(q).group;
    assert PluginKey(p).messages == PluginKey(q).messages && PluginKey(p).tags == PluginKey(q).tags;
    assert PluginKey(p).dirtyInfo == PluginKey(q).dirtyInfo && PluginKey(p).cleanInfo == PluginKey(q).cleanInfo;
    assert PluginKey(p).locations == PluginKey(q).locations;
    EachUpToCase(p.loadAfter, q.loadAfter, ps);
    EachUpToCase(p.requirements, q.requirements, ps);
    EachUpToCase(p.incompatibilities, q.incompatibilities, ps);
  }

  lemma {:induction false} WrittenUpToCase(ps: seq<PluginMetadata>, qs: seq<PluginMetadata>)
    requires Mapped(ps, PluginKey) == Mapped(qs, PluginKey)
    ensures Mapped(Written(ps), PluginKey) == Mapped(Written(qs), PluginKey)
  {
    if ps != [] {
      MappedFirst(ps, PluginKey);
      MappedFirst(qs, PluginKey);
      WrittenUpToCase(ps[1..], qs[1..]);
      assert HasNameOnly(PluginKey(ps[0])) == HasNameOnly(ps[0]) && HasNameOnly(PluginKey(qs[0])) == HasNameOnly(qs[0]);
      WrittenFirst(ps, PluginKey);
      WrittenFirst(qs, PluginKey);
    }
  }

  lemma MappedFirst<T>(s: seq<T>, f: T -> T)
    requires s != []
    ensures Mapped(s, f)[0] == f(s[0]) && Mapped(s, f)[1..] == Mapped(s[1..], f)
  {
  }

  lemma WrittenFirst(ps: seq<PluginMetadata>, f: PluginMetadata -> PluginMetadata)
    requires ps != []
    ensures Mapped(Written(ps), f)
         == (if HasNameOnly(ps[0]) then [] else [f(ps[0])]) + Mapped(Written(ps[1..]), f)
  {
    if HasNameOnly(ps[0]) {
      assert Written(ps) == Written(ps[1..]);
    } else {
      assert Written(ps)[0] == ps[0] && Written(ps)[1..] == Written(ps[1..]);
    }
  }

  lemma {:induction false} DistinctByNames(a: seq<PluginMetadata>, b: seq<PluginMetadata>)
    requires |a| == |b| && forall i :: 0 <= i < |a| ==> a[i].name == b[i].name
    ensures MetadataDocument.Distinct(a) == MetadataDocument.Distinct(b)
    ensures MetadataDocument.Specifics(a).Keys == MetadataDocument.Specifics(b).Keys
  {
    if a != [] {
      DistinctByNames(Front(a), Front(b));
      assert Last(a).name == Last(b).name;
    }
  }

  lemma {:induction false} EntriesUpToCase(xs: seq<PluginMetadata>, ys: seq<PluginMetadata>, ps: Parsers)
    requires Mapped(xs, PluginKey) == Mapped(ys, PluginKey)
    ensures Each(xs, PluginCheck(ps)) == Each(ys, PluginCheck(ps)) && |xs| == |ys|
    ensures forall i :: 0 <= i < |xs| ==> LoadedPlugin(xs[i], ps).name == LoadedPlugin(ys[i], ps).name
  {
    assert |xs| == |Mapped(xs, PluginKey)| == |ys|;
    if xs != [] {
      MappedFirst(xs, PluginKey);
      MappedFirst(ys, PluginKey);
      PluginUpToCase(xs[0], ys[0], ps);
      EntriesUpToCase(xs[1..], ys[1..], ps);
      forall i | 0 < i < |xs|
        ensures LoadedPlugin(xs[i], ps).name == LoadedPlugin(ys[i], ps).name
      {
        assert xs[1..][i - 1] == xs[i] && ys[1..][i - 1] == ys[i];
      }
    }
  }

  lemma EntriesLoadUpToCase(xs: seq<PluginMetadata>, ys: seq<PluginMetadata>, ps: Parsers)
    requires Mapped(xs, PluginKey) == Mapped(ys, PluginKey)
    ensures Each(xs, PluginCheck(ps)) == Each(ys, PluginCheck(ps))
    ensures MetadataDocument.Distinct(Mapped(xs, PluginResult(ps)))
         == MetadataDocument.Distinct(Mapped(ys, PluginResult(ps)))
  {
    EntriesUpToCase(xs, ys, ps);
    DistinctByNames(Mapped(xs, PluginResult(ps)), Mapped(ys, PluginResult(ps)));
  }

  /** Whether a document can be loaded does not depend on the case of file names. */
  lemma LoadsUpToCase(d: Document, d': Document, ps: Parsers)
    requires SameUpToCase(d, d')
    ensures Loads(d, ps) == Loads(d', ps)
  {
    WrittenUpToCase(d.plugins, d'.plugins);
    EntriesLoadUpToCase(Written(d.plugins), Written(d'.plugins), ps);
  }

  /** Saving and then loading succeeds exactly if everything that is written can be read. It gives what was saved,
      without the plugins that have only a name, without groups if there is only one, and with what LoadedFrom says
      of single contents and tags, up to the case of file names. */
  lemma SavedLoads(d: Document, o: WriteOptions, ps: Parsers) returns (d': Document)
    ensures var r := MetadataDocument.LoadYaml(Scanned(Saved(d, o), ps));
            r.Ok? == Loads(d, ps) && (r.Ok? ==> r.value == LoadedFrom(d', ps))
    ensures SameUpToCase(d, d') && FileNames(d') <= FileNames(d)
    ensures d' == d <==> CaseIsKept(d, o)
  {
    var section;
    section, d' := SavedReadsBackAs(d, o);
    var common := SectionIs(section, d, o);
    ScannedIs(Saved(d, o), section + Pairs(d'), ps);
    TreeLoads(common, d', ps);
    LoadsUpToCase(d, d', ps);
  }

  // ---------- what comes back unchanged ----------

  predicate ContentsKept(contents: seq<MessageContent>) {
    |contents| == 1 ==> contents[0].language == DEFAULT_LANGUAGE
  }

  predicate NameKept(name: Filename, ps: Parsers) {
    name.key == ps.fold(name.text)
  }

  predicate FileKept(f: File, ps: Parsers) {
    NameKept(f.name, ps) && ContentsKept(f.detail)
  }

  predicate TagKept(t: Tag) {
    !t.isAddition || t.name == "" || t.name[0] != '-'
  }

  predicate PluginKept(p: PluginMetadata, ps: Parsers) {
    && ps.pluginName(p.name.text) == Some(p.name.text) && NameKept(p.name, ps)
    && (forall f <- PluginFiles(p) :: FileKept(f, ps))
    && (forall message <- p.messages :: ContentsKept(message.content))
    && (forall t <- p.tags :: TagKept(t))
    && (forall c <- p.dirtyInfo + p.cleanInfo :: ContentsKept(c.detail))
  }

  lemma {:induction false} MappedItself<T>(s: seq<T>, f: T -> T)
    ensures Mapped(s, f) == s <==> forall x :: x in s ==> f(x) == x
  {
    if s != [] {
      MappedFirst(s, f);
      MappedItself(s[1..], f);
      HeadAndTail(s);
      HeadAndTail(Mapped(s, f));
    }
  }

  lemma MessageKept(message: Message)
    ensures LoadedMessage(message) == message <==> ContentsKept(message.content)
  {
  }

  lemma FilesKept(files: seq<File>, ps: Parsers)
    ensures Mapped(files, FileResult(ps)) == files <==> forall f :: f in files ==> FileKept(f, ps)
  {
    MappedItself(files, FileResult(ps));
    forall f | f in files
      ensures FileResult(ps)(f) == f <==> FileKept(f, ps)
    {
    }
  }

  lemma MessagesKept(messages: seq<Message>)
    ensures Mapped(messages, LoadedMessage) == messages <==> forall m :: m in messages ==> ContentsKept(m.content)
  {
    MappedItself(messages, LoadedMessage);
    forall m | m in messages
      ensures LoadedMessage(m) == m <==> ContentsKept(m.content)
    {
      MessageKept(m);
    }
  }

  lemma TagsKept(tags: seq<Tag>)
    ensures Mapped(tags, LoadedTag) == tags <==> forall t :: t in tags ==> TagKept(t)
  {
    MappedItself(tags, LoadedTag);
  }

  lemma CleaningDataKept(data: seq<PluginCleaningData>)
    ensures Mapped(data, LoadedCleaningData) == data <==> forall c :: c in data ==> ContentsKept(c.detail)
  {
    MappedItself(data, LoadedCleaningData);
    forall c | c in data
      ensures LoadedCleaningData(c) == c <==> ContentsKept(c.detail)
    {
    }
  }

  lemma PluginKeptIff(p: PluginMetadata, ps: Parsers)
    requires ps.pluginName(p.name.text).Some?
    ensures LoadedPlugin(p, ps) == p <==> PluginKept(p, ps)
  {
    FilesKept(p.loadAfter, ps);
    FilesKept(p.requirements, ps);
    FilesKept(p.incompatibilities, ps);
    MessagesKept(p.messages);
    TagsKept(p.tags);
    CleaningDataKept(p.dirtyInfo);
    CleaningDataKept(p.cleanInfo);
  }

  /** What comes back as itself, up to the case of file names, comes back in its own case. */
  lemma FilesLoadedAs(files: seq<File>, files': seq<File>, ps: Parsers)
    requires Mapped(files', FileResult(ps)) == files && Mapped(files, FileKey) == Mapped(files', FileKey)
    ensures files' == files
  {
    assert |files'| == |Mapped(files', FileKey)| == |files|;
    forall i | 0 <= i < |files|
      ensures files'[i] == files[i]
    {
      assert Mapped(files', FileResult(ps))[i] == LoadedFile(files'[i], ps) == files[i];
      assert FileKey(files'[i]) == Mapped(files', FileKey)[i] == FileKey(files[i]);
    }
  }

  lemma PluginLoadedAs(p: PluginMetadata, p': PluginMetadata, ps: Parsers)
    requires LoadedPlugin(p', ps) == p && PluginKey(p) == PluginKey(p')
    ensures p' == p
  {
    FilesLoadedAs(p.loadAfter, p'.loadAfter, ps) by {
      assert PluginKey(p).loadAfter == PluginKey(p').loadAfter;
    }
    FilesLoadedAs(p.requirements, p'.requirements, ps) by {
      assert PluginKey(p).requirements == PluginKey(p').requirements;
    }
    FilesLoadedAs(p.incompatibilities, p'.incompatibilities, ps) by {
      assert PluginKey(p).incompatibilities == PluginKey(p').incompatibilities;
    }
  }

  lemma {:induction false} WrittenWhole(plugins: seq<PluginMetadata>)
    ensures |Written(plugins)| <= |plugins|
    ensures |Written(plugins)| == |plugins| ==> Written(plugins) == plugins
    ensures (forall p :: p in plugins ==> !HasNameOnly(p)) ==> Written(plugins) == plugins
  {
    if plugins != [] {
      WrittenWhole(plugins[1..]);
      HeadAndTail(plugins);
    }
  }

  lemma EntriesLoadedAs(plugins: seq<PluginMetadata>, plugins': seq<PluginMetadata>, ps: Parsers)
    requires Mapped(plugins, PluginKey) == Mapped(plugins', PluginKey) && LoadedEntries(plugins', ps) == plugins
    ensures plugins' == plugins && Written(plugins) == plugins
  {
    assert |plugins'| == |Mapped(plugins', PluginKey)| == |plugins|;
    WrittenWhole(plugins');
    forall i | 0 <= i < |plugins|
      ensures plugins'[i] == plugins[i]
    {
      assert LoadedEntries(plugins', ps)[i] == LoadedPlugin(plugins'[i], ps);
      assert Mapped(plugins, PluginKey)[i] == Mapped(plugins', PluginKey)[i];
      PluginLoadedAs(plugins[i], plugins'[i], ps);
    }
  }

  ghost predicate EntriesKept(plugins: seq<PluginMetadata>, ps: Parsers) {
    forall p <- plugins :: !HasNameOnly(p) && PluginKept(p, ps)
  }

  lemma EntriesKeptIff(plugins: seq<PluginMetadata>, ps: Parsers)
    requires Each(Written(plugins), PluginCheck(ps))
    ensures LoadedEntries(plugins, ps) == plugins <==> EntriesKept(plugins, ps)
  {
    WrittenWhole(plugins);
    if Written(plugins) == plugins {
      MappedItself(plugins, PluginResult(ps));
      forall p | p in plugins
        ensures PluginResult(ps)(p) == p <==> PluginKept(p, ps)
      {
        assert PluginCheck(ps)(p);
        PluginKeptIff(p, ps);
      }
    }
  }

  /** A single group is not written: after loading there is the default group alone. */
  ghost predicate GroupsKept(groups: seq<Group>) {
    if |groups| > 1 then MetadataDocument.HasGroup(groups, DEFAULT_GROUP_NAME)
    else groups == [MetadataDocument.DEFAULT_GROUP]
  }

  lemma GroupsKeptIff(groups: seq<Group>)
    ensures MetadataDocument.WithDefaultGroup(WrittenGroups(groups)) == groups <==> GroupsKept(groups)
  {
    if |groups| <= 1 {
      assert [MetadataDocument.DEFAULT_GROUP] + [] == [MetadataDocument.DEFAULT_GROUP];
    }
  }

  /** Every plugin has more than a name, the names of plugins and files are as reading makes them, single contents
      are in the default language, and no tag to add looks like one to remove. */
  ghost predicate Kept(d: Document, ps: Parsers) {
    EntriesKept(d.plugins, ps) && (forall m <- d.messages :: ContentsKept(m.content)) && GroupsKept(d.groups)
  }

  function Whole(d: Document): MetadataDocument.Loaded {
    MetadataDocument.Loaded(d.plugins, d.messages, d.bashTags, d.groups)
  }

  lemma WholeIff(d: Document, d': Document, ps: Parsers)
    requires SameUpToCase(d, d') && Loads(d', ps)
    ensures LoadedFrom(d', ps) == Whole(d) <==> d' == d && Kept(d, ps)
  {
    if LoadedEntries(d'.plugins, ps) == d.plugins {
      EntriesLoadedAs(d.plugins, d'.plugins, ps);
    }
    if d' == d {
      EntriesKeptIff(d.plugins, ps);
      MessagesKept(d.messages);
      GroupsKeptIff(d.groups);
    }
  }

  /** Saving and then loading a document gives it back unchanged if and only if case is kept, everything can be read,
      and nothing is of the kinds that are written in the same way as something else or not at all. */
  lemma SavedLoadsUnchangedIff(d: Document, o: WriteOptions, ps: Parsers)
    ensures MetadataDocument.LoadYaml(Scanned(Saved(d, o), ps)) == Ok(Whole(d))
       <==> CaseIsKept(d, o) && Loads(d, ps) && Kept(d, ps)
  {
    var d' := SavedLoads(d, o, ps);
    if Loads(d, ps) {
      LoadsUpToCase(d, d', ps);
      WholeIff(d, d', ps);
    }
  }

  /** The same for the object: unless one of two regex entries with the same name is hidden, loading what was saved
      gives its entries and everything else. */
  lemma SavedDocumentRestoredIff(document: MetadataDocument.MetadataDocument, o: WriteOptions, ps: Parsers)
    requires document.Valid() && MetadataDocument.RegexNamesDecide(document.entries)
    ensures MetadataDocument.LoadYaml(Scanned(Saved(Iteration(document), o), ps))
            == Ok(MetadataDocument.Loaded(document.entries, document.messages, document.bashTags, document.groups))
       <==> CaseIsKept(Iteration(document), o) && Loads(Iteration(document), ps) && Kept(Iteration(document), ps)
  {
    MetadataDocument.IterationIsFaithful(document.entries);
    SavedLoadsUnchangedIff(Iteration(document), o, ps);
  }

  /** For example, the description of a default group is lost if it is the only group. */
  lemma DescriptionCanBeLost(description: string, o: WriteOptions, ps: Parsers)
    ensures var d := Document([], [Group("default", Some(description), [])], [], []);
            MetadataDocument.LoadYaml(Scanned(Saved(d, o), ps))
            == Ok(MetadataDocument.Loaded([], [], [], [Group("default", None, [])]))
  {
    var d := Document([], [Group(DEFAULT_GROUP_NAME, Some(description), [])], [], []);
    var d' := SavedLoads(d, o, ps);
    assert |d'.plugins| == |Mapped(d'.plugins, PluginKey)| == 0;
    assert [MetadataDocument.DEFAULT_GROUP] + [] == [MetadataDocument.DEFAULT_GROUP];
  }
}
