/** Which values that may be anchored the parts of a document hold, in the order in which they are written. */
module SharedValues {
  import opened Wrappers
  import opened Metadata
  import opened MetadataYaml
  import opened AnchoredYaml
  import Sequences

  function Ids<T>(id: T -> Shareable, s: seq<T>): (r: seq<Shareable>)
    ensures |r| == |s| && forall i :: 0 <= i < |r| ==> r[i] == id(s[i])
  {
    seq(|s|, i requires 0 <= i < |s| => id(s[i]))
  }

  lemma IdsConcat<T>(id: T -> Shareable, s: seq<T>, t: seq<T>)
    ensures Ids(id, s + t) == Ids(id, s) + Ids(id, t)
  {
  }

  // ---------- logging by identity ----------

  /** What meeting a value adds to the log: the value, unless it is not counted, and what is directly inside
      it, unless it has been met before. */
  ghost function LogId(id: Shareable, scalars: bool, log: seq<Shareable>): seq<Shareable> {
    if !Counted(id, scalars) then log + Parts(id)
    else if id in log then log + [id]
    else log + [id] + Parts(id)
  }

  ghost function LogIds(ids: seq<Shareable>, scalars: bool, log: seq<Shareable>): seq<Shareable>
    decreases |ids|
  {
    if ids == [] then log else LogIds(ids[1..], scalars, LogId(ids[0], scalars, log))
  }

  lemma {:induction false} LogIdsConcat(a: seq<Shareable>, b: seq<Shareable>, scalars: bool, log: seq<Shareable>)
    ensures LogIds(a + b, scalars, log) == LogIds(b, scalars, LogIds(a, scalars, log))
    decreases |a|
  {
    if a == [] {
      assert a + b == b;
    } else {
      assert (a + b)[1..] == a[1..] + b;
      LogIdsConcat(a[1..], b, scalars, LogId(a[0], scalars, log));
    }
  }

  lemma LogIdsOne(id: Shareable, scalars: bool, log: seq<Shareable>)
    ensures LogIds([id], scalars, log) == LogId(id, scalars, log)
  {
    assert [id][1..] == [];
  }

  ghost predicate AreLeaves(ids: seq<Shareable>) {
    forall id <- ids :: Depth(id) == 0
  }

  /** Contents and conditions are logged every time they are met. */
  lemma {:induction false} LeavesLog(ids: seq<Shareable>, scalars: bool, log: seq<Shareable>)
    requires AreLeaves(ids)
    ensures LogIds(ids, scalars, log) == log + ids
    decreases |ids|
  {
    if ids == [] {
      assert log + ids == log;
    } else {
      assert [ids[0]] + ids[1..] == ids;
      LeafLog(ids[0], scalars, log);
      LeavesLog(ids[1..], scalars, log + [ids[0]]);
      Sequences.Regroup(log, [ids[0]], ids[1..]);
    }
  }

  lemma LeafLog(id: Shareable, scalars: bool, log: seq<Shareable>)
    requires Depth(id) == 0
    ensures LogId(id, scalars, log) == log + [id]
  {
    assert Parts(id) == [] && log + [id] + [] == log + [id];
  }

  lemma PartsAreLeaves(id: Shareable)
    ensures AreLeaves(Parts(id))
  {
  }

  /** The log of a tree is determined by its outermost values. */
  lemma {:induction false} LogIsLogIds(y: Yaml, scalars: bool, log: seq<Shareable>, bound: nat, m: Meaning)
    requires Coherent(y, bound, m)
    ensures Log(y, scalars, log) == LogIds(RootIds(y), scalars, log)
    decreases y
  {
    match y
    case Pair(_, value) => LogIsLogIds(value, scalars, log, bound, m);
    case Mapping(pairs) => LogAllIsLogIds(pairs, scalars, log, bound, m);
    case Sequence(items) => LogAllIsLogIds(items, scalars, log, bound, m);
    case Shared(id, inner) =>
      PartsAreLeaves(id);
      LogIsLogIds(inner, scalars, log, Depth(id), m);
      LogIsLogIds(inner, scalars, log + [id], Depth(id), m);
      LeavesLog(Parts(id), scalars, log);
      LeavesLog(Parts(id), scalars, log + [id]);
      LogIdsOne(id, scalars, log);
    case _ =>
  }

  lemma {:induction false} LogAllIsLogIds(ys: seq<Yaml>, scalars: bool, log: seq<Shareable>, bound: nat, m: Meaning)
    requires CoherentAll(ys, bound, m)
    ensures LogAll(ys, scalars, log) == LogIds(RootIdsAll(ys), scalars, log)
    decreases ys
  {
    if ys != [] {
      LogIsLogIds(ys[0], scalars, log, bound, m);
      LogAllIsLogIds(ys[1..], scalars, Log(ys[0], scalars, log), bound, m);
      LogIdsConcat(RootIds(ys[0]), RootIdsAll(ys[1..]), scalars, log);
    }
  }

  // ---------- lists of trees ----------

  /** ys is coherent, and ids are its outermost values. */
  ghost predicate Holds(ys: seq<Yaml>, ids: seq<Shareable>, bound: nat, m: Meaning) {
    RootIdsAll(ys) == ids && CoherentAll(ys, bound, m)
  }

  lemma HoldsOne(y: Yaml, bound: nat, m: Meaning)
    requires Coherent(y, bound, m)
    ensures Holds([y], RootIds(y), bound, m)
  {
    assert [y][1..] == [];
    assert RootIds(y) + [] == RootIds(y);
  }

  lemma {:induction false} HoldsConcat(a: seq<Yaml>, b: seq<Yaml>, p: seq<Shareable>, q: seq<Shareable>, bound: nat,
                                       m: Meaning)
    requires Holds(a, p, bound, m) && Holds(b, q, bound, m)
    ensures Holds(a + b, p + q, bound, m)
    decreases |a|
  {
    if a == [] {
      assert a + b == b && p + q == q;
    } else {
      assert (a + b)[1..] == a[1..] + b;
      HoldsConcat(a[1..], b, RootIdsAll(a[1..]), q, bound, m);
      assert RootIds(a[0]) + (RootIdsAll(a[1..]) + q) == p + q;
    }
  }

  lemma {:induction false} CoherentRaise(y: Yaml, bound: nat, bound': nat, m: Meaning)
    requires Coherent(y, bound, m) && bound <= bound'
    ensures Coherent(y, bound', m)
    decreases y
  {
    match y
    case Pair(_, value) => CoherentRaise(value, bound, bound', m);
    case Mapping(pairs) => CoherentAllRaise(pairs, bound, bound', m);
    case Sequence(items) => CoherentAllRaise(items, bound, bound', m);
    case _ =>
  }

  lemma {:induction false} CoherentAllRaise(ys: seq<Yaml>, bound: nat, bound': nat, m: Meaning)
    requires CoherentAll(ys, bound, m) && bound <= bound'
    ensures CoherentAll(ys, bound', m)
    decreases ys
  {
    if ys != [] {
      CoherentRaise(ys[0], bound, bound', m);
      CoherentAllRaise(ys[1..], bound, bound', m);
    }
  }

  lemma ListPairHolds(key: string, items: seq<Yaml>, ids: seq<Shareable>, bound: nat, m: Meaning)
    requires Holds(items, ids, bound, m)
    ensures Holds(ListPair(key, items), ids, bound, m)
  {
    if items != [] {
      var y := Pair(key, Sequence(items));
      assert RootIds(y) == RootIds(Sequence(items)) == ids;
      assert Coherent(Sequence(items), bound, m);
      HoldsOne(y, bound, m);
    }
  }

  // ---------- values that hold nothing shared ----------

  ghost predicate IsPlain(y: Yaml)
    decreases y
  {
    match y
    case Pair(_, value) => IsPlain(value)
    case Mapping(pairs) => AllPlain(pairs)
    case Sequence(items) => AllPlain(items)
    case Shared(_, _) => false
    case Anchored(_, _) => false
    case Alias(_) => false
    case _ => true
  }

  ghost predicate AllPlain(ys: seq<Yaml>)
    decreases ys
  {
    ys == [] || (IsPlain(ys[0]) && AllPlain(ys[1..]))
  }

  lemma {:induction false} PlainHoldsNothing(y: Yaml, bound: nat, m: Meaning)
    requires IsPlain(y)
    ensures RootIds(y) == [] && Coherent(y, bound, m)
    decreases y
  {
    match y
    case Pair(_, value) => PlainHoldsNothing(value, bound, m);
    case Mapping(pairs) => AllPlainHoldNothing(pairs, bound, m);
    case Sequence(items) => AllPlainHoldNothing(items, bound, m);
    case _ =>
  }

  lemma {:induction false} AllPlainHoldNothing(ys: seq<Yaml>, bound: nat, m: Meaning)
    requires AllPlain(ys)
    ensures Holds(ys, [], bound, m)
    decreases ys
  {
    if ys != [] {
      PlainHoldsNothing(ys[0], bound, m);
      AllPlainHoldNothing(ys[1..], bound, m);
    }
  }

  lemma {:induction false} PlainConcat(a: seq<Yaml>, b: seq<Yaml>)
    requires AllPlain(a) && AllPlain(b)
    ensures AllPlain(a + b)
    decreases |a|
  {
    if a == [] {
      assert a + b == b;
    } else {
      assert (a + b)[1..] == a[1..] + b;
      PlainConcat(a[1..], b);
    }
  }

  lemma PlainPair(key: string, value: Yaml)
    requires IsPlain(value)
    ensures AllPlain([Pair(key, value)])
  {
    assert [Pair(key, value)][1..] == [];
    assert IsPlain(Pair(key, value));
  }

  lemma TextPairPlain(key: string, text: Option<string>)
    ensures AllPlain(TextPair(key, text))
  {
    if text.Some? {
      PlainPair(key, Text(text.value));
    }
  }

  lemma NumberPairPlain(key: string, number: nat)
    ensures AllPlain(NumberPair(key, number))
  {
    PlainPair(key, Number(number));
  }

  lemma PlainPairs(key: string, value: Yaml, key': string, value': Yaml)
    requires IsPlain(value) && IsPlain(value')
    ensures AllPlain([Pair(key, value), Pair(key', value')])
  {
    PlainPair(key, value);
    PlainPair(key', value');
    PlainConcat([Pair(key, value)], [Pair(key', value')]);
    assert [Pair(key, value)] + [Pair(key', value')] == [Pair(key, value), Pair(key', value')];
  }

  lemma ListPairPlain(key: string, items: seq<Yaml>)
    requires AllPlain(items)
    ensures AllPlain(ListPair(key, items))
  {
    if items != [] {
      PlainPair(key, Sequence(items));
    }
  }

  lemma {:induction false} ContentYamlsPlain(contents: seq<MessageContent>)
    ensures AllPlain(ContentYamls(contents))
  {
    if contents != [] {
      PlainPairs("lang", Text(contents[0].language), "text", Text(contents[0].text));
      assert IsPlain(ContentYaml(contents[0]));
      ContentYamlsPlain(contents[1..]);
      assert ContentYamls(contents)[1..] == ContentYamls(contents[1..]);
    }
  }

  lemma ContentsInnerPlain(contents: seq<MessageContent>)
    ensures IsPlain(ContentsInner(contents))
  {
    ContentYamlsPlain(contents);
  }

  lemma {:induction false} LocationYamlsPlain(locations: seq<Location>)
    ensures AllPlain(LocationYamls(locations))
  {
    if locations != [] {
      LocationYamlsPlain(locations[1..]);
      assert LocationYamls(locations)[1..] == LocationYamls(locations[1..]);
      var l := locations[0];
      if l.name.Some? {
        PlainPairs("link", Text(l.url), "name", Text(l.name.value));
      }
    }
  }

  lemma {:induction false} TextYamlsPlain(texts: seq<string>)
    ensures AllPlain(TextYamls(texts))
  {
    if texts != [] {
      TextYamlsPlain(texts[1..]);
      assert TextYamls(texts)[1..] == TextYamls(texts[1..]);
    }
  }

  lemma GroupPlain(g: Group)
    ensures IsPlain(GroupYaml(g))
  {
    var name := [Pair("name", Text(g.name))];
    PlainPair("name", Text(g.name));
    TextPairPlain("description", g.description);
    TextYamlsPlain(g.afterGroups);
    ListPairPlain("after", TextYamls(g.afterGroups));
    PlainConcat(name, TextPair("description", g.description));
    PlainConcat(name + TextPair("description", g.description), ListPair("after", TextYamls(g.afterGroups)));
  }

  lemma {:induction false} GroupYamlsPlain(groups: seq<Group>)
    ensures AllPlain(GroupYamls(groups))
  {
    if groups != [] {
      GroupPlain(groups[0]);
      GroupYamlsPlain(groups[1..]);
      assert GroupYamls(groups)[1..] == GroupYamls(groups[1..]);
    }
  }

  // ---------- messages, files and the other values of a plugin ----------

  /** All values but files mean what is written for their identities. */
  ghost predicate Sound(m: Meaning) {
    forall id <- m.of :: id.SharedFile? || m.of[id] == Norm(InnerOf(id), m.exact)
  }

  ghost predicate FileMeans(m: Meaning, f: File) {
    FileId(f) in m.of ==> m.of[FileId(f)] == Norm(FileInner(f), m.exact)
  }

  lemma ContentsCoherent(contents: seq<MessageContent>, m: Meaning)
    requires Sound(m)
    ensures Coherent(ContentsYaml(contents), 1, m)
  {
    ContentsInnerPlain(contents);
    PlainHoldsNothing(ContentsInner(contents), 0, m);
  }

  lemma ContentsPairHolds(key: string, contents: seq<MessageContent>, m: Meaning)
    requires Sound(m)
    ensures Holds(ContentsPair(key, contents), ContentsParts(contents), 1, m)
  {
    if contents != [] {
      ContentsCoherent(contents, m);
      assert RootIds(Pair(key, ContentsYaml(contents))) == RootIds(ContentsYaml(contents));
      HoldsOne(Pair(key, ContentsYaml(contents)), 1, m);
    }
  }

  lemma ConditionPairHolds(key: string, condition: Option<string>, m: Meaning)
    requires Sound(m)
    ensures Holds(ConditionPair(key, condition), ConditionParts(condition), 1, m)
  {
    if condition.Some? {
      var y := ConditionYaml(condition.value);
      assert Coherent(y.inner, 0, m) && Coherent(y, 1, m);
      assert RootIds(Pair(key, y)) == RootIds(y);
      HoldsOne(Pair(key, y), 1, m);
    }
  }

  lemma MessageHolds(message: Message, m: Meaning)
    requires Sound(m)
    ensures Coherent(MessageYaml(message), 2, m)
  {
    var kind := [Pair("type", Text(LevelText(message.level)))];
    PlainPair("type", Text(LevelText(message.level)));
    AllPlainHoldNothing(kind, 1, m);
    ContentsPairHolds("content", message.content, m);
    ConditionPairHolds("condition", message.condition, m);
    var ys, p := kind + ContentsPair("content", message.content), [] + ContentsParts(message.content);
    HoldsConcat(kind, ContentsPair("content", message.content), [], ContentsParts(message.content), 1, m);
    HoldsConcat(ys, ConditionPair("condition", message.condition), p, ConditionParts(message.condition), 1, m);
    assert MessageInner(message) == Mapping(ys + ConditionPair("condition", message.condition));
    assert p == ContentsParts(message.content);
  }

  /** What a file holds depends only on what equal files share. */
  lemma FileInnerHolds(f: File, m: Meaning)
    requires Sound(m)
    ensures RootIds(FileInner(f)) == Parts(FileId(f)) && Coherent(FileInner(f), 1, m)
  {
    if !IsScalarFile(f) {
      var names := [Pair("name", FileName(f.name))] + TextPair("display", f.displayName);
      PlainPair("name", FileName(f.name));
      TextPairPlain("display", f.displayName);
      PlainConcat([Pair("name", FileName(f.name))], TextPair("display", f.displayName));
      AllPlainHoldNothing(names, 1, m);
      ContentsPairHolds("detail", f.detail, m);
      HoldsConcat(names, ContentsPair("detail", f.detail), [], ContentsParts(f.detail), 1, m);
      assert [] + ContentsParts(f.detail) == ContentsParts(f.detail);
      FileConditionsHold(f, names + ContentsPair("detail", f.detail), ContentsParts(f.detail), m);
    }
  }

  lemma FileConditionsHold(f: File, ys: seq<Yaml>, parts: seq<Shareable>, m: Meaning)
    requires Sound(m) && Holds(ys, parts, 1, m)
    ensures Holds(ys + ConditionPair("condition", f.condition) + ConditionPair("constraint", f.constraint),
                  parts + ConditionParts(f.condition) + ConditionParts(f.constraint), 1, m)
  {
    ConditionPairHolds("condition", f.condition, m);
    ConditionPairHolds("constraint", f.constraint, m);
    HoldsConcat(ys, ConditionPair("condition", f.condition), parts, ConditionParts(f.condition), 1, m);
    HoldsConcat(ys + ConditionPair("condition", f.condition), ConditionPair("constraint", f.constraint),
                parts + ConditionParts(f.condition), ConditionParts(f.constraint), 1, m);
  }

  lemma FileHolds(f: File, m: Meaning)
    requires Sound(m) && FileMeans(m, f)
    ensures Coherent(FileYaml(f), 2, m)
  {
    FileInnerHolds(f, m);
  }

  lemma TagHolds(t: Tag, m: Meaning)
    requires Sound(m)
    ensures RootIds(TagYaml(t)) == ConditionParts(t.condition) && Coherent(TagYaml(t), 2, m)
  {
    if t.condition.Some? {
      var name := [Pair("name", Text(TagText(t)))];
      PlainPair("name", Text(TagText(t)));
      AllPlainHoldNothing(name, 1, m);
      ConditionPairHolds("condition", t.condition, m);
      HoldsConcat(name, ConditionPair("condition", t.condition), [], ConditionParts(t.condition), 1, m);
      assert [] + ConditionParts(t.condition) == ConditionParts(t.condition);
      CoherentAllRaise(name + ConditionPair("condition", t.condition), 1, 2, m);
    }
  }

  /** The part of cleaning data that comes before its detail. */
  function CleaningDataHead(c: PluginCleaningData): seq<Yaml> {
    [Pair("crc", Number(c.crc)), Pair("util", Text(c.cleaningUtility))]
    + NumberPair("itm", c.itmCount)
    + NumberPair("udr", c.deletedReferenceCount)
    + NumberPair("nav", c.deletedNavmeshCount)
  }

  lemma CleaningDataHeadPlain(c: PluginCleaningData)
    ensures AllPlain(CleaningDataHead(c))
  {
    var ys := [Pair("crc", Number(c.crc)), Pair("util", Text(c.cleaningUtility))];
    PlainPairs("crc", Number(c.crc), "util", Text(c.cleaningUtility));
    NumberPairPlain("itm", c.itmCount);
    NumberPairPlain("udr", c.deletedReferenceCount);
    NumberPairPlain("nav", c.deletedNavmeshCount);
    PlainConcat(ys, NumberPair("itm", c.itmCount));
    PlainConcat(ys + NumberPair("itm", c.itmCount), NumberPair("udr", c.deletedReferenceCount));
    PlainConcat(ys + NumberPair("itm", c.itmCount) + NumberPair("udr", c.deletedReferenceCount),
                NumberPair("nav", c.deletedNavmeshCount));
  }

  lemma CleaningDataHolds(c: PluginCleaningData, m: Meaning)
    requires Sound(m)
    ensures RootIds(CleaningDataYaml(c)) == ContentsParts(c.detail) + ConditionParts(c.condition)
    ensures Coherent(CleaningDataYaml(c), 2, m)
  {
    CleaningDataHeadPlain(c);
    AllPlainHoldNothing(CleaningDataHead(c), 1, m);
    ContentsPairHolds("detail", c.detail, m);
    ConditionPairHolds("condition", c.condition, m);
    var ys, p := CleaningDataHead(c) + ContentsPair("detail", c.detail), [] + ContentsParts(c.detail);
    HoldsConcat(CleaningDataHead(c), ContentsPair("detail", c.detail), [], ContentsParts(c.detail), 1, m);
    HoldsConcat(ys, ConditionPair("condition", c.condition), p, ConditionParts(c.condition), 1, m);
    CoherentAllRaise(ys + ConditionPair("condition", c.condition), 1, 2, m);
    assert p == ContentsParts(c.detail);
  }

  // ---------- lists of them ----------

  function TagIds(tags: seq<Tag>): seq<Shareable> {
    if tags == [] then [] else ConditionParts(tags[0].condition) + TagIds(tags[1..])
  }

  function CleaningDataIds(data: seq<PluginCleaningData>): seq<Shareable> {
    if data == [] then []
    else ContentsParts(data[0].detail) + ConditionParts(data[0].condition) + CleaningDataIds(data[1..])
  }

  lemma IdsFirst<T>(id: T -> Shareable, s: seq<T>)
    requires s != []
    ensures Ids(id, s) == [id(s[0])] + Ids(id, s[1..])
  {
  }

  lemma {:induction false} FilesHold(files: seq<File>, m: Meaning)
    requires Sound(m) && forall f <- files :: FileMeans(m, f)
    ensures Holds(FileYamls(files), Ids(FileId, files), 2, m)
  {
    if files != [] {
      FileHolds(files[0], m);
      FilesHold(files[1..], m);
      assert FileYamls(files)[1..] == FileYamls(files[1..]);
      IdsFirst(FileId, files);
    }
  }

  lemma {:induction false} MessagesHold(messages: seq<Message>, m: Meaning)
    requires Sound(m)
    ensures Holds(MessageYamls(messages), Ids(MessageId, messages), 2, m)
  {
    if messages != [] {
      MessageHolds(messages[0], m);
      MessagesHold(messages[1..], m);
      assert MessageYamls(messages)[1..] == MessageYamls(messages[1..]);
      IdsFirst(MessageId, messages);
    }
  }

  lemma {:induction false} TagsHold(tags: seq<Tag>, m: Meaning)
    requires Sound(m)
    ensures Holds(TagYamls(tags), TagIds(tags), 2, m)
  {
    if tags != [] {
      TagHolds(tags[0], m);
      TagsHold(tags[1..], m);
      assert TagYamls(tags)[1..] == TagYamls(tags[1..]);
    }
  }

  lemma {:induction false} CleaningDataHold(data: seq<PluginCleaningData>, m: Meaning)
    requires Sound(m)
    ensures Holds(CleaningDataYamls(data), CleaningDataIds(data), 2, m)
  {
    if data != [] {
      CleaningDataHolds(data[0], m);
      CleaningDataHold(data[1..], m);
      assert CleaningDataYamls(data)[1..] == CleaningDataYamls(data[1..]);
    }
  }

  // ---------- plugins and documents ----------

  function PluginFiles(p: PluginMetadata): seq<File> {
    p.loadAfter + p.requirements + p.incompatibilities
  }

  function AllFiles(plugins: seq<PluginMetadata>): seq<File> {
    if plugins == [] then [] else PluginFiles(plugins[0]) + AllFiles(plugins[1..])
  }

  /** The values of a plugin, list by list in the order in which they are written. */
  function PluginIds(p: PluginMetadata): seq<Shareable> {
    Ids(FileId, p.loadAfter) + Ids(FileId, p.requirements) + Ids(FileId, p.incompatibilities)
    + Ids(MessageId, p.messages) + TagIds(p.tags) + CleaningDataIds(p.dirtyInfo) + CleaningDataIds(p.cleanInfo)
  }

  function PluginsIds(plugins: seq<PluginMetadata>): seq<Shareable> {
    if plugins == [] then [] else PluginIds(plugins[0]) + PluginsIds(plugins[1..])
  }

  function DocumentIds(messages: seq<Message>, plugins: seq<PluginMetadata>): seq<Shareable> {
    Ids(MessageId, messages) + PluginsIds(plugins)
  }

  /** The part of a plugin that comes before its files. */
  function PluginHead(p: PluginMetadata): seq<Yaml> {
    [Pair("name", Text(p.name.text))] + ListPair("url", LocationYamls(p.locations)) + TextPair("group", p.group)
  }

  lemma PluginHeadPlain(p: PluginMetadata)
    ensures AllPlain(PluginHead(p))
  {
    var name := [Pair("name", Text(p.name.text))];
    PlainPair("name", Text(p.name.text));
    LocationYamlsPlain(p.locations);
    ListPairPlain("url", LocationYamls(p.locations));
    TextPairPlain("group", p.group);
    PlainConcat(name, ListPair("url", LocationYamls(p.locations)));
    PlainConcat(name + ListPair("url", LocationYamls(p.locations)), TextPair("group", p.group));
  }

  lemma AppendList(ys: seq<Yaml>, ids: seq<Shareable>, key: string, items: seq<Yaml>, more: seq<Shareable>, m: Meaning)
    returns (ys': seq<Yaml>, ids': seq<Shareable>)
    requires Holds(ys, ids, 2, m) && Holds(items, more, 2, m)
    ensures ys' == ys + ListPair(key, items) && ids' == ids + more && Holds(ys', ids', 2, m)
  {
    ys', ids' := ys + ListPair(key, items), ids + more;
    ListPairHolds(key, items, more, 2, m);
    HoldsConcat(ys, ListPair(key, items), ids, more, 2, m);
  }

  lemma PluginFilesHold(p: PluginMetadata, m: Meaning) returns (ys: seq<Yaml>, ids: seq<Shareable>)
    requires Sound(m) && forall f <- PluginFiles(p) :: FileMeans(m, f)
    ensures ys == PluginHead(p) + ListPair("after", FileYamls(p.loadAfter)) + ListPair("req", FileYamls(p.requirements))
               + ListPair("inc", FileYamls(p.incompatibilities))
    ensures ids == Ids(FileId, p.loadAfter) + Ids(FileId, p.requirements) + Ids(FileId, p.incompatibilities)
    ensures Holds(ys, ids, 2, m)
  {
    PluginHeadPlain(p);
    AllPlainHoldNothing(PluginHead(p), 2, m);
    FilesHold(p.loadAfter, m);
    FilesHold(p.requirements, m);
    FilesHold(p.incompatibilities, m);
    ys, ids := AppendList(PluginHead(p), [], "after", FileYamls(p.loadAfter), Ids(FileId, p.loadAfter), m);
    assert ids == Ids(FileId, p.loadAfter);
    ys, ids := AppendList(ys, ids, "req", FileYamls(p.requirements), Ids(FileId, p.requirements), m);
    ys, ids := AppendList(ys, ids, "inc", FileYamls(p.incompatibilities), Ids(FileId, p.incompatibilities), m);
  }

  lemma PluginHolds(p: PluginMetadata, m: Meaning)
    requires Sound(m) && forall f <- PluginFiles(p) :: FileMeans(m, f)
    ensures RootIds(PluginYaml(p)) == PluginIds(p) && Coherent(PluginYaml(p), 2, m)
  {
    var ys, ids := PluginFilesHold(p, m);
    MessagesHold(p.messages, m);
    TagsHold(p.tags, m);
    CleaningDataHold(p.dirtyInfo, m);
    CleaningDataHold(p.cleanInfo, m);
    ys, ids := AppendList(ys, ids, "msg", MessageYamls(p.messages), Ids(MessageId, p.messages), m);
    ys, ids := AppendList(ys, ids, "tag", TagYamls(p.tags), TagIds(p.tags), m);
    ys, ids := AppendList(ys, ids, "dirty", CleaningDataYamls(p.dirtyInfo), CleaningDataIds(p.dirtyInfo), m);
    ys, ids := AppendList(ys, ids, "clean", CleaningDataYamls(p.cleanInfo), CleaningDataIds(p.cleanInfo), m);
    assert PluginYaml(p) == Mapping(ys);
  }

  lemma {:induction false} PluginsHold(plugins: seq<PluginMetadata>, m: Meaning)
    requires Sound(m) && forall f <- AllFiles(plugins) :: FileMeans(m, f)
    ensures Holds(PluginYamls(plugins), PluginsIds(plugins), 2, m)
  {
    if plugins != [] {
      assert AllFiles(plugins) == PluginFiles(plugins[0]) + AllFiles(plugins[1..]);
      PluginsHold(plugins[1..], m);
      FirstPluginHolds(plugins, m);
    }
  }

  lemma FirstPluginHolds(plugins: seq<PluginMetadata>, m: Meaning)
    requires plugins != [] && Sound(m) && forall f <- PluginFiles(plugins[0]) :: FileMeans(m, f)
    requires Holds(PluginYamls(plugins[1..]), PluginsIds(plugins[1..]), 2, m)
    ensures Holds(PluginYamls(plugins), PluginsIds(plugins), 2, m)
  {
    var p, rest, ids := plugins[0], PluginYamls(plugins[1..]), PluginsIds(plugins[1..]);
    if HasNameOnly(p) {
      assert PluginYamls(plugins) == [] + rest == rest;
      assert PluginIds(p) == [] && [] + ids == ids;
    } else {
      PluginHolds(p, m);
      HoldsOne(PluginYaml(p), 2, m);
      HoldsConcat([PluginYaml(p)], rest, PluginIds(p), ids, 2, m);
    }
  }

  /** The part of a document that holds nothing shared. */
  function DocumentHead(bashTags: seq<string>, groups: seq<Group>): seq<Yaml> {
    ListPair("bash_tags", TextYamls(bashTags))
    + if |groups| > 1 then [Pair("groups", Sequence(GroupYamls(groups)))] else []
  }

  function PluginsPair(plugins: seq<PluginMetadata>): seq<Yaml> {
    if plugins == [] then [] else [Pair("plugins", Sequence(PluginYamls(plugins)))]
  }

  lemma DocumentHeadPlain(bashTags: seq<string>, groups: seq<Group>)
    ensures AllPlain(DocumentHead(bashTags, groups))
  {
    TextYamlsPlain(bashTags);
    ListPairPlain("bash_tags", TextYamls(bashTags));
    GroupYamlsPlain(groups);
    if |groups| > 1 {
      PlainPair("groups", Sequence(GroupYamls(groups)));
    }
    PlainConcat(ListPair("bash_tags", TextYamls(bashTags)),
                if |groups| > 1 then [Pair("groups", Sequence(GroupYamls(groups)))] else []);
  }

  /** A document holds the values of its messages and then those of its plugins. */
  lemma DocumentHolds(bashTags: seq<string>, groups: seq<Group>, messages: seq<Message>, plugins: seq<PluginMetadata>,
                      m: Meaning)
    requires Sound(m) && forall f <- AllFiles(plugins) :: FileMeans(m, f)
    ensures Holds(DocumentPairs(bashTags, groups, messages, plugins), DocumentIds(messages, plugins), 2, m)
  {
    DocumentHeadPlain(bashTags, groups);
    AllPlainHoldNothing(DocumentHead(bashTags, groups), 2, m);
    MessagesHold(messages, m);
    PluginsHold(plugins, m);
    var ys, ids := AppendList(DocumentHead(bashTags, groups), [], "globals", MessageYamls(messages),
                              Ids(MessageId, messages), m);
    assert ids == Ids(MessageId, messages);
    if plugins != [] {
      var y := Pair("plugins", Sequence(PluginYamls(plugins)));
      assert RootIds(y) == RootIds(Sequence(PluginYamls(plugins))) == PluginsIds(plugins);
      assert Coherent(Sequence(PluginYamls(plugins)), 2, m);
      HoldsOne(y, 2, m);
    }
    HoldsConcat(ys, PluginsPair(plugins), ids, PluginsIds(plugins), 2, m);
    assert DocumentPairs(bashTags, groups, messages, plugins) == ys + PluginsPair(plugins);
  }
}
