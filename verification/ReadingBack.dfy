/** Reading the trees that src/metadata writes: which values can be read again, and what each is read as. */
module ReadingBack {
  import opened Wrappers
  import opened Metadata
  import opened MetadataYaml
  import opened MetadataReader
  import opened Sequences

  // ---------- the keys of written mappings ----------

  predicate HasValue(m: map<string, Yaml>, key: string, value: Option<Yaml>) {
    (key in m) == value.Some? && (key in m ==> m[key] == value.value)
  }

  function PairIf(key: string, value: Option<Yaml>): seq<Yaml> {
    if value.Some? then [Pair(key, value.value)] else []
  }

  function Put(m: map<string, Yaml>, key: string, value: Option<Yaml>): map<string, Yaml> {
    if value.Some? then m[key := value.value] else m
  }

  /** The mapping with the first n keys, of which those without values are left out. */
  function Fields(keys: seq<string>, values: seq<Option<Yaml>>, n: nat): map<string, Yaml>
    requires n <= |keys| == |values|
  {
    if n == 0 then map[] else Put(Fields(keys, values, n - 1), keys[n - 1], values[n - 1])
  }

  ghost predicate Distinct(keys: seq<string>) {
    forall i, j :: 0 <= i < j < |keys| ==> keys[i] != keys[j]
  }

  lemma {:induction false} FieldIs(keys: seq<string>, values: seq<Option<Yaml>>, n: nat, i: nat)
    requires i < n <= |keys| == |values| && Distinct(keys)
    ensures HasValue(Fields(keys, values, n), keys[i], values[i])
  {
    if i < n - 1 {
      FieldIs(keys, values, n - 1, i);
    } else {
      NoField(keys, values, n - 1, keys[i]);
    }
  }

  lemma {:induction false} NoField(keys: seq<string>, values: seq<Option<Yaml>>, n: nat, key: string)
    requires n <= |keys| == |values| && forall i :: 0 <= i < n ==> keys[i] != key
    ensures key !in Fields(keys, values, n)
  {
    if n != 0 {
      NoField(keys, values, n - 1, key);
    }
  }

  /** The pairs of the first n keys, of which those without values are left out. */
  function FieldPairs(keys: seq<string>, values: seq<Option<Yaml>>, n: nat): seq<Yaml>
    requires n <= |keys| == |values|
  {
    if n == 0 then [] else FieldPairs(keys, values, n - 1) + PairIf(keys[n - 1], values[n - 1])
  }

  lemma {:induction false} FieldPairsHold(keys: seq<string>, values: seq<Option<Yaml>>, n: nat)
    requires n <= |keys| == |values|
    ensures Values(FieldPairs(keys, values, n)) == Fields(keys, values, n)
  {
    if n != 0 {
      FieldPairsHold(keys, values, n - 1);
      ValuesMore(FieldPairs(keys, values, n - 1), keys[n - 1], values[n - 1]);
    }
  }

  lemma ValuesMore(pairs: seq<Yaml>, key: string, value: Option<Yaml>)
    ensures Values(pairs + PairIf(key, value)) == Put(Values(pairs), key, value)
  {
    if value.Some? {
      AppendedIs(pairs, Pair(key, value.value));
    } else {
      assert pairs + [] == pairs;
    }
  }

  ghost predicate Has(pairs: seq<Yaml>, keys: seq<string>, values: seq<Option<Yaml>>, n: nat) {
    n <= |keys| == |values| && pairs == FieldPairs(keys, values, n)
  }

  lemma HasFirst(keys: seq<string>, values: seq<Option<Yaml>>)
    requires |keys| == |values| != 0 && values[0].Some?
    ensures Has([Pair(keys[0], values[0].value)], keys, values, 1)
  {
    assert FieldPairs(keys, values, 0) == [];
  }

  lemma HasMore(pairs: seq<Yaml>, keys: seq<string>, values: seq<Option<Yaml>>, n: nat)
    requires Has(pairs, keys, values, n) && n < |keys|
    ensures Has(pairs + PairIf(keys[n], values[n]), keys, values, n + 1)
  {
  }

  lemma HasThreeMore(pairs: seq<Yaml>, keys: seq<string>, values: seq<Option<Yaml>>, n: nat,
                     a: seq<Yaml>, b: seq<Yaml>, c: seq<Yaml>)
    requires Has(pairs, keys, values, n) && n + 3 <= |keys|
    requires a == PairIf(keys[n], values[n])
    requires b == PairIf(keys[n + 1], values[n + 1])
    requires c == PairIf(keys[n + 2], values[n + 2])
    ensures Has(pairs + a + b + c, keys, values, n + 3)
  {
    HasMore(pairs, keys, values, n);
    HasMore(pairs + a, keys, values, n + 1);
    HasMore(pairs + a + b, keys, values, n + 2);
  }

  lemma HasTwo(keys: seq<string>, values: seq<Option<Yaml>>)
    requires |keys| == |values| > 1 && values[0].Some? && values[1].Some?
    ensures Has([Pair(keys[0], values[0].value), Pair(keys[1], values[1].value)], keys, values, 2)
  {
    HasFirst(keys, values);
    HasMore([Pair(keys[0], values[0].value)], keys, values, 1);
    assert [Pair(keys[0], values[0].value)] + PairIf(keys[1], values[1])
        == [Pair(keys[0], values[0].value), Pair(keys[1], values[1].value)];
  }

  lemma ValueAt(pairs: seq<Yaml>, keys: seq<string>, values: seq<Option<Yaml>>, i: nat)
    requires Has(pairs, keys, values, |keys|) && Distinct(keys) && i < |keys|
    ensures HasValue(Values(pairs), keys[i], values[i])
  {
    FieldPairsHold(keys, values, |keys|);
    FieldIs(keys, values, |keys|, i);
  }

  lemma NoValue(pairs: seq<Yaml>, keys: seq<string>, values: seq<Option<Yaml>>, key: string)
    requires Has(pairs, keys, values, |keys|) && key !in keys
    ensures key !in Values(pairs)
  {
    FieldPairsHold(keys, values, |keys|);
    NoField(keys, values, |keys|, key);
  }

  lemma BothValues(key: string, value: Yaml, key': string, value': Yaml)
    requires key != key'
    ensures var m := Values([Pair(key, value), Pair(key', value')]);
            HasValue(m, key, Some(value)) && HasValue(m, key', Some(value'))
  {
    HasTwo([key, key'], [Some(value), Some(value')]);
    ValueAt([Pair(key, value), Pair(key', value')], [key, key'], [Some(value), Some(value')], 0);
    ValueAt([Pair(key, value), Pair(key', value')], [key, key'], [Some(value), Some(value')], 1);
  }

  function IfAny<T>(s: seq<T>, y: Yaml): Option<Yaml> {
    if s == [] then None else Some(y)
  }

  function TextValue(text: Option<string>): Option<Yaml> {
    if text.None? then None else Some(Text(text.value))
  }

  function ContentsValue(contents: seq<MessageContent>): Option<Yaml> {
    IfAny(contents, ContentsYaml(contents))
  }

  function ConditionValue(condition: Option<string>): Option<Yaml> {
    if condition.None? then None else Some(ConditionYaml(condition.value))
  }

  function NumberValue(number: nat): Option<Yaml> {
    if number == 0 then None else Some(Number(number))
  }

  function ListValue(items: seq<Yaml>): Option<Yaml> {
    IfAny(items, Sequence(items))
  }

  // ---------- lists ----------

  /** The outcome of reading one value or a list of values, each of which may fail to be read. */
  function Outcome<T>(loads: bool, loaded: T): Option<T> {
    if loads then Some(loaded) else None
  }

  lemma ReadAllFirst<T>(y: Yaml, ys: seq<Yaml>, read: Yaml -> Option<T>, x: T, xs: seq<T>, loads: T -> bool,
                        loaded: T -> T)
    requires read(y) == Outcome(loads(x), loaded(x))
    requires ReadAll(ys, read) == Outcome(Each(xs, loads), Mapped(xs, loaded))
    ensures ReadAll([y] + ys, read) == Outcome(Each([x] + xs, loads), Mapped([x] + xs, loaded))
  {
    assert ([y] + ys)[1..] == ys && ([x] + xs)[1..] == xs;
  }

  // ---------- message contents ----------

  /** The language of a single content is not written. */
  function LoadedContents(contents: seq<MessageContent>): seq<MessageContent> {
    if |contents| == 1 then [MessageContent(contents[0].text, DEFAULT_LANGUAGE)] else contents
  }

  lemma ContentReads(c: MessageContent)
    ensures ReadContent(ContentYaml(c)) == Some(c)
  {
    BothValues("lang", Text(c.language), "text", Text(c.text));
  }

  lemma {:induction false} ContentYamlsRead(contents: seq<MessageContent>)
    ensures ReadAll(ContentYamls(contents), ReadContent) == Some(contents)
  {
    if contents != [] {
      ContentReads(contents[0]);
      ContentYamlsRead(contents[1..]);
      assert ContentYamls(contents)[1..] == ContentYamls(contents[1..]);
      HeadAndTail(contents);
    }
  }

  lemma BareIs(id: Shareable, inner: Yaml)
    requires !inner.Shared?
    ensures Bare(Shared(id, inner)) == inner
  {
    assert Bare(inner) == inner;
  }

  lemma ContentsRead(contents: seq<MessageContent>)
    requires contents != []
    ensures ReadContents(ContentsYaml(contents))
         == Outcome(MessageText.ValidContents(contents), LoadedContents(contents))
  {
    BareIs(ContentsId(contents), ContentsInner(contents));
    if |contents| > 1 {
      ContentYamlsRead(contents);
    }
  }

  // ---------- keys that may be left out ----------

  lemma ContentsGet(m: map<string, Yaml>, key: string, contents: seq<MessageContent>)
    requires HasValue(m, key, ContentsValue(contents))
    ensures GetContents(m, key) == Outcome(MessageText.ValidContents(contents), LoadedContents(contents))
  {
    if contents != [] {
      ContentsRead(contents);
    }
  }

  predicate ConditionLoads(condition: Option<string>, ps: Parsers) {
    condition.Some? ==> ps.isCondition(condition.value)
  }

  lemma ConditionGet(m: map<string, Yaml>, key: string, condition: Option<string>, ps: Parsers)
    requires HasValue(m, key, ConditionValue(condition))
    ensures GetCondition(m, key, ps) == Outcome(ConditionLoads(condition, ps), condition)
  {
    if condition.Some? {
      BareIs(ConditionId(condition.value), Text(condition.value));
    }
  }

  lemma StringGet(m: map<string, Yaml>, key: string, text: Option<string>)
    requires HasValue(m, key, TextValue(text))
    ensures GetString(m, key) == Some(text)
  {
  }

  predicate IsU32(n: nat) {
    n < 0x1_0000_0000
  }

  function IfPositive(number: nat): Option<nat> {
    if number == 0 then None else Some(number)
  }

  lemma NumberGet(m: map<string, Yaml>, key: string, number: nat)
    requires HasValue(m, key, NumberValue(number))
    ensures GetNumber(m, key) == Outcome(IsU32(number), IfPositive(number))
  {
  }

  lemma ListGet<T>(m: map<string, Yaml>, key: string, items: seq<Yaml>, read: Yaml -> Option<T>)
    requires HasValue(m, key, ListValue(items))
    ensures GetAll(m, key, read) == ReadAll(items, read)
  {
  }

  // ---------- messages ----------

  predicate MessageLoads(message: Message, ps: Parsers) {
    && message.content != [] && MessageText.ValidContents(message.content)
    && ConditionLoads(message.condition, ps)
  }

  function LoadedMessage(message: Message): Message {
    message.(content := LoadedContents(message.content))
  }

  function MessageValues(message: Message): seq<Option<Yaml>> {
    [Some(Text(LevelText(message.level))), ContentsValue(message.content), ConditionValue(message.condition)]
  }

  const MESSAGE_KEYS := ["type", "content", "condition"]

  lemma MessageHas(message: Message)
    ensures Has(MessageInner(message).pairs, MESSAGE_KEYS, MessageValues(message), 3)
  {
    var level, values := [Pair("type", Text(LevelText(message.level)))], MessageValues(message);
    HasFirst(MESSAGE_KEYS, values);
    HasMore(level, MESSAGE_KEYS, values, 1);
    HasMore(level + ContentsPair("content", message.content), MESSAGE_KEYS, values, 2);
  }

  lemma MessageKeys()
    ensures Distinct(MESSAGE_KEYS) && "subs" !in MESSAGE_KEYS
  {
  }

  lemma MessageGets(message: Message, m: map<string, Yaml>, ps: Parsers)
    requires m == Values(MessageInner(message).pairs)
    ensures GetRequiredString(m, "type") == Some(LevelText(message.level))
    ensures ("content" in m) == (message.content != [])
    ensures GetContents(m, "content")
         == Outcome(MessageText.ValidContents(message.content), LoadedContents(message.content))
    ensures GetCondition(m, "condition", ps) == Outcome(ConditionLoads(message.condition, ps), message.condition)
    ensures "subs" !in m
  {
    var pairs, values := MessageInner(message).pairs, MessageValues(message);
    MessageHas(message);
    MessageKeys();
    NoValue(pairs, MESSAGE_KEYS, values, "subs");
    ValueAt(pairs, MESSAGE_KEYS, values, 0);
    ValueAt(pairs, MESSAGE_KEYS, values, 1);
    ContentsGet(m, "content", message.content);
    ValueAt(pairs, MESSAGE_KEYS, values, 2);
    ConditionGet(m, "condition", message.condition, ps);
  }

  /** A message can be read exactly if it has contents, which are valid, and a valid condition or none. */
  lemma MessageReads(message: Message, ps: Parsers)
    ensures ReadMessage(MessageYaml(message), ps) == Outcome(MessageLoads(message, ps), LoadedMessage(message))
  {
    BareIs(MessageId(message), MessageInner(message));
    MessageGets(message, Values(MessageInner(message).pairs), ps);
    assert LevelOf(LevelText(message.level)) == message.level;
  }

  function MessageCheck(ps: Parsers): Message -> bool {
    message => MessageLoads(message, ps)
  }

  lemma {:induction false} MessagesRead(messages: seq<Message>, ps: Parsers)
    ensures ReadAll(MessageYamls(messages), MessageReader(ps))
         == Outcome(Each(messages, MessageCheck(ps)), Mapped(messages, LoadedMessage))
  {
    if messages != [] {
      MessageReads(messages[0], ps);
      MessagesRead(messages[1..], ps);
      ReadAllFirst(MessageYaml(messages[0]), MessageYamls(messages[1..]), MessageReader(ps), messages[0],
                   messages[1..], MessageCheck(ps), LoadedMessage);
      HeadAndTail(messages);
    }
  }

  /** Formatting each text gives the text at the same place, and the languages stay. */
  ghost predicate FormatsTo(contents: seq<MessageContent>, subs: seq<string>, r: seq<MessageContent>) {
    && |r| == |contents|
    && forall i :: 0 <= i < |r| ==>
         Format.Formatted(contents[i].text, subs) == Ok(r[i].text) && r[i].language == contents[i].language
  }

  /** Substitution succeeds exactly if it does in every text. */
  lemma {:induction false} FormatAllIff(contents: seq<MessageContent>, subs: seq<string>, r: seq<MessageContent>)
    ensures FormatAll(contents, subs) == Some(r) <==> FormatsTo(contents, subs, r)
  {
    if contents != [] && r != [] {
      FormatAllIff(contents[1..], subs, r[1..]);
      HeadAndTail(r);
      FormatsFirst(contents, subs, r);
      var rest := FormatAll(contents[1..], subs);
      if rest.Some? && FormatAll(contents, subs) == Some(r) {
        assert r[1..] == rest.value;
      }
    }
  }

  lemma FormatsFirst(contents: seq<MessageContent>, subs: seq<string>, r: seq<MessageContent>)
    requires contents != [] && r != []
    ensures FormatsTo(contents, subs, r)
       <==> Format.Formatted(contents[0].text, subs) == Ok(r[0].text) && r[0].language == contents[0].language
            && FormatsTo(contents[1..], subs, r[1..])
  {
    if FormatsTo(contents[1..], subs, r[1..]) {
      assert forall i :: 0 < i < |r| ==> r[1..][i - 1] == r[i] && contents[1..][i - 1] == contents[i];
    }
  }

  const SUBSTITUTED_KEYS := ["type", "content", "subs"]

  lemma SubstitutedKeys()
    ensures Distinct(SUBSTITUTED_KEYS) && "condition" !in SUBSTITUTED_KEYS
  {
  }

  /** A message with substitutions is read with them in all its texts, or not at all if they do not fit one of them.
      Any type but a warning or an error is read as one to say. */
  lemma SubstitutedMessageReads(level: string, contents: seq<MessageContent>, subs: seq<string>, ps: Parsers)
    requires contents != [] && MessageText.ValidContents(contents) && subs != []
    ensures var y := Mapping([Pair("type", Text(level))] + ContentsPair("content", contents)
                             + ListPair("subs", TextYamls(subs)));
            var r := FormatAll(LoadedContents(contents), subs);
            ReadMessage(y, ps)
            == if r.None? then None
               else Some(Message(if level == "warn" then Warn else if level == "error" then Error else Say, r.value,
                                 None))
  {
    var kind := [Pair("type", Text(level))];
    var pairs := kind + ContentsPair("content", contents) + ListPair("subs", TextYamls(subs));
    var values := [Some(Text(level)), ContentsValue(contents), ListValue(TextYamls(subs))];
    HasFirst(SUBSTITUTED_KEYS, values);
    HasMore(kind, SUBSTITUTED_KEYS, values, 1);
    HasMore(kind + ContentsPair("content", contents), SUBSTITUTED_KEYS, values, 2);
    SubstitutedKeys();
    SubstitutedGets(level, contents, subs, pairs, ps);
    assert Bare(Mapping(pairs)) == Mapping(pairs);
  }

  lemma SubstitutedGets(level: string, contents: seq<MessageContent>, subs: seq<string>, pairs: seq<Yaml>, ps: Parsers)
    requires contents != [] && Distinct(SUBSTITUTED_KEYS) && "condition" !in SUBSTITUTED_KEYS
    requires Has(pairs, SUBSTITUTED_KEYS, [Some(Text(level)), ContentsValue(contents), ListValue(TextYamls(subs))], 3)
    ensures var m := Values(pairs);
            && GetRequiredString(m, "type") == Some(level) && "content" in m
            && ReadContents(m["content"]) == Outcome(MessageText.ValidContents(contents), LoadedContents(contents))
            && GetAll(m, "subs", AsString) == Some(subs) && GetCondition(m, "condition", ps) == Some(None)
  {
    var values := [Some(Text(level)), ContentsValue(contents), ListValue(TextYamls(subs))];
    ValueAt(pairs, SUBSTITUTED_KEYS, values, 0);
    ValueAt(pairs, SUBSTITUTED_KEYS, values, 1);
    ValueAt(pairs, SUBSTITUTED_KEYS, values, 2);
    NoValue(pairs, SUBSTITUTED_KEYS, values, "condition");
    ContentsRead(contents);
    ListGet(Values(pairs), "subs", TextYamls(subs), AsString);
    TextsRead(subs);
  }

  // ---------- files ----------

  predicate FileLoads(f: File, ps: Parsers) {
    MessageText.ValidContents(f.detail) && ConditionLoads(f.condition, ps) && ConditionLoads(f.constraint, ps)
  }

  function LoadedFile(f: File, ps: Parsers): File {
    f.(name := NamedFile(f.name.text, ps), detail := LoadedContents(f.detail))
  }

  function FileValues(f: File): seq<Option<Yaml>> {
    [Some(FileName(f.name)), TextValue(f.displayName), ContentsValue(f.detail), ConditionValue(f.condition),
     ConditionValue(f.constraint)]
  }

  const FILE_KEYS := ["name", "display", "detail", "condition", "constraint"]

  lemma FileHas(f: File)
    requires !IsScalarFile(f)
    ensures Has(FileInner(f).pairs, FILE_KEYS, FileValues(f), 5)
  {
    var name, values := [Pair("name", FileName(f.name))], FileValues(f);
    HasFirst(FILE_KEYS, values);
    HasThreeMore(name, FILE_KEYS, values, 1, TextPair("display", f.displayName), ContentsPair("detail", f.detail),
                 ConditionPair("condition", f.condition));
    HasMore(name + TextPair("display", f.displayName) + ContentsPair("detail", f.detail)
            + ConditionPair("condition", f.condition), FILE_KEYS, values, 4);
  }

  lemma FileKeys()
    ensures Distinct(FILE_KEYS)
  {
  }

  ghost predicate GetsFile(f: File, m: map<string, Yaml>, ps: Parsers) {
    && GetRequiredString(m, "name") == Some(f.name.text) && GetString(m, "display") == Some(f.displayName)
    && GetContents(m, "detail") == Outcome(MessageText.ValidContents(f.detail), LoadedContents(f.detail))
    && GetCondition(m, "condition", ps) == Outcome(ConditionLoads(f.condition, ps), f.condition)
    && GetCondition(m, "constraint", ps) == Outcome(ConditionLoads(f.constraint, ps), f.constraint)
  }

  lemma FileGets(f: File, m: map<string, Yaml>, ps: Parsers)
    requires !IsScalarFile(f) && m == Values(FileInner(f).pairs)
    ensures GetsFile(f, m, ps)
  {
    var pairs, values := FileInner(f).pairs, FileValues(f);
    FileHas(f);
    FileKeys();
    ValueAt(pairs, FILE_KEYS, values, 0);
    ValueAt(pairs, FILE_KEYS, values, 1);
    StringGet(m, "display", f.displayName);
    ValueAt(pairs, FILE_KEYS, values, 2);
    ContentsGet(m, "detail", f.detail);
    ValueAt(pairs, FILE_KEYS, values, 3);
    ConditionGet(m, "condition", f.condition, ps);
    ValueAt(pairs, FILE_KEYS, values, 4);
    ConditionGet(m, "constraint", f.constraint, ps);
  }

  /** A file can be read exactly if its details and conditions are valid. */
  lemma FileReads(f: File, ps: Parsers)
    ensures ReadFile(FileYaml(f), ps) == Outcome(FileLoads(f, ps), LoadedFile(f, ps))
  {
    BareIs(FileId(f), FileInner(f));
    if !IsScalarFile(f) {
      FileGets(f, Values(FileInner(f).pairs), ps);
      FileFrom(FileYaml(f), f, Values(FileInner(f).pairs), ps);
    }
  }

  lemma FileFrom(y: Yaml, f: File, m: map<string, Yaml>, ps: Parsers)
    requires AsString(y).None? && AsMapping(y) == Some(m) && GetsFile(f, m, ps)
    ensures ReadFile(y, ps) == Outcome(FileLoads(f, ps), LoadedFile(f, ps))
  {
  }

  function FileCheck(ps: Parsers): File -> bool {
    f => FileLoads(f, ps)
  }

  function FileResult(ps: Parsers): File -> File {
    f => LoadedFile(f, ps)
  }

  lemma {:induction false} FilesRead(files: seq<File>, ps: Parsers)
    ensures ReadAll(FileYamls(files), FileReader(ps))
         == Outcome(Each(files, FileCheck(ps)), Mapped(files, FileResult(ps)))
  {
    if files != [] {
      FileReads(files[0], ps);
      FilesRead(files[1..], ps);
      ReadAllFirst(FileYaml(files[0]), FileYamls(files[1..]), FileReader(ps), files[0], files[1..], FileCheck(ps),
                   FileResult(ps));
      HeadAndTail(files);
    }
  }

  // ---------- tags ----------

  predicate TagLoads(t: Tag, ps: Parsers) {
    ConditionLoads(t.condition, ps)
  }

  /** A tag to add whose name starts with a minus sign is read as one to remove. */
  function LoadedTag(t: Tag): Tag {
    if t.isAddition && t.name != "" && t.name[0] == '-' then t.(isAddition := false, name := t.name[1..]) else t
  }

  lemma TagReads(t: Tag, ps: Parsers)
    ensures ReadTag(TagYaml(t), ps) == Outcome(TagLoads(t, ps), LoadedTag(t))
  {
    assert !t.isAddition ==> ("-" + t.name)[1..] == t.name;
    if t.condition.Some? {
      var name, condition := Text(TagText(t)), ConditionYaml(t.condition.value);
      var m := Values(TagYaml(t).pairs);
      assert [Pair("name", name)] + [Pair("condition", condition)]
          == [Pair("name", name), Pair("condition", condition)];
      BothValues("name", name, "condition", condition);
      ConditionGet(m, "condition", t.condition, ps);
    }
  }

  function TagCheck(ps: Parsers): Tag -> bool {
    t => TagLoads(t, ps)
  }

  lemma {:induction false} TagsRead(tags: seq<Tag>, ps: Parsers)
    ensures ReadAll(TagYamls(tags), TagReader(ps)) == Outcome(Each(tags, TagCheck(ps)), Mapped(tags, LoadedTag))
  {
    if tags != [] {
      TagReads(tags[0], ps);
      TagsRead(tags[1..], ps);
      ReadAllFirst(TagYaml(tags[0]), TagYamls(tags[1..]), TagReader(ps), tags[0], tags[1..], TagCheck(ps), LoadedTag);
      HeadAndTail(tags);
    }
  }

  // ---------- cleaning data ----------

  predicate CleaningDataLoads(c: PluginCleaningData, ps: Parsers) {
    && IsU32(c.crc) && IsU32(c.itmCount) && IsU32(c.deletedReferenceCount) && IsU32(c.deletedNavmeshCount)
    && MessageText.ValidContents(c.detail) && ConditionLoads(c.condition, ps)
  }

  function LoadedCleaningData(c: PluginCleaningData): PluginCleaningData {
    c.(detail := LoadedContents(c.detail))
  }

  function CleaningDataValues(c: PluginCleaningData): seq<Option<Yaml>> {
    [Some(Number(c.crc)), Some(Text(c.cleaningUtility)), NumberValue(c.itmCount), NumberValue(c.deletedReferenceCount),
     NumberValue(c.deletedNavmeshCount), ContentsValue(c.detail), ConditionValue(c.condition)]
  }

  const CLEANING_DATA_KEYS := ["crc", "util", "itm", "udr", "nav", "detail", "condition"]

  lemma CleaningDataHas(c: PluginCleaningData)
    ensures Has(CleaningDataYaml(c).pairs, CLEANING_DATA_KEYS, CleaningDataValues(c), 7)
  {
    var ys := [Pair("crc", Number(c.crc)), Pair("util", Text(c.cleaningUtility))];
    var keys, values := CLEANING_DATA_KEYS, CleaningDataValues(c);
    HasTwo(keys, values);
    HasThreeMore(ys, keys, values, 2, NumberPair("itm", c.itmCount), NumberPair("udr", c.deletedReferenceCount),
                 NumberPair("nav", c.deletedNavmeshCount));
    ys := ys + NumberPair("itm", c.itmCount) + NumberPair("udr", c.deletedReferenceCount)
          + NumberPair("nav", c.deletedNavmeshCount);
    HasMore(ys, keys, values, 5);
    HasMore(ys + ContentsPair("detail", c.detail), keys, values, 6);
  }

  lemma CleaningDataKeys()
    ensures Distinct(CLEANING_DATA_KEYS)
  {
  }

  lemma CleaningDataGets(c: PluginCleaningData, m: map<string, Yaml>, ps: Parsers)
    requires m == Values(CleaningDataYaml(c).pairs)
    ensures GetNumber(m, "crc") == Outcome(IsU32(c.crc), Some(c.crc))
    ensures GetRequiredString(m, "util") == Some(c.cleaningUtility)
    ensures GetNumber(m, "itm") == Outcome(IsU32(c.itmCount), IfPositive(c.itmCount))
    ensures GetNumber(m, "udr") == Outcome(IsU32(c.deletedReferenceCount), IfPositive(c.deletedReferenceCount))
    ensures GetNumber(m, "nav") == Outcome(IsU32(c.deletedNavmeshCount), IfPositive(c.deletedNavmeshCount))
    ensures GetContents(m, "detail") == Outcome(MessageText.ValidContents(c.detail), LoadedContents(c.detail))
    ensures GetCondition(m, "condition", ps) == Outcome(ConditionLoads(c.condition, ps), c.condition)
  {
    var pairs, values := CleaningDataYaml(c).pairs, CleaningDataValues(c);
    CleaningDataHas(c);
    CleaningDataKeys();
    ValueAt(pairs, CLEANING_DATA_KEYS, values, 0);
    ValueAt(pairs, CLEANING_DATA_KEYS, values, 1);
    ValueAt(pairs, CLEANING_DATA_KEYS, values, 2);
    NumberGet(m, "itm", c.itmCount);
    ValueAt(pairs, CLEANING_DATA_KEYS, values, 3);
    NumberGet(m, "udr", c.deletedReferenceCount);
    ValueAt(pairs, CLEANING_DATA_KEYS, values, 4);
    NumberGet(m, "nav", c.deletedNavmeshCount);
    ValueAt(pairs, CLEANING_DATA_KEYS, values, 5);
    ContentsGet(m, "detail", c.detail);
    ValueAt(pairs, CLEANING_DATA_KEYS, values, 6);
    ConditionGet(m, "condition", c.condition, ps);
  }

  /** Cleaning data can be read exactly if its numbers, details and condition are valid. */
  lemma CleaningDataReads(c: PluginCleaningData, ps: Parsers)
    ensures ReadCleaningData(CleaningDataYaml(c), ps) == Outcome(CleaningDataLoads(c, ps), LoadedCleaningData(c))
  {
    CleaningDataGets(c, Values(CleaningDataYaml(c).pairs), ps);
  }

  function CleaningDataCheck(ps: Parsers): PluginCleaningData -> bool {
    c => CleaningDataLoads(c, ps)
  }

  lemma {:induction false} AllCleaningDataRead(data: seq<PluginCleaningData>, ps: Parsers)
    ensures ReadAll(CleaningDataYamls(data), CleaningDataReader(ps))
         == Outcome(Each(data, CleaningDataCheck(ps)), Mapped(data, LoadedCleaningData))
  {
    if data != [] {
      CleaningDataReads(data[0], ps);
      AllCleaningDataRead(data[1..], ps);
      ReadAllFirst(CleaningDataYaml(data[0]), CleaningDataYamls(data[1..]), CleaningDataReader(ps), data[0],
                   data[1..], CleaningDataCheck(ps), LoadedCleaningData);
      HeadAndTail(data);
    }
  }

  // ---------- locations and groups ----------

  lemma LocationReads(l: Location)
    ensures ReadLocation(LocationYaml(l)) == Some(l)
  {
    if l.name.Some? {
      BothValues("link", Text(l.url), "name", Text(l.name.value));
    }
  }

  lemma {:induction false} LocationsRead(locations: seq<Location>)
    ensures ReadAll(LocationYamls(locations), ReadLocation) == Some(locations)
  {
    if locations != [] {
      LocationReads(locations[0]);
      LocationsRead(locations[1..]);
      assert LocationYamls(locations)[1..] == LocationYamls(locations[1..]);
      HeadAndTail(locations);
    }
  }

  lemma {:induction false} TextsRead(texts: seq<string>)
    ensures ReadAll(TextYamls(texts), AsString) == Some(texts)
  {
    if texts != [] {
      TextsRead(texts[1..]);
      assert TextYamls(texts)[1..] == TextYamls(texts[1..]);
      HeadAndTail(texts);
    }
  }

  function GroupValues(g: Group): seq<Option<Yaml>> {
    [Some(Text(g.name)), TextValue(g.description), ListValue(TextYamls(g.afterGroups))]
  }

  const GROUP_KEYS := ["name", "description", "after"]

  lemma GroupHas(g: Group)
    ensures Has(GroupYaml(g).pairs, GROUP_KEYS, GroupValues(g), 3)
  {
    var name := [Pair("name", Text(g.name))];
    HasFirst(GROUP_KEYS, GroupValues(g));
    HasMore(name, GROUP_KEYS, GroupValues(g), 1);
    HasMore(name + TextPair("description", g.description), GROUP_KEYS, GroupValues(g), 2);
  }

  lemma GroupKeys()
    ensures Distinct(GROUP_KEYS)
  {
  }

  lemma GroupReads(g: Group)
    ensures ReadGroup(GroupYaml(g)) == Some(g)
  {
    var pairs, values, m := GroupYaml(g).pairs, GroupValues(g), Values(GroupYaml(g).pairs);
    GroupHas(g);
    GroupKeys();
    ValueAt(pairs, GROUP_KEYS, values, 0);
    ValueAt(pairs, GROUP_KEYS, values, 1);
    StringGet(m, "description", g.description);
    ValueAt(pairs, GROUP_KEYS, values, 2);
    ListGet(m, "after", TextYamls(g.afterGroups), AsString);
    TextsRead(g.afterGroups);
  }

  lemma {:induction false} GroupsRead(groups: seq<Group>, i: nat)
    requires i < |groups|
    ensures |GroupYamls(groups)| == |groups| && ReadGroup(GroupYamls(groups)[i]) == Some(groups[i])
  {
    if i == 0 {
      GroupReads(groups[0]);
      GroupsLength(groups);
    } else {
      GroupsRead(groups[1..], i - 1);
      assert GroupYamls(groups)[1..] == GroupYamls(groups[1..]);
    }
  }

  lemma {:induction false} GroupsLength(groups: seq<Group>)
    ensures |GroupYamls(groups)| == |groups|
  {
    if groups != [] {
      GroupsLength(groups[1..]);
    }
  }

  // ---------- plugins ----------

  predicate PluginLoads(p: PluginMetadata, ps: Parsers) {
    && ps.pluginName(p.name.text).Some?
    && Each(p.loadAfter, FileCheck(ps)) && Each(p.requirements, FileCheck(ps))
    && Each(p.incompatibilities, FileCheck(ps))
    && Each(p.messages, MessageCheck(ps)) && Each(p.tags, TagCheck(ps))
    && Each(p.dirtyInfo, CleaningDataCheck(ps)) && Each(p.cleanInfo, CleaningDataCheck(ps))
  }

  function LoadedName(name: Filename, ps: Parsers): Filename {
    if ps.pluginName(name.text).Some? then NamedFile(ps.pluginName(name.text).value, ps) else name
  }

  function LoadedPlugin(p: PluginMetadata, ps: Parsers): PluginMetadata {
    PluginMetadata(LoadedName(p.name, ps), p.group, Mapped(p.loadAfter, FileResult(ps)),
                   Mapped(p.requirements, FileResult(ps)), Mapped(p.incompatibilities, FileResult(ps)),
                   Mapped(p.messages, LoadedMessage), Mapped(p.tags, LoadedTag),
                   Mapped(p.dirtyInfo, LoadedCleaningData), Mapped(p.cleanInfo, LoadedCleaningData), p.locations)
  }

  /** The values of a plugin's keys, given those of its lists. */
  function PluginValues(name: string, url: seq<Yaml>, group: Option<string>, after: seq<Yaml>, req: seq<Yaml>,
                        inc: seq<Yaml>, msg: seq<Yaml>, tag: seq<Yaml>, dirty: seq<Yaml>,
                        clean: seq<Yaml>): seq<Option<Yaml>> {
    [Some(Text(name)), ListValue(url), TextValue(group), ListValue(after), ListValue(req), ListValue(inc),
     ListValue(msg), ListValue(tag), ListValue(dirty), ListValue(clean)]
  }

  const PLUGIN_KEYS := ["name", "url", "group", "after", "req", "inc", "msg", "tag", "dirty", "clean"]

  lemma HasLists(ys: seq<Yaml>, keys: seq<string>, values: seq<Option<Yaml>>, n: nat, k: string, a: seq<Yaml>,
                 l: string, b: seq<Yaml>)
    requires Has(ys, keys, values, n) && n + 2 <= |keys|
    requires keys[n] == k && values[n] == ListValue(a) && keys[n + 1] == l && values[n + 1] == ListValue(b)
    ensures Has(ys + ListPair(k, a) + ListPair(l, b), keys, values, n + 2)
  {
    HasMore(ys, keys, values, n);
    HasMore(ys + ListPair(k, a), keys, values, n + 1);
  }

  lemma PluginStart(name: string, url: seq<Yaml>, group: Option<string>, values: seq<Option<Yaml>>)
    requires |values| == 10 && values[0] == Some(Text(name)) && values[1] == ListValue(url)
    requires values[2] == TextValue(group)
    ensures Has([Pair("name", Text(name))] + ListPair("url", url) + TextPair("group", group), PLUGIN_KEYS, values, 3)
  {
    HasFirst(PLUGIN_KEYS, values);
    HasMore([Pair("name", Text(name))], PLUGIN_KEYS, values, 1);
    HasMore([Pair("name", Text(name))] + ListPair("url", url), PLUGIN_KEYS, values, 2);
  }

  lemma PluginRest(ys: seq<Yaml>, values: seq<Option<Yaml>>, after: seq<Yaml>, req: seq<Yaml>, inc: seq<Yaml>,
                   msg: seq<Yaml>, tag: seq<Yaml>, dirty: seq<Yaml>, clean: seq<Yaml>)
    requires Has(ys, PLUGIN_KEYS, values, 3) && values[3] == ListValue(after) && values[4] == ListValue(req)
    requires values[5] == ListValue(inc) && values[6] == ListValue(msg) && values[7] == ListValue(tag)
    requires values[8] == ListValue(dirty) && values[9] == ListValue(clean)
    ensures Has(ys + ListPair("after", after) + ListPair("req", req) + ListPair("inc", inc) + ListPair("msg", msg)
                + ListPair("tag", tag) + ListPair("dirty", dirty) + ListPair("clean", clean), PLUGIN_KEYS, values, 10)
  {
    HasLists(ys, PLUGIN_KEYS, values, 3, "after", after, "req", req);
    var zs := ys + ListPair("after", after) + ListPair("req", req);
    HasLists(zs, PLUGIN_KEYS, values, 5, "inc", inc, "msg", msg);
    zs := zs + ListPair("inc", inc) + ListPair("msg", msg);
    HasLists(zs, PLUGIN_KEYS, values, 7, "tag", tag, "dirty", dirty);
    HasMore(zs + ListPair("tag", tag) + ListPair("dirty", dirty), PLUGIN_KEYS, values, 9);
  }

  lemma PluginHas(name: string, url: seq<Yaml>, group: Option<string>, after: seq<Yaml>, req: seq<Yaml>,
                  inc: seq<Yaml>, msg: seq<Yaml>, tag: seq<Yaml>, dirty: seq<Yaml>, clean: seq<Yaml>)
    ensures Has([Pair("name", Text(name))] + ListPair("url", url) + TextPair("group", group) + ListPair("after", after)
                + ListPair("req", req) + ListPair("inc", inc) + ListPair("msg", msg) + ListPair("tag", tag)
                + ListPair("dirty", dirty) + ListPair("clean", clean),
                PLUGIN_KEYS, PluginValues(name, url, group, after, req, inc, msg, tag, dirty, clean), 10)
  {
    var values := PluginValues(name, url, group, after, req, inc, msg, tag, dirty, clean);
    PluginStart(name, url, group, values);
    PluginRest([Pair("name", Text(name))] + ListPair("url", url) + TextPair("group", group), values, after, req, inc,
               msg, tag, dirty, clean);
  }

  lemma PluginKeys()
    ensures Distinct(PLUGIN_KEYS)
  {
  }

  ghost predicate PluginIn(m: map<string, Yaml>, name: string, url: seq<Yaml>, group: Option<string>, after: seq<Yaml>,
                           req: seq<Yaml>, inc: seq<Yaml>, msg: seq<Yaml>, tag: seq<Yaml>, dirty: seq<Yaml>,
                           clean: seq<Yaml>) {
    && HasValue(m, "name", Some(Text(name))) && HasValue(m, "url", ListValue(url))
    && HasValue(m, "group", TextValue(group)) && HasValue(m, "after", ListValue(after))
    && HasValue(m, "req", ListValue(req)) && HasValue(m, "inc", ListValue(inc))
    && HasValue(m, "msg", ListValue(msg)) && HasValue(m, "tag", ListValue(tag))
    && HasValue(m, "dirty", ListValue(dirty)) && HasValue(m, "clean", ListValue(clean))
  }

  lemma PluginLists(ys: seq<Yaml>, name: string, url: seq<Yaml>, group: Option<string>, after: seq<Yaml>,
                    req: seq<Yaml>, inc: seq<Yaml>, msg: seq<Yaml>, tag: seq<Yaml>, dirty: seq<Yaml>,
                    clean: seq<Yaml>)
    requires Has(ys, PLUGIN_KEYS, PluginValues(name, url, group, after, req, inc, msg, tag, dirty, clean), 10)
    ensures PluginIn(Values(ys), name, url, group, after, req, inc, msg, tag, dirty, clean)
  {
    var values := PluginValues(name, url, group, after, req, inc, msg, tag, dirty, clean);
    PluginKeys();
    ValueAt(ys, PLUGIN_KEYS, values, 0);
    ValueAt(ys, PLUGIN_KEYS, values, 1);
    ValueAt(ys, PLUGIN_KEYS, values, 2);
    ValueAt(ys, PLUGIN_KEYS, values, 3);
    ValueAt(ys, PLUGIN_KEYS, values, 4);
    ValueAt(ys, PLUGIN_KEYS, values, 5);
    ValueAt(ys, PLUGIN_KEYS, values, 6);
    ValueAt(ys, PLUGIN_KEYS, values, 7);
    ValueAt(ys, PLUGIN_KEYS, values, 8);
    ValueAt(ys, PLUGIN_KEYS, values, 9);
  }

  ghost predicate HoldsPlugin(m: map<string, Yaml>, p: PluginMetadata) {
    PluginIn(m, p.name.text, LocationYamls(p.locations), p.group, FileYamls(p.loadAfter), FileYamls(p.requirements),
             FileYamls(p.incompatibilities), MessageYamls(p.messages), TagYamls(p.tags),
             CleaningDataYamls(p.dirtyInfo), CleaningDataYamls(p.cleanInfo))
  }

  lemma PluginHolds(p: PluginMetadata)
    ensures HoldsPlugin(Values(PluginYaml(p).pairs), p)
  {
    var locations, after, req := LocationYamls(p.locations), FileYamls(p.loadAfter), FileYamls(p.requirements);
    var inc, msg, tag := FileYamls(p.incompatibilities), MessageYamls(p.messages), TagYamls(p.tags);
    var dirty, clean := CleaningDataYamls(p.dirtyInfo), CleaningDataYamls(p.cleanInfo);
    PluginHas(p.name.text, locations, p.group, after, req, inc, msg, tag, dirty, clean);
    PluginLists(PluginYaml(p).pairs, p.name.text, locations, p.group, after, req, inc, msg, tag, dirty, clean);
  }

  ghost predicate GetsPlugin(p: PluginMetadata, m: map<string, Yaml>, ps: Parsers) {
    && GetRequiredString(m, "name") == Some(p.name.text) && GetString(m, "group") == Some(p.group)
    && GetAll(m, "after", FileReader(ps))
       == Outcome(Each(p.loadAfter, FileCheck(ps)), Mapped(p.loadAfter, FileResult(ps)))
    && GetAll(m, "req", FileReader(ps))
       == Outcome(Each(p.requirements, FileCheck(ps)), Mapped(p.requirements, FileResult(ps)))
    && GetAll(m, "inc", FileReader(ps))
       == Outcome(Each(p.incompatibilities, FileCheck(ps)), Mapped(p.incompatibilities, FileResult(ps)))
    && GetAll(m, "msg", MessageReader(ps))
       == Outcome(Each(p.messages, MessageCheck(ps)), Mapped(p.messages, LoadedMessage))
    && GetAll(m, "tag", TagReader(ps)) == Outcome(Each(p.tags, TagCheck(ps)), Mapped(p.tags, LoadedTag))
    && GetAll(m, "dirty", CleaningDataReader(ps))
       == Outcome(Each(p.dirtyInfo, CleaningDataCheck(ps)), Mapped(p.dirtyInfo, LoadedCleaningData))
    && GetAll(m, "clean", CleaningDataReader(ps))
       == Outcome(Each(p.cleanInfo, CleaningDataCheck(ps)), Mapped(p.cleanInfo, LoadedCleaningData))
    && GetAll(m, "url", ReadLocation) == Some(p.locations)
  }

  lemma PluginGets(p: PluginMetadata, m: map<string, Yaml>, ps: Parsers)
    requires HoldsPlugin(m, p)
    ensures GetsPlugin(p, m, ps)
  {
    StringGet(m, "group", p.group);
    FilesGet(m, "after", p.loadAfter, ps);
    FilesGet(m, "req", p.requirements, ps);
    FilesGet(m, "inc", p.incompatibilities, ps);
    MessagesRead(p.messages, ps);
    ListGet(m, "msg", MessageYamls(p.messages), MessageReader(ps));
    TagsRead(p.tags, ps);
    ListGet(m, "tag", TagYamls(p.tags), TagReader(ps));
    CleaningDataListGet(m, "dirty", p.dirtyInfo, ps);
    CleaningDataListGet(m, "clean", p.cleanInfo, ps);
    LocationsRead(p.locations);
    ListGet(m, "url", LocationYamls(p.locations), ReadLocation);
  }

  lemma FilesGet(m: map<string, Yaml>, key: string, files: seq<File>, ps: Parsers)
    requires HasValue(m, key, ListValue(FileYamls(files)))
    ensures GetAll(m, key, FileReader(ps)) == Outcome(Each(files, FileCheck(ps)), Mapped(files, FileResult(ps)))
  {
    FilesRead(files, ps);
    ListGet(m, key, FileYamls(files), FileReader(ps));
  }

  lemma CleaningDataListGet(m: map<string, Yaml>, key: string, data: seq<PluginCleaningData>, ps: Parsers)
    requires HasValue(m, key, ListValue(CleaningDataYamls(data)))
    ensures GetAll(m, key, CleaningDataReader(ps))
         == Outcome(Each(data, CleaningDataCheck(ps)), Mapped(data, LoadedCleaningData))
  {
    AllCleaningDataRead(data, ps);
    ListGet(m, key, CleaningDataYamls(data), CleaningDataReader(ps));
  }

  lemma PluginFrom(y: Yaml, p: PluginMetadata, m: map<string, Yaml>, ps: Parsers)
    requires AsMapping(y) == Some(m) && GetsPlugin(p, m, ps)
    ensures ReadPlugin(y, ps) == Outcome(PluginLoads(p, ps), LoadedPlugin(p, ps))
  {
    if PluginLoads(p, ps) {
      PluginLoadsFrom(y, p, m, ps);
    } else if ReadPlugin(y, ps).Some? {
      PluginWasLoaded(y, p, m, ps);
    }
  }

  lemma PluginLoadsFrom(y: Yaml, p: PluginMetadata, m: map<string, Yaml>, ps: Parsers)
    requires AsMapping(y) == Some(m) && GetsPlugin(p, m, ps) && PluginLoads(p, ps)
    ensures ReadPlugin(y, ps) == Some(LoadedPlugin(p, ps))
  {
  }

  lemma PluginWasLoaded(y: Yaml, p: PluginMetadata, m: map<string, Yaml>, ps: Parsers)
    requires AsMapping(y) == Some(m) && GetsPlugin(p, m, ps) && ReadPlugin(y, ps).Some?
    ensures PluginLoads(p, ps)
  {
  }

  /** A plugin can be read exactly if its name is valid and everything in it can be read. */
  lemma PluginReads(p: PluginMetadata, ps: Parsers)
    ensures ReadPlugin(PluginYaml(p), ps) == Outcome(PluginLoads(p, ps), LoadedPlugin(p, ps))
  {
    PluginHolds(p);
    PluginGets(p, Values(PluginYaml(p).pairs), ps);
    PluginFrom(PluginYaml(p), p, Values(PluginYaml(p).pairs), ps);
  }
}
