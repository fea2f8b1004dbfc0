/** The try_from_yaml functions of src/metadata with the lookups of src/metadata/yaml/parse.rs, which read metadata
    from YAML trees. Where they fail, only that they fail is modelled. */
module MetadataReader {
  import opened Wrappers
  import opened Metadata
  import opened MetadataYaml
  import MessageText
  import Format
  import opened Sequences

  /** What reading relies on: the case-folding of texts, the texts that parse as conditions, and the name that a
      plugin with a text gets, unless the text is not a valid regular expression. */
  datatype Parsers = Parsers(fold: string -> string, isCondition: string -> bool, pluginName: string -> Option<string>)

  // ---------- lookups ----------

  /** Marks are not written, so they are not read. */
  function Bare(y: Yaml): Yaml {
    match y case Shared(_, inner) => Bare(inner) case _ => y
  }

  function AsString(y: Yaml): Option<string> {
    match Bare(y)
    case Text(text) => Some(text)
    case FileName(name) => Some(name.text)
    case _ => None
  }

  function AsSequence(y: Yaml): Option<seq<Yaml>> {
    if Bare(y).Sequence? then Some(Bare(y).items) else None
  }

  function AsMapping(y: Yaml): Option<map<string, Yaml>> {
    if Bare(y).Mapping? then Some(Values(Bare(y).pairs)) else None
  }

  /** The values of the keys of a mapping. */
  function Values(pairs: seq<Yaml>): map<string, Yaml> {
    if pairs == [] then map[]
    else if Last(pairs).Pair? then Values(Front(pairs))[Last(pairs).key := Last(pairs).value]
    else Values(Front(pairs))
  }

  function GetString(m: map<string, Yaml>, key: string): Option<Option<string>> {
    if key !in m then Some(None)
    else
      var s :- AsString(m[key]);
      Some(Some(s))
  }

  function GetRequiredString(m: map<string, Yaml>, key: string): Option<string> {
    if key in m then AsString(m[key]) else None
  }

  function GetNumber(m: map<string, Yaml>, key: string): Option<Option<nat>> {
    if key !in m then Some(None)
    else if Bare(m[key]).Number? && Bare(m[key]).number < 0x1_0000_0000 then Some(Some(Bare(m[key]).number))
    else None
  }

  function GetItems(m: map<string, Yaml>, key: string): Option<seq<Yaml>> {
    if key in m then AsSequence(m[key]) else Some([])
  }

  function GetCondition(m: map<string, Yaml>, key: string, ps: Parsers): Option<Option<string>> {
    var condition :- GetString(m, key);
    if condition.Some? && !ps.isCondition(condition.value) then None else Some(condition)
  }

  /** All elements, or nothing if one cannot be read. */
  function ReadAll<T>(ys: seq<Yaml>, read: Yaml -> Option<T>): Option<seq<T>> {
    if ys == [] then Some([])
    else
      var first :- read(ys[0]);
      var rest :- ReadAll(ys[1..], read);
      Some([first] + rest)
  }

  function GetAll<T>(m: map<string, Yaml>, key: string, read: Yaml -> Option<T>): Option<seq<T>> {
    var items :- GetItems(m, key);
    ReadAll(items, read)
  }

  function Or(number: Option<nat>, other: nat): nat {
    if number.Some? then number.value else other
  }

  // ---------- values ----------

  function ReadContent(y: Yaml): Option<MessageContent> {
    var m :- AsMapping(y);
    var text :- GetRequiredString(m, "text");
    var language :- GetRequiredString(m, "lang");
    Some(MessageContent(text, language))
  }

  function ReadContents(y: Yaml): Option<seq<MessageContent>> {
    if AsString(y).Some? then Some([MessageContent(AsString(y).value, DEFAULT_LANGUAGE)])
    else
      var items :- AsSequence(y);
      var contents :- ReadAll(items, ReadContent);
      if MessageText.ValidContents(contents) then Some(contents) else None
  }

  function GetContents(m: map<string, Yaml>, key: string): Option<seq<MessageContent>> {
    if key in m then ReadContents(m[key]) else Some([])
  }

  function FormatAll(contents: seq<MessageContent>, subs: seq<string>): Option<seq<MessageContent>> {
    if contents == [] then Some([])
    else if Format.Formatted(contents[0].text, subs).Err? then None
    else
      var rest :- FormatAll(contents[1..], subs);
      Some([contents[0].(text := Format.Formatted(contents[0].text, subs).value)] + rest)
  }

  function LevelOf(text: string): MessageType {
    if text == "warn" then Warn else if text == "error" then Error else Say
  }

  function ReadMessage(y: Yaml, ps: Parsers): Option<Message> {
    var m :- AsMapping(y);
    var level :- GetRequiredString(m, "type");
    if "content" !in m then None
    else
      var content :- ReadContents(m["content"]);
      var subs :- GetAll(m, "subs", AsString);
      var formatted :- if subs == [] then Some(content) else FormatAll(content, subs);
      var condition :- GetCondition(m, "condition", ps);
      Some(Message(LevelOf(level), formatted, condition))
  }

  function NamedFile(name: string, ps: Parsers): Filename {
    Filename(name, ps.fold(name))
  }

  function ReadFile(y: Yaml, ps: Parsers): Option<File> {
    if AsString(y).Some? then Some(File(NamedFile(AsString(y).value, ps), None, [], None, None))
    else
      var m :- AsMapping(y);
      var name :- GetRequiredString(m, "name");
      var displayName :- GetString(m, "display");
      var detail :- GetContents(m, "detail");
      var condition :- GetCondition(m, "condition", ps);
      var constraint :- GetCondition(m, "constraint", ps);
      Some(File(NamedFile(name, ps), displayName, detail, condition, constraint))
  }

  /** A leading minus sign makes a removal. */
  function TagOf(text: string, condition: Option<string>): Tag {
    if text != "" && text[0] == '-' then Tag(text[1..], false, condition) else Tag(text, true, condition)
  }

  function ReadTag(y: Yaml, ps: Parsers): Option<Tag> {
    if AsString(y).Some? then Some(TagOf(AsString(y).value, None))
    else
      var m :- AsMapping(y);
      var name :- GetRequiredString(m, "name");
      var condition :- GetCondition(m, "condition", ps);
      Some(TagOf(name, condition))
  }

  function ReadCleaningData(y: Yaml, ps: Parsers): Option<PluginCleaningData> {
    var m :- AsMapping(y);
    var crc :- GetNumber(m, "crc");
    if crc.None? then None
    else
      var utility :- GetRequiredString(m, "util");
      var itm :- GetNumber(m, "itm");
      var udr :- GetNumber(m, "udr");
      var nav :- GetNumber(m, "nav");
      var detail :- GetContents(m, "detail");
      var condition :- GetCondition(m, "condition", ps);
      Some(PluginCleaningData(crc.value, Or(itm, 0), Or(udr, 0), Or(nav, 0), utility, detail, condition))
  }

  function ReadLocation(y: Yaml): Option<Location> {
    if AsString(y).Some? then Some(Location(AsString(y).value, None))
    else
      var m :- AsMapping(y);
      var link :- GetRequiredString(m, "link");
      var name :- GetRequiredString(m, "name");
      Some(Location(link, Some(name)))
  }

  function ReadGroup(y: Yaml): Option<Group> {
    var m :- AsMapping(y);
    var name :- GetRequiredString(m, "name");
    var description :- GetString(m, "description");
    var after :- GetAll(m, "after", AsString);
    Some(Group(name, description, after))
  }

  function FileReader(ps: Parsers): Yaml -> Option<File> {
    y => ReadFile(y, ps)
  }

  function MessageReader(ps: Parsers): Yaml -> Option<Message> {
    y => ReadMessage(y, ps)
  }

  function TagReader(ps: Parsers): Yaml -> Option<Tag> {
    y => ReadTag(y, ps)
  }

  function CleaningDataReader(ps: Parsers): Yaml -> Option<PluginCleaningData> {
    y => ReadCleaningData(y, ps)
  }

  function PluginReader(ps: Parsers): Yaml -> Option<PluginMetadata> {
    y => ReadPlugin(y, ps)
  }

  function ReadPlugin(y: Yaml, ps: Parsers): Option<PluginMetadata> {
    var m :- AsMapping(y);
    var text :- GetRequiredString(m, "name");
    var name :- ps.pluginName(text);
    var group :- GetString(m, "group");
    var loadAfter :- GetAll(m, "after", FileReader(ps));
    var requirements :- GetAll(m, "req", FileReader(ps));
    var incompatibilities :- GetAll(m, "inc", FileReader(ps));
    var messages :- GetAll(m, "msg", MessageReader(ps));
    var tags :- GetAll(m, "tag", TagReader(ps));
    var dirtyInfo :- GetAll(m, "dirty", CleaningDataReader(ps));
    var cleanInfo :- GetAll(m, "clean", CleaningDataReader(ps));
    var locations :- GetAll(m, "url", ReadLocation);
    Some(PluginMetadata(NamedFile(name, ps), group, loadAfter, requirements, incompatibilities, messages, tags,
                        dirtyInfo, cleanInfo, locations))
  }
}
