/** The emit_yaml methods of src/metadata as functions to YAML trees. Values that the writer may give an
    anchor are marked; what the writer does with the marks is in AnchoredYaml. */
module MetadataYaml {
  import opened Wrappers
  import opened Metadata

  /** The identity of a value that may be anchored: equal values have equal identities. */
  datatype Shareable =
    | SharedFile(file: File)
    | SharedMessage(message: Message)
    | SharedContents(contents: seq<MessageContent>)
    | SharedCondition(condition: string)

  function FileId(f: File): Shareable {
    SharedFile(FileKey(f))
  }

  function MessageId(m: Message): Shareable {
    SharedMessage(m)
  }

  function ContentsId(c: seq<MessageContent>): Shareable {
    SharedContents(c)
  }

  function ConditionId(c: string): Shareable {
    SharedCondition(c)
  }

  /** Shared marks a value that may be anchored and has no syntax of its own. */
  datatype Yaml =
    | Nothing
    | Text(text: string)
    | Number(number: nat)
    | FileName(name: Filename)
    | Pair(key: string, value: Yaml)
    | Mapping(pairs: seq<Yaml>)
    | Sequence(items: seq<Yaml>)
    | Shared(id: Shareable, inner: Yaml)
    | Anchored(anchor: string, node: Yaml)
    | Alias(anchor: string)

  function LevelText(level: MessageType): string {
    match level
    case Say => "say"
    case Warn => "warn"
    case Error => "error"
  }

  function ContentYaml(c: MessageContent): Yaml {
    Mapping([Pair("lang", Text(c.language)), Pair("text", Text(c.text))])
  }

  function ContentYamls(contents: seq<MessageContent>): seq<Yaml> {
    if contents == [] then [] else [ContentYaml(contents[0])] + ContentYamls(contents[1..])
  }

  /** A single content is written as its text alone. */
  function ContentsInner(contents: seq<MessageContent>): Yaml {
    if contents == [] then Nothing
    else if |contents| == 1 then Text(contents[0].text)
    else Sequence(ContentYamls(contents))
  }

  function ContentsYaml(contents: seq<MessageContent>): Yaml {
    Shared(ContentsId(contents), ContentsInner(contents))
  }

  function ConditionYaml(condition: string): Yaml {
    Shared(ConditionId(condition), Text(condition))
  }

  function ContentsPair(key: string, contents: seq<MessageContent>): seq<Yaml> {
    if contents == [] then [] else [Pair(key, ContentsYaml(contents))]
  }

  function ConditionPair(key: string, condition: Option<string>): seq<Yaml> {
    if condition.None? then [] else [Pair(key, ConditionYaml(condition.value))]
  }

  function TextPair(key: string, text: Option<string>): seq<Yaml> {
    if text.None? then [] else [Pair(key, Text(text.value))]
  }

  function NumberPair(key: string, number: nat): seq<Yaml> {
    if number == 0 then [] else [Pair(key, Number(number))]
  }

  function MessageInner(m: Message): Yaml {
    Mapping([Pair("type", Text(LevelText(m.level)))]
            + ContentsPair("content", m.content)
            + ConditionPair("condition", m.condition))
  }

  function MessageYaml(m: Message): Yaml {
    Shared(MessageId(m), MessageInner(m))
  }

  function FileInner(f: File): Yaml {
    if IsScalarFile(f) then FileName(f.name)
    else
      Mapping([Pair("name", FileName(f.name))]
              + TextPair("display", f.displayName)
              + ContentsPair("detail", f.detail)
              + ConditionPair("condition", f.condition)
              + ConditionPair("constraint", f.constraint))
  }

  function FileYaml(f: File): Yaml {
    Shared(FileId(f), FileInner(f))
  }

  function TagText(t: Tag): string {
    if t.isAddition then t.name else "-" + t.name
  }

  function TagYaml(t: Tag): Yaml {
    if t.condition.Some? then Mapping([Pair("name", Text(TagText(t)))] + ConditionPair("condition", t.condition))
    else Text(TagText(t))
  }

  function CleaningDataYaml(c: PluginCleaningData): Yaml {
    Mapping([Pair("crc", Number(c.crc)), Pair("util", Text(c.cleaningUtility))]
            + NumberPair("itm", c.itmCount)
            + NumberPair("udr", c.deletedReferenceCount)
            + NumberPair("nav", c.deletedNavmeshCount)
            + ContentsPair("detail", c.detail)
            + ConditionPair("condition", c.condition))
  }

  function LocationYaml(l: Location): Yaml {
    if l.name.Some? then Mapping([Pair("link", Text(l.url)), Pair("name", Text(l.name.value))]) else Text(l.url)
  }

  function GroupYaml(g: Group): Yaml {
    Mapping([Pair("name", Text(g.name))]
            + TextPair("description", g.description)
            + ListPair("after", TextYamls(g.afterGroups)))
  }

  /** The key is left out when there is nothing to list. */
  function ListPair(key: string, items: seq<Yaml>): seq<Yaml> {
    if items == [] then [] else [Pair(key, Sequence(items))]
  }

  function TextYamls(texts: seq<string>): seq<Yaml> {
    if texts == [] then [] else [Text(texts[0])] + TextYamls(texts[1..])
  }

  function FileYamls(files: seq<File>): seq<Yaml> {
    if files == [] then [] else [FileYaml(files[0])] + FileYamls(files[1..])
  }

  function MessageYamls(messages: seq<Message>): seq<Yaml> {
    if messages == [] then [] else [MessageYaml(messages[0])] + MessageYamls(messages[1..])
  }

  function TagYamls(tags: seq<Tag>): seq<Yaml> {
    if tags == [] then [] else [TagYaml(tags[0])] + TagYamls(tags[1..])
  }

  function CleaningDataYamls(data: seq<PluginCleaningData>): seq<Yaml> {
    if data == [] then [] else [CleaningDataYaml(data[0])] + CleaningDataYamls(data[1..])
  }

  function LocationYamls(locations: seq<Location>): seq<Yaml> {
    if locations == [] then [] else [LocationYaml(locations[0])] + LocationYamls(locations[1..])
  }

  function GroupYamls(groups: seq<Group>): seq<Yaml> {
    if groups == [] then [] else [GroupYaml(groups[0])] + GroupYamls(groups[1..])
  }

  function PluginYaml(p: PluginMetadata): Yaml {
    Mapping([Pair("name", Text(p.name.text))]
            + ListPair("url", LocationYamls(p.locations))
            + TextPair("group", p.group)
            + ListPair("after", FileYamls(p.loadAfter))
            + ListPair("req", FileYamls(p.requirements))
            + ListPair("inc", FileYamls(p.incompatibilities))
            + ListPair("msg", MessageYamls(p.messages))
            + ListPair("tag", TagYamls(p.tags))
            + ListPair("dirty", CleaningDataYamls(p.dirtyInfo))
            + ListPair("clean", CleaningDataYamls(p.cleanInfo)))
  }

  /** Plugins with a name only are not written. */
  function PluginYamls(plugins: seq<PluginMetadata>): seq<Yaml> {
    if plugins == [] then []
    else (if HasNameOnly(plugins[0]) then [] else [PluginYaml(plugins[0])]) + PluginYamls(plugins[1..])
  }

  function ContentsParts(contents: seq<MessageContent>): seq<Shareable> {
    if contents == [] then [] else [ContentsId(contents)]
  }

  function ConditionParts(condition: Option<string>): seq<Shareable> {
    if condition.None? then [] else [ConditionId(condition.value)]
  }

  /** The values that may be anchored directly inside one with the given identity, in the order written. */
  function Parts(id: Shareable): seq<Shareable> {
    match id
    case SharedFile(f) => ContentsParts(f.detail) + ConditionParts(f.condition) + ConditionParts(f.constraint)
    case SharedMessage(m) => ContentsParts(m.content) + ConditionParts(m.condition)
    case _ => []
  }

  /** What is written for a value with the given identity; for a file, up to the case of its name. */
  function InnerOf(id: Shareable): Yaml {
    match id
    case SharedFile(f) => FileInner(f)
    case SharedMessage(m) => MessageInner(m)
    case SharedContents(c) => ContentsInner(c)
    case SharedCondition(c) => Text(c)
  }

  /** A document's top-level pairs. The plugins key is written whenever there are plugins, even if none
      of them has more than a name; the groups are left out when there is only the default one. */
  function DocumentPairs(bashTags: seq<string>, groups: seq<Group>, messages: seq<Message>,
                         plugins: seq<PluginMetadata>): seq<Yaml> {
    ListPair("bash_tags", TextYamls(bashTags))
    + (if |groups| > 1 then [Pair("groups", Sequence(GroupYamls(groups)))] else [])
    + ListPair("globals", MessageYamls(messages))
    + (if plugins == [] then [] else [Pair("plugins", Sequence(PluginYamls(plugins)))])
  }
}
