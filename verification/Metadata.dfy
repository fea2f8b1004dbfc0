/** The metadata values of src/metadata: files, messages, tags, cleaning data, locations, groups and plugins. */
module Metadata {
  import opened Wrappers

  /** A file name that compares case-insensitively: key is the case-folded text, which is all that
      equality looks at. How text is folded is not modelled. */
  datatype Filename = Filename(text: string, key: string)

  datatype MessageContent = MessageContent(text: string, language: string)

  datatype MessageType = Say | Warn | Error

  datatype Message = Message(level: MessageType, content: seq<MessageContent>, condition: Option<string>)

  datatype File = File(
    name: Filename,
    displayName: Option<string>,
    detail: seq<MessageContent>,
    condition: Option<string>,
    constraint: Option<string>)

  /** Files are equal when they differ at most in the case of their names. This is what all files equal to f share. */
  function FileKey(f: File): File {
    f.(name := Filename(f.name.key, f.name.key))
  }

  predicate IsScalarFile(f: File) {
    f.condition.None? && f.constraint.None? && f.detail == [] && f.displayName.None?
  }

  datatype Tag = Tag(name: string, isAddition: bool, condition: Option<string>)

  datatype PluginCleaningData = PluginCleaningData(
    crc: nat,
    itmCount: nat,
    deletedReferenceCount: nat,
    deletedNavmeshCount: nat,
    cleaningUtility: string,
    detail: seq<MessageContent>,
    condition: Option<string>)

  datatype Location = Location(url: string, name: Option<string>)

  datatype Group = Group(name: string, description: Option<string>, afterGroups: seq<string>)

  ghost predicate DistinctGroups(groups: seq<Group>) {
    forall i, j :: 0 <= i < j < |groups| ==> groups[i].name != groups[j].name
  }

  const DEFAULT_GROUP_NAME := "default"

  const DEFAULT_LANGUAGE := "en"

  datatype PluginMetadata = PluginMetadata(
    name: Filename,
    group: Option<string>,
    loadAfter: seq<File>,
    requirements: seq<File>,
    incompatibilities: seq<File>,
    messages: seq<Message>,
    tags: seq<Tag>,
    dirtyInfo: seq<PluginCleaningData>,
    cleanInfo: seq<PluginCleaningData>,
    locations: seq<Location>)

  function WithName(name: Filename): PluginMetadata {
    PluginMetadata(name, None, [], [], [], [], [], [], [], [])
  }

  predicate HasNameOnly(p: PluginMetadata) {
    && p.group.None? && p.loadAfter == [] && p.requirements == [] && p.incompatibilities == []
    && p.messages == [] && p.tags == [] && p.dirtyInfo == [] && p.cleanInfo == [] && p.locations == []
  }

  lemma NameOnlyIff(p: PluginMetadata)
    ensures HasNameOnly(p) <==> p == WithName(p.name)
  {
  }

  /** A plugin name is a regular expression if it contains any of these characters. Folding the case
      of a name neither adds nor removes them, so the folded text is as good as the original. */
  predicate IsRegexName(name: Filename) {
    exists c :: c in name.key && c in ":\\*?|"
  }

  /** The characters that make a name a regular expression. */
  lemma RegexNameIff(name: Filename)
    ensures IsRegexName(name)
       <==> ':' in name.key || '\\' in name.key || '*' in name.key || '?' in name.key || '|' in name.key
  {
    assert ":\\*?|" == [':', '\\', '*', '?', '|'];
  }
}
