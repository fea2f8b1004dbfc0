/** MetadataDocument (src/metadata/metadata_document.rs): an ordered index over plugin entries for specific
    names, stored in a map, and entries for regular expressions, stored in a list. */
module MetadataDocument {
  import opened Wrappers
  import opened Metadata
  import opened PluginMerge
  import opened Sequences

  predicate IsSpecific(p: PluginMetadata) {
    !IsRegexName(p.name)
  }

  // ---------- what the document stands for ----------

  /* A document stands for the sequence of its plugin entries in the order in which they were added. The
     following functions give the fields that represent such a sequence. */

  function Specifics(entries: seq<PluginMetadata>): map<string, PluginMetadata> {
    if entries == [] then map[]
    else if IsSpecific(Last(entries)) then Specifics(Front(entries))[Last(entries).name.key := Last(entries)]
    else Specifics(Front(entries))
  }

  function Regexes(entries: seq<PluginMetadata>): seq<PluginMetadata> {
    if entries == [] then []
    else if IsSpecific(Last(entries)) then Regexes(Front(entries))
    else Regexes(Front(entries)) + [Last(entries)]
  }

  /** No two entries are for the same specific name. */
  predicate Distinct(entries: seq<PluginMetadata>) {
    entries != [] ==>
      && Distinct(Front(entries))
      && (IsSpecific(Last(entries)) ==> Last(entries).name.key !in Specifics(Front(entries)))
  }

  /** The names are those of the entries, up to case for specific names. */
  predicate Names(entries: seq<PluginMetadata>, names: seq<Filename>) {
    && |entries| == |names|
    && (entries != [] ==>
          && Names(Front(entries), Front(names))
          && Last(names).key == Last(entries).name.key
          && (IsSpecific(Last(entries)) || Last(names) == Last(entries).name))
  }

  predicate Indexes(entries: seq<PluginMetadata>, plugins: map<string, PluginMetadata>,
                    regexPlugins: seq<PluginMetadata>, names: seq<Filename>) {
    Distinct(entries) && Names(entries, names) && plugins == Specifics(entries) && regexPlugins == Regexes(entries)
  }

  /** Entries are compared by name without regard to case, as a specific and a regex name never agree. */
  function WithoutKey(entries: seq<PluginMetadata>, key: string): (r: seq<PluginMetadata>)
    ensures |r| <= |entries|
    ensures |r| == |entries| ==> r == entries
  {
    if entries == [] then []
    else if Last(entries).name.key == key then WithoutKey(Front(entries), key)
    else WithoutKey(Front(entries), key) + [Last(entries)]
  }

  function NamesWithoutKey(names: seq<Filename>, key: string): seq<Filename> {
    if names == [] then []
    else if Last(names).key == key then NamesWithoutKey(Front(names), key)
    else NamesWithoutKey(Front(names), key) + [Last(names)]
  }

  /** The entry for the same specific name takes the new value and keeps its place. */
  function Replaced(entries: seq<PluginMetadata>, p: PluginMetadata): (r: seq<PluginMetadata>)
    ensures |r| == |entries|
  {
    if entries == [] then []
    else Replaced(Front(entries), p) + [if Last(entries).name.key == p.name.key then p else Last(entries)]
  }

  function AfterSet(entries: seq<PluginMetadata>, p: PluginMetadata): seq<PluginMetadata> {
    if IsSpecific(p) && p.name.key in Specifics(entries) then Replaced(entries, p) else entries + [p]
  }

  // ---------- lookups ----------

  /** A key of the map belongs to a specific name and to the entry that it is mapped to. */
  lemma {:induction false} SpecificsHold(entries: seq<PluginMetadata>, key: string)
    requires key in Specifics(entries)
    ensures Specifics(entries)[key].name.key == key && IsSpecific(Specifics(entries)[key])
    ensures Specifics(entries)[key] in entries
  {
    if !(IsSpecific(Last(entries)) && Last(entries).name.key == key) {
      SpecificsHold(Front(entries), key);
    }
  }

  lemma {:induction false} SpecificsContain(entries: seq<PluginMetadata>, i: nat)
    requires Distinct(entries) && i < |entries| && IsSpecific(entries[i])
    ensures entries[i].name.key in Specifics(entries) && Specifics(entries)[entries[i].name.key] == entries[i]
  {
    if i < |entries| - 1 {
      SpecificsContain(Front(entries), i);
    }
  }

  lemma {:induction false} RegexesAre(entries: seq<PluginMetadata>)
    ensures forall p :: p in Regexes(entries) <==> p in entries && !IsSpecific(p)
  {
    if entries != [] {
      RegexesAre(Front(entries));
      assert entries == Front(entries) + [Last(entries)];
    }
  }

  /** Two names with the same key are both specific or both regular expressions. */
  lemma KeyDecides(a: PluginMetadata, b: PluginMetadata)
    ensures a.name.key == b.name.key ==> IsSpecific(a) == IsSpecific(b)
  {
  }

  // ---------- the index ----------

  function NameKeys(names: seq<Filename>): multiset<string> {
    if names == [] then multiset{} else NameKeys(Front(names)) + multiset{Last(names).key}
  }

  function EntryKeys(entries: seq<PluginMetadata>): multiset<string> {
    if entries == [] then multiset{} else EntryKeys(Front(entries)) + multiset{Last(entries).name.key}
  }

  /** The ordered names are, up to case, each key of the map once and the name of each stored regex entry. */
  lemma {:induction false} IndexIsExact(entries: seq<PluginMetadata>, names: seq<Filename>)
    requires Distinct(entries) && Names(entries, names)
    ensures NameKeys(names) == multiset(Specifics(entries).Keys) + EntryKeys(Regexes(entries))
  {
    if entries != [] {
      var p, front := Last(entries), Front(entries);
      IndexIsExact(front, Front(names));
      if IsSpecific(p) {
        KeysOfUpdate(Specifics(front), p);
      } else {
        AppendedIs(Regexes(front), p);
      }
    }
  }

  lemma KeysOfUpdate(m: map<string, PluginMetadata>, p: PluginMetadata)
    requires p.name.key !in m
    ensures multiset(m[p.name.key := p].Keys) == multiset(m.Keys) + multiset{p.name.key}
  {
    assert m[p.name.key := p].Keys == m.Keys + {p.name.key};
  }

  /** The fields determine the entries. */
  lemma {:induction false} IndexIsUnique(entries: seq<PluginMetadata>, others: seq<PluginMetadata>,
                                         plugins: map<string, PluginMetadata>, regexPlugins: seq<PluginMetadata>,
                                         names: seq<Filename>)
    requires Indexes(entries, plugins, regexPlugins, names) && Indexes(others, plugins, regexPlugins, names)
    ensures entries == others
  {
    if entries != [] {
      var p, q := Last(entries), Last(others);
      KeyDecides(p, q);
      if IsSpecific(p) {
        assert plugins[p.name.key] == p && plugins[q.name.key] == q;
        var m, n := Specifics(Front(entries)), Specifics(Front(others));
        assert m == plugins - {p.name.key} && n == plugins - {q.name.key};
      } else {
        assert p == Last(regexPlugins) == q;
        assert Regexes(Front(entries)) == Front(regexPlugins) == Regexes(Front(others));
      }
      IndexIsUnique(Front(entries), Front(others), Specifics(Front(entries)), Regexes(Front(entries)), Front(names));
      assert entries == Front(entries) + [p] && others == Front(others) + [q];
    }
  }

  // ---------- setting ----------

  lemma AppendIndexes(entries: seq<PluginMetadata>, names: seq<Filename>, p: PluginMetadata)
    requires Distinct(entries) && Names(entries, names)
    requires IsSpecific(p) ==> p.name.key !in Specifics(entries)
    ensures Distinct(entries + [p]) && Names(entries + [p], names + [p.name])
    ensures Specifics(entries + [p])
         == if IsSpecific(p) then WithSpecific(Specifics(entries), p) else Specifics(entries)
    ensures Regexes(entries + [p]) == if IsSpecific(p) then Regexes(entries) else Regexes(entries) + [p]
  {
    AppendedIs(entries, p);
    AppendedIs(names, p.name);
  }

  lemma {:induction false} ReplacedNothing(entries: seq<PluginMetadata>, p: PluginMetadata)
    requires IsSpecific(p) && Distinct(entries) && p.name.key !in Specifics(entries)
    ensures Replaced(entries, p) == entries
  {
    if entries != [] {
      KeyDecides(Last(entries), p);
      ReplacedNothing(Front(entries), p);
      assert entries == Front(entries) + [Last(entries)];
    }
  }

  /** The map with p under its name. */
  function WithSpecific(m: map<string, PluginMetadata>, p: PluginMetadata): map<string, PluginMetadata> {
    m[p.name.key := p]
  }

  lemma {:induction false} ReplacedNames(entries: seq<PluginMetadata>, names: seq<Filename>, p: PluginMetadata)
    requires Names(entries, names) && IsSpecific(p)
    ensures Names(Replaced(entries, p), names) && Regexes(Replaced(entries, p)) == Regexes(entries)
  {
    if entries != [] {
      ReplacedNames(Front(entries), Front(names), p);
      KeyDecides(Last(entries), p);
      AppendedIs(Replaced(Front(entries), p), if Last(entries).name.key == p.name.key then p else Last(entries));
    }
  }

  lemma {:induction false} ReplacedSpecifics(entries: seq<PluginMetadata>, p: PluginMetadata)
    requires Distinct(entries) && IsSpecific(p)
    ensures Distinct(Replaced(entries, p))
    ensures Specifics(Replaced(entries, p))
         == if p.name.key in Specifics(entries) then WithSpecific(Specifics(entries), p) else Specifics(entries)
  {
    if entries != [] {
      var front, last := Front(entries), Last(entries);
      ReplacedSpecifics(front, p);
      KeyDecides(last, p);
      AppendedIs(Replaced(front, p), if last.name.key == p.name.key then p else last);
    }
  }

  lemma SetIndexes(entries: seq<PluginMetadata>, names: seq<Filename>, p: PluginMetadata)
    requires Distinct(entries) && Names(entries, names)
    ensures var isOld := IsSpecific(p) && p.name.key in Specifics(entries);
            && Distinct(AfterSet(entries, p)) && Names(AfterSet(entries, p), if isOld then names else names + [p.name])
            && Specifics(AfterSet(entries, p))
               == (if IsSpecific(p) then WithSpecific(Specifics(entries), p) else Specifics(entries))
            && Regexes(AfterSet(entries, p)) == (if IsSpecific(p) then Regexes(entries) else Regexes(entries) + [p])
  {
    if IsSpecific(p) && p.name.key in Specifics(entries) {
      ReplacedNames(entries, names, p);
      ReplacedSpecifics(entries, p);
    } else {
      AppendIndexes(entries, names, p);
    }
  }

  // ---------- removing ----------

  lemma {:induction false} RemoveFromRegexes(entries: seq<PluginMetadata>, key: string)
    ensures Regexes(WithoutKey(entries, key)) == WithoutKey(Regexes(entries), key)
  {
    if entries != [] {
      var p, front := Last(entries), Front(entries);
      RemoveFromRegexes(front, key);
      AppendedIs(WithoutKey(front, key), p);
      AppendedIs(Regexes(front), p);
    }
  }

  lemma {:induction false} RemoveFromSpecifics(entries: seq<PluginMetadata>, key: string)
    ensures Specifics(WithoutKey(entries, key)) == Specifics(entries) - {key}
  {
    if entries != [] {
      RemoveFromSpecifics(Front(entries), key);
      AppendedIs(WithoutKey(Front(entries), key), Last(entries));
    }
  }

  lemma {:induction false} RemoveFromNames(entries: seq<PluginMetadata>, names: seq<Filename>, key: string)
    requires Distinct(entries) && Names(entries, names)
    ensures Distinct(WithoutKey(entries, key)) && Names(WithoutKey(entries, key), NamesWithoutKey(names, key))
  {
    if entries != [] {
      RemoveFromNames(Front(entries), Front(names), key);
      RemoveFromSpecifics(Front(entries), key);
      AppendedIs(WithoutKey(Front(entries), key), Last(entries));
      AppendedIs(NamesWithoutKey(Front(names), key), Last(names));
    }
  }

  lemma RemoveIndexes(entries: seq<PluginMetadata>, names: seq<Filename>, key: string)
    requires Distinct(entries) && Names(entries, names)
    ensures Indexes(WithoutKey(entries, key), Specifics(entries) - {key}, WithoutKey(Regexes(entries), key),
                    NamesWithoutKey(names, key))
  {
    RemoveFromRegexes(entries, key);
    RemoveFromSpecifics(entries, key);
    RemoveFromNames(entries, names, key);
  }

  /** A specific name and a regular expression never have the same key, so a key in the map is in no regex entry. */
  lemma {:induction false} KeyInOnePlace(entries: seq<PluginMetadata>, key: string)
    requires key in Specifics(entries)
    ensures WithoutKey(Regexes(entries), key) == Regexes(entries)
  {
    SpecificsHold(entries, key);
    RegexesAre(entries);
    var p, regexes := Specifics(entries)[key], Regexes(entries);
    forall q | q in regexes
      ensures q.name.key != key
    {
      KeyDecides(p, q);
    }
    WithoutKeyNothing(regexes, key);
  }

  lemma {:induction false} WithoutKeyNothing(entries: seq<PluginMetadata>, key: string)
    requires forall p :: p in entries ==> p.name.key != key
    ensures WithoutKey(entries, key) == entries
  {
    if entries != [] {
      WithoutKeyNothing(Front(entries), key);
      assert Last(entries) in entries && entries == Front(entries) + [Last(entries)];
    }
  }

  // ---------- laws ----------

  /** Removing what was set undoes it, if there was no entry of that name before. */
  lemma RemoveUndoesSet(entries: seq<PluginMetadata>, p: PluginMetadata)
    requires Distinct(entries) && forall q :: q in entries ==> q.name.key != p.name.key
    ensures WithoutKey(AfterSet(entries, p), p.name.key) == entries
  {
    WithoutKeyNothing(entries, p.name.key);
    AppendedIs(entries, p);
    if p.name.key in Specifics(entries) {
      SpecificsHold(entries, p.name.key);
    }
  }

  /** Of two values set for the same specific name, the second counts and the place of the first is kept. */
  lemma LastSetWins(entries: seq<PluginMetadata>, p: PluginMetadata, q: PluginMetadata)
    requires Distinct(entries) && IsSpecific(p) && q.name.key == p.name.key
    ensures AfterSet(AfterSet(entries, p), q) == AfterSet(entries, q)
    ensures q.name.key in Specifics(AfterSet(entries, q)) && Specifics(AfterSet(entries, q))[q.name.key] == q
  {
    KeyDecides(p, q);
    var names := seq(|entries|, i requires 0 <= i < |entries| => entries[i].name);
    NamesOfEntries(entries);
    SetIndexes(entries, names, p);
    SetIndexes(entries, names, q);
    if p.name.key in Specifics(entries) {
      ReplacedTwice(entries, p, q);
    } else {
      AppendedIs(entries, p);
      ReplacedNothing(entries, q);
    }
  }

  lemma {:induction false} NamesOfEntries(entries: seq<PluginMetadata>)
    ensures Names(entries, seq(|entries|, i requires 0 <= i < |entries| => entries[i].name))
  {
    if entries != [] {
      var front := Front(entries);
      NamesOfEntries(front);
      assert Front(seq(|entries|, i requires 0 <= i < |entries| => entries[i].name))
          == seq(|front|, i requires 0 <= i < |front| => front[i].name);
    }
  }

  lemma {:induction false} ReplacedTwice(entries: seq<PluginMetadata>, p: PluginMetadata, q: PluginMetadata)
    requires p.name.key == q.name.key
    ensures Replaced(Replaced(entries, p), q) == Replaced(entries, q)
  {
    if entries != [] {
      ReplacedTwice(Front(entries), p, q);
      AppendedIs(Replaced(Front(entries), p), if Last(entries).name.key == p.name.key then p else Last(entries));
    }
  }

  /** After a removal no entry has the name, and every other entry is still there, in the same order. */
  lemma {:induction false} RemovedExactly(entries: seq<PluginMetadata>, key: string)
    ensures forall p :: p in WithoutKey(entries, key) <==> p in entries && p.name.key != key
  {
    if entries != [] {
      RemovedExactly(Front(entries), key);
      assert entries == Front(entries) + [Last(entries)];
    }
  }

  lemma {:induction false} SpecificsHaveKeys(entries: seq<PluginMetadata>, p: PluginMetadata)
    requires p in entries && IsSpecific(p)
    ensures p.name.key in Specifics(entries)
  {
    if p != Last(entries) {
      SpecificsHaveKeys(Front(entries), p);
    }
  }

  /** Nothing is removed when neither collection has the key. */
  lemma RemovedNothing(entries: seq<PluginMetadata>, key: string)
    requires key !in Specifics(entries) && WithoutKey(Regexes(entries), key) == Regexes(entries)
    ensures WithoutKey(entries, key) == entries
  {
    RegexesAre(entries);
    RemovedExactly(Regexes(entries), key);
    forall p | p in entries
      ensures p.name.key != key
    {
      if IsSpecific(p) {
        SpecificsHaveKeys(entries, p);
      }
    }
    WithoutKeyNothing(entries, key);
  }

  // ---------- iterating ----------

  /** The first entry with exactly this name, as the text of a name determines its key. */
  function FirstNamed(regexPlugins: seq<PluginMetadata>, name: Filename): (r: Option<PluginMetadata>)
    ensures r.Some? ==> r.value in regexPlugins && r.value.name == name
    ensures r.None? ==> forall p :: p in regexPlugins ==> p.name != name
  {
    if regexPlugins == [] then None
    else if regexPlugins[0].name == name then Some(regexPlugins[0])
    else FirstNamed(regexPlugins[1..], name)
  }

  /** The entry that the iteration yields for a name. */
  function Lookup(plugins: map<string, PluginMetadata>, regexPlugins: seq<PluginMetadata>,
                  name: Filename): Option<PluginMetadata> {
    if name.key in plugins then Some(plugins[name.key]) else FirstNamed(regexPlugins, name)
  }

  /** Regex entries with the same name are the same entry. */
  ghost predicate RegexNamesDecide(entries: seq<PluginMetadata>) {
    forall p, q :: p in Regexes(entries) && q in Regexes(entries) && p.name == q.name ==> p == q
  }

  lemma {:induction false} NamesAt(entries: seq<PluginMetadata>, names: seq<Filename>, i: nat)
    requires Names(entries, names) && i < |entries|
    ensures names[i].key == entries[i].name.key && (IsSpecific(entries[i]) || names[i] == entries[i].name)
  {
    if i < |entries| - 1 {
      NamesAt(Front(entries), Front(names), i);
    }
  }

  /** No name dangles: a specific name yields its entry, and a regex name the first entry with that name. */
  lemma LookupIs(entries: seq<PluginMetadata>, names: seq<Filename>, i: nat)
    requires Distinct(entries) && Names(entries, names) && i < |entries|
    ensures var r := Lookup(Specifics(entries), Regexes(entries), names[i]);
            if IsSpecific(entries[i]) then r == Some(entries[i])
            else r == FirstNamed(Regexes(entries), entries[i].name) && r.Some?
  {
    NamesAt(entries, names, i);
    RegexesAre(entries);
    if IsSpecific(entries[i]) {
      SpecificsContain(entries, i);
    } else {
      if names[i].key in Specifics(entries) {
        SpecificsHold(entries, names[i].key);
        KeyDecides(Specifics(entries)[names[i].key], entries[i]);
        assert false;
      }
      assert entries[i] in Regexes(entries);
    }
  }

  /** What the iteration yields. */
  function Iterated(entries: seq<PluginMetadata>): (r: seq<PluginMetadata>)
    requires Distinct(entries)
    ensures |r| == |entries|
  {
    seq(|entries|, i requires 0 <= i < |entries| =>
          var named := FirstNamed(Regexes(entries), entries[i].name);
          if IsSpecific(entries[i]) || named.None? then entries[i] else named.value)
  }

  /** The iteration yields exactly the entries, in order, if and only if regex names decide their entries. */
  lemma IterationIsFaithful(entries: seq<PluginMetadata>)
    requires Distinct(entries)
    ensures Iterated(entries) == entries <==> RegexNamesDecide(entries)
  {
    RegexesAre(entries);
    if Iterated(entries) == entries {
      forall p, q | p in Regexes(entries) && q in Regexes(entries) && p.name == q.name
        ensures p == q
      {
        var i :| 0 <= i < |entries| && entries[i] == p;
        var j :| 0 <= j < |entries| && entries[j] == q;
        assert Iterated(entries)[i] == p && Iterated(entries)[j] == q;
      }
    }
    if RegexNamesDecide(entries) {
      forall i | 0 <= i < |entries|
        ensures Iterated(entries)[i] == entries[i]
      {
        if !IsSpecific(entries[i]) {
          assert entries[i] in Regexes(entries);
        }
      }
    }
  }

  // ---------- finding ----------

  function Matching(regexPlugins: seq<PluginMetadata>, matches: PluginMetadata -> bool): seq<PluginMetadata> {
    if regexPlugins == [] then []
    else if matches(Last(regexPlugins)) then Matching(Front(regexPlugins), matches) + [Last(regexPlugins)]
    else Matching(Front(regexPlugins), matches)
  }

  lemma {:induction false} MatchingAre(regexPlugins: seq<PluginMetadata>, matches: PluginMetadata -> bool)
    ensures forall p :: p in Matching(regexPlugins, matches) <==> p in regexPlugins && matches(p)
  {
    if regexPlugins != [] {
      MatchingAre(Front(regexPlugins), matches);
      assert regexPlugins == Front(regexPlugins) + [Last(regexPlugins)];
    }
  }

  function IsMatch(matches: PluginMetadata -> bool): PluginMetadata -> bool {
    (p: PluginMetadata) => IsRegexName(p.name) && matches(p)
  }

  /** The regex entries that match are merged in the order in which they were added. */
  lemma {:induction false} MatchingInOrder(entries: seq<PluginMetadata>, matches: PluginMetadata -> bool)
    ensures Matching(Regexes(entries), matches) == Where(entries, IsMatch(matches))
  {
    if entries != [] {
      MatchingInOrder(Front(entries), matches);
      AppendedIs(Regexes(Front(entries)), Last(entries));
    }
  }

  /** The entry for the name itself, or else what a new entry would be, merged with the regex entries that match. */
  function Found(entries: seq<PluginMetadata>, key: string, created: PluginMetadata,
                 matches: PluginMetadata -> bool): PluginMetadata {
    MergeAll(if key in Specifics(entries) then Specifics(entries)[key] else created,
             Matching(Regexes(entries), matches))
  }

  /** A name is found exactly if an entry for it, or a regex entry that matches it, has more than a name. */
  lemma FoundIff(entries: seq<PluginMetadata>, key: string, created: PluginMetadata, matches: PluginMetadata -> bool)
    requires Distinct(entries) && HasNameOnly(created)
    ensures !HasNameOnly(Found(entries, key, created, matches))
       <==> exists p :: p in entries && !HasNameOnly(p) && (if IsSpecific(p) then p.name.key == key else matches(p))
  {
    var base := if key in Specifics(entries) then Specifics(entries)[key] else created;
    MergeAllNameOnly(base, Matching(Regexes(entries), matches));
    MatchingAre(Regexes(entries), matches);
    RegexesAre(entries);
    if !HasNameOnly(base) {
      SpecificsHold(entries, key);
      assert base in entries && !HasNameOnly(base) && IsSpecific(base) && base.name.key == key;
    }
    if p :| p in entries && !HasNameOnly(p) && (if IsSpecific(p) then p.name.key == key else matches(p)) {
      if IsSpecific(p) {
        var i :| 0 <= i < |entries| && entries[i] == p;
        SpecificsContain(entries, i);
      } else {
        assert p in Matching(Regexes(entries), matches);
      }
    }
  }

  // ---------- loading ----------

  /** The value of a top-level key: an absent key is an empty list, and a list may hold values that do not
      parse as its elements. */
  datatype Section<+T> = NotAList | Items(items: seq<Option<T>>)

  datatype Contents = Contents(
    plugins: Section<PluginMetadata>,
    globals: Section<Message>,
    bashTags: Section<string>,
    groups: Section<Group>)

  datatype YamlDocument = InvalidMergeKey | NotAMapping | Mapping(contents: Contents)

  /** What scanning a text as YAML gives. */
  datatype Yaml = InvalidYaml | Documents(docs: seq<YamlDocument>)

  datatype Key = Plugins | Globals | BashTags | Groups

  datatype LoadError =
    | ScanError
    | NoDocuments
    | MoreThanOneDocument(count: nat)
    | MergeKeyError
    | DocumentIsNotAMapping
    | NotAListError(key: Key)
    | InvalidElement(key: Key, index: nat)
    | DuplicatePlugin(index: nat, oldName: string)
    | DuplicateGroup(index: nat, name: string)

  datatype RegexError = InvalidRegex

  datatype Loaded = Loaded(
    entries: seq<PluginMetadata>,
    messages: seq<Message>,
    bashTags: seq<string>,
    groups: seq<Group>)

  /** The elements up to the first that does not parse, and that one's index. */
  function Elements<T>(items: seq<Option<T>>, key: Key): Result<seq<T>, LoadError> {
    if items == [] then Ok([])
    else match Elements(Front(items), key)
         case Err(e) => Err(e)
         case Ok(done) =>
           if Last(items).None? then Err(InvalidElement(key, |items| - 1)) else Ok(done + [Last(items).value])
  }

  function List<T>(section: Section<T>, key: Key): Result<seq<T>, LoadError> {
    match section case NotAList => Err(NotAListError(key)) case Items(items) => Elements(items, key)
  }

  function PluginElements(items: seq<Option<PluginMetadata>>): Result<seq<PluginMetadata>, LoadError> {
    if items == [] then Ok([])
    else match PluginElements(Front(items))
         case Err(e) => Err(e)
         case Ok(done) =>
           if Last(items).None? then Err(InvalidElement(Plugins, |items| - 1))
           else
             var p := Last(items).value;
             if IsSpecific(p) && p.name.key in Specifics(done) then
               Err(DuplicatePlugin(|items| - 1, Specifics(done)[p.name.key].name.text))
             else Ok(done + [p])
  }

  predicate HasGroup(groups: seq<Group>, name: string) {
    exists g :: g in groups && g.name == name
  }

  function GroupElements(items: seq<Option<Group>>): Result<seq<Group>, LoadError> {
    if items == [] then Ok([])
    else match GroupElements(Front(items))
         case Err(e) => Err(e)
         case Ok(done) =>
           if Last(items).None? then Err(InvalidElement(Groups, |items| - 1))
           else if HasGroup(done, Last(items).value.name) then Err(DuplicateGroup(|items| - 1, Last(items).value.name))
           else Ok(done + [Last(items).value])
  }

  const DEFAULT_GROUP: Group := Group(DEFAULT_GROUP_NAME, None, [])

  function WithDefaultGroup(groups: seq<Group>): (r: seq<Group>)
    ensures HasGroup(r, DEFAULT_GROUP_NAME)
  {
    if HasGroup(groups, DEFAULT_GROUP_NAME) then groups
    else
      assert ([DEFAULT_GROUP] + groups)[0] == DEFAULT_GROUP;
      [DEFAULT_GROUP] + groups
  }

  /** The sections are read one after the other, and the first failure counts. */
  function LoadContents(c: Contents): Result<Loaded, LoadError> {
    var plugins := match c.plugins
                   case NotAList => Err(NotAListError(Plugins))
                   case Items(items) => PluginElements(items);
    if plugins.Err? then Err(plugins.error)
    else
      var messages := List(c.globals, Globals);
      if messages.Err? then Err(messages.error)
      else
        var tags := List(c.bashTags, BashTags);
        if tags.Err? then Err(tags.error)
        else
          var groups := match c.groups
                        case NotAList => Err(NotAListError(Groups))
                        case Items(items) => GroupElements(items);
          if groups.Err? then Err(groups.error)
          else Ok(Loaded(plugins.value, messages.value, tags.value, WithDefaultGroup(groups.value)))
  }

  function LoadYaml(yaml: Yaml): Result<Loaded, LoadError> {
    match yaml
    case InvalidYaml => Err(ScanError)
    case Documents(docs) =>
      if docs == [] then Err(NoDocuments)
      else if |docs| > 1 then Err(MoreThanOneDocument(|docs|))
      else match docs[0]
           case InvalidMergeKey => Err(MergeKeyError)
           case NotAMapping => Err(DocumentIsNotAMapping)
           case Mapping(c) => LoadContents(c)
  }

  ghost predicate AllParse<T>(items: seq<Option<T>>, values: seq<T>) {
    |items| == |values| && forall i :: 0 <= i < |items| ==> items[i] == Some(values[i])
  }

  /** The plugins load exactly if every element is a plugin and no specific name occurs twice. */
  lemma {:induction false} PluginsLoadIff(items: seq<Option<PluginMetadata>>, entries: seq<PluginMetadata>)
    ensures PluginElements(items) == Ok(entries) <==> AllParse(items, entries) && Distinct(entries)
  {
    if items != [] {
      if entries != [] {
        PluginsLoadIff(Front(items), Front(entries));
        assert entries == Front(entries) + [Last(entries)];
        AllParseSnoc(items, entries);
      }
      var r := PluginElements(Front(items));
      if r.Ok? && Last(items).Some? {
        AppendedIs(r.value, Last(items).value);
      }
    }
  }

  /** Messages and Bash Tags load exactly if every element can be read. */
  lemma {:induction false} ElementsLoadIff<T>(items: seq<Option<T>>, key: Key, values: seq<T>)
    ensures Elements(items, key) == Ok(values) <==> AllParse(items, values)
  {
    if items != [] {
      if values != [] {
        ElementsLoadIff(Front(items), key, Front(values));
        assert values == Front(values) + [Last(values)];
        AllParseSnoc(items, values);
      }
      var r := Elements(Front(items), key);
      if r.Ok? && Last(items).Some? {
        AppendedIs(r.value, Last(items).value);
      }
    }
  }

  lemma AllParseSnoc<T>(items: seq<Option<T>>, values: seq<T>)
    requires items != [] && values != []
    ensures AllParse(items, values) <==> AllParse(Front(items), Front(values)) && Last(items) == Some(Last(values))
  {
    if AllParse(Front(items), Front(values)) && Last(items) == Some(Last(values)) {
      forall i | 0 <= i < |items|
        ensures items[i] == Some(values[i])
      {
        assert i < |items| - 1 ==> Front(items)[i] == Some(Front(values)[i]);
      }
    }
  }

  /** The groups load exactly if every element is a group and no name occurs twice. */
  lemma {:induction false} GroupsLoadIff(items: seq<Option<Group>>, groups: seq<Group>)
    ensures GroupElements(items) == Ok(groups) <==> AllParse(items, groups) && DistinctGroups(groups)
  {
    if items != [] {
      if groups != [] {
        GroupsLoadIff(Front(items), Front(groups));
        assert groups == Front(groups) + [Last(groups)];
        AllParseSnoc(items, groups);
        DistinctSnoc(groups);
      }
      var r := GroupElements(Front(items));
      if r.Ok? && Last(items).Some? {
        AppendedIs(r.value, Last(items).value);
      }
    }
  }

  /** A document in which every section is a list loads exactly if every section does. */
  lemma ContentsLoadIff(c: Contents)
    requires c.plugins.Items? && c.globals.Items? && c.bashTags.Items? && c.groups.Items?
    ensures var plugins, messages := PluginElements(c.plugins.items), Elements(c.globals.items, Globals);
            var tags, groups := Elements(c.bashTags.items, BashTags), GroupElements(c.groups.items);
            && LoadContents(c).Ok? == (plugins.Ok? && messages.Ok? && tags.Ok? && groups.Ok?)
            && (LoadContents(c).Ok? ==>
                  LoadContents(c).value
                  == Loaded(plugins.value, messages.value, tags.value, WithDefaultGroup(groups.value)))
  {
  }

  lemma DistinctSnoc(groups: seq<Group>)
    requires groups != []
    ensures DistinctGroups(groups) <==> DistinctGroups(Front(groups)) && !HasGroup(Front(groups), Last(groups).name)
  {
    if DistinctGroups(groups) {
      forall g | g in Front(groups)
        ensures g.name != Last(groups).name
      {
        var i :| 0 <= i < |Front(groups)| && Front(groups)[i] == g;
        assert groups[i].name != groups[|groups| - 1].name;
      }
    }
    if DistinctGroups(Front(groups)) && !HasGroup(Front(groups), Last(groups).name) {
      forall i, j | 0 <= i < j < |groups|
        ensures groups[i].name != groups[j].name
      {
        assert groups[i] == Front(groups)[i] && groups[i] in Front(groups);
        assert j < |groups| - 1 ==> groups[j] == Front(groups)[j];
      }
    }
  }

  /** What a successful load gives is an index without duplicates whose groups include the default group. */
  lemma LoadedIsConsistent(yaml: Yaml)
    requires LoadYaml(yaml).Ok?
    ensures var r := LoadYaml(yaml).value;
            Distinct(r.entries) && DistinctGroups(r.groups) && HasGroup(r.groups, "default")
  {
    var c := yaml.docs[0].contents;
    var entries, groups := PluginElements(c.plugins.items).value, GroupElements(c.groups.items).value;
    PluginsLoadIff(c.plugins.items, entries);
    GroupsLoadIff(c.groups.items, groups);
    if !HasGroup(groups, DEFAULT_GROUP_NAME) {
      forall i, j | 0 <= i < j < |groups| + 1
        ensures ([DEFAULT_GROUP] + groups)[i].name != ([DEFAULT_GROUP] + groups)[j].name
      {
        assert groups[j - 1] in groups;
      }
    }
  }

  // ---------- runs ----------

  datatype Operation = Load(yaml: Yaml) | Set(metadata: PluginMetadata) | Remove(name: Filename) | Clear

  function AfterOperation(entries: seq<PluginMetadata>, op: Operation): seq<PluginMetadata> {
    match op
    case Load(yaml) => if LoadYaml(yaml).Ok? then LoadYaml(yaml).value.entries else entries
    case Set(metadata) => AfterSet(entries, metadata)
    case Remove(name) => WithoutKey(entries, name.key)
    case Clear => []
  }

  /** What a new document stands for after the operations. */
  function AfterRun(ops: seq<Operation>): seq<PluginMetadata> {
    if ops == [] then [] else AfterOperation(AfterRun(Front(ops)), Last(ops))
  }

  /** No run gives two entries for one specific name, so no name dangles and iterating yields as many entries as
      there are. */
  lemma {:induction false} EveryRunIsConsistent(ops: seq<Operation>)
    ensures Distinct(AfterRun(ops)) && |Iterated(AfterRun(ops))| == |AfterRun(ops)|
  {
    if ops != [] {
      var entries := AfterRun(Front(ops));
      EveryRunIsConsistent(Front(ops));
      NamesOfEntries(entries);
      var names := seq(|entries|, i requires 0 <= i < |entries| => entries[i].name);
      match Last(ops)
      case Load(yaml) =>
        if LoadYaml(yaml).Ok? {
          LoadedIsConsistent(yaml);
        }
      case Set(metadata) => SetIndexes(entries, names, metadata);
      case Remove(name) => RemoveFromNames(entries, names, name.key);
      case Clear =>
    }
  }

  /** Setting two different entries with one regex name keeps both, but iterating yields the first one twice. */
  lemma SecondRegexEntryHidden(p: PluginMetadata, q: PluginMetadata)
    requires !IsSpecific(p) && p.name == q.name && p != q
    ensures AfterRun([Set(p), Set(q)]) == [p, q] && Distinct([p, q])
    ensures Iterated([p, q]) == [p, p] && Iterated(AfterRun([Set(p), Set(q)])) != AfterRun([Set(p), Set(q)])
  {
    RunOfTwo(Set(p), Set(q));
    assert [] + [p] == [p] && [p] + [q] == [p, q];
    TwoRegexes(p, q);
    assert FirstNamed([p, q], p.name) == Some(p);
  }

  lemma TwoRegexes(p: PluginMetadata, q: PluginMetadata)
    requires !IsSpecific(p) && !IsSpecific(q)
    ensures Regexes([p, q]) == [p, q] && Distinct([p, q])
  {
    AppendedIs([], p);
    assert [] + [p] == [p];
    assert Regexes([p]) == [p] && Distinct([p]);
    AppendedIs([p], q);
    assert [p] + [q] == [p, q];
  }

  lemma RunOfTwo(a: Operation, b: Operation)
    ensures AfterRun([a, b]) == AfterOperation(AfterOperation([], a), b)
  {
    assert Front([a]) == [] && Last([a]) == a;
    assert AfterRun([a]) == AfterOperation(AfterRun([]), a);
    assert Front([a, b]) == [a] && Last([a, b]) == b;
  }

  /** For example, with metadata that differ in their groups. */
  lemma IterationCanLoseAnEntry(name: Filename)
    requires name.key == "a.*"
    ensures var p, q := WithName(name).(group := Some("early")), WithName(name).(group := Some("late"));
            && Distinct(AfterRun([Set(p), Set(q)]))
            && Iterated(AfterRun([Set(p), Set(q)])) == [p, p] && AfterRun([Set(p), Set(q)]) == [p, q]
  {
    assert name.key[2] == '*' && '*' in ":\\*?|" by {
      assert ":\\*?|"[2] == '*';
    }
    SecondRegexEntryHidden(WithName(name).(group := Some("early")), WithName(name).(group := Some("late")));
  }

  lemma {:induction false} PluginErrorStays(items: seq<Option<PluginMetadata>>, k: nat)
    requires k <= |items| && PluginElements(items[..k]).Err?
    ensures PluginElements(items) == PluginElements(items[..k])
    decreases |items|
  {
    if k == |items| {
      assert items[..k] == items;
    } else {
      assert Front(items)[..k] == items[..k];
      PluginErrorStays(Front(items), k);
    }
  }

  lemma {:induction false} GroupErrorStays(items: seq<Option<Group>>, k: nat)
    requires k <= |items| && GroupElements(items[..k]).Err?
    ensures GroupElements(items) == GroupElements(items[..k])
    decreases |items|
  {
    if k == |items| {
      assert items[..k] == items;
    } else {
      assert Front(items)[..k] == items[..k];
      GroupErrorStays(Front(items), k);
    }
  }

  lemma {:induction false} ErrorStays<T>(items: seq<Option<T>>, key: Key, k: nat)
    requires k <= |items| && Elements(items[..k], key).Err?
    ensures Elements(items, key) == Elements(items[..k], key)
    decreases |items|
  {
    if k == |items| {
      assert items[..k] == items;
    } else {
      assert Front(items)[..k] == items[..k];
      ErrorStays(Front(items), key, k);
    }
  }

  method ReadPlugins(items: seq<Option<PluginMetadata>>)
    returns (error: Option<LoadError>, plugins: map<string, PluginMetadata>, regexPlugins: seq<PluginMetadata>,
             names: seq<Filename>, ghost entries: seq<PluginMetadata>)
    ensures PluginElements(items) == if error.Some? then Err(error.value) else Ok(entries)
    ensures error.None? ==> Indexes(entries, plugins, regexPlugins, names)
  {
    plugins, regexPlugins, names, entries := map[], [], [], [];
    for i := 0 to |items|
      invariant PluginElements(items[..i]) == Ok(entries)
      invariant Indexes(entries, plugins, regexPlugins, names)
    {
      PrefixGrows(items, i);
      if items[i].None? {
        PluginErrorStays(items, i + 1);
        return Some(InvalidElement(Plugins, i)), plugins, regexPlugins, names, entries;
      }
      var plugin := items[i].value;
      if !IsSpecific(plugin) {
        regexPlugins := regexPlugins + [plugin];
      } else {
        if plugin.name.key in plugins {
          PluginErrorStays(items, i + 1);
          return Some(DuplicatePlugin(i, plugins[plugin.name.key].name.text)), plugins, regexPlugins, names, entries;
        }
        plugins := plugins[plugin.name.key := plugin];
      }
      AppendIndexes(entries, names, plugin);
      names := names + [plugin.name];
      entries := entries + [plugin];
    }
    assert items[..|items|] == items;
    error := None;
  }

  method ReadBashTags(items: seq<Option<string>>) returns (r: Result<seq<string>, LoadError>)
    ensures r == Elements(items, BashTags)
  {
    var tags: seq<string> := [];
    for i := 0 to |items|
      invariant Elements(items[..i], BashTags) == Ok(tags)
    {
      PrefixGrows(items, i);
      if items[i].None? {
        ErrorStays(items, BashTags, i + 1);
        return Err(InvalidElement(BashTags, i));
      }
      tags := tags + [items[i].value];
    }
    assert items[..|items|] == items;
    r := Ok(tags);
  }

  method ReadGroups(items: seq<Option<Group>>) returns (r: Result<seq<Group>, LoadError>)
    ensures r == if GroupElements(items).Ok? then Ok(WithDefaultGroup(GroupElements(items).value))
                 else GroupElements(items)
  {
    var groups: seq<Group>, groupNames := [], {};
    for i := 0 to |items|
      invariant GroupElements(items[..i]) == Ok(groups)
      invariant forall name :: name in groupNames <==> HasGroup(groups, name)
    {
      PrefixGrows(items, i);
      if items[i].None? {
        GroupErrorStays(items, i + 1);
        return Err(InvalidElement(Groups, i));
      }
      var group := items[i].value;
      if group.name in groupNames {
        GroupErrorStays(items, i + 1);
        return Err(DuplicateGroup(i, group.name));
      }
      HasGroupGrows(groups, group);
      groups := groups + [group];
      groupNames := groupNames + {group.name};
    }
    assert items[..|items|] == items;
    if DEFAULT_GROUP_NAME !in groupNames {
      groups := [DEFAULT_GROUP] + groups;
    }
    r := Ok(groups);
  }

  lemma HasGroupGrows(groups: seq<Group>, group: Group)
    ensures forall name :: HasGroup(groups + [group], name) <==> HasGroup(groups, name) || name == group.name
  {
    forall name
      ensures HasGroup(groups + [group], name) <==> HasGroup(groups, name) || name == group.name
    {
      if name == group.name {
        assert (groups + [group])[|groups|] == group;
      }
      if HasGroup(groups, name) {
        var g :| g in groups && g.name == name;
        assert g in groups + [group];
      }
    }
  }

  /** Keeps the entries with other names, and says whether there were any to drop. */
  method RetainOthers(stored: seq<PluginMetadata>, key: string)
    returns (retained: seq<PluginMetadata>, anyDropped: bool)
    ensures retained == WithoutKey(stored, key)
    ensures anyDropped <==> retained != stored
  {
    retained, anyDropped := [], false;
    for i := 0 to |stored|
      invariant retained == WithoutKey(stored[..i], key)
      invariant anyDropped <==> |retained| < i
    {
      PrefixGrows(stored, i);
      if stored[i].name.key == key {
        anyDropped := true;
      } else {
        retained := retained + [stored[i]];
      }
    }
    assert stored[..|stored|] == stored;
  }

  // ---------- the document ----------

  class MetadataDocument {
    var bashTags: seq<string>
    var groups: seq<Group>
    var messages: seq<Message>
    var plugins: map<string, PluginMetadata>
    var regexPlugins: seq<PluginMetadata>
    var orderedPluginNames: seq<Filename>

    /** The plugin entries in the order in which they were added. */
    ghost var entries: seq<PluginMetadata>

    ghost predicate Valid()
      reads this
    {
      Indexes(entries, plugins, regexPlugins, orderedPluginNames)
    }

    constructor ()
      ensures Valid() && entries == [] && bashTags == [] && messages == [] && groups == [DEFAULT_GROUP]
    {
      bashTags, groups, messages := [], [DEFAULT_GROUP], [];
      plugins, regexPlugins, orderedPluginNames, entries := map[], [], [], [];
    }

    /** A failed load changes nothing. */
    method LoadFromStr(yaml: Yaml) returns (r: Result<(), LoadError>)
      requires Valid()
      modifies this
      ensures Valid()
      ensures r == if LoadYaml(yaml).Ok? then Ok(()) else Err(LoadYaml(yaml).error)
      ensures r.Err? ==> unchanged(this)
      ensures LoadYaml(yaml).Ok? ==> Loaded(entries, messages, bashTags, groups) == LoadYaml(yaml).value
    {
      if yaml.InvalidYaml? {
        return Err(ScanError);
      }
      var docs := yaml.docs;
      if docs == [] {
        return Err(NoDocuments);
      }
      var doc := Last(docs);
      if |Front(docs)| != 0 {
        return Err(MoreThanOneDocument(|Front(docs)| + 1));
      }
      match doc
      case InvalidMergeKey => return Err(MergeKeyError);
      case NotAMapping => return Err(DocumentIsNotAMapping);
      case Mapping(contents) =>
        if contents.plugins.NotAList? {
          return Err(NotAListError(Plugins));
        }
        var error, newPlugins, newRegexPlugins, newNames, newEntries := ReadPlugins(contents.plugins.items);
        if error.Some? {
          return Err(error.value);
        }
        var newMessages := List(contents.globals, Globals);
        if newMessages.Err? {
          return Err(newMessages.error);
        }
        if contents.bashTags.NotAList? {
          return Err(NotAListError(BashTags));
        }
        var newTags := ReadBashTags(contents.bashTags.items);
        if newTags.Err? {
          return Err(newTags.error);
        }
        if contents.groups.NotAList? {
          return Err(NotAListError(Groups));
        }
        var newGroups := ReadGroups(contents.groups.items);
        if newGroups.Err? {
          return Err(newGroups.error);
        }
        plugins, regexPlugins, orderedPluginNames := newPlugins, newRegexPlugins, newNames;
        messages, bashTags, groups := newMessages.value, newTags.value, newGroups.value;
        entries := newEntries;
        return Ok(());
    }

    method SetPluginMetadata(metadata: PluginMetadata)
      requires Valid()
      modifies this`plugins, this`regexPlugins, this`orderedPluginNames, this`entries
      ensures Valid() && entries == AfterSet(old(entries), metadata)
    {
      SetIndexes(entries, orderedPluginNames, metadata);
      if !IsSpecific(metadata) {
        regexPlugins := regexPlugins + [metadata];
        orderedPluginNames := orderedPluginNames + [metadata.name];
      } else {
        var wasNew := metadata.name.key !in plugins;
        plugins := plugins[metadata.name.key := metadata];
        if wasNew {
          orderedPluginNames := orderedPluginNames + [metadata.name];
        }
      }
      entries := AfterSet(entries, metadata);
    }

    method RemovePluginMetadata(name: Filename)
      requires Valid()
      modifies this`plugins, this`regexPlugins, this`orderedPluginNames, this`entries
      ensures Valid() && entries == WithoutKey(old(entries), name.key)
    {
      RemoveIndexes(entries, orderedPluginNames, name.key);
      assert WithoutKey(Regexes(entries), name.key) == regexPlugins && name.key !in plugins ==>
          WithoutKey(entries, name.key) == entries by {
        if WithoutKey(Regexes(entries), name.key) == regexPlugins && name.key !in plugins {
          RemovedNothing(entries, name.key);
        }
      }
      var wasRemoved := name.key in plugins;
      if wasRemoved {
        KeyInOnePlace(entries, name.key);
      }
      plugins := plugins - {name.key};

      if !wasRemoved {
        regexPlugins, wasRemoved := RetainOthers(regexPlugins, name.key);
      }

      if wasRemoved {
        orderedPluginNames := NamesWithoutKey(orderedPluginNames, name.key);
      }
      entries := WithoutKey(entries, name.key);
    }

    method OrderedPlugins() returns (r: seq<PluginMetadata>)
      requires Valid()
      ensures r == Iterated(entries)
    {
      r := [];
      for i := 0 to |orderedPluginNames|
        invariant r == Iterated(entries)[..i]
      {
        LookupIs(entries, orderedPluginNames, i);
        var found := Lookup(plugins, regexPlugins, orderedPluginNames[i]);
        if found.Some? {
          r := r + [found.value];
        }
      }
    }

    /** Creating an entry for the name fails if it is not a valid regular expression. */
    method FindPlugin(name: Filename, created: Option<PluginMetadata>, matches: PluginMetadata -> bool)
      returns (r: Result<Option<PluginMetadata>, RegexError>)
      requires Valid() && (created.Some? ==> HasNameOnly(created.value))
      ensures r.Err? <==> name.key !in Specifics(entries) && created.None?
      ensures r.Ok? ==>
                var found := Found(entries, name.key, if created.Some? then created.value else WithName(name), matches);
                r.value == if HasNameOnly(found) then None else Some(found)
    {
      if name.key !in plugins && created.None? {
        return Err(InvalidRegex);
      }
      var base := if name.key in plugins then plugins[name.key] else created.value;
      var metadata := new MutableMetadata(base);
      for i := 0 to |regexPlugins|
        invariant fresh(metadata) && metadata.Value() == MergeAll(base, Matching(regexPlugins[..i], matches))
      {
        PrefixGrows(regexPlugins, i);
        if matches(regexPlugins[i]) {
          AppendedIs(Matching(regexPlugins[..i], matches), regexPlugins[i]);
          metadata.MergeMetadata(regexPlugins[i]);
        }
      }
      assert regexPlugins[..|regexPlugins|] == regexPlugins;
      r := Ok(if HasNameOnly(metadata.Value()) then None else Some(metadata.Value()));
    }

    method SetBashTags(tags: seq<string>)
      requires Valid()
      modifies this`bashTags
      ensures Valid() && bashTags == tags
    {
      bashTags := tags;
    }

    method SetGroups(newGroups: seq<Group>)
      requires Valid()
      modifies this`groups
      ensures Valid() && HasGroup(groups, DEFAULT_GROUP_NAME)
      ensures groups == newGroups || (groups == [DEFAULT_GROUP] + newGroups && !HasGroup(newGroups, DEFAULT_GROUP_NAME))
    {
      groups := WithDefaultGroup(newGroups);
    }

    method SetMessages(newMessages: seq<Message>)
      requires Valid()
      modifies this`messages
      ensures Valid() && messages == newMessages
    {
      messages := newMessages;
    }

    /** Clearing leaves no groups, not even the default group. */
    method Clear()
      modifies this
      ensures Valid() && entries == [] && bashTags == [] && groups == [] && messages == []
    {
      bashTags, groups, messages := [], [], [];
      plugins, regexPlugins, orderedPluginNames, entries := map[], [], [], [];
    }
  }

  /** A run performs its operations on one document. */
  method Perform(document: MetadataDocument, op: Operation)
    requires document.Valid()
    modifies document
    ensures document.Valid() && document.entries == AfterOperation(old(document.entries), op)
  {
    match op
    case Load(yaml) => var _ := document.LoadFromStr(yaml);
    case Set(metadata) => document.SetPluginMetadata(metadata);
    case Remove(name) => document.RemovePluginMetadata(name);
    case Clear => document.Clear();
  }
}
