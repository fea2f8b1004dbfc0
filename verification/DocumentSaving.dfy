/** MetadataDocument::save of src/metadata/metadata_document.rs on the document itself: what it writes is what
    iterating over the document's plugins yields. */
module DocumentSaving {
  import opened Metadata
  import opened MetadataYaml
  import opened MetadataWriter
  import opened Sequences
  import MetadataDocument

  /** What iterating over a document yields. */
  ghost function Iteration(document: MetadataDocument.MetadataDocument): Document
    requires document.Valid()
    reads document
  {
    Document(document.bashTags, document.groups, document.messages, MetadataDocument.Iterated(document.entries))
  }

  method SaveDocument(document: MetadataDocument.MetadataDocument, o: WriteOptions) returns (t: Yaml)
    requires document.Valid()
    ensures t == Saved(Iteration(document), o)
  {
    var plugins := document.OrderedPlugins();
    t := Save(Document(document.bashTags, document.groups, document.messages, plugins), o);
  }

  /** The plugins with more than a name. */
  function Written(plugins: seq<PluginMetadata>): (r: seq<PluginMetadata>)
    ensures forall p :: p in r <==> p in plugins && !HasNameOnly(p)
  {
    if plugins == [] then []
    else (if HasNameOnly(plugins[0]) then [] else [plugins[0]]) + Written(plugins[1..])
  }

  lemma {:induction false} WrittenYamls(plugins: seq<PluginMetadata>)
    ensures PluginYamls(plugins) == PluginYamls(Written(plugins)) && |PluginYamls(plugins)| == |Written(plugins)|
  {
    if plugins != [] {
      WrittenYamls(plugins[1..]);
      if HasNameOnly(plugins[0]) {
        assert Written(plugins) == Written(plugins[1..]);
      } else {
        assert Written(plugins)[0] == plugins[0] && Written(plugins)[1..] == Written(plugins[1..]);
      }
    }
  }

  /** Replacing only entries that are not written, by entries with the same names, adds to what is written. */
  lemma {:induction false} WrittenGrows(a: seq<PluginMetadata>, b: seq<PluginMetadata>)
    requires |a| == |b|
    requires forall i :: 0 <= i < |b| ==> a[i].name == b[i].name && (HasNameOnly(b[i]) || a[i] == b[i])
    ensures |Written(a)| >= |Written(b)|
    ensures |Written(a)| == |Written(b)| ==> a == b
  {
    if a != [] {
      WrittenGrows(a[1..], b[1..]);
      FirstGrows(a, b);
    }
  }

  lemma FirstGrows(a: seq<PluginMetadata>, b: seq<PluginMetadata>)
    requires |a| == |b| != 0 && a[0].name == b[0].name && (HasNameOnly(b[0]) || a[0] == b[0])
    requires |Written(a[1..])| >= |Written(b[1..])| && (|Written(a[1..])| == |Written(b[1..])| ==> a[1..] == b[1..])
    ensures |Written(a)| >= |Written(b)| && (|Written(a)| == |Written(b)| ==> a == b)
  {
    HeadAndTail(a);
    HeadAndTail(b);
  }

  /** A written entry that iterating also yields stands for itself. */
  lemma YieldedItself(entries: seq<PluginMetadata>, i: nat)
    requires MetadataDocument.Distinct(entries) && i < |entries| && !HasNameOnly(entries[i])
    requires entries[i] in MetadataDocument.Iterated(entries)
    ensures MetadataDocument.Iterated(entries)[i] == entries[i]
  {
    var yielded := MetadataDocument.Iterated(entries);
    var j :| 0 <= j < |yielded| && yielded[j] == entries[i];
    IteratedName(entries, j);
    MetadataDocument.KeyDecides(entries[i], entries[j]);
  }

  lemma IteratedName(entries: seq<PluginMetadata>, i: nat)
    requires MetadataDocument.Distinct(entries) && i < |entries|
    ensures MetadataDocument.Iterated(entries)[i].name == entries[i].name
  {
  }

  /** Saving writes exactly the entries with more than a name, each once and in order, if and only if regex entries
      with the same name are the same entry. */
  lemma SavingKeepsEntriesIff(entries: seq<PluginMetadata>)
    requires MetadataDocument.Distinct(entries)
    ensures Written(MetadataDocument.Iterated(entries)) == Written(entries)
       <==> MetadataDocument.RegexNamesDecide(entries)
  {
    var yielded := MetadataDocument.Iterated(entries);
    MetadataDocument.IterationIsFaithful(entries);
    if Written(yielded) == Written(entries) {
      forall i | 0 <= i < |entries|
        ensures yielded[i].name == entries[i].name && (HasNameOnly(entries[i]) || yielded[i] == entries[i])
      {
        IteratedName(entries, i);
        if !HasNameOnly(entries[i]) {
          assert entries[i] in Written(entries);
          YieldedItself(entries, i);
        }
      }
      WrittenGrows(yielded, entries);
    }
  }

  lemma YamlsOfTwo(p: PluginMetadata, q: PluginMetadata)
    ensures PluginYamls([p, q])
         == (if HasNameOnly(p) then [] else [PluginYaml(p)]) + (if HasNameOnly(q) then [] else [PluginYaml(q)])
  {
    assert [p, q][1..] == [q] && [q][1..] == [];
    assert PluginYamls([]) == [];
    assert PluginYamls([q]) == if HasNameOnly(q) then [] else [PluginYaml(q)];
  }

  /** Of two entries set with one regex name, the second is not saved, and the first is saved twice unless it has
      only a name. */
  lemma SecondRegexEntryNotSaved(p: PluginMetadata, q: PluginMetadata)
    requires !MetadataDocument.IsSpecific(p) && p.name == q.name && p != q
    ensures var entries := MetadataDocument.AfterRun([MetadataDocument.Set(p), MetadataDocument.Set(q)]);
            && entries == [p, q] && MetadataDocument.Distinct(entries)
            && PluginYamls(MetadataDocument.Iterated(entries))
               == if HasNameOnly(p) then [] else [PluginYaml(p), PluginYaml(p)]
  {
    MetadataDocument.SecondRegexEntryHidden(p, q);
    YamlsOfTwo(p, p);
  }
}
