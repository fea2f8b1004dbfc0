/** Merging plugin metadata (src/metadata/plugin_metadata.rs). */
module PluginMerge {
  import opened Wrappers
  import opened Metadata
  import opened Sequences

  // ---------- merging lists ----------

  /* Elements are equal when their keys are. */

  predicate Contains<T, K(==)>(key: T -> K, s: seq<T>, x: T) {
    s != [] && (key(Last(s)) == key(x) || Contains(key, Front(s), x))
  }

  /** The elements of source that are not in target. */
  function Missing<T, K(==)>(key: T -> K, target: seq<T>, source: seq<T>): seq<T> {
    if source == [] then []
    else if Contains(key, target, Last(source)) then Missing(key, target, Front(source))
    else Missing(key, target, Front(source)) + [Last(source)]
  }

  function Merge<T, K(==)>(key: T -> K, target: seq<T>, source: seq<T>): seq<T> {
    target + Missing(key, target, source)
  }

  method MergeSlices<T, K(==)>(key: T -> K, target: seq<T>, source: seq<T>) returns (merged: seq<T>)
    ensures merged == Merge(key, target, source)
  {
    merged := target;
    for i := 0 to |source|
      invariant merged == Merge(key, target, source[..i])
    {
      AppendedIs(source[..i], source[i]);
      assert source[..i + 1] == source[..i] + [source[i]];
      if !Contains(key, target, source[i]) {
        merged := merged + [source[i]];
      }
    }
    assert source[..|source|] == source;
  }

  lemma {:induction false} ContainsConcat<T, K>(key: T -> K, s: seq<T>, t: seq<T>, x: T)
    ensures Contains(key, s + t, x) <==> Contains(key, s, x) || Contains(key, t, x)
  {
    if t == [] {
      assert s + t == s;
    } else {
      assert Front(s + t) == s + Front(t) && Last(s + t) == Last(t);
      ContainsConcat(key, s, Front(t), x);
    }
  }

  lemma {:induction false} ContainsMissing<T, K>(key: T -> K, target: seq<T>, source: seq<T>, x: T)
    ensures Contains(key, Missing(key, target, source), x) <==> Contains(key, source, x) && !Contains(key, target, x)
  {
    if source != [] {
      ContainsMissing(key, target, Front(source), x);
      AppendedIs(Missing(key, target, Front(source)), Last(source));
      if key(Last(source)) == key(x) {
        ContainsSame(key, target, Last(source), x);
      }
    }
  }

  lemma {:induction false} ContainsSame<T, K>(key: T -> K, s: seq<T>, x: T, y: T)
    requires key(x) == key(y)
    ensures Contains(key, s, x) == Contains(key, s, y)
  {
    if s != [] {
      ContainsSame(key, Front(s), x, y);
    }
  }

  /** The merged list has exactly the elements of the two. */
  lemma ContainsMerge<T, K>(key: T -> K, target: seq<T>, source: seq<T>, x: T)
    ensures Contains(key, Merge(key, target, source), x) <==> Contains(key, target, x) || Contains(key, source, x)
  {
    ContainsConcat(key, target, Missing(key, target, source), x);
    ContainsMissing(key, target, source, x);
  }

  lemma {:induction false} MissingConcat<T, K>(key: T -> K, target: seq<T>, s: seq<T>, t: seq<T>)
    ensures Missing(key, target, s + t) == Missing(key, target, s) + Missing(key, target, t)
  {
    if t == [] {
      assert s + t == s;
    } else {
      assert Front(s + t) == s + Front(t) && Last(s + t) == Last(t);
      MissingConcat(key, target, s, Front(t));
    }
  }

  lemma {:induction false} MissingMerged<T, K>(key: T -> K, a: seq<T>, b: seq<T>, c: seq<T>)
    ensures Missing(key, Merge(key, a, b), c) == Missing(key, a, Missing(key, b, c))
  {
    if c != [] {
      MissingMerged(key, a, b, Front(c));
      ContainsMerge(key, a, b, Last(c));
      AppendedIs(Missing(key, b, Front(c)), Last(c));
    }
  }

  lemma MergeAssociative<T, K>(key: T -> K, a: seq<T>, b: seq<T>, c: seq<T>)
    ensures Merge(key, Merge(key, a, b), c) == Merge(key, a, Merge(key, b, c))
  {
    MissingMerged(key, a, b, c);
    MissingConcat(key, a, b, Missing(key, b, c));
  }

  lemma {:induction false} MergeIntoNothing<T, K>(key: T -> K, source: seq<T>)
    ensures Merge(key, [], source) == source
  {
    if source != [] {
      MergeIntoNothing(key, Front(source));
      assert source == Front(source) + [Last(source)];
    }
  }

  lemma {:induction false} ContainsIff<T(!new), K(!new)>(key: T -> K, s: seq<T>, x: T)
    ensures Contains(key, s, x) <==> exists i :: 0 <= i < |s| && key(s[i]) == key(x)
  {
    if s != [] {
      ContainsIff(key, Front(s), x);
      if i :| 0 <= i < |s| && key(s[i]) == key(x) {
        assert i < |s| - 1 ==> key(Front(s)[i]) == key(x);
      }
      if i :| 0 <= i < |Front(s)| && key(Front(s)[i]) == key(x) {
        assert key(s[i]) == key(x);
      }
    }
  }

  /** Whether no element of target equals x. */
  function IsNew<T, K(==)>(key: T -> K, target: seq<T>): T -> bool {
    x => forall i :: 0 <= i < |target| ==> key(target[i]) != key(x)
  }

  lemma {:induction false} MissingAre<T(!new), K(!new)>(key: T -> K, target: seq<T>, source: seq<T>)
    ensures Missing(key, target, source) == Where(source, IsNew(key, target))
  {
    if source != [] {
      MissingAre(key, target, Front(source));
      ContainsIff(key, target, Last(source));
    }
  }

  /** The target stays as it is, and after it come, in order, all elements of the source that equal none of its own. */
  lemma MergeMeaning<T(!new), K(!new)>(key: T -> K, target: seq<T>, source: seq<T>)
    ensures Merge(key, target, source) == target + Where(source, IsNew(key, target))
  {
    MissingAre(key, target, source);
  }

  // ---------- merging metadata ----------

  function TagKey(t: Tag): Tag {
    t
  }

  function CleaningDataKey(d: PluginCleaningData): PluginCleaningData {
    d
  }

  function LocationKey(l: Location): Location {
    l
  }

  /** Files are equal up to the case of their names, and the other elements only when they are the same. */
  lemma KeysDecide(f: File, g: File, t: Tag, u: Tag, c: PluginCleaningData, d: PluginCleaningData, l: Location,
                   m: Location)
    ensures FileKey(f) == FileKey(g) <==> f.name.key == g.name.key && f == g.(name := f.name)
    ensures TagKey(t) == TagKey(u) <==> t == u
    ensures CleaningDataKey(c) == CleaningDataKey(d) <==> c == d
    ensures LocationKey(l) == LocationKey(m) <==> l == m
  {
  }

  function MergeGroups(group: Option<string>, other: Option<string>): Option<string> {
    if group.None? && other.Some? then other else group
  }

  function MergeFields(p: PluginMetadata, q: PluginMetadata): PluginMetadata {
    PluginMetadata(
      p.name,
      MergeGroups(p.group, q.group),
      Merge(FileKey, p.loadAfter, q.loadAfter),
      Merge(FileKey, p.requirements, q.requirements),
      Merge(FileKey, p.incompatibilities, q.incompatibilities),
      p.messages + q.messages,
      Merge(TagKey, p.tags, q.tags),
      Merge(CleaningDataKey, p.dirtyInfo, q.dirtyInfo),
      Merge(CleaningDataKey, p.cleanInfo, q.cleanInfo),
      Merge(LocationKey, p.locations, q.locations))
  }

  function Merged(p: PluginMetadata, q: PluginMetadata): PluginMetadata {
    if HasNameOnly(q) then p else MergeFields(p, q)
  }

  /** Returning early for metadata with only a name makes no difference. */
  lemma EarlyReturnIsMerge(p: PluginMetadata, q: PluginMetadata)
    ensures Merged(p, q) == MergeFields(p, q)
  {
    if HasNameOnly(q) {
      assert p.loadAfter + [] == p.loadAfter && p.requirements + [] == p.requirements;
      assert p.incompatibilities + [] == p.incompatibilities && p.tags + [] == p.tags;
      assert p.dirtyInfo + [] == p.dirtyInfo && p.cleanInfo + [] == p.cleanInfo && p.locations + [] == p.locations;
      assert p.messages + [] == p.messages;
    }
  }

  lemma MergedAssociative(a: PluginMetadata, b: PluginMetadata, c: PluginMetadata)
    ensures Merged(Merged(a, b), c) == Merged(a, Merged(b, c))
  {
    EarlyReturnIsMerge(a, b);
    EarlyReturnIsMerge(b, c);
    EarlyReturnIsMerge(Merged(a, b), c);
    EarlyReturnIsMerge(a, Merged(b, c));
    MergeAssociative(FileKey, a.loadAfter, b.loadAfter, c.loadAfter);
    MergeAssociative(FileKey, a.requirements, b.requirements, c.requirements);
    MergeAssociative(FileKey, a.incompatibilities, b.incompatibilities, c.incompatibilities);
    Regroup(a.messages, b.messages, c.messages);
    MergeAssociative(TagKey, a.tags, b.tags, c.tags);
    MergeAssociative(CleaningDataKey, a.dirtyInfo, b.dirtyInfo, c.dirtyInfo);
    MergeAssociative(CleaningDataKey, a.cleanInfo, b.cleanInfo, c.cleanInfo);
    MergeAssociative(LocationKey, a.locations, b.locations, c.locations);
  }

  /** Metadata with only a name changes nothing when it is merged, and keeps only its name when merged into. */
  lemma NameOnlyIsIdentity(name: Filename, p: PluginMetadata)
    ensures Merged(p, WithName(name)) == p
    ensures Merged(WithName(name), p) == p.(name := name)
  {
    EarlyReturnIsMerge(WithName(name), p);
    MergeIntoNothing(FileKey, p.loadAfter);
    MergeIntoNothing(FileKey, p.requirements);
    MergeIntoNothing(FileKey, p.incompatibilities);
    assert [] + p.messages == p.messages;
    MergeIntoNothing(TagKey, p.tags);
    MergeIntoNothing(CleaningDataKey, p.dirtyInfo);
    MergeIntoNothing(CleaningDataKey, p.cleanInfo);
    MergeIntoNothing(LocationKey, p.locations);
  }

  /** Nothing appears or is lost. */
  lemma NameOnlyIffBoth(p: PluginMetadata, q: PluginMetadata)
    ensures HasNameOnly(Merged(p, q)) <==> HasNameOnly(p) && HasNameOnly(q)
  {
    if HasNameOnly(p) {
      NameOnlyIsIdentity(p.name, q);
      assert p == WithName(p.name);
    }
  }

  /** An explicit group replaces only a missing one, so it wins exactly when there is none, or the same one, already. */
  lemma GroupReplacedIff(p: PluginMetadata, q: PluginMetadata)
    requires q.group.Some?
    ensures Merged(p, q).group == q.group <==> p.group.None? || p.group == q.group
  {
  }

  /** A struct whose fields merge_metadata updates. */
  class MutableMetadata {
    var name: Filename
    var group: Option<string>
    var loadAfter: seq<File>
    var requirements: seq<File>
    var incompatibilities: seq<File>
    var messages: seq<Message>
    var tags: seq<Tag>
    var dirtyInfo: seq<PluginCleaningData>
    var cleanInfo: seq<PluginCleaningData>
    var locations: seq<Location>

    constructor (p: PluginMetadata)
      ensures Value() == p
    {
      name, group := p.name, p.group;
      loadAfter, requirements, incompatibilities := p.loadAfter, p.requirements, p.incompatibilities;
      messages, tags, dirtyInfo, cleanInfo, locations := p.messages, p.tags, p.dirtyInfo, p.cleanInfo, p.locations;
    }

    function Value(): PluginMetadata
      reads this
    {
      PluginMetadata(name, group, loadAfter, requirements, incompatibilities, messages, tags, dirtyInfo, cleanInfo,
                     locations)
    }

    method MergeMetadata(plugin: PluginMetadata)
      modifies this
      ensures Value() == Merged(old(Value()), plugin)
    {
      if HasNameOnly(plugin) {
        return;
      }
      if group.None? && plugin.group.Some? {
        group := plugin.group;
      }
      MergeFiles(plugin);
      messages := messages + plugin.messages;
      MergeDetails(plugin);
    }

    method MergeFiles(plugin: PluginMetadata)
      modifies `loadAfter, `requirements, `incompatibilities
      ensures loadAfter == Merge(FileKey, old(loadAfter), plugin.loadAfter)
      ensures requirements == Merge(FileKey, old(requirements), plugin.requirements)
      ensures incompatibilities == Merge(FileKey, old(incompatibilities), plugin.incompatibilities)
    {
      var newLoadAfter := MergeSlices(FileKey, loadAfter, plugin.loadAfter);
      var newRequirements := MergeSlices(FileKey, requirements, plugin.requirements);
      var newIncompatibilities := MergeSlices(FileKey, incompatibilities, plugin.incompatibilities);
      loadAfter, requirements, incompatibilities := newLoadAfter, newRequirements, newIncompatibilities;
    }

    method MergeDetails(plugin: PluginMetadata)
      modifies `tags, `dirtyInfo, `cleanInfo, `locations
      ensures tags == Merge(TagKey, old(tags), plugin.tags)
      ensures dirtyInfo == Merge(CleaningDataKey, old(dirtyInfo), plugin.dirtyInfo)
      ensures cleanInfo == Merge(CleaningDataKey, old(cleanInfo), plugin.cleanInfo)
      ensures locations == Merge(LocationKey, old(locations), plugin.locations)
    {
      var newTags := MergeSlices(TagKey, tags, plugin.tags);
      var newDirtyInfo := MergeSlices(CleaningDataKey, dirtyInfo, plugin.dirtyInfo);
      var newCleanInfo := MergeSlices(CleaningDataKey, cleanInfo, plugin.cleanInfo);
      var newLocations := MergeSlices(LocationKey, locations, plugin.locations);
      tags, dirtyInfo, cleanInfo, locations := newTags, newDirtyInfo, newCleanInfo, newLocations;
    }
  }

  // ---------- merging all matching entries ----------

  function MergeAll(base: PluginMetadata, others: seq<PluginMetadata>): PluginMetadata {
    if others == [] then base else Merged(MergeAll(base, Front(others)), Last(others))
  }

  /** The first group that is given. */
  function FirstGroup(entries: seq<PluginMetadata>): Option<string> {
    if entries == [] then None
    else if entries[0].group.Some? then entries[0].group
    else FirstGroup(entries[1..])
  }

  lemma {:induction false} FirstGroupSnoc(entries: seq<PluginMetadata>, p: PluginMetadata)
    ensures FirstGroup(entries + [p]) == MergeGroups(FirstGroup(entries), p.group)
  {
    if entries != [] {
      assert (entries + [p])[1..] == entries[1..] + [p];
      FirstGroupSnoc(entries[1..], p);
    } else {
      assert [p][1..] == [];
    }
  }

  /** The name is that of the base, and the group is the first that any entry gives. */
  lemma {:induction false} LeftmostWins(base: PluginMetadata, others: seq<PluginMetadata>)
    ensures MergeAll(base, others).name == base.name
    ensures MergeAll(base, others).group == FirstGroup([base] + others)
  {
    if others == [] {
      assert [base][1..] == [];
    } else {
      LeftmostWins(base, Front(others));
      FirstGroupSnoc([base] + Front(others), Last(others));
      assert [base] + others == [base] + Front(others) + [Last(others)];
    }
  }

  /** Merging entries one by one is merging their merge. */
  lemma {:induction false} MergeAllSplits(base: PluginMetadata, first: PluginMetadata, rest: seq<PluginMetadata>)
    ensures MergeAll(base, [first] + rest) == Merged(base, MergeAll(first, rest))
  {
    var all := [first] + rest;
    if rest == [] {
      assert all == [first] && Front(all) == [];
    } else {
      assert Front(all) == [first] + Front(rest) && Last(all) == Last(rest);
      MergeAllSplits(base, first, Front(rest));
      MergedAssociative(base, MergeAll(first, Front(rest)), Last(rest));
    }
  }

  lemma {:induction false} MergeAllNameOnly(base: PluginMetadata, others: seq<PluginMetadata>)
    ensures HasNameOnly(MergeAll(base, others)) <==> HasNameOnly(base) && forall p :: p in others ==> HasNameOnly(p)
  {
    if others != [] {
      MergeAllNameOnly(base, Front(others));
      NameOnlyIffBoth(MergeAll(base, Front(others)), Last(others));
      assert others == Front(others) + [Last(others)];
    }
  }
}
