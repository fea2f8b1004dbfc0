/** Filtering plugin metadata by its conditions (src/database/conditions.rs). Evaluating a condition is a
    parameter, which may fail. */
module Conditions {
  import opened Wrappers
  import opened Metadata
  import opened Sequences
  import opened PluginMerge

  /** A condition that was written, or the check of a plugin's checksum with what was written in addition. */
  datatype Condition = Written(text: string) | Checksum(plugin: string, crc: nat, addition: Option<string>)

  datatype EvaluationError = EvaluationError(condition: Condition)

  type Oracle = Condition -> Result<bool, EvaluationError>

  function Evaluate(condition: Option<string>, state: Oracle): Result<bool, EvaluationError> {
    if condition.Some? then state(Written(condition.value)) else Ok(true)
  }

  /** The elements for which the condition holds, or the first failure to evaluate one. */
  function Filter<T>(items: seq<T>, holds: T -> Result<bool, EvaluationError>): Result<seq<T>, EvaluationError> {
    if items == [] then Ok([])
    else match Filter(Front(items), holds)
         case Err(e) => Err(e)
         case Ok(kept) =>
           match holds(Last(items))
           case Err(e) => Err(e)
           case Ok(true) => Ok(kept + [Last(items)])
           case Ok(false) => Ok(kept)
  }

  function FileHolds(state: Oracle): File -> Result<bool, EvaluationError> {
    (f: File) => Evaluate(f.condition, state)
  }

  function MessageHolds(state: Oracle): Message -> Result<bool, EvaluationError> {
    (m: Message) => Evaluate(m.condition, state)
  }

  function TagHolds(state: Oracle): Tag -> Result<bool, EvaluationError> {
    (t: Tag) => Evaluate(t.condition, state)
  }

  function CleaningDataHolds(plugin: string, state: Oracle): PluginCleaningData -> Result<bool, EvaluationError> {
    (d: PluginCleaningData) => state(Checksum(plugin, d.crc, d.condition))
  }

  function FilterCleaningData(plugin: string, data: seq<PluginCleaningData>, state: Oracle)
    : Result<seq<PluginCleaningData>, EvaluationError>
  {
    if plugin == "" then Ok([]) else Filter(data, CleaningDataHolds(plugin, state))
  }

  /** The cleaning data of an entry for a regular expression is kept as it is. */
  function FilterUnlessRegex(p: PluginMetadata, data: seq<PluginCleaningData>, state: Oracle)
    : Result<seq<PluginCleaningData>, EvaluationError>
  {
    if IsRegexName(p.name) then Ok(data) else FilterCleaningData(p.name.text, data, state)
  }

  /** What remains of the metadata, even if that is only its name. */
  function Remaining(p: PluginMetadata, state: Oracle): Result<PluginMetadata, EvaluationError> {
    var loadAfter := Filter(p.loadAfter, FileHolds(state));
    if loadAfter.Err? then Err(loadAfter.error) else
      var requirements := Filter(p.requirements, FileHolds(state));
      if requirements.Err? then Err(requirements.error) else
        var incompatibilities := Filter(p.incompatibilities, FileHolds(state));
        if incompatibilities.Err? then Err(incompatibilities.error) else
          var messages := Filter(p.messages, MessageHolds(state));
          if messages.Err? then Err(messages.error) else
            var tags := Filter(p.tags, TagHolds(state));
            if tags.Err? then Err(tags.error) else
              var dirtyInfo := FilterUnlessRegex(p, p.dirtyInfo, state);
              if dirtyInfo.Err? then Err(dirtyInfo.error) else
                var cleanInfo := FilterUnlessRegex(p, p.cleanInfo, state);
                if cleanInfo.Err? then Err(cleanInfo.error) else
                  Ok(PluginMetadata(p.name, p.group, loadAfter.value, requirements.value, incompatibilities.value,
                                    messages.value, tags.value, dirtyInfo.value, cleanInfo.value, p.locations))
  }

  function EvaluateAllConditions(p: PluginMetadata, state: Oracle): Result<Option<PluginMetadata>, EvaluationError> {
    match Remaining(p, state)
    case Err(e) => Err(e)
    case Ok(r) => Ok(if HasNameOnly(r) then None else Some(r))
  }

  // ---------- filtering lists ----------

  predicate AllEvaluate<T>(items: seq<T>, holds: T -> Result<bool, EvaluationError>) {
    items != [] ==> AllEvaluate(Front(items), holds) && holds(Last(items)).Ok?
  }

  function Kept<T>(items: seq<T>, holds: T -> Result<bool, EvaluationError>): seq<T> {
    if items == [] then []
    else if holds(Last(items)) == Ok(true) then Kept(Front(items), holds) + [Last(items)]
    else Kept(Front(items), holds)
  }

  lemma {:induction false} FilterIs<T>(items: seq<T>, holds: T -> Result<bool, EvaluationError>)
    ensures Filter(items, holds).Ok? <==> AllEvaluate(items, holds)
    ensures Filter(items, holds).Ok? ==> Filter(items, holds).value == Kept(items, holds)
  {
    if items != [] {
      FilterIs(Front(items), holds);
    }
  }

  lemma {:induction false} KeptConcat<T>(s: seq<T>, t: seq<T>, holds: T -> Result<bool, EvaluationError>)
    ensures AllEvaluate(s + t, holds) <==> AllEvaluate(s, holds) && AllEvaluate(t, holds)
    ensures Kept(s + t, holds) == Kept(s, holds) + Kept(t, holds)
  {
    if t == [] {
      assert s + t == s;
    } else {
      assert Front(s + t) == s + Front(t) && Last(s + t) == Last(t);
      KeptConcat(s, Front(t), holds);
    }
  }

  /** Equal elements evaluate equally. */
  ghost predicate Respects<T(!new), K(!new)>(key: T -> K, holds: T -> Result<bool, EvaluationError>) {
    forall x, y :: key(x) == key(y) ==> holds(x) == holds(y)
  }

  lemma {:induction false} ContainsKept<T(!new), K(!new)>(key: T -> K, s: seq<T>, x: T,
                                                          holds: T -> Result<bool, EvaluationError>)
    requires Respects(key, holds)
    ensures Contains(key, Kept(s, holds), x) <==> Contains(key, s, x) && holds(x) == Ok(true)
  {
    if s != [] {
      ContainsKept(key, Front(s), x, holds);
      AppendedIs(Kept(Front(s), holds), Last(s));
    }
  }

  lemma {:induction false} ContainedEvaluates<T(!new), K(!new)>(key: T -> K, s: seq<T>, x: T,
                                                                holds: T -> Result<bool, EvaluationError>)
    requires Respects(key, holds) && AllEvaluate(s, holds) && Contains(key, s, x)
    ensures holds(x).Ok?
  {
    if key(Last(s)) != key(x) {
      ContainedEvaluates(key, Front(s), x, holds);
    }
  }

  lemma {:induction false} KeptMissing<T(!new), K(!new)>(key: T -> K, a: seq<T>, b: seq<T>,
                                                         holds: T -> Result<bool, EvaluationError>)
    requires Respects(key, holds) && AllEvaluate(a, holds)
    ensures AllEvaluate(Missing(key, a, b), holds) <==> AllEvaluate(b, holds)
    ensures Kept(Missing(key, a, b), holds) == Missing(key, Kept(a, holds), Kept(b, holds))
  {
    if b != [] {
      KeptMissing(key, a, Front(b), holds);
      ContainsKept(key, a, Last(b), holds);
      if Contains(key, a, Last(b)) {
        ContainedEvaluates(key, a, Last(b), holds);
      }
      AppendedIs(Missing(key, a, Front(b)), Last(b));
      AppendedIs(Kept(Front(b), holds), Last(b));
    }
  }

  /** Two evaluations agree: they fail alike, or the result of the one is the merge of those of the other. */
  ghost predicate MergeOf<T, K>(key: T -> K, r: Result<seq<T>, EvaluationError>, a: Result<seq<T>, EvaluationError>,
                                b: Result<seq<T>, EvaluationError>) {
    && (r.Ok? <==> a.Ok? && b.Ok?)
    && (r.Ok? ==> r.value == Merge(key, a.value, b.value))
  }

  lemma FilterMerge<T(!new), K(!new)>(key: T -> K, a: seq<T>, b: seq<T>, holds: T -> Result<bool, EvaluationError>)
    requires Respects(key, holds)
    ensures MergeOf(key, Filter(Merge(key, a, b), holds), Filter(a, holds), Filter(b, holds))
  {
    FilterIs(a, holds);
    FilterIs(b, holds);
    FilterIs(Merge(key, a, b), holds);
    KeptConcat(a, Missing(key, a, b), holds);
    if AllEvaluate(a, holds) {
      KeptMissing(key, a, b, holds);
    }
  }

  lemma FilterMessages(a: seq<Message>, b: seq<Message>, state: Oracle)
    ensures var holds := MessageHolds(state);
            var r, ra, rb := Filter(a + b, holds), Filter(a, holds), Filter(b, holds);
            (r.Ok? <==> ra.Ok? && rb.Ok?) && (r.Ok? ==> r.value == ra.value + rb.value)
  {
    FilterIs(a, MessageHolds(state));
    FilterIs(b, MessageHolds(state));
    FilterIs(a + b, MessageHolds(state));
    KeptConcat(a, b, MessageHolds(state));
  }

  lemma FilterCleaningDataMerge(p: PluginMetadata, a: seq<PluginCleaningData>, b: seq<PluginCleaningData>,
                                state: Oracle)
    ensures MergeOf(CleaningDataKey, FilterUnlessRegex(p, Merge(CleaningDataKey, a, b), state),
                    FilterUnlessRegex(p, a, state), FilterUnlessRegex(p, b, state))
  {
    if !IsRegexName(p.name) && p.name.text != "" {
      FilterMerge(CleaningDataKey, a, b, CleaningDataHolds(p.name.text, state));
    }
  }

  // ---------- filtering merged metadata ----------

  /** The results for each of the lists. */
  datatype Parts = Parts(
    loadAfter: Result<seq<File>, EvaluationError>,
    requirements: Result<seq<File>, EvaluationError>,
    incompatibilities: Result<seq<File>, EvaluationError>,
    messages: Result<seq<Message>, EvaluationError>,
    tags: Result<seq<Tag>, EvaluationError>,
    dirtyInfo: Result<seq<PluginCleaningData>, EvaluationError>,
    cleanInfo: Result<seq<PluginCleaningData>, EvaluationError>)
  {
    predicate AllOk() {
      && loadAfter.Ok? && requirements.Ok? && incompatibilities.Ok?
      && messages.Ok? && tags.Ok? && dirtyInfo.Ok? && cleanInfo.Ok?
    }

    function With(p: PluginMetadata): PluginMetadata
      requires AllOk()
    {
      PluginMetadata(p.name, p.group, loadAfter.value, requirements.value, incompatibilities.value, messages.value,
                     tags.value, dirtyInfo.value, cleanInfo.value, p.locations)
    }
  }

  function PartsOf(p: PluginMetadata, state: Oracle): Parts {
    Parts(Filter(p.loadAfter, FileHolds(state)), Filter(p.requirements, FileHolds(state)),
          Filter(p.incompatibilities, FileHolds(state)), Filter(p.messages, MessageHolds(state)),
          Filter(p.tags, TagHolds(state)),
          FilterUnlessRegex(p, p.dirtyInfo, state), FilterUnlessRegex(p, p.cleanInfo, state))
  }

  lemma RemainingIs(p: PluginMetadata, state: Oracle)
    ensures Remaining(p, state).Ok? <==> PartsOf(p, state).AllOk()
    ensures Remaining(p, state).Ok? ==> Remaining(p, state).value == PartsOf(p, state).With(p)
  {
  }

  ghost predicate PartsMerge(r: Parts, a: Parts, b: Parts) {
    && MergeOf(FileKey, r.loadAfter, a.loadAfter, b.loadAfter)
    && MergeOf(FileKey, r.requirements, a.requirements, b.requirements)
    && MergeOf(FileKey, r.incompatibilities, a.incompatibilities, b.incompatibilities)
    && (r.messages.Ok? <==> a.messages.Ok? && b.messages.Ok?)
    && (r.messages.Ok? ==> r.messages.value == a.messages.value + b.messages.value)
    && MergeOf(TagKey, r.tags, a.tags, b.tags)
    && MergeOf(CleaningDataKey, r.dirtyInfo, a.dirtyInfo, b.dirtyInfo)
    && MergeOf(CleaningDataKey, r.cleanInfo, a.cleanInfo, b.cleanInfo)
  }

  lemma PartsOfMerge(a: PluginMetadata, b: PluginMetadata, state: Oracle)
    requires a.name == b.name
    ensures PartsMerge(PartsOf(MergeFields(a, b), state), PartsOf(a, state), PartsOf(b, state))
  {
    FilterMerge(FileKey, a.loadAfter, b.loadAfter, FileHolds(state));
    FilterMerge(FileKey, a.requirements, b.requirements, FileHolds(state));
    FilterMerge(FileKey, a.incompatibilities, b.incompatibilities, FileHolds(state));
    FilterMessages(a.messages, b.messages, state);
    FilterMerge(TagKey, a.tags, b.tags, TagHolds(state));
    FilterCleaningDataMerge(a, a.dirtyInfo, b.dirtyInfo, state);
    FilterCleaningDataMerge(a, a.cleanInfo, b.cleanInfo, state);
  }

  lemma WithMerges(r: Parts, pa: Parts, pb: Parts, a: PluginMetadata, b: PluginMetadata)
    requires PartsMerge(r, pa, pb)
    ensures r.AllOk() <==> pa.AllOk() && pb.AllOk()
    ensures r.AllOk() ==> r.With(MergeFields(a, b)) == MergeFields(pa.With(a), pb.With(b))
  {
  }

  /** For metadata of one plugin, the merge evaluates exactly if both parts do, and then what remains of the
      merge is the merge of what remains of the parts. */
  lemma FilteringDistributes(a: PluginMetadata, b: PluginMetadata, state: Oracle)
    requires a.name == b.name
    ensures Remaining(Merged(a, b), state).Ok? <==> Remaining(a, state).Ok? && Remaining(b, state).Ok?
    ensures Remaining(Merged(a, b), state).Ok? ==>
              Remaining(Merged(a, b), state).value == Merged(Remaining(a, state).value, Remaining(b, state).value)
  {
    EarlyReturnIsMerge(a, b);
    RemainingIs(Merged(a, b), state);
    RemainingIs(a, state);
    RemainingIs(b, state);
    PartsOfMerge(a, b, state);
    WithMerges(PartsOf(MergeFields(a, b), state), PartsOf(a, state), PartsOf(b, state), a, b);
    if PartsOf(a, state).AllOk() && PartsOf(b, state).AllOk() {
      EarlyReturnIsMerge(PartsOf(a, state).With(a), PartsOf(b, state).With(b));
    }
  }

  /** Nothing remains of the merge exactly if nothing remains of either part. */
  lemma NothingRemainsIff(a: PluginMetadata, b: PluginMetadata, state: Oracle)
    requires a.name == b.name
    ensures EvaluateAllConditions(Merged(a, b), state) == Ok(None)
       <==> EvaluateAllConditions(a, state) == Ok(None) && EvaluateAllConditions(b, state) == Ok(None)
  {
    FilteringDistributes(a, b, state);
    if Remaining(a, state).Ok? && Remaining(b, state).Ok? {
      NameOnlyIffBoth(Remaining(a, state).value, Remaining(b, state).value);
    }
  }

  // ---------- what remains ----------

  ghost predicate CanEvaluate(condition: Option<string>, state: Oracle) {
    condition.Some? ==> state(Written(condition.value)).Ok?
  }

  /** There is no condition, or it is true. */
  predicate Satisfied(condition: Option<string>, state: Oracle) {
    condition.None? || state(Written(condition.value)) == Ok(true)
  }

  /** Every condition that is looked at can be evaluated. Cleaning data are looked at for entries with a name that is
      neither empty nor a regular expression. */
  ghost predicate AllCanEvaluate(p: PluginMetadata, state: Oracle) {
    && (forall f :: f in p.loadAfter + p.requirements + p.incompatibilities ==> CanEvaluate(f.condition, state))
    && (forall m :: m in p.messages ==> CanEvaluate(m.condition, state))
    && (forall t :: t in p.tags ==> CanEvaluate(t.condition, state))
    && (!IsRegexName(p.name) && p.name.text != "" ==>
          forall c :: c in p.dirtyInfo + p.cleanInfo ==> state(Checksum(p.name.text, c.crc, c.condition)).Ok?)
  }

  function FileStays(state: Oracle): File -> bool {
    (f: File) => Satisfied(f.condition, state)
  }

  function MessageStays(state: Oracle): Message -> bool {
    (m: Message) => Satisfied(m.condition, state)
  }

  function TagStays(state: Oracle): Tag -> bool {
    (t: Tag) => Satisfied(t.condition, state)
  }

  function CleaningDataStays(name: Filename, state: Oracle): PluginCleaningData -> bool {
    (c: PluginCleaningData) =>
      IsRegexName(name) || (name.text != "" && state(Checksum(name.text, c.crc, c.condition)) == Ok(true))
  }

  lemma {:induction false} FilterWhere<T(!new)>(items: seq<T>, holds: T -> Result<bool, EvaluationError>,
                                                keep: T -> bool)
    requires forall x :: keep(x) <==> holds(x) == Ok(true)
    ensures Filter(items, holds).Ok? <==> forall x :: x in items ==> holds(x).Ok?
    ensures Filter(items, holds).Ok? ==> Filter(items, holds).value == Where(items, keep)
  {
    if items != [] {
      FilterWhere(Front(items), holds, keep);
      assert items == Front(items) + [Last(items)];
    }
  }

  lemma FilesRemain(files: seq<File>, state: Oracle)
    ensures var r := Filter(files, FileHolds(state));
            && (r.Ok? <==> forall f :: f in files ==> CanEvaluate(f.condition, state))
            && (r.Ok? ==> r.value == Where(files, FileStays(state)))
  {
    FilterWhere(files, FileHolds(state), FileStays(state));
    assert forall f: File :: FileHolds(state)(f).Ok? <==> CanEvaluate(f.condition, state);
  }

  lemma MessagesRemain(messages: seq<Message>, state: Oracle)
    ensures var r := Filter(messages, MessageHolds(state));
            && (r.Ok? <==> forall m :: m in messages ==> CanEvaluate(m.condition, state))
            && (r.Ok? ==> r.value == Where(messages, MessageStays(state)))
  {
    FilterWhere(messages, MessageHolds(state), MessageStays(state));
    assert forall m: Message :: MessageHolds(state)(m).Ok? <==> CanEvaluate(m.condition, state);
  }

  lemma TagsRemain(tags: seq<Tag>, state: Oracle)
    ensures var r := Filter(tags, TagHolds(state));
            && (r.Ok? <==> forall t :: t in tags ==> CanEvaluate(t.condition, state))
            && (r.Ok? ==> r.value == Where(tags, TagStays(state)))
  {
    FilterWhere(tags, TagHolds(state), TagStays(state));
    assert forall t: Tag :: TagHolds(state)(t).Ok? <==> CanEvaluate(t.condition, state);
  }

  lemma {:induction false} KeepAll<T(!new)>(s: seq<T>, keep: T -> bool, kept: bool)
    requires forall x :: keep(x) == kept
    ensures Where(s, keep) == if kept then s else []
  {
    if s != [] {
      KeepAll(Front(s), keep, kept);
      assert s == Front(s) + [Last(s)];
    }
  }

  lemma CleaningDataRemain(p: PluginMetadata, data: seq<PluginCleaningData>, state: Oracle)
    ensures var r := FilterUnlessRegex(p, data, state);
            && (r.Ok? <==> (!IsRegexName(p.name) && p.name.text != "" ==>
                              forall c :: c in data ==> state(Checksum(p.name.text, c.crc, c.condition)).Ok?))
            && (r.Ok? ==> r.value == Where(data, CleaningDataStays(p.name, state)))
  {
    if IsRegexName(p.name) || p.name.text == "" {
      KeepAll(data, CleaningDataStays(p.name, state), IsRegexName(p.name));
    } else {
      FilterWhere(data, CleaningDataHolds(p.name.text, state), CleaningDataStays(p.name, state));
    }
  }

  /** What is left of the metadata if the elements without a condition or with a true one stay, and the cleaning data
      whose checksum condition is true or that belong to a regex entry, all in order. */
  function Left(p: PluginMetadata, state: Oracle): PluginMetadata {
    p.(loadAfter := Where(p.loadAfter, FileStays(state)),
       requirements := Where(p.requirements, FileStays(state)),
       incompatibilities := Where(p.incompatibilities, FileStays(state)),
       messages := Where(p.messages, MessageStays(state)), tags := Where(p.tags, TagStays(state)),
       dirtyInfo := Where(p.dirtyInfo, CleaningDataStays(p.name, state)),
       cleanInfo := Where(p.cleanInfo, CleaningDataStays(p.name, state)))
  }

  lemma RemainingMeaning(p: PluginMetadata, state: Oracle)
    ensures Remaining(p, state).Ok? <==> AllCanEvaluate(p, state)
    ensures Remaining(p, state).Ok? ==> Remaining(p, state).value == Left(p, state)
  {
    FilesRemain(p.loadAfter, state);
    FilesRemain(p.requirements, state);
    FilesRemain(p.incompatibilities, state);
    MessagesRemain(p.messages, state);
    TagsRemain(p.tags, state);
    CleaningDataRemain(p, p.dirtyInfo, state);
    CleaningDataRemain(p, p.cleanInfo, state);
    RemainingIs(p, state);
  }

  /** Evaluation succeeds exactly if every condition that is looked at can be evaluated, and gives what is left, or
      nothing if that is only a name. */
  lemma EvaluationMeaning(p: PluginMetadata, state: Oracle)
    ensures EvaluateAllConditions(p, state).Ok? <==> AllCanEvaluate(p, state)
    ensures AllCanEvaluate(p, state) ==>
              EvaluateAllConditions(p, state).value
              == if Left(p, state) == WithName(p.name) then None else Some(Left(p, state))
  {
    RemainingMeaning(p, state);
  }
}
