/** How MetadataDocument::save counts the values that may be anchored: OrderedCounts and the count_ functions of
    src/metadata/metadata_document.rs. */
module CommonValues {
  import opened Wrappers
  import opened Metadata
  import opened MetadataYaml
  import opened AnchoredYaml
  import opened SharedValues
  import Sequences

  // ---------- repeated values ----------

  function Self(id: Shareable): Shareable {
    id
  }

  lemma SelfIds(s: seq<Shareable>)
    ensures Ids(Self, s) == s
  {
  }

  function Occurrences(s: seq<Shareable>, x: Shareable): nat {
    multiset(s)[x]
  }

  lemma OccurrencesConcat(s: seq<Shareable>, t: seq<Shareable>, x: Shareable)
    ensures Occurrences(s + t, x) == Occurrences(s, x) + Occurrences(t, x)
  {
    assert multiset(s + t) == multiset(s) + multiset(t);
  }

  lemma OccursIff(s: seq<Shareable>, x: Shareable)
    ensures x in s <==> Occurrences(s, x) > 0
  {
    assert x in s <==> x in multiset(s);
  }

  ghost predicate Distinct(values: seq<Shareable>) {
    forall j, k :: 0 <= j < k < |values| ==> values[j] != values[k]
  }

  /** The elements of s that no earlier element equals. */
  function Firsts<T>(id: T -> Shareable, s: seq<T>): seq<T> {
    if s == [] then []
    else
      var front, last := s[..|s| - 1], s[|s| - 1];
      if id(last) in Ids(id, front) then Firsts(id, front) else Firsts(id, front) + [last]
  }

  /** The elements of order that were counted more than once. */
  function Filtered<T>(id: T -> Shareable, order: seq<T>, counted: seq<Shareable>): seq<T> {
    if order == [] then []
    else
      var front, last := order[..|order| - 1], order[|order| - 1];
      if Occurrences(counted, id(last)) > 1 then Filtered(id, front, counted) + [last] else Filtered(id, front, counted)
  }

  /** For each value that occurs more than once its first occurrence, in order. */
  function Repeated<T>(id: T -> Shareable, s: seq<T>): seq<T> {
    Filtered(id, Firsts(id, s), Ids(id, s))
  }

  lemma IdsSplit<T>(id: T -> Shareable, s: seq<T>)
    requires s != []
    ensures Ids(id, s) == Ids(id, s[..|s| - 1]) + [id(s[|s| - 1])]
  {
  }

  lemma {:induction false} FirstsIds<T>(id: T -> Shareable, s: seq<T>)
    ensures Ids(id, Firsts(id, s)) == Firsts(Self, Ids(id, s))
  {
    if s != [] {
      var front, ids := s[..|s| - 1], Ids(id, s);
      FirstsIds(id, front);
      IdsSplit(id, s);
      assert ids[..|ids| - 1] == Ids(id, front);
      SelfIds(Ids(id, front));
      IdsConcat(id, Firsts(id, front), [s[|s| - 1]]);
    }
  }

  lemma {:induction false} FilteredIds<T>(id: T -> Shareable, order: seq<T>, counted: seq<Shareable>)
    ensures Ids(id, Filtered(id, order, counted)) == Filtered(Self, Ids(id, order), counted)
  {
    if order != [] {
      var front, ids := order[..|order| - 1], Ids(id, order);
      FilteredIds(id, front, counted);
      IdsSplit(id, order);
      assert ids[..|ids| - 1] == Ids(id, front);
      IdsConcat(id, Filtered(id, front, counted), [order[|order| - 1]]);
    }
  }

  /** Which values repeat depends on their identities only. */
  lemma RepeatedIds<T>(id: T -> Shareable, s: seq<T>)
    ensures Ids(id, Repeated(id, s)) == Repeated(Self, Ids(id, s))
  {
    FirstsIds(id, s);
    FilteredIds(id, Firsts(id, s), Ids(id, s));
    SelfIds(Ids(id, s));
  }

  lemma {:induction false} FirstsMembers(s: seq<Shareable>)
    ensures forall x :: x in Firsts(Self, s) <==> x in s
    ensures Distinct(Firsts(Self, s))
  {
    if s != [] {
      var front := s[..|s| - 1];
      assert s == front + [s[|s| - 1]];
      SelfIds(front);
      FirstsMembers(front);
    }
  }

  lemma {:induction false} FilteredMembers(order: seq<Shareable>, counted: seq<Shareable>)
    ensures forall x :: x in Filtered(Self, order, counted) <==> x in order && Occurrences(counted, x) > 1
    ensures Distinct(order) ==> Distinct(Filtered(Self, order, counted))
  {
    if order != [] {
      var front := order[..|order| - 1];
      assert order == front + [order[|order| - 1]];
      FilteredMembers(front, counted);
    }
  }

  lemma RepeatedMembers(s: seq<Shareable>)
    ensures forall x :: x in Repeated(Self, s) <==> Occurrences(s, x) > 1
    ensures Distinct(Repeated(Self, s))
  {
    SelfIds(s);
    FirstsMembers(s);
    FilteredMembers(Firsts(Self, s), s);
    forall x | Occurrences(s, x) > 1
      ensures x in s
    {
      OccursIff(s, x);
    }
  }

  ghost predicate IsFirst<T>(id: T -> Shareable, s: seq<T>, x: T) {
    exists i: nat :: i < |s| && s[i] == x && id(x) !in Ids(id, s[..i])
  }

  lemma {:induction false} FirstsAreFirst<T>(id: T -> Shareable, s: seq<T>, x: T)
    requires x in Firsts(id, s)
    ensures IsFirst(id, s, x)
  {
    var n := |s| - 1;
    if x in Firsts(id, s[..n]) {
      FirstsAreFirst(id, s[..n], x);
      var i: nat :| i < n && s[..n][i] == x && id(x) !in Ids(id, s[..n][..i]);
      assert s[..n][..i] == s[..i];
    } else {
      assert s[n] == x && id(x) !in Ids(id, s[..n]);
    }
  }

  lemma {:induction false} FilteredSubset<T>(id: T -> Shareable, order: seq<T>, counted: seq<Shareable>, x: T)
    requires x in Filtered(id, order, counted)
    ensures x in order
  {
    var n := |order| - 1;
    if x in Filtered(id, order[..n], counted) {
      FilteredSubset(id, order[..n], counted, x);
    }
  }

  /** A repeated value is represented by its first occurrence. */
  lemma RepeatedAreFirst<T>(id: T -> Shareable, s: seq<T>, x: T)
    requires x in Repeated(id, s)
    ensures IsFirst(id, s, x)
  {
    FilteredSubset(id, Firsts(id, s), Ids(id, s), x);
    FirstsAreFirst(id, s, x);
  }

  lemma {:induction false} FirstsOfDistinct(s: seq<Shareable>)
    requires Distinct(s)
    ensures Firsts(Self, s) == s
  {
    if s != [] {
      var front := s[..|s| - 1];
      assert s == front + [s[|s| - 1]];
      SelfIds(front);
      FirstsOfDistinct(front);
    }
  }

  lemma {:induction false} FirstsPrefix(r: seq<Shareable>, s: seq<Shareable>)
    requires Distinct(r) && r <= s
    ensures r <= Firsts(Self, s)
    decreases |s|
  {
    if |r| == |s| {
      FirstsOfDistinct(s);
    } else {
      FirstsPrefix(r, s[..|s| - 1]);
    }
  }

  lemma {:induction false} FilteredPrefix(order: seq<Shareable>, r: seq<Shareable>, counted: seq<Shareable>)
    requires r <= order && Distinct(order)
    requires forall x <- order :: x in r <==> Occurrences(counted, x) > 1
    ensures Filtered(Self, order, counted) == r
    decreases |order|
  {
    if order != [] {
      var n := |order| - 1;
      assert order[n] in order;
      if |r| == |order| {
        assert r == order[..n] + [order[n]];
        FilteredPrefix(order[..n], r[..n], counted);
      } else {
        FilteredPrefix(order[..n], r, counted);
      }
    }
  }

  /** A list that starts with the values that it repeats repeats them in the order in which it starts. */
  lemma RepeatedPrefix(s: seq<Shareable>, r: seq<Shareable>)
    requires Distinct(r) && r <= s && forall x :: x in r <==> Occurrences(s, x) > 1
    ensures Repeated(Self, s) == r
  {
    SelfIds(s);
    FirstsPrefix(r, s);
    FirstsMembers(s);
    FilteredPrefix(Firsts(Self, s), r, s);
  }

  // ---------- OrderedCounts ----------

  ghost predicate CountsOf(counts: map<Shareable, nat>, counted: seq<Shareable>) {
    && (forall x <- counted :: x in counts)
    && (forall x <- counts :: x in counted && counts[x] == Occurrences(counted, x))
  }

  lemma CountsStep(counts: map<Shareable, nat>, counted: seq<Shareable>, x: Shareable)
    requires CountsOf(counts, counted)
    ensures CountsOf(counts[x := if x in counts then counts[x] + 1 else 1], counted + [x])
    ensures x in counts <==> x in counted
  {
    OccursIff(counted, x);
  }

  lemma FirstsStep<T>(id: T -> Shareable, s: seq<T>, value: T)
    ensures Ids(id, s + [value]) == Ids(id, s) + [id(value)]
    ensures Firsts(id, s + [value]) == if id(value) in Ids(id, s) then Firsts(id, s) else Firsts(id, s) + [value]
  {
    assert (s + [value])[..|s|] == s;
  }

  /** Values are told apart by their identities, as equality of files ignores the case of their names. */
  class OrderedCounts<T> {
    const id: T -> Shareable
    var order: seq<T>
    var counts: map<Shareable, nat>
    ghost var log: seq<T>  // every value counted so far

    ghost predicate Valid()
      reads this
    {
      order == Firsts(id, log) && CountsOf(counts, Ids(id, log))
    }

    constructor (id: T -> Shareable)
      ensures Valid() && log == [] && this.id == id
    {
      this.id := id;
      order, counts, log := [], map[], [];
    }

    method IncrementFor(value: T) returns (count: nat)
      requires Valid()
      modifies this
      ensures Valid() && log == old(log) + [value] && count == Occurrences(Ids(id, log), id(value))
    {
      CountsStep(counts, Ids(id, log), id(value));
      FirstsStep(id, log, value);
      if id(value) in counts {
        counts := counts[id(value) := counts[id(value)] + 1];
      } else {
        order := order + [value];
        counts := counts[id(value) := 1];
      }
      log := log + [value];
      count := counts[id(value)];
    }

    method IntoCommonValues() returns (r: seq<T>)
      requires Valid()
      ensures r == Repeated(id, log)
    {
      r := Kept(id, order, counts, Ids(id, log));
    }
  }

  method Kept<T>(id: T -> Shareable, order: seq<T>, counts: map<Shareable, nat>, ghost counted: seq<Shareable>)
    returns (r: seq<T>)
    requires CountsOf(counts, counted)
    ensures r == Filtered(id, order, counted)
  {
    r := [];
    for i := 0 to |order|
      invariant r == Filtered(id, order[..i], counted)
    {
      FilteredStep(id, order, i, counted);
      CountTells(counts, counted, id(order[i]));
      if id(order[i]) in counts && counts[id(order[i])] > 1 {
        r := r + [order[i]];
      }
    }
    assert order[..|order|] == order;
  }

  lemma FilteredStep<T>(id: T -> Shareable, order: seq<T>, i: nat, counted: seq<Shareable>)
    requires i < |order|
    ensures Filtered(id, order[..i + 1], counted)
         == Filtered(id, order[..i], counted) + if Occurrences(counted, id(order[i])) > 1 then [order[i]] else []
  {
    assert order[..i + 1][..i] == order[..i];
  }

  lemma CountTells(counts: map<Shareable, nat>, counted: seq<Shareable>, x: Shareable)
    requires CountsOf(counts, counted)
    ensures x in counts && counts[x] > 1 <==> Occurrences(counted, x) > 1
  {
    OccursIff(counted, x);
  }

  // ---------- the four kinds of values ----------

  datatype Kind = Files | Messages | Contents | Conditions

  function KindOf(id: Shareable): Kind {
    match id
    case SharedFile(_) => Files
    case SharedMessage(_) => Messages
    case SharedContents(_) => Contents
    case SharedCondition(_) => Conditions
  }

  function Select(log: seq<Shareable>, kind: Kind): seq<Shareable> {
    if log == [] then []
    else
      var last := log[|log| - 1];
      Select(log[..|log| - 1], kind) + if KindOf(last) == kind then [last] else []
  }

  lemma SelectAppend(log: seq<Shareable>, id: Shareable, kind: Kind)
    ensures Select(log + [id], kind) == Select(log, kind) + if KindOf(id) == kind then [id] else []
  {
    assert (log + [id])[..|log|] == log;
  }

  lemma {:induction false} SelectConcat(a: seq<Shareable>, b: seq<Shareable>, kind: Kind)
    ensures Select(a + b, kind) == Select(a, kind) + Select(b, kind)
    decreases |b|
  {
    if b == [] {
      assert a + b == a && Select(a, kind) + [] == Select(a, kind);
    } else {
      var front, last := b[..|b| - 1], b[|b| - 1];
      SelectConcat(a, front, kind);
      assert b == front + [last];
      SelectLast(a, front, last, kind);
    }
  }

  lemma SelectLast(a: seq<Shareable>, b: seq<Shareable>, last: Shareable, kind: Kind)
    requires Select(a + b, kind) == Select(a, kind) + Select(b, kind)
    ensures Select(a + (b + [last]), kind) == Select(a, kind) + Select(b + [last], kind)
  {
    Sequences.Regroup(a, b, [last]);
    SelectAppend(a + b, last, kind);
    SelectAppend(b, last, kind);
    Sequences.Regroup(Select(a, kind), Select(b, kind), if KindOf(last) == kind then [last] else []);
  }

  /** A value occurs as often among those of its kind as in the whole log. */
  lemma {:induction false} SelectCounts(log: seq<Shareable>, id: Shareable)
    ensures Occurrences(Select(log, KindOf(id)), id) == Occurrences(log, id)
  {
    if log != [] {
      var front, last := log[..|log| - 1], log[|log| - 1];
      assert log == front + [last];
      SelectCounts(front, id);
      SelectAppend(front, last, KindOf(id));
      OccurrencesConcat(front, [last], id);
      OccurrencesConcat(Select(front, KindOf(id)), if KindOf(last) == KindOf(id) then [last] else [], id);
    }
  }

  lemma {:induction false} SelectKind(log: seq<Shareable>, kind: Kind)
    ensures forall id <- Select(log, kind) :: KindOf(id) == kind
  {
    if log != [] {
      SelectKind(log[..|log| - 1], kind);
    }
  }

  lemma {:induction false} SelectAll(ids: seq<Shareable>, kind: Kind)
    requires forall id <- ids :: KindOf(id) == kind
    ensures Select(ids, kind) == ids
  {
    if ids != [] {
      SelectAll(ids[..|ids| - 1], kind);
    }
  }

  lemma {:induction false} SelectNone(ids: seq<Shareable>, kind: Kind)
    requires forall id <- ids :: KindOf(id) != kind
    ensures Select(ids, kind) == []
  {
    if ids != [] {
      SelectNone(ids[..|ids| - 1], kind);
    }
  }

  lemma DistinctConcat(ids: seq<Shareable>, ids': seq<Shareable>, kind: Kind, kind': Kind)
    requires Distinct(ids) && Distinct(ids') && kind != kind'
    requires forall id <- ids :: KindOf(id) == kind
    requires forall id <- ids' :: KindOf(id) == kind'
    ensures Distinct(ids + ids')
  {
    forall j, k | 0 <= j < |ids| && 0 <= k < |ids'|
      ensures ids[j] != ids'[k]
    {
      assert KindOf(ids[j]) == kind && KindOf(ids'[k]) == kind';
    }
  }

  function MessagesOf(log: seq<Shareable>): seq<Message> {
    if log == [] then []
    else MessagesOf(log[..|log| - 1]) + match log[|log| - 1] { case SharedMessage(m) => [m] case _ => [] }
  }

  function ContentsOf(log: seq<Shareable>): seq<seq<MessageContent>> {
    if log == [] then []
    else ContentsOf(log[..|log| - 1]) + match log[|log| - 1] { case SharedContents(c) => [c] case _ => [] }
  }

  function ConditionsOf(log: seq<Shareable>): seq<string> {
    if log == [] then []
    else ConditionsOf(log[..|log| - 1]) + match log[|log| - 1] { case SharedCondition(c) => [c] case _ => [] }
  }

  lemma ProjectionsAppend(log: seq<Shareable>, id: Shareable)
    ensures MessagesOf(log + [id]) == MessagesOf(log) + if id.SharedMessage? then [id.message] else []
    ensures ContentsOf(log + [id]) == ContentsOf(log) + if id.SharedContents? then [id.contents] else []
    ensures ConditionsOf(log + [id]) == ConditionsOf(log) + if id.SharedCondition? then [id.condition] else []
  {
    assert (log + [id])[..|log|] == log;
  }

  lemma {:induction false} MessagesSelected(log: seq<Shareable>)
    ensures Ids(MessageId, MessagesOf(log)) == Select(log, Messages)
  {
    if log != [] {
      MessagesSelected(log[..|log| - 1]);
    }
  }

  lemma {:induction false} ContentsSelected(log: seq<Shareable>)
    ensures Ids(ContentsId, ContentsOf(log)) == Select(log, Contents)
  {
    if log != [] {
      ContentsSelected(log[..|log| - 1]);
    }
  }

  lemma {:induction false} ConditionsSelected(log: seq<Shareable>)
    ensures Ids(ConditionId, ConditionsOf(log)) == Select(log, Conditions)
  {
    if log != [] {
      ConditionsSelected(log[..|log| - 1]);
    }
  }

  // ---------- counting the values of a document ----------

  /** The files that are candidates for an anchor. */
  function CountedFiles(files: seq<File>, scalars: bool): seq<File> {
    if files == [] then []
    else (if Counted(FileId(files[0]), scalars) then [files[0]] else []) + CountedFiles(files[1..], scalars)
  }

  lemma {:induction false} CountedFilesConcat(a: seq<File>, b: seq<File>, scalars: bool)
    ensures CountedFiles(a + b, scalars) == CountedFiles(a, scalars) + CountedFiles(b, scalars)
    decreases |a|
  {
    if a == [] {
      assert a + b == b;
    } else {
      assert (a + b)[1..] == a[1..] + b;
      CountedFilesConcat(a[1..], b, scalars);
    }
  }

  lemma CountedFilesOne(f: File, scalars: bool, files: seq<File>)
    ensures files + CountedFiles([f], scalars) == if Counted(FileId(f), scalars) then files + [f] else files
  {
    assert [f][1..] == [];
  }

  lemma {:induction false} CountedFilesMembers(files: seq<File>, scalars: bool)
    ensures forall f :: f in CountedFiles(files, scalars) <==> f in files && Counted(FileId(f), scalars)
  {
    if files != [] {
      CountedFilesMembers(files[1..], scalars);
    }
  }

  lemma CountedBefore(log: seq<Shareable>, id: Shareable)
    ensures Occurrences(Select(log + [id], KindOf(id)), id) > 1 <==> id in log
  {
    SelectCounts(log + [id], id);
    OccurrencesConcat(log, [id], id);
    OccursIff(log, id);
  }

  lemma LoggedMessage(m: Message, scalars: bool, log: seq<Shareable>)
    ensures var id := MessageId(m);
            LogId(id, scalars, log)
            == if id in log then log + [id] else log + [id] + ContentsParts(m.content) + ConditionParts(m.condition)
  {
    var logged := log + [MessageId(m)];
    assert logged + Parts(MessageId(m)) == logged + ContentsParts(m.content) + ConditionParts(m.condition);
  }

  function WithFileParts(log: seq<Shareable>, f: File): seq<Shareable> {
    log + ContentsParts(f.detail) + ConditionParts(f.condition) + ConditionParts(f.constraint)
  }

  lemma LoggedFile(f: File, scalars: bool, log: seq<Shareable>)
    ensures var id := FileId(f);
            LogId(id, scalars, log)
            == if !Counted(id, scalars) then WithFileParts(log, f)
               else if id in log then log + [id]
               else WithFileParts(log + [id], f)
  {
    assert log + Parts(FileId(f)) == WithFileParts(log, f);
    assert log + [FileId(f)] + Parts(FileId(f)) == WithFileParts(log + [FileId(f)], f);
  }

  /** The four logs are those of the kinds in log; of files, equal ones are not the same. */
  ghost predicate LogsAgree(log: seq<Shareable>, files: seq<File>, messages: seq<Message>,
                            contents: seq<seq<MessageContent>>, conditions: seq<string>) {
    && Ids(FileId, files) == Select(log, Files) && messages == MessagesOf(log)
    && contents == ContentsOf(log) && conditions == ConditionsOf(log)
  }

  lemma FileLogged(log: seq<Shareable>, files: seq<File>, messages: seq<Message>, contents: seq<seq<MessageContent>>,
                   conditions: seq<string>, f: File)
    requires LogsAgree(log, files, messages, contents, conditions)
    ensures LogsAgree(log + [FileId(f)], files + [f], messages, contents, conditions)
    ensures Occurrences(Ids(FileId, files + [f]), FileId(f)) > 1 <==> FileId(f) in log
  {
    ProjectionsAppend(log, FileId(f));
    SelectAppend(log, FileId(f), Files);
    CountedBefore(log, FileId(f));
    assert Ids(FileId, [f]) == [FileId(f)];
    IdsConcat(FileId, files, [f]);
  }

  lemma MessageLogged(log: seq<Shareable>, files: seq<File>, messages: seq<Message>,
                      contents: seq<seq<MessageContent>>, conditions: seq<string>, m: Message)
    requires LogsAgree(log, files, messages, contents, conditions)
    ensures LogsAgree(log + [MessageId(m)], files, messages + [m], contents, conditions)
    ensures Occurrences(Ids(MessageId, messages + [m]), MessageId(m)) > 1 <==> MessageId(m) in log
  {
    ProjectionsAppend(log, MessageId(m));
    SelectAppend(log, MessageId(m), Files);
    MessagesSelected(log + [MessageId(m)]);
    CountedBefore(log, MessageId(m));
  }

  lemma ContentsLogged(log: seq<Shareable>, files: seq<File>, messages: seq<Message>,
                       contents: seq<seq<MessageContent>>, conditions: seq<string>, c: seq<MessageContent>)
    requires LogsAgree(log, files, messages, contents, conditions)
    ensures LogsAgree(log + [ContentsId(c)], files, messages, contents + [c], conditions)
  {
    ProjectionsAppend(log, ContentsId(c));
    SelectAppend(log, ContentsId(c), Files);
  }

  lemma ConditionLogged(log: seq<Shareable>, files: seq<File>, messages: seq<Message>,
                        contents: seq<seq<MessageContent>>, conditions: seq<string>, c: string)
    requires LogsAgree(log, files, messages, contents, conditions)
    ensures LogsAgree(log + [ConditionId(c)], files, messages, contents, conditions + [c])
  {
    ProjectionsAppend(log, ConditionId(c));
    SelectAppend(log, ConditionId(c), Files);
  }

  /** The first i files of a list have been counted. */
  ghost predicate FilesDone(list: seq<File>, i: nat, scalars: bool, log: seq<Shareable>, log': seq<Shareable>,
                            files: seq<File>, files': seq<File>)
    requires i <= |list|
  {
    && log' == LogIds(Ids(FileId, list[..i]), scalars, log)
    && files' == files + CountedFiles(list[..i], scalars)
  }

  lemma FilesDoneStep(list: seq<File>, i: nat, scalars: bool, log: seq<Shareable>, log': seq<Shareable>,
                      files: seq<File>, files': seq<File>)
    requires i < |list| && FilesDone(list, i, scalars, log, log', files, files')
    ensures FilesDone(list, i + 1, scalars, log, LogId(FileId(list[i]), scalars, log'),
                      files, files' + CountedFiles([list[i]], scalars))
  {
    LogIdsStep(FileId, list, i, scalars, log);
    CountedFilesStep(list, i, scalars, files);
  }

  lemma CountedFilesStep(list: seq<File>, i: nat, scalars: bool, files: seq<File>)
    requires i < |list|
    ensures files + CountedFiles(list[..i + 1], scalars)
         == files + CountedFiles(list[..i], scalars) + CountedFiles([list[i]], scalars)
  {
    assert list[..i + 1] == list[..i] + [list[i]];
    CountedFilesConcat(list[..i], [list[i]], scalars);
    Sequences.Regroup(files, CountedFiles(list[..i], scalars), CountedFiles([list[i]], scalars));
  }

  /** The four counters of get_common_metadata_values. */
  datatype Counters = Counters(
    files: OrderedCounts<File>,
    messages: OrderedCounts<Message>,
    contents: OrderedCounts<seq<MessageContent>>,
    conditions: OrderedCounts<string>)
  {
    ghost function Repr(): set<object> {
      {files, messages, contents, conditions}
    }

    /** The counters have counted exactly the values in log. */
    ghost predicate Agree(log: seq<Shareable>)
      reads Repr()
    {
      && files.Valid() && messages.Valid() && contents.Valid() && conditions.Valid()
      && files.id == FileId && messages.id == MessageId && contents.id == ContentsId && conditions.id == ConditionId
      && LogsAgree(log, files.log, messages.log, contents.log, conditions.log)
    }

    method CountContents(contents: seq<MessageContent>, ghost log: seq<Shareable>) returns (ghost log': seq<Shareable>)
      requires Agree(log)
      modifies Repr()
      ensures Agree(log') && log' == log + ContentsParts(contents) && files.log == old(files.log)
    {
      log' := log;
      if contents != [] {
        ContentsLogged(log, files.log, messages.log, this.contents.log, conditions.log, contents);
        var _ := this.contents.IncrementFor(contents);
        log' := log + [ContentsId(contents)];
      }
    }

    method CountCondition(condition: Option<string>, ghost log: seq<Shareable>) returns (ghost log': seq<Shareable>)
      requires Agree(log)
      modifies Repr()
      ensures Agree(log') && log' == log + ConditionParts(condition) && files.log == old(files.log)
    {
      log' := log;
      if condition.Some? {
        ConditionLogged(log, files.log, messages.log, contents.log, conditions.log, condition.value);
        var _ := conditions.IncrementFor(condition.value);
        log' := log + [ConditionId(condition.value)];
      }
    }

    method CountMessageValues(message: Message, ghost scalars: bool, ghost log: seq<Shareable>)
      returns (ghost log': seq<Shareable>)
      requires Agree(log)
      modifies Repr()
      ensures Agree(log') && log' == LogId(MessageId(message), scalars, log) && files.log == old(files.log)
    {
      LoggedMessage(message, scalars, log);
      MessageLogged(log, files.log, messages.log, contents.log, conditions.log, message);
      var messageCount := messages.IncrementFor(message);
      log' := log + [MessageId(message)];
      if messageCount > 1 {
        return;
      }
      log' := CountContents(message.content, log');
      log' := CountCondition(message.condition, log');
    }

    method CountFile(file: File, ghost log: seq<Shareable>) returns (fileCount: nat)
      requires Agree(log)
      modifies Repr()
      ensures Agree(log + [FileId(file)]) && files.log == old(files.log) + [file]
      ensures fileCount > 1 <==> FileId(file) in log
    {
      FileLogged(log, files.log, messages.log, contents.log, conditions.log, file);
      fileCount := files.IncrementFor(file);
    }

    method CountFileParts(file: File, ghost log: seq<Shareable>) returns (ghost log': seq<Shareable>)
      requires Agree(log)
      modifies Repr()
      ensures Agree(log') && log' == WithFileParts(log, file) && files.log == old(files.log)
    {
      log' := CountContents(file.detail, log);
      log' := CountCondition(file.condition, log');
      log' := CountCondition(file.constraint, log');
    }

    method CountFileValues(file: File, anchorScalarFiles: bool, ghost log: seq<Shareable>)
      returns (ghost log': seq<Shareable>)
      requires Agree(log)
      modifies Repr()
      ensures Agree(log') && log' == LogId(FileId(file), anchorScalarFiles, log)
      ensures files.log == old(files.log) + CountedFiles([file], anchorScalarFiles)
    {
      LoggedFile(file, anchorScalarFiles, log);
      CountedFilesOne(file, anchorScalarFiles, files.log);
      log' := log;
      if anchorScalarFiles || !IsScalarFile(file) {
        var fileCount := CountFile(file, log);
        log' := log + [FileId(file)];
        if fileCount > 1 {
          return;
        }
      }
      log' := CountFileParts(file, log');
    }

    method CountFiles(list: seq<File>, anchorScalarFiles: bool, ghost log: seq<Shareable>)
      returns (ghost log': seq<Shareable>)
      requires Agree(log)
      modifies Repr()
      ensures Agree(log') && log' == LogIds(Ids(FileId, list), anchorScalarFiles, log)
      ensures files.log == old(files.log) + CountedFiles(list, anchorScalarFiles)
    {
      log' := log;
      for i := 0 to |list|
        invariant Agree(log') && FilesDone(list, i, anchorScalarFiles, log, log', old(files.log), files.log)
      {
        FilesDoneStep(list, i, anchorScalarFiles, log, log', old(files.log), files.log);
        log' := CountFileValues(list[i], anchorScalarFiles, log');
      }
      assert list[..|list|] == list;
    }

    method CountMessages(list: seq<Message>, ghost scalars: bool, ghost log: seq<Shareable>)
      returns (ghost log': seq<Shareable>)
      requires Agree(log)
      modifies Repr()
      ensures Agree(log') && log' == LogIds(Ids(MessageId, list), scalars, log) && files.log == old(files.log)
    {
      log' := log;
      for i := 0 to |list|
        invariant Agree(log') && log' == LogIds(Ids(MessageId, list[..i]), scalars, log)
        invariant files.log == old(files.log)
      {
        LogIdsStep(MessageId, list, i, scalars, log);
        log' := CountMessageValues(list[i], scalars, log');
      }
      assert list[..|list|] == list;
    }

    method CountTags(list: seq<Tag>, ghost scalars: bool, ghost log: seq<Shareable>)
      returns (ghost log': seq<Shareable>)
      requires Agree(log)
      modifies Repr()
      ensures Agree(log') && log' == LogIds(TagIds(list), scalars, log) && files.log == old(files.log)
    {
      log' := log;
      assert list[0..] == list;
      for i := 0 to |list|
        invariant Agree(log') && files.log == old(files.log)
        invariant LogIds(TagIds(list[i..]), scalars, log') == LogIds(TagIds(list), scalars, log)
      {
        TagsStep(list, i, scalars, log');
        log' := CountCondition(list[i].condition, log');
      }
    }

    method CountCleaningData(list: seq<PluginCleaningData>, ghost scalars: bool, ghost log: seq<Shareable>)
      returns (ghost log': seq<Shareable>)
      requires Agree(log)
      modifies Repr()
      ensures Agree(log') && log' == LogIds(CleaningDataIds(list), scalars, log) && files.log == old(files.log)
    {
      log' := log;
      assert list[0..] == list;
      for i := 0 to |list|
        invariant Agree(log') && files.log == old(files.log)
        invariant LogIds(CleaningDataIds(list[i..]), scalars, log') == LogIds(CleaningDataIds(list), scalars, log)
      {
        CleaningDataStep(list, i, scalars, log');
        log' := CountContents(list[i].detail, log');
        log' := CountCondition(list[i].condition, log');
      }
    }

    method CountPlugin(p: PluginMetadata, anchorScalarFiles: bool, ghost log: seq<Shareable>)
      returns (ghost log': seq<Shareable>)
      requires Agree(log)
      modifies Repr()
      ensures Agree(log') && log' == LogIds(PluginIds(p), anchorScalarFiles, log)
      ensures files.log == old(files.log) + CountedFiles(PluginFiles(p), anchorScalarFiles)
    {
      PluginLog(p, anchorScalarFiles, log);
      PluginFilesCounted(p, anchorScalarFiles, files.log);
      log' := CountFiles(p.loadAfter, anchorScalarFiles, log);
      log' := CountFiles(p.requirements, anchorScalarFiles, log');
      log' := CountFiles(p.incompatibilities, anchorScalarFiles, log');
      log' := CountMessages(p.messages, anchorScalarFiles, log');
      log' := CountTags(p.tags, anchorScalarFiles, log');
      log' := CountCleaningData(p.dirtyInfo, anchorScalarFiles, log');
      log' := CountCleaningData(p.cleanInfo, anchorScalarFiles, log');
    }
  }

  lemma LogIdsStep<T>(id: T -> Shareable, list: seq<T>, i: nat, scalars: bool, log: seq<Shareable>)
    requires i < |list|
    ensures LogIds(Ids(id, list[..i + 1]), scalars, log)
         == LogId(id(list[i]), scalars, LogIds(Ids(id, list[..i]), scalars, log))
  {
    assert Ids(id, list[..i + 1]) == Ids(id, list[..i]) + [id(list[i])];
    LogIdsConcat(Ids(id, list[..i]), [id(list[i])], scalars, log);
    LogIdsOne(id(list[i]), scalars, LogIds(Ids(id, list[..i]), scalars, log));
  }

  lemma LeavesFirst(leaves: seq<Shareable>, rest: seq<Shareable>, scalars: bool, log: seq<Shareable>)
    requires AreLeaves(leaves)
    ensures LogIds(leaves + rest, scalars, log) == LogIds(rest, scalars, log + leaves)
  {
    LogIdsConcat(leaves, rest, scalars, log);
    LeavesLog(leaves, scalars, log);
  }

  lemma TagsStep(list: seq<Tag>, i: nat, scalars: bool, log: seq<Shareable>)
    requires i < |list|
    ensures LogIds(TagIds(list[i..]), scalars, log)
         == LogIds(TagIds(list[i + 1..]), scalars, log + ConditionParts(list[i].condition))
  {
    assert list[i..][1..] == list[i + 1..];
    LeavesFirst(ConditionParts(list[i].condition), TagIds(list[i + 1..]), scalars, log);
  }

  lemma CleaningDataStep(list: seq<PluginCleaningData>, i: nat, scalars: bool, log: seq<Shareable>)
    requires i < |list|
    ensures LogIds(CleaningDataIds(list[i..]), scalars, log)
         == LogIds(CleaningDataIds(list[i + 1..]), scalars,
                   log + ContentsParts(list[i].detail) + ConditionParts(list[i].condition))
  {
    assert list[i..][1..] == list[i + 1..];
    var p, q, rest := ContentsParts(list[i].detail), ConditionParts(list[i].condition), CleaningDataIds(list[i + 1..]);
    assert CleaningDataIds(list[i..]) == p + (q + rest);
    LeavesFirst(p, q + rest, scalars, log);
    LeavesFirst(q, rest, scalars, log + p);
  }

  /** The log of a plugin is the log of its lists, in the order in which they are written. */
  lemma PluginLog(p: PluginMetadata, scalars: bool, log: seq<Shareable>)
    ensures LogIds(PluginIds(p), scalars, log)
         == LogIds(CleaningDataIds(p.cleanInfo), scalars,
              LogIds(CleaningDataIds(p.dirtyInfo), scalars,
                LogIds(TagIds(p.tags), scalars,
                  LogIds(Ids(MessageId, p.messages), scalars,
                    LogIds(Ids(FileId, p.incompatibilities), scalars,
                      LogIds(Ids(FileId, p.requirements), scalars,
                        LogIds(Ids(FileId, p.loadAfter), scalars, log)))))))
  {
    var ids := Ids(FileId, p.loadAfter);
    ids := IdsAppended(ids, Ids(FileId, p.requirements), scalars, log);
    ids := IdsAppended(ids, Ids(FileId, p.incompatibilities), scalars, log);
    ids := IdsAppended(ids, Ids(MessageId, p.messages), scalars, log);
    ids := IdsAppended(ids, TagIds(p.tags), scalars, log);
    ids := IdsAppended(ids, CleaningDataIds(p.dirtyInfo), scalars, log);
    ids := IdsAppended(ids, CleaningDataIds(p.cleanInfo), scalars, log);
  }

  lemma IdsAppended(ids: seq<Shareable>, more: seq<Shareable>, scalars: bool, log: seq<Shareable>)
    returns (ids': seq<Shareable>)
    ensures ids' == ids + more
    ensures LogIds(ids', scalars, log) == LogIds(more, scalars, LogIds(ids, scalars, log))
  {
    ids' := ids + more;
    LogIdsConcat(ids, more, scalars, log);
  }

  lemma PluginFilesCounted(p: PluginMetadata, scalars: bool, log: seq<File>)
    ensures log + CountedFiles(p.loadAfter, scalars) + CountedFiles(p.requirements, scalars)
            + CountedFiles(p.incompatibilities, scalars)
         == log + CountedFiles(PluginFiles(p), scalars)
  {
    CountedFilesConcat(p.loadAfter, p.requirements, scalars);
    CountedFilesConcat(p.loadAfter + p.requirements, p.incompatibilities, scalars);
  }

  // ---------- the files of a log ----------

  ghost function CountedFileIds(ids: seq<Shareable>, scalars: bool): seq<Shareable> {
    if ids == [] then []
    else (if ids[0].SharedFile? && Counted(ids[0], scalars) then [ids[0]] else []) + CountedFileIds(ids[1..], scalars)
  }

  lemma {:induction false} CountedFileIdsConcat(a: seq<Shareable>, b: seq<Shareable>, scalars: bool)
    ensures CountedFileIds(a + b, scalars) == CountedFileIds(a, scalars) + CountedFileIds(b, scalars)
    decreases |a|
  {
    if a == [] {
      assert a + b == b;
    } else {
      assert (a + b)[1..] == a[1..] + b;
      CountedFileIdsConcat(a[1..], b, scalars);
    }
  }

  lemma {:induction false} NoCountedFileIds(ids: seq<Shareable>, scalars: bool)
    requires forall id <- ids :: !id.SharedFile?
    ensures CountedFileIds(ids, scalars) == []
  {
    if ids != [] {
      NoCountedFileIds(ids[1..], scalars);
    }
  }

  lemma {:induction false} CountedFilesHaveIds(files: seq<File>, scalars: bool)
    ensures CountedFileIds(Ids(FileId, files), scalars) == Ids(FileId, CountedFiles(files, scalars))
  {
    if files != [] {
      IdsFirst(FileId, files);
      CountedFilesHaveIds(files[1..], scalars);
      IdsConcat(FileId, if Counted(FileId(files[0]), scalars) then [files[0]] else [],
                CountedFiles(files[1..], scalars));
    }
  }

  lemma SelectFilesStep(id: Shareable, scalars: bool, log: seq<Shareable>)
    ensures Select(LogId(id, scalars, log), Files)
         == Select(log, Files) + if id.SharedFile? && Counted(id, scalars) then [id] else []
  {
    PartsAreLeaves(id);
    SelectNone(Parts(id), Files);
    SelectAppend(log, id, Files);
    SelectConcat(log, Parts(id), Files);
    SelectConcat(log + [id], Parts(id), Files);
  }

  /** Files are logged whenever they are met. */
  lemma {:induction false} SelectFiles(ids: seq<Shareable>, scalars: bool, log: seq<Shareable>)
    ensures Select(LogIds(ids, scalars, log), Files) == Select(log, Files) + CountedFileIds(ids, scalars)
    decreases |ids|
  {
    if ids != [] {
      SelectFilesStep(ids[0], scalars, log);
      SelectFiles(ids[1..], scalars, LogId(ids[0], scalars, log));
      Sequences.Regroup(Select(log, Files), if ids[0].SharedFile? && Counted(ids[0], scalars) then [ids[0]] else [],
                        CountedFileIds(ids[1..], scalars));
    }
  }

  lemma {:induction false} TagIdsNoFiles(tags: seq<Tag>)
    ensures forall id <- TagIds(tags) :: !id.SharedFile?
  {
    if tags != [] {
      TagIdsNoFiles(tags[1..]);
    }
  }

  lemma {:induction false} CleaningDataIdsNoFiles(data: seq<PluginCleaningData>)
    ensures forall id <- CleaningDataIds(data) :: !id.SharedFile?
  {
    if data != [] {
      CleaningDataIdsNoFiles(data[1..]);
    }
  }

  ghost function PluginOtherIds(p: PluginMetadata): seq<Shareable> {
    Ids(MessageId, p.messages) + (TagIds(p.tags) + (CleaningDataIds(p.dirtyInfo) + CleaningDataIds(p.cleanInfo)))
  }

  lemma PluginIdsSplit(p: PluginMetadata)
    ensures PluginIds(p) == Ids(FileId, PluginFiles(p)) + PluginOtherIds(p)
  {
    IdsConcat(FileId, p.loadAfter, p.requirements);
    IdsConcat(FileId, p.loadAfter + p.requirements, p.incompatibilities);
    var files, messages := Ids(FileId, PluginFiles(p)), Ids(MessageId, p.messages);
    var tags, dirty, clean := TagIds(p.tags), CleaningDataIds(p.dirtyInfo), CleaningDataIds(p.cleanInfo);
    Sequences.Regroup(files + messages + tags, dirty, clean);
    Sequences.Regroup(files + messages, tags, dirty + clean);
    Sequences.Regroup(files, messages, tags + (dirty + clean));
  }

  lemma OtherIdsNoFiles(p: PluginMetadata, scalars: bool)
    ensures CountedFileIds(PluginOtherIds(p), scalars) == []
  {
    TagIdsNoFiles(p.tags);
    CleaningDataIdsNoFiles(p.dirtyInfo);
    CleaningDataIdsNoFiles(p.cleanInfo);
    NoCountedFileIds(PluginOtherIds(p), scalars);
  }

  lemma PluginFileIds(p: PluginMetadata, scalars: bool)
    ensures CountedFileIds(PluginIds(p), scalars) == Ids(FileId, CountedFiles(PluginFiles(p), scalars))
  {
    PluginIdsSplit(p);
    OtherIdsNoFiles(p, scalars);
    CountedFilesHaveIds(PluginFiles(p), scalars);
    CountedFileIdsConcat(Ids(FileId, PluginFiles(p)), PluginOtherIds(p), scalars);
  }

  lemma {:induction false} PluginsFileIds(plugins: seq<PluginMetadata>, scalars: bool)
    ensures CountedFileIds(PluginsIds(plugins), scalars) == Ids(FileId, CountedFiles(AllFiles(plugins), scalars))
  {
    if plugins != [] {
      PluginFileIds(plugins[0], scalars);
      PluginsFileIds(plugins[1..], scalars);
      CountedFileIdsConcat(PluginIds(plugins[0]), PluginsIds(plugins[1..]), scalars);
      CountedFilesConcat(PluginFiles(plugins[0]), AllFiles(plugins[1..]), scalars);
      IdsConcat(FileId, CountedFiles(PluginFiles(plugins[0]), scalars), CountedFiles(AllFiles(plugins[1..]), scalars));
    }
  }

  /** Every countable value that writing a document meets, outside repetitions of values already met. */
  ghost function DocumentLog(messages: seq<Message>, plugins: seq<PluginMetadata>, scalars: bool): seq<Shareable> {
    LogIds(DocumentIds(messages, plugins), scalars, [])
  }

  /** The files in the log of a document are its counted files. */
  lemma DocumentFiles(messages: seq<Message>, plugins: seq<PluginMetadata>, scalars: bool)
    ensures Ids(FileId, CountedFiles(AllFiles(plugins), scalars))
         == Select(DocumentLog(messages, plugins, scalars), Files)
  {
    SelectFiles(DocumentIds(messages, plugins), scalars, []);
    PluginsFileIds(plugins, scalars);
    NoCountedFileIds(Ids(MessageId, messages), scalars);
    CountedFileIdsConcat(Ids(MessageId, messages), PluginsIds(plugins), scalars);
  }
}
