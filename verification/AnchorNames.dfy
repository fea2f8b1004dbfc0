/** The names of the anchors that MetadataDocument::save uses: to_anchor_map and set_anchors of
    src/metadata/metadata_document.rs. */
module AnchorNames {
  import opened Metadata
  import opened MetadataYaml
  import opened AnchoredYaml
  import opened SharedValues
  import opened CommonValues
  import opened Numerals

  datatype Common = Common(
    files: seq<File>,
    messages: seq<Message>,
    contents: seq<seq<MessageContent>>,
    conditions: seq<string>)

  /** The repeated values of a log; files are those whose identities it has. */
  ghost function CommonOf(log: seq<Shareable>, files: seq<File>): Common {
    Common(Repeated(FileId, files), Repeated(MessageId, MessagesOf(log)), Repeated(ContentsId, ContentsOf(log)),
           Repeated(ConditionId, ConditionsOf(log)))
  }

  function CommonIds(c: Common, kind: Kind): seq<Shareable> {
    match kind
    case Files => Ids(FileId, c.files)
    case Messages => Ids(MessageId, c.messages)
    case Contents => Ids(ContentsId, c.contents)
    case Conditions => Ids(ConditionId, c.conditions)
  }

  lemma CommonIdsRepeat(log: seq<Shareable>, files: seq<File>, kind: Kind)
    requires Ids(FileId, files) == Select(log, Files)
    ensures CommonIds(CommonOf(log, files), kind) == Repeated(Self, Select(log, kind))
  {
    match kind {
      case Files => RepeatedIds(FileId, files);
      case Messages =>
        RepeatedIds(MessageId, MessagesOf(log));
        MessagesSelected(log);
      case Contents =>
        RepeatedIds(ContentsId, ContentsOf(log));
        ContentsSelected(log);
      case Conditions =>
        RepeatedIds(ConditionId, ConditionsOf(log));
        ConditionsSelected(log);
    }
  }

  lemma CommonIdsKind(c: Common, kind: Kind)
    ensures forall id <- CommonIds(c, kind) :: KindOf(id) == kind
  {
  }

  // ---------- anchor names ----------

  function ToAnchorMap(values: seq<Shareable>, prefix: string): (m: Anchors)
    ensures forall x :: x in m <==> x in values
  {
    if values == [] then map[]
    else
      assert values == values[..|values| - 1] + [values[|values| - 1]];
      ToAnchorMap(values[..|values| - 1], prefix)[values[|values| - 1] := prefix + Numeral(|values|)]
  }

  /** Distinct values are numbered from one in the order given. */
  lemma {:induction false} ToAnchorMapAt(values: seq<Shareable>, prefix: string, i: nat)
    requires i < |values| && Distinct(values)
    ensures ToAnchorMap(values, prefix)[values[i]] == prefix + Numeral(i + 1)
  {
    if i < |values| - 1 {
      ToAnchorMapAt(values[..|values| - 1], prefix, i);
    }
  }

  function Prefix(kind: Kind): string {
    match kind
    case Files => "file"
    case Messages => "message"
    case Contents => "contents"
    case Conditions => "condition"
  }

  function AnchorMap(c: Common, kind: Kind): Anchors {
    ToAnchorMap(CommonIds(c, kind), Prefix(kind))
  }

  /** set_anchors: the anchors of the four kinds of values. */
  function SetAnchors(c: Common): Anchors {
    AnchorMap(c, Files) + AnchorMap(c, Messages) + AnchorMap(c, Contents) + AnchorMap(c, Conditions)
  }

  ghost predicate NoDuplicates(c: Common) {
    forall kind :: Distinct(CommonIds(c, kind))
  }

  lemma AnchorIsOfKind(c: Common, id: Shareable)
    ensures id in SetAnchors(c) <==> id in CommonIds(c, KindOf(id))
    ensures id in SetAnchors(c) ==> SetAnchors(c)[id] == AnchorMap(c, KindOf(id))[id]
  {
    CommonIdsKind(c, Files);
    CommonIdsKind(c, Messages);
    CommonIdsKind(c, Contents);
    CommonIdsKind(c, Conditions);
  }

  /** The name of the i-th value of a kind, which is number i + 1. */
  function AnchorName(kind: Kind, i: nat): string {
    Prefix(kind) + Numeral(i + 1)
  }

  lemma AnchorNameInjective(kind: Kind, i: nat, kind': Kind, j: nat)
    requires AnchorName(kind, i) == AnchorName(kind', j)
    ensures kind == kind' && i == j
  {
    PrefixFromStart(kind, Numeral(i + 1), kind', Numeral(j + 1));
    NumeralInjective(i + 1, j + 1);
  }

  function KindText(id: Shareable): string {
    if id.SharedFile? then "file"
    else if id.SharedMessage? then "message"
    else if id.SharedContents? then "contents"
    else "condition"
  }

  lemma NameSpelled(id: Shareable, i: nat)
    ensures AnchorName(KindOf(id), i) == KindText(id) + Numeral(i + 1)
  {
  }

  /** An anchor's name is its kind followed by its number among the values of that kind. */
  lemma AnchorNamed(c: Common, id: Shareable) returns (i: nat)
    requires NoDuplicates(c) && id in SetAnchors(c)
    ensures i < |CommonIds(c, KindOf(id))| && CommonIds(c, KindOf(id))[i] == id
    ensures SetAnchors(c)[id] == AnchorName(KindOf(id), i)
    ensures SetAnchors(c)[id] == KindText(id) + Numeral(i + 1)
  {
    AnchorIsOfKind(c, id);
    var ids := CommonIds(c, KindOf(id));
    i :| 0 <= i < |ids| && ids[i] == id;
    NameSpelled(id, i);
    ToAnchorMapAt(ids, Prefix(KindOf(id)), i);
  }

  /** The first and the fourth letter tell the kinds apart. */
  lemma PrefixFromStart(kind: Kind, s: string, kind': Kind, s': string)
    requires Prefix(kind) + s == Prefix(kind') + s'
    ensures kind == kind' && s == s'
  {
    var t, t' := Prefix(kind) + s, Prefix(kind') + s';
    assert t[0] == Prefix(kind)[0] && t'[0] == Prefix(kind')[0];
    assert t[3] == Prefix(kind)[3] && t'[3] == Prefix(kind')[3];
    assert t[|Prefix(kind)|..] == s && t'[|Prefix(kind')|..] == s';
  }

  /** No two values have the same anchor name, whatever their kinds. */
  lemma AnchorsInjective(c: Common)
    requires NoDuplicates(c)
    ensures Injective(SetAnchors(c))
  {
    var a := SetAnchors(c);
    forall x, y | x in a && y in a && a[x] == a[y]
      ensures x == y
    {
      SameNameSameValue(c, x, y);
    }
  }

  lemma SameNameSameValue(c: Common, x: Shareable, y: Shareable)
    requires NoDuplicates(c) && x in SetAnchors(c) && y in SetAnchors(c) && SetAnchors(c)[x] == SetAnchors(c)[y]
    ensures x == y
  {
    var i := AnchorNamed(c, x);
    var j := AnchorNamed(c, y);
    AnchorNameInjective(KindOf(x), i, KindOf(y), j);
  }

  lemma CommonHasNoDuplicates(log: seq<Shareable>, files: seq<File>)
    requires Ids(FileId, files) == Select(log, Files)
    ensures NoDuplicates(CommonOf(log, files))
  {
    forall kind
      ensures Distinct(CommonIds(CommonOf(log, files), kind))
    {
      CommonIdsRepeat(log, files, kind);
      RepeatedMembers(Select(log, kind));
    }
  }

  /** Exactly the values that are logged more than once get an anchor. */
  lemma AnchorIffRepeated(log: seq<Shareable>, files: seq<File>, id: Shareable)
    requires Ids(FileId, files) == Select(log, Files)
    ensures id in SetAnchors(CommonOf(log, files)) <==> Occurrences(log, id) > 1
  {
    AnchorIsOfKind(CommonOf(log, files), id);
    CommonIdsRepeat(log, files, KindOf(id));
    RepeatedMembers(Select(log, KindOf(id)));
    SelectCounts(log, id);
  }
}
