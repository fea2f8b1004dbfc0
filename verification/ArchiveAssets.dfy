/** The assets of archives (src/archive/mod.rs and src/archive/parse.rs): folders with the files that they hold. */
module ArchiveAssets {
  import opened Wrappers
  import opened Sequences

  type Byte = x: int | 0 <= x < 256

  type Bytes = seq<Byte>

  type Assets = map<Bytes, set<Bytes>>

  // ---------- the order of folders ----------

  /** The order of byte strings, in which an ordered map lists its keys. */
  predicate Less(a: Bytes, b: Bytes) {
    b != [] && (a == [] || a[0] < b[0] || (a[0] == b[0] && Less(a[1..], b[1..])))
  }

  lemma {:induction false} LessIrreflexive(a: Bytes)
    ensures !Less(a, a)
  {
    if a != [] {
      LessIrreflexive(a[1..]);
    }
  }

  lemma {:induction false} LessTransitive(a: Bytes, b: Bytes, c: Bytes)
    requires Less(a, b) && Less(b, c)
    ensures Less(a, c)
  {
    if a != [] && a[0] == b[0] == c[0] {
      LessTransitive(a[1..], b[1..], c[1..]);
    }
  }

  lemma {:induction false} LessTotal(a: Bytes, b: Bytes)
    ensures Less(a, b) || a == b || Less(b, a)
  {
    if a != [] && b != [] && a[0] == b[0] {
      LessTotal(a[1..], b[1..]);
      assert a == [a[0]] + a[1..] && b == [b[0]] + b[1..];
    }
  }

  datatype Entry = Entry(folder: Bytes, files: set<Bytes>)

  ghost predicate Sorted(entries: seq<Entry>) {
    forall i, j :: 0 <= i < j < |entries| ==> Less(entries[i].folder, entries[j].folder)
  }

  function ToMap(entries: seq<Entry>): Assets {
    if entries == [] then map[] else ToMap(Front(entries))[Last(entries).folder := Last(entries).files]
  }

  /** The entries are those of the ordered map, in order. */
  ghost predicate Lists(entries: seq<Entry>, assets: Assets) {
    Sorted(entries) && ToMap(entries) == assets
  }

  lemma {:induction false} ToMapKeys(entries: seq<Entry>, folder: Bytes)
    ensures folder in ToMap(entries) <==> exists i :: 0 <= i < |entries| && entries[i].folder == folder
  {
    if entries != [] {
      ToMapKeys(Front(entries), folder);
      if i :| 0 <= i < |entries| && entries[i].folder == folder && folder != Last(entries).folder {
        assert Front(entries)[i].folder == folder;
      }
      if i :| 0 <= i < |Front(entries)| && Front(entries)[i].folder == folder {
        assert entries[i].folder == folder;
      }
    }
  }

  lemma {:induction false} ToMapAt(entries: seq<Entry>, i: nat)
    requires Sorted(entries) && i < |entries|
    ensures entries[i].folder in ToMap(entries) && ToMap(entries)[entries[i].folder] == entries[i].files
  {
    if i < |entries| - 1 {
      ToMapAt(Front(entries), i);
      LessIrreflexive(entries[i].folder);
      assert Less(entries[i].folder, entries[|entries| - 1].folder);
    }
  }

  /** Every map can be listed. */
  lemma {:induction false} ListingExists(assets: Assets) returns (entries: seq<Entry>)
    ensures Lists(entries, assets)
    decreases |assets|
  {
    if assets == map[] {
      entries := [];
    } else {
      var folder := GreatestExists(assets.Keys);
      var rest := assets - {folder};
      assert assets.Keys == rest.Keys + {folder};
      var others := ListingExists(rest);
      entries := others + [Entry(folder, assets[folder])];
      AppendedIs(others, Entry(folder, assets[folder]));
      forall i | 0 <= i < |others|
        ensures Less(others[i].folder, folder)
      {
        ToMapKeys(others, others[i].folder);
      }
      assert rest[folder := assets[folder]] == assets;
    }
  }

  lemma {:induction false} GreatestExists(folders: set<Bytes>) returns (greatest: Bytes)
    requires folders != {}
    ensures greatest in folders && forall f :: f in folders && f != greatest ==> Less(f, greatest)
  {
    var f :| f in folders;
    if folders == {f} {
      greatest := f;
    } else {
      var g := GreatestExists(folders - {f});
      LessTotal(f, g);
      greatest := if Less(f, g) then g else f;
      forall h | h in folders && h != greatest
        ensures Less(h, greatest)
      {
        if h != f && h != g && Less(g, f) {
          LessTransitive(h, g, f);
        }
      }
    }
  }

  // ---------- overlapping ----------

  /** Some folder in both holds a common file. */
  ghost predicate Overlap(a: Assets, b: Assets) {
    exists folder :: folder in a && folder in b && a[folder] * b[folder] != {}
  }

  predicate Clash(e: Entry, f: Entry) {
    e.folder == f.folder && e.files * f.files != {}
  }

  lemma OverlapIsClash(entries: seq<Entry>, others: seq<Entry>, a: Assets, b: Assets)
    requires Lists(entries, a) && Lists(others, b)
    ensures Overlap(a, b) <==> exists i, j :: 0 <= i < |entries| && 0 <= j < |others| && Clash(entries[i], others[j])
  {
    if i, j :| 0 <= i < |entries| && 0 <= j < |others| && Clash(entries[i], others[j]) {
      ToMapAt(entries, i);
      ToMapAt(others, j);
    }
    if Overlap(a, b) {
      var folder :| folder in a && folder in b && a[folder] * b[folder] != {};
      ToMapKeys(entries, folder);
      ToMapKeys(others, folder);
      var i :| 0 <= i < |entries| && entries[i].folder == folder;
      var j :| 0 <= j < |others| && others[j].folder == folder;
      ToMapAt(entries, i);
      ToMapAt(others, j);
      assert Clash(entries[i], others[j]);
    }
  }

  lemma SmallerMeetsNoLater(others: seq<Entry>, j: nat, folder: Bytes)
    requires Sorted(others) && j < |others| && Less(folder, others[j].folder)
    ensures forall k :: j <= k < |others| ==> others[k].folder != folder
  {
    forall k | j <= k < |others|
      ensures others[k].folder != folder
    {
      LessIrreflexive(folder);
      if k > j {
        LessTransitive(folder, others[j].folder, others[k].folder);
      }
    }
  }

  method DoAssetsOverlap(entries: seq<Entry>, others: seq<Entry>, ghost a: Assets, ghost b: Assets) returns (r: bool)
    requires Lists(entries, a) && Lists(others, b)
    ensures r <==> Overlap(a, b)
  {
    OverlapIsClash(entries, others, a, b);
    var i, j := 0, 0;
    while i < |entries| && j < |others|
      invariant 0 <= i <= |entries| && 0 <= j <= |others|
      invariant forall k, l :: 0 <= k < |entries| && 0 <= l < |others| && (k < i || l < j) ==>
                  !Clash(entries[k], others[l])
      decreases |entries| - i + |others| - j
    {
      var folder, otherFolder := entries[i].folder, others[j].folder;
      if Less(folder, otherFolder) {
        SmallerMeetsNoLater(others, j, folder);
        i := i + 1;
      } else if Less(otherFolder, folder) {
        SmallerMeetsNoLater(entries, i, otherFolder);
        j := j + 1;
      } else if entries[i].files * others[j].files != {} {
        LessTotal(folder, otherFolder);
        assert Clash(entries[i], others[j]);
        return true;
      } else {
        LessTotal(folder, otherFolder);
        if j + 1 < |others| {
          SmallerMeetsNoLater(others, j + 1, folder);
        }
        i := i + 1;
      }
    }
    return false;
  }

  lemma OverlapSymmetric(a: Assets, b: Assets)
    ensures Overlap(a, b) <==> Overlap(b, a)
  {
    if folder :| folder in a && folder in b && a[folder] * b[folder] != {} {
      assert b[folder] * a[folder] == a[folder] * b[folder];
    }
    if folder :| folder in b && folder in a && b[folder] * a[folder] != {} {
      assert a[folder] * b[folder] == b[folder] * a[folder];
    }
  }

  // ---------- the assets of several archives ----------

  function FilesIn(a: Assets, folder: Bytes): set<Bytes> {
    if folder in a then a[folder] else {}
  }

  function Union(a: Assets, b: Assets): (r: Assets)
    ensures forall folder :: FilesIn(r, folder) == FilesIn(a, folder) + FilesIn(b, folder)
  {
    map folder | folder in a.Keys + b.Keys :: FilesIn(a, folder) + FilesIn(b, folder)
  }

  /** Archives that cannot be read are left out. */
  function UnionAll(archives: seq<Option<Assets>>): Assets {
    if archives == [] then map[]
    else
      var others, archive := UnionAll(Front(archives)), Last(archives);
      if archive.Some? then Union(others, archive.value) else others
  }

  lemma OverlapByFiles(a: Assets, b: Assets)
    ensures Overlap(a, b) <==> exists folder :: FilesIn(a, folder) * FilesIn(b, folder) != {}
  {
    if folder :| FilesIn(a, folder) * FilesIn(b, folder) != {} {
      assert folder in a && folder in b && a[folder] * b[folder] != {};
    }
    if folder :| folder in a && folder in b && a[folder] * b[folder] != {} {
      assert FilesIn(a, folder) * FilesIn(b, folder) != {};
    }
  }

  lemma Distributes<T>(a: set<T>, b: set<T>, c: set<T>)
    ensures (a + b) * c != {} <==> a * c != {} || b * c != {}
  {
    assert (a + b) * c == a * c + b * c;
  }

  lemma OverlapDistributes(a: Assets, b: Assets, c: Assets)
    ensures Overlap(Union(a, b), c) <==> Overlap(a, c) || Overlap(b, c)
  {
    OverlapByFiles(Union(a, b), c);
    OverlapByFiles(a, c);
    OverlapByFiles(b, c);
    forall folder
      ensures FilesIn(Union(a, b), folder) * FilesIn(c, folder) != {}
         <==> FilesIn(a, folder) * FilesIn(c, folder) != {} || FilesIn(b, folder) * FilesIn(c, folder) != {}
    {
      assert FilesIn(Union(a, b), folder) == FilesIn(a, folder) + FilesIn(b, folder);
      Distributes(FilesIn(a, folder), FilesIn(b, folder), FilesIn(c, folder));
    }
  }

  /** The assets loaded from several archives overlap with others exactly if those of one of the archives do. */
  lemma {:induction false} OverlapOfArchives(archives: seq<Option<Assets>>, c: Assets)
    ensures Overlap(UnionAll(archives), c)
       <==> exists i :: 0 <= i < |archives| && archives[i].Some? && Overlap(archives[i].value, c)
  {
    if archives != [] {
      var front, last := Front(archives), Last(archives);
      OverlapOfArchives(front, c);
      if last.Some? {
        OverlapDistributes(UnionAll(front), last.value, c);
      }
      assert forall i :: 0 <= i < |front| ==> front[i] == archives[i];
    }
  }

  method AssetsInArchives(archives: seq<Option<seq<Entry>>>, ghost maps: seq<Option<Assets>>) returns (r: Assets)
    requires |archives| == |maps|
    requires forall i :: 0 <= i < |archives| ==> archives[i].Some? == maps[i].Some?
    requires forall i :: 0 <= i < |archives| && archives[i].Some? ==> Lists(archives[i].value, maps[i].value)
    ensures r == UnionAll(maps)
  {
    r := map[];
    for i := 0 to |archives|
      invariant r == UnionAll(maps[..i])
    {
      assert maps[..i + 1][..i] == maps[..i];
      if archives[i].Some? {
        r := Append(r, archives[i].value, maps[i].value);
      }
    }
    assert maps[..|maps|] == maps;
  }

  method Append(assets: Assets, entries: seq<Entry>, ghost archive: Assets) returns (r: Assets)
    requires Lists(entries, archive)
    ensures r == Union(assets, archive)
  {
    r := assets;
    UnionOfNothing(assets);
    for k := 0 to |entries|
      invariant r == Union(assets, ToMap(entries[..k]))
    {
      PrefixGrows(entries, k);
      NotListedBefore(entries, k);
      var e := entries[k];
      UnionGrows(assets, ToMap(entries[..k]), e);
      r := r[e.folder := FilesIn(r, e.folder) + e.files];
    }
    assert entries[..|entries|] == entries;
  }

  lemma UnionGrows(a: Assets, b: Assets, e: Entry)
    requires e.folder !in b
    ensures Union(a, b[e.folder := e.files]) == Union(a, b)[e.folder := FilesIn(Union(a, b), e.folder) + e.files]
  {
    var after, grown := Union(a, b[e.folder := e.files]),
        Union(a, b)[e.folder := FilesIn(Union(a, b), e.folder) + e.files];
    assert after.Keys == grown.Keys;
    forall folder | folder in after
      ensures after[folder] == grown[folder]
    {
      UnionAt(a, b[e.folder := e.files], folder);
      if folder != e.folder {
        UnionAt(a, b, folder);
      }
    }
  }

  lemma UnionAt(a: Assets, b: Assets, folder: Bytes)
    requires folder in Union(a, b)
    ensures Union(a, b)[folder] == FilesIn(a, folder) + FilesIn(b, folder)
  {
  }

  lemma UnionOfNothing(a: Assets)
    ensures Union(a, map[]) == a
  {
    assert Union(a, map[]).Keys == a.Keys;
    forall folder | folder in a
      ensures Union(a, map[])[folder] == a[folder]
    {
      assert Union(a, map[])[folder] == FilesIn(a, folder) + FilesIn(map[], folder);
    }
  }

  lemma NotListedBefore(entries: seq<Entry>, k: nat)
    requires Sorted(entries) && k < |entries|
    ensures entries[k].folder !in ToMap(entries[..k])
  {
    ToMapKeys(entries[..k], entries[k].folder);
    forall i | 0 <= i < k
      ensures entries[..k][i].folder != entries[k].folder
    {
      LessIrreflexive(entries[i].folder);
    }
  }
}
