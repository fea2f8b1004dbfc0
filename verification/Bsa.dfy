/** Reading which files a BSA archive holds (src/archive/bsa.rs). */
module Bsa {
  import opened Wrappers
  import opened ArchiveAssets

  const HEADER_SIZE := 36
  const TYPE_ID_SIZE := 4
  const FILE_RECORD_SIZE := 16
  const FOLDER_RECORD_SIZE_V103 := 16
  const FOLDER_RECORD_SIZE_V105 := 24

  const U32_LIMIT := 0x1_0000_0000

  datatype BsaError =
    | IoError
    | InvalidRecordsOffset(offset: nat)
    | UnsupportedHeaderVersion(version: nat)
    | UsesBigEndianNumbers
    | DirectoryNamesNotIncluded
    | FileNamesNotIncluded
    | OffsetBelowBaseline
    | InvalidFolderNameLengthOffset(offset: nat)
    | InvalidFolderNameRange(start: nat, end: nat)

  // ---------- numbers ----------

  /** u32::from_le_bytes of the four bytes from position i on. */
  function U32At(b: Bytes, i: nat): nat
    requires i + 4 <= |b|
  {
    b[i] as int + 0x100 * b[i + 1] as int + 0x1_0000 * b[i + 2] as int + 0x100_0000 * b[i + 3] as int
  }

  function Digits(n: nat, k: nat): (b: Bytes)
    ensures |b| == k
  {
    if k == 0 then [] else [n % 0x100] + Digits(n / 0x100, k - 1)
  }

  function LittleEndian(n: nat): (b: Bytes)
    requires n < U32_LIMIT
    ensures |b| == 4
  {
    Digits(n, 4)
  }

  lemma DigitsAre(n: nat)
    ensures var n1, n2, n3 := n / 0x100, n / 0x100 / 0x100, n / 0x100 / 0x100 / 0x100;
            Digits(n, 4) == [n % 0x100, n1 % 0x100, n2 % 0x100, n3 % 0x100]
  {
    var n1, n2, n3 := n / 0x100, n / 0x100 / 0x100, n / 0x100 / 0x100 / 0x100;
    assert Digits(n3, 1) == [n3 % 0x100] + Digits(n3 / 0x100, 0);
    assert Digits(n2, 2) == [n2 % 0x100] + Digits(n3, 1);
    assert Digits(n1, 3) == [n1 % 0x100] + Digits(n2, 2);
  }

  /** The number is what is read back from where its bytes are. */
  lemma U32OfLittleEndian(b: Bytes, i: nat, n: nat)
    requires n < U32_LIMIT && i + 4 <= |b| && b[i..i + 4] == LittleEndian(n)
    ensures U32At(b, i) == n
  {
    DigitsAre(n);
    var s := b[i..i + 4];
    assert s[0] == b[i] && s[1] == b[i + 1] && s[2] == b[i + 2] && s[3] == b[i + 3];
  }

  predicate HasFlag(flags: nat, flag: nat)
    requires flag > 0
  {
    flags / flag % 2 == 1
  }

  // ---------- headers and records ----------

  datatype Header = Header(
    version: nat,
    recordsOffset: nat,
    archiveFlags: nat,
    folderCount: nat,
    totalFileCount: nat,
    totalFolderNamesLength: nat,
    totalFileNamesLength: nat,
    contentTypeFlags: nat)

  function ParseHeader(b: Bytes): Result<Header, BsaError>
    requires |b| == HEADER_SIZE - TYPE_ID_SIZE
  {
    var header := Header(U32At(b, 0), U32At(b, 4), U32At(b, 8), U32At(b, 12), U32At(b, 16), U32At(b, 20), U32At(b, 24),
                         U32At(b, 28));
    if header.recordsOffset != HEADER_SIZE then Err(InvalidRecordsOffset(header.recordsOffset)) else Ok(header)
  }

  datatype FolderRecord = FolderRecord(fileCount: nat, fileRecordsOffset: nat)

  /** The layout of folder records. The first is also that of version 104. */
  datatype Layout = V103 | V105

  function LayoutOf(version: nat): Option<Layout> {
    if version == 103 || version == 104 then Some(V103) else if version == 105 then Some(V105) else None
  }

  function RecordSize(layout: Layout): nat {
    if layout.V103? then FOLDER_RECORD_SIZE_V103 else FOLDER_RECORD_SIZE_V105
  }

  function RecordsSize(layout: Layout, count: nat): nat {
    if layout.V103? then FOLDER_RECORD_SIZE_V103 * count else FOLDER_RECORD_SIZE_V105 * count
  }

  /** A record holds a name hash, a file count and an offset. In the larger layout, padding follows each of the
      numbers. */
  function ReadFolderRecord(b: Bytes, i: nat, layout: Layout): FolderRecord
    requires i + RecordSize(layout) <= |b|
  {
    FolderRecord(U32At(b, i + 8), U32At(b, if layout.V103? then i + 12 else i + 16))
  }

  // ---------- paths ----------

  function TrimNullTerminator(path: Bytes): Bytes {
    if path != [] && path[|path| - 1] == 0 then path[..|path| - 1] else path
  }

  predicate IsSlash(b: Byte) {
    b == '\\' as int || b == '/' as int
  }

  function TrimStart(path: Bytes): Bytes {
    if path != [] && IsSlash(path[0]) then TrimStart(path[1..]) else path
  }

  function TrimEnd(path: Bytes): Bytes {
    if path != [] && IsSlash(path[|path| - 1]) then TrimEnd(path[..|path| - 1]) else path
  }

  method TrimSlashes(path: Bytes) returns (r: Bytes)
    ensures r == TrimEnd(TrimStart(path))
  {
    r := path;
    while r != [] && IsSlash(r[0])
      invariant TrimStart(r) == TrimStart(path)
      decreases |r|
    {
      r := r[1..];
    }
    while r != [] && IsSlash(r[|r| - 1])
      invariant TrimEnd(r) == TrimEnd(TrimStart(path))
      decreases |r|
    {
      r := r[..|r| - 1];
    }
  }

  function NormalisedByte(b: Byte): Byte {
    if b > 127 then b
    else if b == '/' as int then '\\' as int
    else if 'A' as int <= b <= 'Z' as int then b + 32
    else b
  }

  function Normalised(path: Bytes): Bytes {
    seq(|path|, i requires 0 <= i < |path| => NormalisedByte(path[i]))
  }

  method NormalisePath(path: array<Byte>)
    modifies path
    ensures path[..] == Normalised(old(path[..]))
  {
    for i := 0 to path.Length
      invariant forall j :: 0 <= j < i ==> path[j] == NormalisedByte(old(path[j]))
      invariant forall j :: i <= j < path.Length ==> path[j] == old(path[j])
    {
      if path[i] > 127 {
        continue;
      }
      path[i] := NormalisedByte(path[i]);
    }
  }

  function CleanPath(path: Bytes): Bytes {
    Normalised(TrimEnd(TrimStart(TrimNullTerminator(path))))
  }

  method TrimAndNormalise(path: Bytes) returns (r: Bytes)
    ensures r == CleanPath(path)
  {
    var trimmed := TrimSlashes(TrimNullTerminator(path));
    var buffer := new Byte[|trimmed|](i requires 0 <= i < |trimmed| => trimmed[i]);
    assert buffer[..] == trimmed;
    NormalisePath(buffer);
    r := buffer[..];
  }

  lemma {:induction false} TrimmedEnds(path: Bytes)
    ensures var r := TrimEnd(TrimStart(path)); r != [] ==> !IsSlash(r[0]) && !IsSlash(r[|r| - 1])
  {
    TrimStartShape(path);
    TrimEndShape(TrimStart(path));
  }

  lemma {:induction false} TrimStartShape(path: Bytes)
    ensures TrimStart(path) != [] ==> !IsSlash(TrimStart(path)[0])
  {
    if path != [] && IsSlash(path[0]) {
      TrimStartShape(path[1..]);
    }
  }

  lemma {:induction false} TrimEndShape(path: Bytes)
    ensures var r := TrimEnd(path); r <= path && (r != [] ==> !IsSlash(r[|r| - 1]))
  {
    if path != [] && IsSlash(path[|path| - 1]) {
      TrimEndShape(path[..|path| - 1]);
    }
  }

  /** Clean paths have no slash at either end, no forward slash and no upper-case letter. */
  lemma CleanPathShape(path: Bytes)
    ensures var r := CleanPath(path);
            && (r != [] ==> r[0] != '\\' as int && r[|r| - 1] != '\\' as int)
            && forall b :: b in r ==> b != '/' as int && !('A' as int <= b <= 'Z' as int)
  {
    TrimmedEnds(TrimNullTerminator(path));
  }

  lemma TrimNothing(path: Bytes)
    requires path != [] ==> !IsSlash(path[0]) && !IsSlash(path[|path| - 1])
    ensures TrimEnd(TrimStart(path)) == path
  {
  }

  lemma {:induction false} TrimShortens(path: Bytes)
    ensures |TrimStart(path)| <= |path| && |TrimEnd(path)| <= |path|
    decreases |path|
  {
    if path != [] {
      TrimShortens(path[1..]);
      TrimShortens(path[..|path| - 1]);
    }
  }

  lemma CleanPathLength(path: Bytes)
    ensures |CleanPath(path)| <= |TrimNullTerminator(path)|
  {
    TrimShortens(TrimNullTerminator(path));
    TrimShortens(TrimStart(TrimNullTerminator(path)));
  }

  /** Cleaning a clean path changes nothing if and only if it does not end in a null byte, as only one is removed. */
  lemma CleanPathIdempotent(path: Bytes)
    ensures var r := CleanPath(path); CleanPath(r) == r <==> r == [] || r[|r| - 1] != 0
  {
    var r := CleanPath(path);
    CleanPathShape(path);
    CleanPathLength(r);
    assert r != [] ==> r[0] in r && r[|r| - 1] in r;
    if r == [] || r[|r| - 1] != 0 {
      TrimNothing(r);
      forall i | 0 <= i < |r|
        ensures NormalisedByte(r[i]) == r[i]
      {
        assert r[i] in r;
      }
    }
  }

  predicate AllSlashes(s: Bytes) {
    forall b :: b in s ==> b == '\\' as int || b == '/' as int
  }

  lemma {:induction false} TrimStartParts(path: Bytes) returns (before: Bytes)
    ensures path == before + TrimStart(path) && AllSlashes(before)
  {
    before := [];
    if path != [] && IsSlash(path[0]) {
      before := TrimStartParts(path[1..]);
      before := [path[0]] + before;
    }
  }

  lemma {:induction false} TrimEndParts(path: Bytes) returns (after: Bytes)
    ensures path == TrimEnd(path) + after && AllSlashes(after)
  {
    after := [];
    if path != [] && IsSlash(path[|path| - 1]) {
      after := TrimEndParts(path[..|path| - 1]);
      after := after + [path[|path| - 1]];
    }
  }

  /** At most one null byte at the end and then all slashes at both ends are dropped. In what remains, forward slashes
      become backslashes and the 26 capitals of ASCII the letters 32 places on, and every other byte stays. */
  lemma CleanPathMeaning(path: Bytes) returns (before: Bytes, middle: Bytes, after: Bytes, terminator: Bytes)
    ensures path == before + middle + after + terminator && AllSlashes(before) && AllSlashes(after)
    ensures if path != [] && path[|path| - 1] == 0 then terminator == [0] else terminator == []
    ensures middle != [] ==> !AllSlashes([middle[0]]) && !AllSlashes([middle[|middle| - 1]])
    ensures |CleanPath(path)| == |middle|
    ensures forall i :: 0 <= i < |middle| ==>
              CleanPath(path)[i] == if middle[i] == 47 then 92 else if 65 <= middle[i] <= 90 then middle[i] + 32
                                                                    else middle[i]
  {
    var named := TrimNullTerminator(path);
    terminator := path[|named|..];
    before := TrimStartParts(named);
    after := TrimEndParts(TrimStart(named));
    middle := TrimEnd(TrimStart(named));
    TrimmedEnds(named);
    assert named == before + (middle + after) == before + middle + after;
    assert middle != [] ==> middle[0] in [middle[0]] && middle[|middle| - 1] in [middle[|middle| - 1]];
  }

  // ---------- folder and file names ----------

  function ReadFolderName(buffer: Bytes, offset: nat): Result<Bytes, BsaError> {
    if offset < |buffer| then
      var start, end := offset + 1, offset + 1 + buffer[offset];
      if end <= |buffer| then Ok(CleanPath(buffer[start..end])) else Err(InvalidFolderNameRange(start, end))
    else Err(InvalidFolderNameLengthOffset(offset))
  }

  datatype NamedFolder = NamedFolder(name: Bytes, fileCount: nat)

  function ReadFolder(record: FolderRecord, buffer: Bytes, baseline: nat): Result<NamedFolder, BsaError> {
    if record.fileRecordsOffset < baseline then Err(OffsetBelowBaseline)
    else match ReadFolderName(buffer, record.fileRecordsOffset - baseline)
         case Err(e) => Err(e)
         case Ok(name) => Ok(NamedFolder(name, record.fileCount))
  }

  function Prepend(folders: seq<NamedFolder>,
                   r: Result<seq<NamedFolder>, BsaError>): Result<seq<NamedFolder>, BsaError> {
    if r.Ok? then Ok(folders + r.value) else r
  }

  /** The folders that the records from position i on name, or the first failure. */
  function ReadFolders(records: Bytes, i: nat, layout: Layout, buffer: Bytes, baseline: nat): Result<seq<NamedFolder>,
                       BsaError>
    decreases |records| - i
  {
    if i + RecordSize(layout) > |records| then Ok([])
    else match ReadFolder(ReadFolderRecord(records, i, layout), buffer, baseline)
         case Err(e) => Err(e)
         case Ok(folder) => Prepend([folder], ReadFolders(records, i + RecordSize(layout), layout, buffer, baseline))
  }

  /** Each folder's name once for each of its files. */
  function RepeatedNames(folders: seq<NamedFolder>): seq<Bytes> {
    if folders == [] then [] else seq(folders[0].fileCount, _ => folders[0].name) + RepeatedNames(folders[1..])
  }

  /** The stretches between null bytes. */
  function SplitNulls(s: Bytes): (r: seq<Bytes>)
    ensures r != []
  {
    if s == [] then [[]]
    else
      var rest := SplitNulls(s[1..]);
      if s[0] == 0 then [[]] + rest else [[s[0]] + rest[0]] + rest[1..]
  }

  function AddFile(assets: Assets, folder: Bytes, file: Bytes): Assets {
    assets[folder := FilesIn(assets, folder) + {file}]
  }

  /** The files are added to the folders with the names at the same positions. */
  function AddFiles(assets: Assets, folderNames: seq<Bytes>, fileNames: seq<Bytes>): Assets
    decreases |folderNames|
  {
    if folderNames == [] || fileNames == [] then assets
    else AddFiles(AddFile(assets, folderNames[0], CleanPath(fileNames[0])), folderNames[1..], fileNames[1..])
  }

  // ---------- reading an archive ----------

  /** The bytes that reading exactly n of them gives, and what is left. */
  function ReadExact(data: Bytes, n: nat): Result<(Bytes, Bytes), BsaError> {
    if n <= |data| then Ok((data[..n], data[n..])) else Err(IoError)
  }

  function FileRecordsSize(header: Header): nat {
    header.folderCount + header.totalFolderNamesLength + header.totalFileCount * FILE_RECORD_SIZE
  }

  predicate FlagsAllow(flags: nat) {
    !HasFlag(flags, 0x40) && HasFlag(flags, 0x1) && HasFlag(flags, 0x2)
  }

  function CheckFlags(flags: nat): Option<BsaError> {
    if HasFlag(flags, 0x40) then Some(UsesBigEndianNumbers)
    else if !HasFlag(flags, 0x1) then Some(DirectoryNamesNotIncluded)
    else if !HasFlag(flags, 0x2) then Some(FileNamesNotIncluded)
    else None
  }

  datatype Sections = Sections(folders: Bytes, fileRecords: Bytes, fileNames: Bytes)

  function ReadSections(data: Bytes, folders: nat, fileRecords: nat, fileNames: nat): Result<Sections, BsaError> {
    var i, j := folders, folders + fileRecords;
    if j + fileNames <= |data| then Ok(Sections(data[..i], data[i..j], data[j..j + fileNames])) else Err(IoError)
  }

  /** What the tables of an archive mean depends on the layout of folder records and where their offsets count from. */
  datatype Tables = Tables(sections: Sections, layout: Layout, baseline: nat)

  function ReadTables(data: Bytes, header: Header, layout: Layout): Result<Tables, BsaError> {
    var error, n := CheckFlags(header.archiveFlags), RecordsSize(layout, header.folderCount);
    if error.Some? then Err(error.value)
    else match ReadSections(data, n, FileRecordsSize(header), header.totalFileNamesLength)
         case Err(e) => Err(e)
         case Ok(s) => Ok(Tables(s, layout, HEADER_SIZE + n + header.totalFileNamesLength))
  }

  /** The tables of what follows the type identifier of an archive. */
  function ParseTables(data: Bytes): Result<Tables, BsaError> {
    if |data| < HEADER_SIZE - TYPE_ID_SIZE then Err(IoError)
    else
      var header := ParseHeader(data[..HEADER_SIZE - TYPE_ID_SIZE]);
      if header.Err? then Err(header.error)
      else match LayoutOf(header.value.version)
           case None => Err(UnsupportedHeaderVersion(header.value.version))
           case Some(layout) => ReadTables(data[HEADER_SIZE - TYPE_ID_SIZE..], header.value, layout)
  }

  function AssetsOf(t: Tables): Result<Assets, BsaError> {
    match ReadFolders(t.sections.folders, 0, t.layout, t.sections.fileRecords, t.baseline)
    case Err(e) => Err(e)
    case Ok(folders) => Ok(AddFiles(map[], RepeatedNames(folders), SplitNulls(t.sections.fileNames)))
  }

  function Parse(data: Bytes): Result<Assets, BsaError> {
    match ParseTables(data) case Err(e) => Err(e) case Ok(tables) => AssetsOf(tables)
  }

  method ReadAssets(data: Bytes) returns (r: Result<Assets, BsaError>)
    ensures r == Parse(data)
  {
    var tables := ReadHeaderAndTables(data);
    if tables.Err? {
      return Err(tables.error);
    }
    r := AssetsFrom(tables.value);
  }

  method ReadHeaderAndTables(data: Bytes) returns (r: Result<Tables, BsaError>)
    ensures r == ParseTables(data)
  {
    var headerBuffer := ReadExact(data, HEADER_SIZE - TYPE_ID_SIZE);
    if headerBuffer.Err? {
      return Err(headerBuffer.error);
    }
    var header := ParseHeader(headerBuffer.value.0);
    if header.Err? {
      return Err(header.error);
    }
    var layout := LayoutOf(header.value.version);
    if layout.None? {
      return Err(UnsupportedHeaderVersion(header.value.version));
    }
    r := TablesOf(headerBuffer.value.1, header.value, layout.value);
  }

  method TablesOf(data: Bytes, header: Header, layout: Layout) returns (r: Result<Tables, BsaError>)
    ensures r == ReadTables(data, header, layout)
  {
    if HasFlag(header.archiveFlags, 0x40) {
      return Err(UsesBigEndianNumbers);
    }
    if !HasFlag(header.archiveFlags, 0x1) {
      return Err(DirectoryNamesNotIncluded);
    }
    if !HasFlag(header.archiveFlags, 0x2) {
      return Err(FileNamesNotIncluded);
    }
    var sections := SectionsOf(data, RecordsSize(layout, header.folderCount), FileRecordsSize(header),
                               header.totalFileNamesLength);
    if sections.Err? {
      return Err(sections.error);
    }
    r := Ok(Tables(sections.value, layout, HEADER_SIZE + |sections.value.folders| + header.totalFileNamesLength));
  }

  method SectionsOf(data: Bytes, folders: nat, fileRecords: nat, fileNames: nat) returns (r: Result<Sections, BsaError>)
    ensures r == ReadSections(data, folders, fileRecords, fileNames)
  {
    var foldersBuffer := ReadExact(data, folders);
    if foldersBuffer.Err? {
      return Err(foldersBuffer.error);
    }
    var fileRecordsBuffer := ReadExact(foldersBuffer.value.1, fileRecords);
    if fileRecordsBuffer.Err? {
      return Err(fileRecordsBuffer.error);
    }
    var fileNamesBuffer := ReadExact(fileRecordsBuffer.value.1, fileNames);
    if fileNamesBuffer.Err? {
      return Err(fileNamesBuffer.error);
    }
    SlicesOf(data, folders, fileRecords, fileNames);
    r := Ok(Sections(foldersBuffer.value.0, fileRecordsBuffer.value.0, fileNamesBuffer.value.0));
  }

  lemma SlicesOf(data: Bytes, a: nat, b: nat, c: nat)
    requires a + b + c <= |data|
    ensures data[a..][..b] == data[a..a + b]
    ensures data[a..][b..][..c] == data[a + b..a + b + c]
  {
  }

  lemma PrependMore(folders: seq<NamedFolder>, folder: NamedFolder, r: Result<seq<NamedFolder>, BsaError>)
    ensures Prepend(folders, Prepend([folder], r)) == Prepend(folders + [folder], r)
  {
    if r.Ok? {
      assert folders + ([folder] + r.value) == folders + [folder] + r.value;
    }
  }

  lemma PrependNothing(r: Result<seq<NamedFolder>, BsaError>)
    ensures Prepend([], r) == r
  {
    if r.Ok? {
      assert [] + r.value == r.value;
    }
  }

  method FoldersOf(t: Tables) returns (r: Result<seq<NamedFolder>, BsaError>)
    ensures r == ReadFolders(t.sections.folders, 0, t.layout, t.sections.fileRecords, t.baseline)
  {
    var records, buffer := t.sections.folders, t.sections.fileRecords;
    var folders: seq<NamedFolder>, i := [], 0;
    PrependNothing(ReadFolders(records, 0, t.layout, buffer, t.baseline));
    while i + RecordSize(t.layout) <= |records|
      invariant ReadFolders(records, 0, t.layout, buffer, t.baseline)
             == Prepend(folders, ReadFolders(records, i, t.layout, buffer, t.baseline))
      decreases |records| - i
    {
      var folderRecord := ReadFolderRecord(records, i, t.layout);
      var folder := ReadFolder(folderRecord, buffer, t.baseline);
      if folder.Err? {
        return Err(folder.error);
      }
      PrependMore(folders, folder.value, ReadFolders(records, i + RecordSize(t.layout), t.layout, buffer, t.baseline));
      folders := folders + [folder.value];
      i := i + RecordSize(t.layout);
    }
    assert folders + [] == folders;
    r := Ok(folders);
  }

  method AssetsFrom(t: Tables) returns (r: Result<Assets, BsaError>)
    ensures r == AssetsOf(t)
  {
    var folders := FoldersOf(t);
    if folders.Err? {
      return Err(folders.error);
    }
    var assets := Zip(RepeatedNames(folders.value), SplitNulls(t.sections.fileNames));
    r := Ok(assets);
  }

  method Zip(folderNames: seq<Bytes>, fileNames: seq<Bytes>) returns (assets: Assets)
    ensures assets == AddFiles(map[], folderNames, fileNames)
  {
    assets := map[];
    var i := 0;
    while i < |folderNames| && i < |fileNames|
      invariant i <= |folderNames| && i <= |fileNames|
      invariant AddFiles(assets, folderNames[i..], fileNames[i..]) == AddFiles(map[], folderNames, fileNames)
    {
      var fileName := TrimAndNormalise(fileNames[i]);
      assert folderNames[i..][1..] == folderNames[i + 1..] && fileNames[i..][1..] == fileNames[i + 1..];
      assets := AddFile(assets, folderNames[i], fileName);
      i := i + 1;
    }
  }
}
