/** What a BSA archive looks like, and that reading one gives what was written. */
module BsaWriter {
  import opened Wrappers
  import opened Sequences
  import opened ArchiveAssets
  import opened Bsa

  // ---------- the layout ----------

  datatype Folder = Folder(name: Bytes, files: seq<Bytes>)

  /** A folder as it is stored: its record, and its block, which holds its name and the records of its files. */
  datatype Image = Image(folder: Folder, record: Bytes, block: Bytes)

  datatype Archive = Archive(version: nat, flags: nat, contentTypeFlags: nat, images: seq<Image>, fileData: Bytes)

  function OffsetPosition(layout: Layout): nat {
    if layout.V103? then 12 else 16
  }

  predicate ValidRecord(record: Bytes, layout: Layout, count: nat, offset: nat) {
    |record| == RecordSize(layout) && U32At(record, 8) == count && U32At(record, OffsetPosition(layout)) == offset
  }

  /** A block starts with the length of the name, which includes its null terminator. */
  predicate ValidBlock(block: Bytes, f: Folder) {
    && |block| == 2 + |f.name| + FILE_RECORD_SIZE * |f.files|
    && block[0] == |f.name| + 1 && block[1..1 + |f.name|] == f.name && block[1 + |f.name|] == 0
  }

  predicate NoNulls(names: seq<Bytes>) {
    names == [] || (0 !in names[0] && NoNulls(names[1..]))
  }

  /** The first block has the given offset, and the others follow it. */
  predicate ValidImages(images: seq<Image>, layout: Layout, offset: nat) {
    images == []
    || (&& ValidRecord(images[0].record, layout, |images[0].folder.files|, offset)
        && ValidBlock(images[0].block, images[0].folder)
        && NoNulls(images[0].folder.files)
        && ValidImages(images[1..], layout, offset + |images[0].block|))
  }

  function Records(images: seq<Image>): Bytes {
    if images == [] then [] else images[0].record + Records(images[1..])
  }

  function Blocks(images: seq<Image>): Bytes {
    if images == [] then [] else images[0].block + Blocks(images[1..])
  }

  function NullTerminated(names: seq<Bytes>): Bytes {
    if names == [] then [] else names[0] + [0] + NullTerminated(names[1..])
  }

  function FileNames(images: seq<Image>): Bytes {
    if images == [] then [] else NullTerminated(images[0].folder.files) + FileNames(images[1..])
  }

  function FolderNamesLength(images: seq<Image>): nat {
    if images == [] then 0 else |images[0].folder.name| + 1 + FolderNamesLength(images[1..])
  }

  function FileCount(images: seq<Image>): nat {
    if images == [] then 0 else |images[0].folder.files| + FileCount(images[1..])
  }

  lemma {:induction false} BlocksLength(images: seq<Image>, layout: Layout, offset: nat)
    requires ValidImages(images, layout, offset)
    ensures |Blocks(images)| == |images| + FolderNamesLength(images) + FILE_RECORD_SIZE * FileCount(images)
  {
    if images != [] {
      BlocksLength(images[1..], layout, offset + |images[0].block|);
    }
  }

  lemma {:induction false} RecordsLength(images: seq<Image>, layout: Layout, offset: nat)
    requires ValidImages(images, layout, offset)
    ensures |Records(images)| == RecordsSize(layout, |images|)
  {
    if images != [] {
      RecordsLength(images[1..], layout, offset + |images[0].block|);
    }
  }

  function HeaderBytes(h: Header): (b: Bytes)
    requires h.version < U32_LIMIT && h.recordsOffset < U32_LIMIT && h.archiveFlags < U32_LIMIT
    requires h.folderCount < U32_LIMIT
    requires h.totalFileCount < U32_LIMIT && h.totalFolderNamesLength < U32_LIMIT && h.totalFileNamesLength < U32_LIMIT
    requires h.contentTypeFlags < U32_LIMIT
    ensures |b| == HEADER_SIZE - TYPE_ID_SIZE
  {
    LittleEndian(h.version) + LittleEndian(h.recordsOffset) + LittleEndian(h.archiveFlags)
    + LittleEndian(h.folderCount)
    + LittleEndian(h.totalFileCount) + LittleEndian(h.totalFolderNamesLength) + LittleEndian(h.totalFileNamesLength)
    + LittleEndian(h.contentTypeFlags)
  }

  function HeaderOf(a: Archive): Header {
    Header(a.version, HEADER_SIZE, a.flags, |a.images|, FileCount(a.images), FolderNamesLength(a.images),
           |FileNames(a.images)|, a.contentTypeFlags)
  }

  /** Offsets are counted as if the file names came before the blocks. */
  function FirstOffset(a: Archive, layout: Layout): nat {
    HEADER_SIZE + RecordsSize(layout, |a.images|) + |FileNames(a.images)|
  }

  /** The tables are no larger than offsets can express. */
  predicate ValidArchive(a: Archive) {
    && LayoutOf(a.version).Some? && FlagsAllow(a.flags) && a.flags < U32_LIMIT && a.contentTypeFlags < U32_LIMIT
    && ValidImages(a.images, LayoutOf(a.version).value, FirstOffset(a, LayoutOf(a.version).value))
    && FirstOffset(a, LayoutOf(a.version).value) + |Blocks(a.images)| < U32_LIMIT
  }

  /** What follows the type identifier. */
  function Write(a: Archive): Bytes
    requires ValidArchive(a)
  {
    var layout := LayoutOf(a.version).value;
    BlocksLength(a.images, layout, FirstOffset(a, layout));
    HeaderBytes(HeaderOf(a)) + (Records(a.images) + (Blocks(a.images) + (FileNames(a.images) + a.fileData)))
  }

  // ---------- reading the header ----------

  lemma HeaderReadsBack(h: Header)
    requires h.version < U32_LIMIT && h.recordsOffset == HEADER_SIZE && h.archiveFlags < U32_LIMIT
    requires h.folderCount < U32_LIMIT
    requires h.totalFileCount < U32_LIMIT && h.totalFolderNamesLength < U32_LIMIT && h.totalFileNamesLength < U32_LIMIT
    requires h.contentTypeFlags < U32_LIMIT
    ensures ParseHeader(HeaderBytes(h)) == Ok(h)
  {
    var b := HeaderBytes(h);
    assert b[0..4] == LittleEndian(h.version);
    U32OfLittleEndian(b, 0, h.version);
    assert b[4..8] == LittleEndian(h.recordsOffset);
    U32OfLittleEndian(b, 4, h.recordsOffset);
    assert b[8..12] == LittleEndian(h.archiveFlags);
    U32OfLittleEndian(b, 8, h.archiveFlags);
    assert b[12..16] == LittleEndian(h.folderCount);
    U32OfLittleEndian(b, 12, h.folderCount);
    assert b[16..20] == LittleEndian(h.totalFileCount);
    U32OfLittleEndian(b, 16, h.totalFileCount);
    assert b[20..24] == LittleEndian(h.totalFolderNamesLength);
    U32OfLittleEndian(b, 20, h.totalFolderNamesLength);
    assert b[24..28] == LittleEndian(h.totalFileNamesLength);
    U32OfLittleEndian(b, 24, h.totalFileNamesLength);
    assert b[28..32] == LittleEndian(h.contentTypeFlags);
    U32OfLittleEndian(b, 28, h.contentTypeFlags);
  }

  // ---------- reading the folders ----------

  /** A name is stored with a null terminator, which is not part of it. */
  function CleanName(name: Bytes): Bytes {
    Normalised(TrimEnd(TrimStart(name)))
  }

  lemma RecordReadsBack(records: Bytes, i: nat, record: Bytes, more: Bytes, layout: Layout, count: nat, offset: nat)
    requires ValidRecord(record, layout, count, offset) && i <= |records| && records[i..] == record + more
    ensures i + RecordSize(layout) <= |records| && ReadFolderRecord(records, i, layout) == FolderRecord(count, offset)
    ensures records[i + RecordSize(layout)..] == more
  {
    assert forall j :: 0 <= j < |record| ==> records[i + j] == records[i..][j] == record[j];
    assert records[i + |record|..] == records[i..][|record|..];
  }

  lemma NameReadsBack(buffer: Bytes, n: nat, block: Bytes, more: Bytes, f: Folder)
    requires ValidBlock(block, f) && n <= |buffer| && buffer[n..] == block + more
    ensures ReadFolderName(buffer, n) == Ok(CleanName(f.name))
    ensures n + |block| <= |buffer| && buffer[n + |block|..] == more
  {
    assert forall j :: 0 <= j < |block| ==> buffer[n + j] == buffer[n..][j] == block[j];
    assert buffer[n + |block|..] == buffer[n..][|block|..];
    StoredName(buffer, n, block, f);
  }

  lemma StoredName(buffer: Bytes, n: nat, block: Bytes, f: Folder)
    requires ValidBlock(block, f) && n + |block| <= |buffer|
    requires forall j :: 0 <= j < |block| ==> buffer[n + j] == block[j]
    ensures ReadFolderName(buffer, n) == Ok(CleanName(f.name))
  {
    var length := |f.name| + 1;
    var stored := buffer[n + 1..n + 1 + length];
    forall j | 0 <= j < length
      ensures stored[j] == (f.name + [0])[j]
    {
      assert stored[j] == buffer[n + (1 + j)] == block[1 + j];
      assert j < |f.name| ==> block[1 + j] == block[1..1 + |f.name|][j];
    }
    assert stored == f.name + [0];
    assert (f.name + [0])[..|f.name|] == f.name;
    assert buffer[n + 0] == block[0];
  }

  function Named(images: seq<Image>): seq<NamedFolder> {
    if images == [] then []
    else [NamedFolder(CleanName(images[0].folder.name), |images[0].folder.files|)] + Named(images[1..])
  }

  /** The records from position i on name the folders, one after the other. */
  ghost predicate NameInOrder(images: seq<Image>, records: Bytes, i: nat, layout: Layout, buffer: Bytes, baseline: nat)
    decreases |images|
  {
    if images == [] then i == |records|
    else
      && i + RecordSize(layout) <= |records|
      && ReadFolder(ReadFolderRecord(records, i, layout), buffer, baseline)
         == Ok(NamedFolder(CleanName(images[0].folder.name), |images[0].folder.files|))
      && NameInOrder(images[1..], records, i + RecordSize(layout), layout, buffer, baseline)
  }

  /** Records from position i and blocks from position n, where the first block has the given offset. */
  ghost predicate LaidOut(images: seq<Image>, records: Bytes, i: nat, layout: Layout, offset: nat, buffer: Bytes,
                          n: nat, baseline: nat) {
    && ValidImages(images, layout, offset) && offset == baseline + n
    && i <= |records| && records[i..] == Records(images)
    && n <= |buffer| && buffer[n..] == Blocks(images)
  }

  /** The first record names the first folder, and the others are laid out after it. */
  lemma FirstReadsBack(images: seq<Image>, records: Bytes, i: nat, layout: Layout, offset: nat, buffer: Bytes, n: nat,
                       baseline: nat)
    returns (j: nat, offset': nat, n': nat)
    requires images != [] && LaidOut(images, records, i, layout, offset, buffer, n, baseline)
    ensures j == i + RecordSize(layout) <= |records|
    ensures ReadFolder(ReadFolderRecord(records, i, layout), buffer, baseline)
         == Ok(NamedFolder(CleanName(images[0].folder.name), |images[0].folder.files|))
    ensures LaidOut(images[1..], records, j, layout, offset', buffer, n', baseline)
  {
    RecordReadsBack(records, i, images[0].record, Records(images[1..]), layout, |images[0].folder.files|, offset);
    NameReadsBack(buffer, n, images[0].block, Blocks(images[1..]), images[0].folder);
    j, offset', n' := i + RecordSize(layout), offset + |images[0].block|, n + |images[0].block|;
  }

  lemma {:induction false} ImagesNameInOrder(images: seq<Image>, records: Bytes, i: nat, layout: Layout, offset: nat,
                                             buffer: Bytes, n: nat, baseline: nat)
    requires LaidOut(images, records, i, layout, offset, buffer, n, baseline)
    ensures NameInOrder(images, records, i, layout, buffer, baseline)
    decreases |images|
  {
    if images != [] {
      var j, offset', n' := FirstReadsBack(images, records, i, layout, offset, buffer, n, baseline);
      ImagesNameInOrder(images[1..], records, j, layout, offset', buffer, n', baseline);
    }
  }

  lemma {:induction false} FoldersReadBack(images: seq<Image>, records: Bytes, i: nat, layout: Layout, buffer: Bytes,
                                           baseline: nat)
    requires NameInOrder(images, records, i, layout, buffer, baseline)
    ensures ReadFolders(records, i, layout, buffer, baseline) == Ok(Named(images))
    decreases |images|
  {
    if images != [] {
      var next: nat := i + RecordSize(layout);
      FoldersReadBack(images[1..], records, next, layout, buffer, baseline);
      FirstFolderRead(images, records, i, layout, buffer, baseline, next);
    }
  }

  lemma FirstFolderRead(images: seq<Image>, records: Bytes, i: nat, layout: Layout, buffer: Bytes, baseline: nat,
                        next: nat)
    requires images != [] && next == i + RecordSize(layout) <= |records|
    requires ReadFolder(ReadFolderRecord(records, i, layout), buffer, baseline)
          == Ok(NamedFolder(CleanName(images[0].folder.name), |images[0].folder.files|))
    requires ReadFolders(records, next, layout, buffer, baseline) == Ok(Named(images[1..]))
    ensures ReadFolders(records, i, layout, buffer, baseline) == Ok(Named(images))
  {
  }

  // ---------- reading the file names ----------

  function AllNames(images: seq<Image>): seq<Bytes> {
    if images == [] then [] else images[0].folder.files + AllNames(images[1..])
  }

  lemma {:induction false} SplitAtNull(name: Bytes, rest: Bytes)
    requires 0 !in name
    ensures SplitNulls(name + [0] + rest) == [name] + SplitNulls(rest)
  {
    var s := name + [0] + rest;
    if name == [] {
      assert s[1..] == rest;
    } else {
      assert s[1..] == name[1..] + [0] + rest && s[0] == name[0] && name[0] in name;
      SplitAtNull(name[1..], rest);
      assert [name[0]] + name[1..] == name;
    }
  }

  lemma {:induction false} SplitFiles(names: seq<Bytes>, rest: Bytes)
    requires NoNulls(names)
    ensures SplitNulls(NullTerminated(names) + rest) == names + SplitNulls(rest)
  {
    if names == [] {
      assert NullTerminated(names) + rest == rest;
    } else {
      var more := NullTerminated(names[1..]);
      SplitFiles(names[1..], rest);
      SplitAtNull(names[0], more + rest);
      Regroup(names[0] + [0], more, rest);
      Regroup([names[0]], names[1..], SplitNulls(rest));
      assert names == [names[0]] + names[1..];
    }
  }

  lemma {:induction false} FileNamesSplit(images: seq<Image>, layout: Layout, offset: nat)
    requires ValidImages(images, layout, offset)
    ensures SplitNulls(FileNames(images)) == AllNames(images) + [[]]
  {
    if images != [] {
      FileNamesSplit(images[1..], layout, offset + |images[0].block|);
      SplitFiles(images[0].folder.files, FileNames(images[1..]));
      Regroup(images[0].folder.files, AllNames(images[1..]), [[]]);
    }
  }

  // ---------- the files of the folders ----------

  /** The folders and files of an assets map. */
  function Pairs(assets: Assets): set<(Bytes, Bytes)> {
    set folder, file | folder in assets && file in assets[folder] :: (folder, file)
  }

  function FilePairs(folder: Bytes, names: seq<Bytes>): set<(Bytes, Bytes)> {
    if names == [] then {} else {(folder, CleanPath(names[0]))} + FilePairs(folder, names[1..])
  }

  /** The folders and files that were written, with clean names. */
  function Written(images: seq<Image>): set<(Bytes, Bytes)> {
    if images == [] then {}
    else FilePairs(CleanName(images[0].folder.name), images[0].folder.files) + Written(images[1..])
  }

  predicate NoEmptyFolder(assets: Assets) {
    forall folder :: folder in assets ==> assets[folder] != {}
  }

  lemma AddFilePairs(assets: Assets, folder: Bytes, file: Bytes)
    ensures Pairs(AddFile(assets, folder, file)) == Pairs(assets) + {(folder, file)}
    ensures NoEmptyFolder(assets) ==> NoEmptyFolder(AddFile(assets, folder, file))
  {
    var r := AddFile(assets, folder, file);
    forall p: (Bytes, Bytes)
      ensures p in Pairs(r) <==> p in Pairs(assets) || p == (folder, file)
    {
      assert p.0 != folder ==> (p.0 in r <==> p.0 in assets);
    }
    assert file in r[folder];
  }

  lemma {:induction false} AddFolder(assets: Assets, folder: Bytes, files: seq<Bytes>, names: seq<Bytes>,
                                     rest: seq<Bytes>)
    returns (added: Assets)
    ensures AddFiles(assets, seq(|files|, _ => folder) + names, files + rest) == AddFiles(added, names, rest)
    ensures Pairs(added) == Pairs(assets) + FilePairs(folder, files)
    ensures NoEmptyFolder(assets) ==> NoEmptyFolder(added)
    decreases |files|
  {
    var allNames, allFiles := seq(|files|, _ => folder) + names, files + rest;
    if files == [] {
      added := assets;
      assert allNames == names && allFiles == rest;
    } else {
      var first := AddFile(assets, folder, CleanPath(files[0]));
      AddFilePairs(assets, folder, CleanPath(files[0]));
      assert allNames[1..] == seq(|files[1..]|, _ => folder) + names && allFiles[1..] == files[1..] + rest;
      added := AddFolder(first, folder, files[1..], names, rest);
    }
  }

  lemma {:induction false} AddFolders(assets: Assets, images: seq<Image>)
    ensures var r := AddFiles(assets, RepeatedNames(Named(images)), AllNames(images) + [[]]);
            Pairs(r) == Pairs(assets) + Written(images) && (NoEmptyFolder(assets) ==> NoEmptyFolder(r))
    decreases |images|
  {
    if images != [] {
      var f, rest := images[0].folder, images[1..];
      assert Named(images)[1..] == Named(rest);
      var added := AddFolder(assets, CleanName(f.name), f.files, RepeatedNames(Named(rest)), AllNames(rest) + [[]]);
      Regroup(f.files, AllNames(rest), [[]]);
      AddFolders(added, rest);
    }
  }

  ghost predicate HasFile(folder: Folder, p: (Bytes, Bytes)) {
    CleanName(folder.name) == p.0 && exists name :: name in folder.files && CleanPath(name) == p.1
  }

  lemma {:induction false} FilePairsMeaning(folder: Bytes, names: seq<Bytes>, p: (Bytes, Bytes))
    ensures p in FilePairs(folder, names) <==> p.0 == folder && exists name :: name in names && CleanPath(name) == p.1
  {
    if names != [] {
      FilePairsMeaning(folder, names[1..], p);
      assert names == [names[0]] + names[1..];
    }
  }

  /** A file is among them exactly if it is in one of the folders. */
  lemma {:induction false} WrittenMeaning(images: seq<Image>, p: (Bytes, Bytes))
    ensures p in Written(images) <==> exists image :: image in images && HasFile(image.folder, p)
  {
    if images != [] {
      WrittenMeaning(images[1..], p);
      FilePairsMeaning(CleanName(images[0].folder.name), images[0].folder.files, p);
      assert p in FilePairs(CleanName(images[0].folder.name), images[0].folder.files) <==> HasFile(images[0].folder, p);
      assert forall image :: image in images <==> image == images[0] || image in images[1..];
    }
  }

  // ---------- the round trip ----------

  ghost predicate HasExactly(r: Result<Assets, BsaError>, written: set<(Bytes, Bytes)>) {
    r.Ok? && Pairs(r.value) == written && NoEmptyFolder(r.value)
  }

  function TablesIn(a: Archive): Tables
    requires ValidArchive(a)
  {
    var layout := LayoutOf(a.version).value;
    Tables(Sections(Records(a.images), Blocks(a.images), FileNames(a.images)), layout, FirstOffset(a, layout))
  }

  lemma SectionsReadBack(s: Sections, fileData: Bytes)
    ensures ReadSections(s.folders + (s.fileRecords + (s.fileNames + fileData)),
                         |s.folders|, |s.fileRecords|, |s.fileNames|) == Ok(s)
  {
    var data := s.folders + (s.fileRecords + (s.fileNames + fileData));
    var i, j := |s.folders|, |s.folders| + |s.fileRecords|;
    assert data[..i] == s.folders && data[i..j] == s.fileRecords && data[j..j + |s.fileNames|] == s.fileNames;
  }

  /** The header's fields fit in 32 bits and describe the sections. */
  ghost predicate Describes(header: Header, layout: Layout, s: Sections) {
    && LayoutOf(header.version) == Some(layout) && header.recordsOffset == HEADER_SIZE
    && FlagsAllow(header.archiveFlags) && header.archiveFlags < U32_LIMIT && header.contentTypeFlags < U32_LIMIT
    && header.folderCount < U32_LIMIT && header.totalFileCount < U32_LIMIT
    && header.totalFolderNamesLength < U32_LIMIT && header.totalFileNamesLength < U32_LIMIT
    && |s.folders| == RecordsSize(layout, header.folderCount) && |s.fileRecords| == FileRecordsSize(header)
    && |s.fileNames| == header.totalFileNamesLength
  }

  lemma HeaderDescribes(a: Archive)
    requires ValidArchive(a)
    ensures Describes(HeaderOf(a), TablesIn(a).layout, TablesIn(a).sections)
  {
    var t := TablesIn(a);
    BlocksLength(a.images, t.layout, t.baseline);
    RecordsLength(a.images, t.layout, t.baseline);
  }

  lemma HeaderFirst(headerBytes: Bytes, body: Bytes, header: Header, layout: Layout)
    requires |headerBytes| == HEADER_SIZE - TYPE_ID_SIZE && ParseHeader(headerBytes) == Ok(header)
    requires LayoutOf(header.version) == Some(layout)
    ensures ParseTables(headerBytes + body) == ReadTables(body, header, layout)
  {
    var data := headerBytes + body;
    assert data[..|headerBytes|] == headerBytes && data[|headerBytes|..] == body;
  }

  lemma BodyReadsBack(header: Header, layout: Layout, s: Sections, fileData: Bytes)
    requires Describes(header, layout, s)
    ensures ReadTables(s.folders + (s.fileRecords + (s.fileNames + fileData)), header, layout)
         == Ok(Tables(s, layout, HEADER_SIZE + |s.folders| + |s.fileNames|))
  {
    SectionsReadBack(s, fileData);
  }

  lemma TablesAfterHeader(header: Header, layout: Layout, s: Sections, fileData: Bytes)
    requires Describes(header, layout, s)
    ensures ParseTables(HeaderBytes(header) + (s.folders + (s.fileRecords + (s.fileNames + fileData))))
         == Ok(Tables(s, layout, HEADER_SIZE + |s.folders| + |s.fileNames|))
  {
    HeaderReadsBack(header);
    HeaderFirst(HeaderBytes(header), s.folders + (s.fileRecords + (s.fileNames + fileData)), header, layout);
    BodyReadsBack(header, layout, s, fileData);
  }

  lemma BaselineIs(a: Archive)
    requires ValidArchive(a)
    ensures var t := TablesIn(a);
            t == Tables(t.sections, t.layout, HEADER_SIZE + |t.sections.folders| + |t.sections.fileNames|)
  {
    RecordsLength(a.images, TablesIn(a).layout, TablesIn(a).baseline);
  }

  lemma WriteIs(a: Archive)
    requires ValidArchive(a)
    ensures Describes(HeaderOf(a), TablesIn(a).layout, TablesIn(a).sections)
    ensures var s := TablesIn(a).sections;
            Write(a) == HeaderBytes(HeaderOf(a)) + (s.folders + (s.fileRecords + (s.fileNames + a.fileData)))
  {
    HeaderDescribes(a);
  }

  lemma TablesReadBack(a: Archive)
    requires ValidArchive(a)
    ensures ParseTables(Write(a)) == Ok(TablesIn(a))
  {
    WriteIs(a);
    BaselineIs(a);
    TablesAfterHeader(HeaderOf(a), TablesIn(a).layout, TablesIn(a).sections, a.fileData);
  }

  lemma FoldersReadBackFromStart(images: seq<Image>, layout: Layout, baseline: nat)
    requires ValidImages(images, layout, baseline)
    ensures ReadFolders(Records(images), 0, layout, Blocks(images), baseline) == Ok(Named(images))
  {
    var records, blocks := Records(images), Blocks(images);
    assert records[0..] == records && blocks[0..] == blocks;
    ImagesNameInOrder(images, records, 0, layout, baseline, blocks, 0, baseline);
    FoldersReadBack(images, records, 0, layout, blocks, baseline);
  }

  lemma AddFoldersToNothing(images: seq<Image>)
    ensures HasExactly(Ok(AddFiles(map[], RepeatedNames(Named(images)), AllNames(images) + [[]])), Written(images))
  {
    AddFolders(map[], images);
    assert Pairs(map[]) == {};
  }

  lemma AssetsFromParts(t: Tables, folders: seq<NamedFolder>, names: seq<Bytes>, written: set<(Bytes, Bytes)>)
    requires ReadFolders(t.sections.folders, 0, t.layout, t.sections.fileRecords, t.baseline) == Ok(folders)
    requires SplitNulls(t.sections.fileNames) == names
    requires HasExactly(Ok(AddFiles(map[], RepeatedNames(folders), names)), written)
    ensures HasExactly(AssetsOf(t), written)
  {
  }

  lemma AssetsReadBack(a: Archive)
    requires ValidArchive(a)
    ensures HasExactly(AssetsOf(TablesIn(a)), Written(a.images))
  {
    var t := TablesIn(a);
    FoldersReadBackFromStart(a.images, t.layout, t.baseline);
    FileNamesSplit(a.images, t.layout, t.baseline);
    AddFoldersToNothing(a.images);
    AssetsFromParts(t, Named(a.images), AllNames(a.images) + [[]], Written(a.images));
  }

  lemma ParseFromTables(data: Bytes, t: Tables, written: set<(Bytes, Bytes)>)
    requires ParseTables(data) == Ok(t) && HasExactly(AssetsOf(t), written)
    ensures HasExactly(Parse(data), written)
  {
  }

  /** Reading an archive gives exactly the files that were written, for all versions. */
  lemma ReadWrittenArchive(a: Archive)
    requires ValidArchive(a)
    ensures HasExactly(Parse(Write(a)), Written(a.images))
  {
    TablesReadBack(a);
    AssetsReadBack(a);
    ParseFromTables(Write(a), TablesIn(a), Written(a.images));
  }

  // ---------- every folder can be stored ----------

  function Zeros(n: nat): Bytes {
    seq(n, _ => 0)
  }

  function RecordFor(layout: Layout, count: nat, offset: nat): Bytes
    requires count < U32_LIMIT && offset < U32_LIMIT
  {
    if layout.V103? then Zeros(8) + LittleEndian(count) + LittleEndian(offset)
    else Zeros(8) + LittleEndian(count) + Zeros(4) + LittleEndian(offset) + Zeros(4)
  }

  lemma RecordForIsValid(layout: Layout, count: nat, offset: nat)
    requires count < U32_LIMIT && offset < U32_LIMIT
    ensures ValidRecord(RecordFor(layout, count, offset), layout, count, offset)
  {
    var r, at := RecordFor(layout, count, offset), OffsetPosition(layout);
    assert r[8..12] == LittleEndian(count) && r[at..at + 4] == LittleEndian(offset);
    U32OfLittleEndian(r, 8, count);
    U32OfLittleEndian(r, at, offset);
  }

  function BlockFor(f: Folder): Bytes
    requires |f.name| < 255
  {
    [|f.name| + 1] + f.name + [0] + Zeros(FILE_RECORD_SIZE * |f.files|)
  }

  lemma BlockForIsValid(f: Folder)
    requires |f.name| < 255
    ensures ValidBlock(BlockFor(f), f)
  {
  }

  predicate Storable(folders: seq<Folder>) {
    folders == [] || (|folders[0].name| < 255 && NoNulls(folders[0].files) && Storable(folders[1..]))
  }

  function StoredSize(folders: seq<Folder>): nat {
    if folders == [] then 0
    else 2 + |folders[0].name| + FILE_RECORD_SIZE * |folders[0].files| + StoredSize(folders[1..])
  }

  /** Any folders that are not too large can be laid out from any offset on. */
  lemma {:induction false} ImagesExist(folders: seq<Folder>, layout: Layout, offset: nat) returns (images: seq<Image>)
    requires Storable(folders) && offset + StoredSize(folders) < U32_LIMIT
    ensures ValidImages(images, layout, offset) && |Blocks(images)| == StoredSize(folders)
    ensures |images| == |folders| && forall i :: 0 <= i < |images| ==> images[i].folder == folders[i]
    decreases |folders|
  {
    if folders == [] {
      images := [];
    } else {
      var f := folders[0];
      RecordForIsValid(layout, |f.files|, offset);
      BlockForIsValid(f);
      var more := ImagesExist(folders[1..], layout, offset + |BlockFor(f)|);
      images := [Image(f, RecordFor(layout, |f.files|, offset), BlockFor(f))] + more;
      assert images[1..] == more;
    }
  }

  function NamesSize(folders: seq<Folder>): nat {
    if folders == [] then 0 else |NullTerminated(folders[0].files)| + NamesSize(folders[1..])
  }

  /** Where the first block of an archive with these folders is said to be. */
  function OffsetFor(folders: seq<Folder>, layout: Layout): nat {
    HEADER_SIZE + RecordsSize(layout, |folders|) + NamesSize(folders)
  }

  ghost predicate Stores(a: Archive, folders: seq<Folder>) {
    |a.images| == |folders| && forall i :: 0 <= i < |folders| ==> a.images[i].folder == folders[i]
  }

  lemma {:induction false} FileNamesSize(images: seq<Image>, folders: seq<Folder>)
    requires |images| == |folders| && forall i :: 0 <= i < |images| ==> images[i].folder == folders[i]
    ensures |FileNames(images)| == NamesSize(folders)
  {
    if images != [] {
      FileNamesSize(images[1..], folders[1..]);
    }
  }

  const NAMES_INCLUDED: nat := 3

  lemma NamesIncludedIsAllowed()
    ensures FlagsAllow(NAMES_INCLUDED)
  {
  }

  /** In every version there is an archive of any storable folders that are not too large together. */
  lemma ArchiveExists(version: nat, folders: seq<Folder>) returns (a: Archive)
    requires LayoutOf(version).Some? && Storable(folders)
    requires OffsetFor(folders, LayoutOf(version).value) + StoredSize(folders) < U32_LIMIT
    ensures ValidArchive(a) && a.version == version && Stores(a, folders)
  {
    var layout := LayoutOf(version).value;
    var images := ImagesExist(folders, layout, OffsetFor(folders, layout));
    a := Archive(version, NAMES_INCLUDED, 0, images, []);
    FileNamesSize(images, folders);
    NamesIncludedIsAllowed();
  }

  /** Such an archive is read as exactly the files of those folders. */
  lemma FoldersReadAsStored(version: nat, folders: seq<Folder>) returns (data: Bytes)
    requires LayoutOf(version).Some? && Storable(folders)
    requires OffsetFor(folders, LayoutOf(version).value) + StoredSize(folders) < U32_LIMIT
    ensures Parse(data).Ok? && NoEmptyFolder(Parse(data).value)
    ensures forall p :: p in Pairs(Parse(data).value) <==> exists f :: f in folders && HasFile(f, p)
  {
    var a := ArchiveExists(version, folders);
    data := Write(a);
    ReadWrittenArchive(a);
    forall p
      ensures p in Written(a.images) <==> exists f :: f in folders && HasFile(f, p)
    {
      WrittenMeaning(a.images, p);
      FoldersOfImages(a, folders, p);
    }
  }

  lemma FoldersOfImages(a: Archive, folders: seq<Folder>, p: (Bytes, Bytes))
    requires Stores(a, folders)
    ensures (exists image :: image in a.images && HasFile(image.folder, p))
       <==> exists f :: f in folders && HasFile(f, p)
  {
    if exists image :: image in a.images && HasFile(image.folder, p) {
      var image :| image in a.images && HasFile(image.folder, p);
      assert image.folder in folders;
    }
    if exists f :: f in folders && HasFile(f, p) {
      var f :| f in folders && HasFile(f, p);
      var i :| 0 <= i < |folders| && folders[i] == f;
      assert a.images[i] in a.images && a.images[i].folder == f;
    }
  }
}
