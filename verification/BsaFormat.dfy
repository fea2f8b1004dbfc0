/** The layout of BSA archives in plain numbers, and that it is the one which is read. */
module BsaFormat {
  import opened Wrappers
  import opened ArchiveAssets
  import opened Bsa
  import opened BsaWriter

  /** Version 105 has folder records of 24 bytes with the offset in the last eight, the others of 16 bytes with the
      offset in the last four. */
  function BytesPerFolder(version: nat): nat {
    if version == 105 then 24 else 16
  }

  /** Folders of which the first block has the given offset. Each has a record, with the number of its files in the
      bytes from 8 on, and a block with the length of its name and its null terminator, both of these, and 16 bytes
      for each of its files. */
  ghost predicate IsStored(images: seq<Image>, version: nat, offset: nat)
    decreases |images|
  {
    images == []
    || (var record, block, folder := images[0].record, images[0].block, images[0].folder;
        && |record| == BytesPerFolder(version) && U32At(record, 8) == |folder.files|
        && U32At(record, if version == 105 then 16 else 12) == offset
        && |block| == 2 + |folder.name| + 16 * |folder.files|
        && block[0] == |folder.name| + 1 && block[1..1 + |folder.name|] == folder.name && block[1 + |folder.name|] == 0
        && NoNulls(folder.files)
        && IsStored(images[1..], version, offset + |block|))
  }

  lemma {:induction false} StoredIsValid(images: seq<Image>, version: nat, offset: nat)
    requires version == 103 || version == 104 || version == 105
    requires IsStored(images, version, offset)
    ensures ValidImages(images, LayoutOf(version).value, offset)
    decreases |images|
  {
    if images != [] {
      StoredIsValid(images[1..], version, offset + |images[0].block|);
    }
  }

  /** Bits 0 and 1 say that the archive has the names of folders and files, and bit 6 that numbers are big-endian. */
  predicate HasNames(flags: nat) {
    flags % 2 == 1 && flags / 2 % 2 == 1 && flags / 64 % 2 == 0
  }

  /** Eight numbers of four bytes each. */
  function HeaderData(version: nat, flags: nat, folders: nat, files: nat, folderNames: nat, fileNames: nat,
                      contentTypeFlags: nat): Bytes {
    Digits(version, 4) + Digits(36, 4) + Digits(flags, 4)
    + Digits(folders, 4)
    + Digits(files, 4) + Digits(folderNames, 4) + Digits(fileNames, 4)
    + Digits(contentTypeFlags, 4)
  }

  /** What follows the type identifier. */
  function Data(version: nat, flags: nat, contentTypeFlags: nat, images: seq<Image>, fileData: Bytes): Bytes {
    HeaderData(version, flags, |images|, FileCount(images), FolderNamesLength(images), |FileNames(images)|,
               contentTypeFlags)
    + (Records(images) + (Blocks(images) + (FileNames(images) + fileData)))
  }

  lemma HeaderDataIs(h: Header)
    requires h.version < U32_LIMIT && h.recordsOffset == 36 && h.archiveFlags < U32_LIMIT
    requires h.folderCount < U32_LIMIT
    requires h.totalFileCount < U32_LIMIT && h.totalFolderNamesLength < U32_LIMIT && h.totalFileNamesLength < U32_LIMIT
    requires h.contentTypeFlags < U32_LIMIT
    ensures HeaderBytes(h) == HeaderData(h.version, h.archiveFlags, h.folderCount, h.totalFileCount,
                                         h.totalFolderNamesLength, h.totalFileNamesLength, h.contentTypeFlags)
  {
  }

  lemma DataIsWritten(a: Archive)
    requires ValidArchive(a)
    ensures Data(a.version, a.flags, a.contentTypeFlags, a.images, a.fileData) == Write(a)
  {
    BlocksLength(a.images, LayoutOf(a.version).value, FirstOffset(a, LayoutOf(a.version).value));
    HeaderDataIs(HeaderOf(a));
  }

  lemma NumbersAreValid(a: Archive, offset: nat)
    requires a.version == 103 || a.version == 104 || a.version == 105
    requires HasNames(a.flags) && a.flags < 0x1_0000_0000 && a.contentTypeFlags < 0x1_0000_0000
    requires offset == 36 + BytesPerFolder(a.version) * |a.images| + |FileNames(a.images)|
    requires IsStored(a.images, a.version, offset) && offset + |Blocks(a.images)| < 0x1_0000_0000
    ensures ValidArchive(a)
  {
    StoredIsValid(a.images, a.version, offset);
    assert FirstOffset(a, LayoutOf(a.version).value) == offset;
  }

  /** Every archive of one of the three versions that is laid out like this is read as exactly its files. */
  lemma ReadByNumbers(version: nat, flags: nat, contentTypeFlags: nat, images: seq<Image>, fileData: Bytes)
    requires version == 103 || version == 104 || version == 105
    requires HasNames(flags) && flags < 0x1_0000_0000 && contentTypeFlags < 0x1_0000_0000
    requires var offset := 36 + BytesPerFolder(version) * |images| + |FileNames(images)|;
             IsStored(images, version, offset) && offset + |Blocks(images)| < 0x1_0000_0000
    ensures HasExactly(Parse(Data(version, flags, contentTypeFlags, images, fileData)), Written(images))
  {
    var a := Archive(version, flags, contentTypeFlags, images, fileData);
    NumbersAreValid(a, 36 + BytesPerFolder(version) * |images| + |FileNames(images)|);
    DataIsWritten(a);
    ReadWrittenArchive(a);
  }

  lemma HeaderNumber(data: Bytes, i: nat)
    requires i + 4 <= 32 <= |data|
    ensures U32At(data[..32], i) == U32At(data, i)
  {
  }

  lemma HeaderNumbers(data: Bytes)
    requires |data| >= 32
    ensures var h := ParseHeader(data[..32]);
            if U32At(data, 4) == 36 then
              h == Ok(Header(U32At(data, 0), 36, U32At(data, 8), U32At(data, 12), U32At(data, 16), U32At(data, 20),
                             U32At(data, 24), U32At(data, 28)))
            else h == Err(InvalidRecordsOffset(U32At(data, 4)))
  {
    HeaderNumber(data, 0);
    HeaderNumber(data, 4);
    HeaderNumber(data, 8);
    HeaderNumber(data, 12);
    HeaderNumber(data, 16);
    HeaderNumber(data, 20);
    HeaderNumber(data, 24);
    HeaderNumber(data, 28);
  }

  /** The errors that are found in the header, the first of which counts, by the bytes that they are in. */
  lemma HeaderRefusedIf(data: Bytes)
    ensures |data| < 32 ==> Parse(data) == Err(IoError)
    ensures |data| >= 32 ==>
              var version, flags := U32At(data, 0), U32At(data, 8);
              && (U32At(data, 4) != 36 ==> Parse(data) == Err(InvalidRecordsOffset(U32At(data, 4))))
              && (U32At(data, 4) == 36 ==>
                    if version < 103 || version > 105 then Parse(data) == Err(UnsupportedHeaderVersion(version))
                    else if flags / 64 % 2 == 1 then Parse(data) == Err(UsesBigEndianNumbers)
                    else if flags % 2 == 0 then Parse(data) == Err(DirectoryNamesNotIncluded)
                    else flags / 2 % 2 == 0 ==> Parse(data) == Err(FileNamesNotIncluded))
  {
    if |data| >= 32 {
      HeaderNumbers(data);
    }
  }

  /** Otherwise the tables must all be there: the folder records, a length, a name and its terminator for each folder
      with 16 bytes for each file, and the file names. */
  lemma ShortTablesRefused(data: Bytes)
    requires |data| >= 32 && U32At(data, 4) == 36 && 103 <= U32At(data, 0) <= 105 && HasNames(U32At(data, 8))
    requires |data| < 32 + BytesPerFolder(U32At(data, 0)) * U32At(data, 12)
                    + (U32At(data, 12) + U32At(data, 20) + 16 * U32At(data, 16)) + U32At(data, 24)
    ensures Parse(data) == Err(IoError)
  {
    HeaderNumbers(data);
  }

  /** How many bytes the names and records of files take up between the folder records and the file names. */
  function BlockBytes(data: Bytes): nat
    requires |data| >= 32
  {
    U32At(data, 12) + U32At(data, 20) + 16 * U32At(data, 16)
  }

  ghost predicate TablesFit(data: Bytes) {
    && |data| >= 32 && U32At(data, 4) == 36 && 103 <= U32At(data, 0) <= 105 && HasNames(U32At(data, 8))
    && |data| >= 32 + BytesPerFolder(U32At(data, 0)) * U32At(data, 12) + BlockBytes(data) + U32At(data, 24)
  }

  lemma SectionsAre(data: Bytes, a: nat, b: nat, c: nat)
    requires |data| >= 32 + a + b + c
    ensures ReadSections(data[32..], a, b, c)
         == Ok(Sections(data[32..32 + a], data[32 + a..32 + a + b], data[32 + a + b..32 + a + b + c]))
  {
    SliceFrom(data, 32, 0, a);
    SliceFrom(data, 32, a, a + b);
    SliceFrom(data, 32, a + b, a + b + c);
  }

  lemma SliceFrom(data: Bytes, i: nat, a: nat, b: nat)
    requires a <= b && i + b <= |data|
    ensures data[i..][a..b] == data[i + a..i + b]
  {
  }

  /** The tables are read from the bytes after the header: so many bytes of records, the blocks and the file names. */
  ghost predicate AreTables(data: Bytes, t: Tables, records: nat)
    requires |data| >= 32
  {
    && |data| >= 32 + records + BlockBytes(data) && ParseTables(data) == Ok(t)
    && t.sections.folders == data[32..32 + records]
    && t.sections.fileRecords == data[32 + records..32 + records + BlockBytes(data)]
    && t.layout.V105? == (U32At(data, 0) == 105) && t.baseline == 36 + records + U32At(data, 24)
  }

  lemma TablesAre(data: Bytes, records: nat) returns (t: Tables)
    requires TablesFit(data) && records == BytesPerFolder(U32At(data, 0)) * U32At(data, 12)
    ensures AreTables(data, t, records)
  {
    HeaderNumbers(data);
    SectionsAre(data, records, BlockBytes(data), U32At(data, 24));
    t := ParseTables(data).value;
  }

  lemma RecordAt(data: Bytes, records: Bytes, layout: Layout)
    requires |records| >= RecordSize(layout) && 32 + |records| <= |data| && records == data[32..32 + |records|]
    ensures ReadFolderRecord(records, 0, layout)
         == FolderRecord(U32At(data, 40), U32At(data, if layout.V105? then 48 else 44))
  {
    assert forall i :: 0 <= i < |records| ==> records[i] == data[32 + i];
  }

  lemma FirstRefused(data: Bytes, t: Tables)
    requires ParseTables(data) == Ok(t) && |t.sections.folders| >= RecordSize(t.layout)
    ensures var r := ReadFolder(ReadFolderRecord(t.sections.folders, 0, t.layout), t.sections.fileRecords, t.baseline);
            r.Err? ==> Parse(data) == Err(r.error)
  {
  }

  lemma FirstOfMany(size: nat, count: nat)
    requires count > 0
    ensures size * count >= size
  {
  }

  /** What is wrong with an offset into a block of bytes, at which the length of a name and then the name should be. */
  function NameError(data: Bytes, start: nat, length: nat, offset: int): Option<BsaError>
    requires start + length <= |data|
  {
    if offset < 0 then Some(OffsetBelowBaseline)
    else if offset >= length then Some(InvalidFolderNameLengthOffset(offset))
    else if offset + 1 + data[start + offset] > length then
      Some(InvalidFolderNameRange(offset + 1, offset + 1 + data[start + offset]))
    else None
  }

  lemma NameRefused(data: Bytes, start: nat, length: nat, record: FolderRecord, baseline: nat)
    requires start + length <= |data|
    ensures var r := ReadFolder(record, data[start..start + length], baseline);
            var e := NameError(data, start, length, record.fileRecordsOffset - baseline);
            if e.Some? then r == Err(e.value) else r.Ok?
  {
  }

  /** The offset that the first folder's record holds. */
  function FirstStoredOffset(data: Bytes): nat
    requires |data| >= 56 || (|data| >= 48 && U32At(data, 0) != 105)
  {
    if U32At(data, 0) == 105 then U32At(data, 48) else U32At(data, 44)
  }

  lemma RecordsFit(data: Bytes, records: nat)
    requires TablesFit(data) && U32At(data, 12) > 0 && records == BytesPerFolder(U32At(data, 0)) * U32At(data, 12)
    ensures records >= BytesPerFolder(U32At(data, 0)) && |data| >= 32 + records + BlockBytes(data)
  {
    FirstOfMany(BytesPerFolder(U32At(data, 0)), U32At(data, 12));
  }

  lemma FirstOffsetIs(data: Bytes, t: Tables, records: nat)
    requires |data| >= 32 && AreTables(data, t, records) && records >= BytesPerFolder(U32At(data, 0))
    ensures |t.sections.folders| >= RecordSize(t.layout)
    ensures ReadFolderRecord(t.sections.folders, 0, t.layout) == FolderRecord(U32At(data, 40), FirstStoredOffset(data))
  {
    RecordAt(data, t.sections.folders, t.layout);
  }

  ghost predicate RefusedAt(data: Bytes, start: nat, length: nat, offset: int)
    requires start + length <= |data|
  {
    var e := NameError(data, start, length, offset);
    e.Some? ==> Parse(data) == Err(e.value)
  }

  lemma RefusedFromTables(data: Bytes, t: Tables, records: nat, start: nat, length: nat, stored: nat, offset: int)
    requires |data| >= 32 && AreTables(data, t, records) && records >= BytesPerFolder(U32At(data, 0))
    requires start == 32 + records && length == BlockBytes(data) && start + length <= |data|
    requires stored == FirstStoredOffset(data) && offset == stored - t.baseline
    ensures RefusedAt(data, start, length, offset)
  {
    FirstOffsetIs(data, t, records);
    FirstFolderRefused(data, t, FolderRecord(U32At(data, 40), stored), start, length);
  }

  lemma FirstFolderRefused(data: Bytes, t: Tables, record: FolderRecord, start: nat, length: nat)
    requires ParseTables(data) == Ok(t) && |t.sections.folders| >= RecordSize(t.layout)
    requires ReadFolderRecord(t.sections.folders, 0, t.layout) == record
    requires start + length <= |data| && t.sections.fileRecords == data[start..start + length]
    ensures RefusedAt(data, start, length, record.fileRecordsOffset - t.baseline)
  {
    FirstRefused(data, t);
    RefusedBy(data, start, length, record, t.baseline, t.sections.fileRecords);
  }

  lemma RefusedBy(data: Bytes, start: nat, length: nat, record: FolderRecord, baseline: nat, buffer: Bytes)
    requires start + length <= |data| && buffer == data[start..start + length]
    requires var r := ReadFolder(record, buffer, baseline); r.Err? ==> Parse(data) == Err(r.error)
    ensures RefusedAt(data, start, length, record.fileRecordsOffset - baseline)
  {
    NameRefused(data, start, length, record, baseline);
  }

  /** The first folder's record is refused if its offset is too small, or too large to be followed by the length of a
      name, or if the name does not fit. */
  lemma FirstFolderRefusedIf(data: Bytes, records: nat, start: nat, length: nat, offset: int)
    requires TablesFit(data) && U32At(data, 12) > 0 && records == BytesPerFolder(U32At(data, 0)) * U32At(data, 12)
    requires start == 32 + records && length == BlockBytes(data) && |data| >= start + BytesPerFolder(U32At(data, 0))
    requires offset == FirstStoredOffset(data) - (36 + records + U32At(data, 24))
    ensures start + length <= |data| && RefusedAt(data, start, length, offset)
  {
    RecordsFit(data, records);
    var t := TablesAre(data, records);
    RefusedFromTables(data, t, records, start, length, FirstStoredOffset(data), offset);
  }
}
