/** The 32 bytes of a directory entry (src/libfat12/libfat12.h, section "FAT Directory Structure" of fatgen103). */
module Records {
  import opened Bytes

  const SUBDIRECTORY: Byte := 0x10
  const ARCHIVE: Byte := 0x20

  /** Eight bytes of short file name followed by three bytes of extension. */
  type ShortName = s: seq<Byte> | |s| == 11 witness [0, 0, 0, 0, 0, 0, 0, 0, 0, 0, 0]

  const SPACE: Byte := 0x20
  const DOT: Byte := 0x2E

  const DOT_NAME: ShortName := [DOT, SPACE, SPACE, SPACE, SPACE, SPACE, SPACE, SPACE, SPACE, SPACE, SPACE]
  const DOT_DOT_NAME: ShortName := [DOT, DOT, SPACE, SPACE, SPACE, SPACE, SPACE, SPACE, SPACE, SPACE, SPACE]

  datatype Record = Record(
    name: ShortName,
    attributes: Byte,
    userAttributes: Byte,
    createTimeOrFirstCharacter: Byte,
    passwordHashOrCreateTime: U16,
    createDate: U16,
    ownerIdOrLastAccessDate: U16,
    accessRights: U16,
    lastModifiedTime: U16,
    lastModifiedDate: U16,
    firstCluster: U16,
    fileSize: U32)

  const EMPTY: Record := Record([0, 0, 0, 0, 0, 0, 0, 0, 0, 0, 0], 0, 0, 0, 0, 0, 0, 0, 0, 0, 0, 0)

  predicate Used(r: Record) {
    r.name[0] != 0
  }

  /** The attribute byte has the subdirectory bit. */
  predicate IsDirectory(r: Record) {
    r.attributes / SUBDIRECTORY % 2 == 1
  }

  predicate IsDotDir(r: Record) {
    IsDirectory(r) && (r.name == DOT_NAME || r.name == DOT_DOT_NAME)
  }

  /** A used entry other than "." and "..". */
  predicate Live(r: Record) {
    Used(r) && !IsDotDir(r)
  }

  /** `attributes |= ARCHIVE` */
  function WithArchive(attributes: Byte): (r: Byte)
    ensures r / ARCHIVE % 2 == 1
    ensures r / SUBDIRECTORY % 2 == attributes / SUBDIRECTORY % 2
  {
    if attributes / ARCHIVE % 2 == 1 then attributes else attributes + ARCHIVE
  }

  function Times(r: Record): (b: seq<Byte>)
    ensures |b| == 12
  {
    Le16(r.passwordHashOrCreateTime) + Le16(r.createDate) + Le16(r.ownerIdOrLastAccessDate) +
    Le16(r.accessRights) + Le16(r.lastModifiedTime) + Le16(r.lastModifiedDate)
  }

  function EncodeRecord(r: Record): (b: seq<Byte>)
    ensures |b| == 32
  {
    r.name + [r.attributes, r.userAttributes, r.createTimeOrFirstCharacter] + Times(r) +
    Le16(r.firstCluster) + Le32(r.fileSize)
  }

  function DecodeRecord(b: seq<Byte>): Record
    requires |b| == 32
  {
    Record(b[..11], b[11], b[12], b[13], U16At(b, 14), U16At(b, 16), U16At(b, 18), U16At(b, 20),
           U16At(b, 22), U16At(b, 24), U16At(b, 26), U32At(b, 28))
  }

  lemma RecordRoundTrip(r: Record)
    ensures DecodeRecord(EncodeRecord(r)) == r
  {
    var b := EncodeRecord(r);
    assert b[14..26] == Times(r);
    assert b[26..28] == Le16(r.firstCluster);
    assert b[28..32] == Le32(r.fileSize);
    Le32RoundTrip([], r.fileSize, []);
    assert U32At(b, 28) == U32At([] + Le32(r.fileSize) + [], 0);
    assert b[..11] == r.name;
  }

  lemma EmptyRecordIsZero()
    ensures EncodeRecord(EMPTY) == Zeros(32)
    ensures DecodeRecord(Zeros(32)) == EMPTY
    ensures !Used(EMPTY) && !IsDirectory(EMPTY)
  {
  }

  lemma TimesOfBytes(b: seq<Byte>)
    requires |b| == 32
    ensures Times(DecodeRecord(b)) == b[14..26]
  {
    Le16OfBytes(b, 14);
    Le16OfBytes(b, 16);
    Le16OfBytes(b, 18);
    Le16OfBytes(b, 20);
    Le16OfBytes(b, 22);
    Le16OfBytes(b, 24);
    assert b[14..26] == b[14..16] + b[16..18] + b[18..20] + b[20..22] + b[22..24] + b[24..26];
  }

  /** A record that was read is stored as the same bytes. */
  lemma BytesRoundTrip(b: seq<Byte>)
    requires |b| == 32
    ensures EncodeRecord(DecodeRecord(b)) == b
  {
    TimesOfBytes(b);
    Le16OfBytes(b, 26);
    Le32OfBytes(b, 28);
    assert b == b[..11] + b[11..14] + b[14..26] + b[26..28] + b[28..32];
    assert b[11..14] == [b[11], b[12], b[13]];
  }
}
