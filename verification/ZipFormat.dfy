/**
 * The archive layout of src/part_zip.rs: stored entries whose local headers carry
 * the real sizes, data descriptors, a central directory and end records
 * (PKWARE APPNOTE.TXT, sections 4.3.7, 4.3.9, 4.3.12, 4.3.14 to 4.3.16 and 4.5.3).
 */
module ZipFormat {
  import opened Bytes
  import Crc32

  const LOCAL_SIG := 0x0403_4B50
  const DESCRIPTOR_SIG := 0x0807_4B50
  const CENTRAL_SIG := 0x0201_4B50
  const END_SIG := 0x0605_4B50
  const END64_SIG := 0x0606_4B50
  const LOCATOR64_SIG := 0x0706_4B50

  const VERSION := 45
  const FLAGS := 8
  const STORED := 0
  const ZIP64_ID := 1
  const SENTINEL := 0xFFFF_FFFF

  // Field widths after the signature.
  const LOCAL_WIDTHS: seq<nat> := [2, 2, 2, 2, 2, 4, 4, 4, 2, 2]
  const CENTRAL_WIDTHS: seq<nat> := [2, 2, 2, 2, 2, 2, 4, 4, 4, 2, 2, 2, 2, 2, 4, 4]
  const END64_WIDTHS: seq<nat> := [8, 2, 2, 4, 4, 8, 8, 8, 8]
  const LOCATOR64_WIDTHS: seq<nat> := [4, 8, 4]
  const END_WIDTHS: seq<nat> := [2, 2, 2, 2, 4, 4, 2]

  function DescriptorWidths(zip64: bool): seq<nat> {
    if zip64 then [4, 8, 8] else [4, 4, 4]
  }

  /** One stored file: its archive name and its bytes. */
  datatype Entry = Entry(name: seq<u8>, data: seq<u8>)

  function NeedsZip64(size: nat, offset: nat): bool {
    size > MAX_U32 || offset > MAX_U32
  }

  function SizeField(size: nat, zip64: bool): nat {
    if zip64 then SENTINEL else size
  }

  /** `build_zip64_extra_local`. */
  function LocalExtra(size: nat, zip64: bool): seq<u8> {
    if zip64 then Fields([ZIP64_ID, 16, size, size], [2, 2, 8, 8]) else []
  }

  /** `build_zip64_extra_central`. */
  function CentralExtra(size: nat, offset: nat, zip64: bool): seq<u8> {
    if zip64 then Fields([ZIP64_ID, 24, size, size, offset], [2, 2, 8, 8, 8]) else []
  }

  function LocalFields(nameLen: nat, size: nat, zip64: bool): (v: seq<nat>)
    ensures |v| == |LOCAL_WIDTHS|
  {
    [VERSION, FLAGS, STORED, 0, 0, 0, SizeField(size, zip64), SizeField(size, zip64), nameLen,
     if zip64 then 20 else 0]
  }

  function LocalHeader(e: Entry, zip64: bool): seq<u8> {
    LE(LOCAL_SIG, 4) + Fields(LocalFields(|e.name|, |e.data|, zip64), LOCAL_WIDTHS)
    + e.name + LocalExtra(|e.data|, zip64)
  }

  function Descriptor(e: Entry, zip64: bool): seq<u8> {
    LE(DESCRIPTOR_SIG, 4) + Fields([Crc32.Of(e.data), |e.data|, |e.data|], DescriptorWidths(zip64))
  }

  function EntryBytes(e: Entry, offset: nat): seq<u8> {
    var zip64 := NeedsZip64(|e.data|, offset);
    LocalHeader(e, zip64) + e.data + Descriptor(e, zip64)
  }

  /** The entries laid out from `offset` on. */
  function Entries(es: seq<Entry>, offset: nat): seq<u8> {
    if es == [] then []
    else
      var b := EntryBytes(es[0], offset);
      b + Entries(es[1..], offset + |b|)
  }

  datatype CentralEntry =
    CentralEntry(name: seq<u8>, crc: nat, size: nat, offset: nat, zip64: bool)

  /** What the central directory records about the entries. */
  function Index(es: seq<Entry>, offset: nat): (cs: seq<CentralEntry>)
    ensures |cs| == |es|
  {
    if es == [] then []
    else
      [CentralOf(es[0], offset)] + Index(es[1..], offset + |EntryBytes(es[0], offset)|)
  }

  function CentralOf(e: Entry, offset: nat): CentralEntry {
    CentralEntry(e.name, Crc32.Of(e.data), |e.data|, offset, NeedsZip64(|e.data|, offset))
  }

  lemma LaidOut(es: seq<Entry>, offset: nat)
    ensures es == [] ==> Entries(es, offset) == [] && Index(es, offset) == []
    ensures es != [] ==>
              var b := EntryBytes(es[0], offset);
              && Entries(es, offset) == b + Entries(es[1..], offset + |b|)
              && Index(es, offset) == [CentralOf(es[0], offset)] + Index(es[1..], offset + |b|)
  {
    hide EntryBytes;
    hide CentralOf;
  }

  function CentralFields(c: CentralEntry, zip64: bool): (v: seq<nat>)
    ensures |v| == |CENTRAL_WIDTHS|
  {
    [VERSION, VERSION, FLAGS, STORED, 0, 0, c.crc, SizeField(c.size, zip64), SizeField(c.size, zip64),
     |c.name|, if zip64 then 28 else 0, 0, 0, 0, 0, if zip64 then SENTINEL else c.offset]
  }

  function CentralBytes(c: CentralEntry): seq<u8> {
    var zip64 := c.zip64 || c.offset > MAX_U32;
    LE(CENTRAL_SIG, 4) + Fields(CentralFields(c, zip64), CENTRAL_WIDTHS)
    + c.name + CentralExtra(c.size, c.offset, zip64)
  }

  function Central(cs: seq<CentralEntry>): seq<u8> {
    if cs == [] then [] else CentralBytes(cs[0]) + Central(cs[1..])
  }

  function NeedsEnd64(count: nat, size: nat, offset: nat): bool {
    count > MAX_U16 || offset > MAX_U32 || size > MAX_U32
  }

  /** Zip64 end record and locator. */
  function End64Records(count: nat, size: nat, offset: nat): seq<u8> {
    if !NeedsEnd64(count, size, offset) then []
    else
      LE(END64_SIG, 4) + Fields([44, VERSION, VERSION, 0, 0, count, count, size, offset], END64_WIDTHS)
      + (LE(LOCATOR64_SIG, 4) + Fields([0, offset + size, 1], LOCATOR64_WIDTHS))
  }

  function EndFields(count: nat, size: nat, offset: nat): (v: seq<nat>)
    ensures |v| == |END_WIDTHS|
  {
    if NeedsEnd64(count, size, offset) then [0, 0, MAX_U16, MAX_U16, SENTINEL, SENTINEL, 0]
    else [0, 0, count, count, size, offset, 0]
  }

  function EndRecord(count: nat, size: nat, offset: nat): seq<u8> {
    LE(END_SIG, 4) + Fields(EndFields(count, size, offset), END_WIDTHS)
  }

  function CentralDirectory(es: seq<Entry>): seq<u8> { Central(Index(es, 0)) }

  function DirectoryOffset(es: seq<Entry>): nat { |Entries(es, 0)| }

  /** Everything behind the entries. */
  function Trailer(es: seq<Entry>): seq<u8> {
    var size, offset := |CentralDirectory(es)|, DirectoryOffset(es);
    CentralDirectory(es) + End64Records(|es|, size, offset) + EndRecord(|es|, size, offset)
  }

  function Archive(es: seq<Entry>): seq<u8> {
    Entries(es, 0) + Trailer(es)
  }

  lemma WidthSums()
    ensures Sum(LOCAL_WIDTHS, 0) == 26 && Sum(CENTRAL_WIDTHS, 0) == 42
    ensures Sum(DescriptorWidths(true), 0) == 20 && Sum(DescriptorWidths(false), 0) == 12
    ensures Sum([2, 2, 8, 8], 0) == 20 && Sum([2, 2, 8, 8, 8], 0) == 28
    ensures Sum(END64_WIDTHS, 0) == 52 && Sum(LOCATOR64_WIDTHS, 0) == 16 && Sum(END_WIDTHS, 0) == 18
  {
    assert Sum(CENTRAL_WIDTHS, 8) == 22;
  }

  lemma ExtraLengths(size: nat, offset: nat, zip64: bool)
    ensures |LocalExtra(size, zip64)| == if zip64 then 20 else 0
    ensures |CentralExtra(size, offset, zip64)| == if zip64 then 28 else 0
  {
    WidthSums();
    FieldsLength([ZIP64_ID, 16, size, size], [2, 2, 8, 8]);
    FieldsLength([ZIP64_ID, 24, size, size, offset], [2, 2, 8, 8, 8]);
  }

  lemma LocalHeaderLength(e: Entry, zip64: bool)
    ensures |LocalHeader(e, zip64)| == 30 + |e.name| + (if zip64 then 20 else 0)
  {
    WidthSums();
    FieldsLength(LocalFields(|e.name|, |e.data|, zip64), LOCAL_WIDTHS);
    ExtraLengths(|e.data|, 0, zip64);
  }

  lemma DescriptorLength(e: Entry, zip64: bool)
    ensures |Descriptor(e, zip64)| == if zip64 then 24 else 16
  {
    WidthSums();
    FieldsLength([Crc32.Of(e.data), |e.data|, |e.data|], DescriptorWidths(zip64));
  }

  lemma EntryLength(e: Entry, offset: nat)
    ensures |EntryBytes(e, offset)| ==
            |e.name| + |e.data| + (if NeedsZip64(|e.data|, offset) then 74 else 46)
  {
    LocalHeaderLength(e, NeedsZip64(|e.data|, offset));
    DescriptorLength(e, NeedsZip64(|e.data|, offset));
  }

  lemma CentralLength(c: CentralEntry)
    ensures |CentralBytes(c)| == |c.name| + (if c.zip64 || c.offset > MAX_U32 then 74 else 46)
  {
    var zip64 := c.zip64 || c.offset > MAX_U32;
    WidthSums();
    FieldsLength(CentralFields(c, zip64), CENTRAL_WIDTHS);
    ExtraLengths(c.size, c.offset, zip64);
  }

  lemma EndLengths(count: nat, size: nat, offset: nat)
    ensures |End64Records(count, size, offset)| == if NeedsEnd64(count, size, offset) then 76 else 0
    ensures |EndRecord(count, size, offset)| == 22
  {
    WidthSums();
    FieldsLength([44, VERSION, VERSION, 0, 0, count, count, size, offset], END64_WIDTHS);
    FieldsLength([0, offset + size, 1], LOCATOR64_WIDTHS);
    FieldsLength(EndFields(count, size, offset), END_WIDTHS);
  }
}
