/**
 * The records of an archive byte by byte, in the numbers of the format itself
 * (PKWARE APPNOTE.TXT, sections 4.3.7, 4.3.9, 4.3.12, 4.3.14 to 4.3.16 and 4.5.3).
 */
module ZipLayout {
  import opened Bytes
  import opened ZipFormat
  import Crc32

  // ---- Little-endian numbers ----

  function Two(v: nat): seq<u8> { [v % 256, v / 256 % 256] }

  function Four(v: nat): seq<u8> { Two(v) + Two(v / 256 / 256) }

  function Eight(v: nat): seq<u8> { Four(v) + Four(v / 256 / 256 / 256 / 256) }

  lemma LittleEndian(v: nat)
    ensures LE(v, 2) == Two(v) && LE(v, 4) == Four(v) && LE(v, 8) == Eight(v)
  {
    TwoBytes(v, 0);
    TwoBytes(v, 2);
    TwoBytes(v, 6);
    var w := v / 256 / 256;
    TwoBytes(w, 0);
    TwoBytes(w, 4);
    var x := w / 256 / 256;
    TwoBytes(x, 2);
    TwoBytes(x / 256 / 256, 0);
    assert LE(v, 4) == Two(v) + LE(w, 2);
    assert LE(v, 8) == Two(v) + (Two(w) + (Two(x) + Two(x / 256 / 256)));
    hide Two;
    hide LE;
    assert Four(v) + Four(x) == Two(v) + (Two(w) + (Two(x) + Two(x / 256 / 256)));
  }

  lemma TwoBytes(v: nat, n: nat)
    ensures LE(v, n + 2) == Two(v) + LE(v / 256 / 256, n)
    ensures LE(v, 0) == []
  {
    assert LE(v, n + 2) == [v % 256] + ([v / 256 % 256] + LE(v / 256 / 256, n));
  }

  // ---- Records ----

  /** Where the `k`-th field of a record starts. */
  function Start(widths: seq<nat>, k: nat): nat
    requires k <= |widths|
  {
    if k == 0 then 0 else Start(widths, k - 1) + widths[k - 1]
  }

  lemma {:induction false} StartNext(widths: seq<nat>, k: nat)
    requires 0 < k <= |widths|
    ensures Start(widths, k) == widths[0] + Start(widths[1..], k - 1)
    decreases k
  {
    if k > 1 {
      StartNext(widths, k - 1);
    }
  }

  /** The field stands there, low byte first. */
  lemma {:induction false} FieldAt(vals: seq<nat>, widths: seq<nat>, k: nat)
    requires |vals| == |widths| && k < |vals|
    ensures var i := Start(widths, k);
            && i + widths[k] <= |Fields(vals, widths)|
            && Fields(vals, widths)[i..i + widths[k]] == LE(vals[k], widths[k])
    decreases k
  {
    var front, rest := LE(vals[0], widths[0]), Fields(vals[1..], widths[1..]);
    if k > 0 {
      FieldAt(vals[1..], widths[1..], k - 1);
      StartNext(widths, k);
      Behind(front, rest, Start(widths[1..], k - 1), widths[k]);
    }
  }

  lemma Behind(front: seq<u8>, rest: seq<u8>, i: nat, n: nat)
    requires i + n <= |rest|
    ensures (front + rest)[|front| + i..|front| + i + n] == rest[i..i + n]
  {
  }

  /** The field, in the record behind a signature. */
  lemma FieldBehind(sig: seq<u8>, vals: seq<nat>, widths: seq<nat>, tail: seq<u8>, k: nat, at: nat, w: nat)
    requires |vals| == |widths| && k < |vals| && |sig| == 4 && at == 4 + Start(widths, k) && w == widths[k]
    ensures at + w <= |sig + Fields(vals, widths) + tail|
    ensures (sig + Fields(vals, widths) + tail)[at..at + w] == LE(vals[k], w)
  {
    hide LE;
    hide Fields;
    FieldAt(vals, widths, k);
    var f := Fields(vals, widths);
    assert sig + f + tail == sig + (f + tail);
    Behind(sig, f + tail, at - 4, w);
  }

  /** The signatures, as they stand in a file. */
  lemma Signatures()
    ensures LE(LOCAL_SIG, 4) == [0x50, 0x4B, 0x03, 0x04]
    ensures LE(DESCRIPTOR_SIG, 4) == [0x50, 0x4B, 0x07, 0x08]
    ensures LE(CENTRAL_SIG, 4) == [0x50, 0x4B, 0x01, 0x02]
    ensures LE(END_SIG, 4) == [0x50, 0x4B, 0x05, 0x06]
    ensures LE(END64_SIG, 4) == [0x50, 0x4B, 0x06, 0x06]
    ensures LE(LOCATOR64_SIG, 4) == [0x50, 0x4B, 0x06, 0x07]
  {
  }

  lemma SmallNumbers()
    ensures LE(0, 2) == [0, 0] && LE(0, 4) == [0, 0, 0, 0] && LE(1, 2) == [1, 0] && LE(1, 4) == [1, 0, 0, 0]
    ensures LE(8, 2) == [8, 0] && LE(16, 2) == [16, 0] && LE(20, 2) == [20, 0] && LE(24, 2) == [24, 0]
    ensures LE(28, 2) == [28, 0] && LE(45, 2) == [45, 0] && LE(44, 8) == [44, 0, 0, 0, 0, 0, 0, 0]
    ensures LE(0xFFFF, 2) == [255, 255] && LE(0xFFFF_FFFF, 4) == [255, 255, 255, 255]
  {
  }

  // ---- Local headers ----

  lemma LocalStarts()
    ensures |LOCAL_WIDTHS| == 10
    ensures Start(LOCAL_WIDTHS, 0) == 0 && Start(LOCAL_WIDTHS, 1) == 2 && Start(LOCAL_WIDTHS, 2) == 4
    ensures Start(LOCAL_WIDTHS, 3) == 6 && Start(LOCAL_WIDTHS, 4) == 8 && Start(LOCAL_WIDTHS, 5) == 10
    ensures Start(LOCAL_WIDTHS, 6) == 14 && Start(LOCAL_WIDTHS, 7) == 18 && Start(LOCAL_WIDTHS, 8) == 22
    ensures Start(LOCAL_WIDTHS, 9) == 24
  {
  }

  /** A local file header: signature, version, flags, method, time, date, checksum, sizes, lengths. */
  lemma LocalRecord(nameLen: nat, size: nat, zip64: bool, tail: seq<u8>)
    ensures var b := LE(LOCAL_SIG, 4) + Fields(LocalFields(nameLen, size, zip64), LOCAL_WIDTHS) + tail;
            && |b| >= 30
            && b[0..4] == [0x50, 0x4B, 0x03, 0x04]
            && b[4..6] == [45, 0] && b[6..8] == [8, 0] && b[8..10] == [0, 0]
            && b[10..12] == [0, 0] && b[12..14] == [0, 0] && b[14..18] == [0, 0, 0, 0]
            && b[18..22] == (if zip64 then [255, 255, 255, 255] else Four(size))
            && b[22..26] == (if zip64 then [255, 255, 255, 255] else Four(size))
            && b[26..28] == Two(nameLen) && b[28..30] == (if zip64 then [20, 0] else [0, 0])
  {
    Signatures();
    SmallNumbers();
    LittleEndian(size);
    LittleEndian(nameLen);
    LocalStarts();
    hide LE;
    hide Fields;
    hide Start;
    hide Two;
    hide Four;
    hide Eight;
    var sig, v, w := LE(LOCAL_SIG, 4), LocalFields(nameLen, size, zip64), LOCAL_WIDTHS;
    assert sig + Fields(v, w) + tail == sig + (Fields(v, w) + tail);
    FieldBehind(sig, v, w, tail, 0, 4, 2); FieldBehind(sig, v, w, tail, 1, 6, 2);
    FieldBehind(sig, v, w, tail, 2, 8, 2); FieldBehind(sig, v, w, tail, 3, 10, 2);
    FieldBehind(sig, v, w, tail, 4, 12, 2); FieldBehind(sig, v, w, tail, 5, 14, 4);
    FieldBehind(sig, v, w, tail, 6, 18, 4); FieldBehind(sig, v, w, tail, 7, 22, 4);
    FieldBehind(sig, v, w, tail, 8, 26, 2); FieldBehind(sig, v, w, tail, 9, 28, 2);
  }

  /** The Zip64 extra of a local header. */
  lemma LocalExtraRecord(size: nat)
    ensures LocalExtra(size, true) == [1, 0, 16, 0] + Eight(size) + Eight(size)
    ensures LocalExtra(size, false) == []
  {
    SmallNumbers();
    LittleEndian(size);
    Unrolled4(ZIP64_ID, 16, size, size, 2, 2, 8, 8);
    hide LE;
    hide Fields;
    assert [1, 0] + [16, 0] == [1, 0, 16, 0];
  }

  lemma Unrolled2(a: nat, b: nat, w: nat, x: nat)
    ensures Fields([a, b], [w, x]) == LE(a, w) + LE(b, x)
  {
    hide LE;
    NoFields();
    assert [a, b][1..] == [b] && [w, x][1..] == [x] && [b][1..] == [] && [x][1..] == [];
  }

  lemma FourInAll(a: nat, b: nat, c: nat, d: nat)
    ensures [a, b] + [c, d] == [a, b, c, d]
  {
  }

  lemma Unrolled4(a: nat, b: nat, c: nat, d: nat, w: nat, x: nat, y: nat, z: nat)
    ensures Fields([a, b, c, d], [w, x, y, z]) == LE(a, w) + LE(b, x) + LE(c, y) + LE(d, z)
  {
    hide LE;
    hide Fields;
    Unrolled2(a, b, w, x);
    Unrolled2(c, d, y, z);
    FieldsConcat([a, b], [w, x], [c, d], [y, z]);
    FourInAll(a, b, c, d);
    FourInAll(w, x, y, z);
    Paired(LE(a, w), LE(b, x), LE(c, y), LE(d, z));
  }

  lemma Paired(a: seq<u8>, b: seq<u8>, c: seq<u8>, d: seq<u8>)
    ensures (a + b) + (c + d) == a + b + c + d
  {
  }

  lemma Grouped(a: seq<u8>, b: seq<u8>, c: seq<u8>, d: seq<u8>)
    ensures a + (b + (c + (d + []))) == a + b + c + d
  {
  }

  // ---- Descriptors ----

  /** A data descriptor: signature, checksum, both sizes in the width of the entry. */
  lemma DescriptorRecord(e: Entry, zip64: bool)
    ensures Descriptor(e, zip64) ==
            [0x50, 0x4B, 0x07, 0x08] + Four(Crc32.Of(e.data))
            + (if zip64 then Eight(|e.data|) + Eight(|e.data|) else Four(|e.data|) + Four(|e.data|))
  {
    hide Crc32.Of;
    Signatures();
    var crc, n, w := Crc32.Of(e.data), |e.data|, if zip64 then 8 else 4;
    LittleEndian(crc);
    LittleEndian(n);
    Unrolled4(DESCRIPTOR_SIG, crc, n, n, 4, 4, w, w);
    FieldsCons(DESCRIPTOR_SIG, [crc, n, n], 4, [4, w, w]);
    assert [DESCRIPTOR_SIG] + [crc, n, n] == [DESCRIPTOR_SIG, crc, n, n] && [4] + [4, w, w] == [4, 4, w, w];
    hide LE;
    hide Fields;
    hide Four;
    hide Eight;
    Grouped(LE(DESCRIPTOR_SIG, 4), LE(crc, 4), LE(n, w), LE(n, w));
  }

  // ---- Whole entries ----

  /** Where a local entry keeps what: header, name, extra, data, descriptor. */
  lemma EntryRecord(e: Entry, offset: nat)
    ensures var b := EntryBytes(e, offset);
            var n, size, large := |e.name|, |e.data|, |e.data| > 0xFFFF_FFFF || offset > 0xFFFF_FFFF;
            var data := 30 + n + if large then 20 else 0;
            && |b| == data + size + (if large then 24 else 16)
            && b[0..4] == [0x50, 0x4B, 0x03, 0x04]
            && b[4..6] == [45, 0] && b[6..8] == [8, 0] && b[8..10] == [0, 0]
            && b[10..12] == [0, 0] && b[12..14] == [0, 0] && b[14..18] == [0, 0, 0, 0]
            && b[18..22] == (if large then [255, 255, 255, 255] else Four(size))
            && b[22..26] == (if large then [255, 255, 255, 255] else Four(size))
            && b[26..28] == Two(n) && b[28..30] == (if large then [20, 0] else [0, 0])
            && b[30..30 + n] == e.name
            && b[30 + n..data] == (if large then [1, 0, 16, 0] + Eight(size) + Eight(size) else [])
            && b[data..data + size] == e.data
            && b[data + size..] ==
               [0x50, 0x4B, 0x07, 0x08] + Four(Crc32.Of(e.data))
               + (if large then Eight(size) + Eight(size) else Four(size) + Four(size))
  {
    var size, large := |e.data|, NeedsZip64(|e.data|, offset);
    var h := LE(LOCAL_SIG, 4) + Fields(LocalFields(|e.name|, size, large), LOCAL_WIDTHS);
    var extra, d := LocalExtra(size, large), Descriptor(e, large);
    LocalRecord(|e.name|, size, large, e.name + extra + e.data + d);
    LocalExtraRecord(size);
    DescriptorRecord(e, large);
    EntryLength(e, offset);
    DescriptorLength(e, large);
    WidthSums();
    FieldsLength(LocalFields(|e.name|, size, large), LOCAL_WIDTHS);
    ExtraLengths(size, offset, large);
    assert EntryBytes(e, offset) == h + e.name + extra + e.data + d;
    hide Crc32.Of;
    hide LE;
    hide Fields;
    hide Two;
    hide Four;
    hide Eight;
    hide EntryBytes;
    hide LocalExtra;
    hide Descriptor;
    Pieces(h, e.name, extra, e.data, d);
  }

  lemma Pieces(h: seq<u8>, name: seq<u8>, extra: seq<u8>, data: seq<u8>, d: seq<u8>)
    requires |h| == 30
    ensures var b := h + name + extra + data + d;
            var i := 30 + |name|;
            var j := i + |extra|;
            && b == h + (name + extra + data + d)
            && b[30..i] == name && b[i..j] == extra && b[j..j + |data|] == data && b[j + |data|..] == d
  {
  }

  // ---- The central directory ----

  lemma CentralStarts()
    ensures |CENTRAL_WIDTHS| == 16
    ensures Start(CENTRAL_WIDTHS, 0) == 0 && CENTRAL_WIDTHS[0] == 2
    ensures Start(CENTRAL_WIDTHS, 1) == 2 && CENTRAL_WIDTHS[1] == 2
    ensures Start(CENTRAL_WIDTHS, 2) == 4 && CENTRAL_WIDTHS[2] == 2
    ensures Start(CENTRAL_WIDTHS, 3) == 6 && CENTRAL_WIDTHS[3] == 2
    ensures Start(CENTRAL_WIDTHS, 4) == 8 && CENTRAL_WIDTHS[4] == 2
    ensures Start(CENTRAL_WIDTHS, 5) == 10 && CENTRAL_WIDTHS[5] == 2
    ensures Start(CENTRAL_WIDTHS, 6) == 12 && CENTRAL_WIDTHS[6] == 4
    ensures Start(CENTRAL_WIDTHS, 7) == 16 && CENTRAL_WIDTHS[7] == 4
    ensures Start(CENTRAL_WIDTHS, 8) == 20 && CENTRAL_WIDTHS[8] == 4
    ensures Start(CENTRAL_WIDTHS, 9) == 24 && CENTRAL_WIDTHS[9] == 2
    ensures Start(CENTRAL_WIDTHS, 10) == 26 && CENTRAL_WIDTHS[10] == 2
    ensures Start(CENTRAL_WIDTHS, 11) == 28 && CENTRAL_WIDTHS[11] == 2
    ensures Start(CENTRAL_WIDTHS, 12) == 30 && CENTRAL_WIDTHS[12] == 2
    ensures Start(CENTRAL_WIDTHS, 13) == 32 && CENTRAL_WIDTHS[13] == 2
    ensures Start(CENTRAL_WIDTHS, 14) == 34 && CENTRAL_WIDTHS[14] == 4
    ensures Start(CENTRAL_WIDTHS, 15) == 38 && CENTRAL_WIDTHS[15] == 4
  {
  }

  /** A central directory header, and what stands behind it. */
  lemma CentralRecord(c: CentralEntry)
    ensures var b := CentralBytes(c);
            var n, large := |c.name|, c.zip64 || c.offset > 0xFFFF_FFFF;
            && |b| == 46 + n + (if large then 28 else 0)
            && b[0..4] == [0x50, 0x4B, 0x01, 0x02]
            && b[4..6] == [45, 0] && b[6..8] == [45, 0] && b[8..10] == [8, 0] && b[10..12] == [0, 0]
            && b[12..14] == [0, 0] && b[14..16] == [0, 0] && b[16..20] == Four(c.crc)
            && b[20..24] == (if large then [255, 255, 255, 255] else Four(c.size))
            && b[24..28] == (if large then [255, 255, 255, 255] else Four(c.size))
            && b[28..30] == Two(n) && b[30..32] == (if large then [28, 0] else [0, 0])
            && b[32..34] == [0, 0] && b[34..36] == [0, 0] && b[36..38] == [0, 0] && b[38..42] == [0, 0, 0, 0]
            && b[42..46] == (if large then [255, 255, 255, 255] else Four(c.offset))
            && b[46..46 + n] == c.name
            && b[46 + n..] == (if large then [1, 0, 24, 0] + Eight(c.size) + Eight(c.size) + Eight(c.offset) else [])
  {
    var large := c.zip64 || c.offset > MAX_U32;
    var sig, v, w := LE(CENTRAL_SIG, 4), CentralFields(c, large), CENTRAL_WIDTHS;
    var extra := CentralExtra(c.size, c.offset, large);
    var tail := c.name + extra;
    CentralExtraRecord(c.size, c.offset);
    CentralLength(c);
    ExtraLengths(c.size, c.offset, large);
    CentralFront(c, large, tail);
    CentralMiddle(c, large, tail);
    CentralBack(c, large, tail);
    WidthSums();
    FieldsLength(v, w);
    hide LE;
    hide Fields;
    hide Two;
    hide Four;
    hide Eight;
    hide CentralExtra;
    CentralPieces(sig + Fields(v, w), c.name, extra);
  }

  lemma CentralPieces(h: seq<u8>, name: seq<u8>, extra: seq<u8>)
    requires |h| == 46
    ensures var b := h + name + extra;
            b == h + (name + extra) && b[46..46 + |name|] == name && b[46 + |name|..] == extra
  {
  }

  lemma CentralFront(c: CentralEntry, large: bool, tail: seq<u8>)
    ensures var b := LE(CENTRAL_SIG, 4) + Fields(CentralFields(c, large), CENTRAL_WIDTHS) + tail;
            && |b| >= 24
            && b[0..4] == [0x50, 0x4B, 0x01, 0x02]
            && b[4..6] == [45, 0] && b[6..8] == [45, 0] && b[8..10] == [8, 0] && b[10..12] == [0, 0]
            && b[12..14] == [0, 0] && b[14..16] == [0, 0] && b[16..20] == Four(c.crc)
            && b[20..24] == (if large then [255, 255, 255, 255] else Four(c.size))
  {
    Signatures();
    SmallNumbers();
    LittleEndian(c.crc); LittleEndian(c.size);
    CentralStarts();
    hide LE;
    hide Fields;
    hide Start;
    hide Two;
    hide Four;
    hide Eight;
    var sig, v, w := LE(CENTRAL_SIG, 4), CentralFields(c, large), CENTRAL_WIDTHS;
    assert sig + Fields(v, w) + tail == sig + (Fields(v, w) + tail);
    FieldBehind(sig, v, w, tail, 0, 4, 2); FieldBehind(sig, v, w, tail, 1, 6, 2);
    FieldBehind(sig, v, w, tail, 2, 8, 2); FieldBehind(sig, v, w, tail, 3, 10, 2);
    FieldBehind(sig, v, w, tail, 4, 12, 2); FieldBehind(sig, v, w, tail, 5, 14, 2);
    FieldBehind(sig, v, w, tail, 6, 16, 4); FieldBehind(sig, v, w, tail, 7, 20, 4);
  }

  lemma CentralMiddle(c: CentralEntry, large: bool, tail: seq<u8>)
    ensures var b := LE(CENTRAL_SIG, 4) + Fields(CentralFields(c, large), CENTRAL_WIDTHS) + tail;
            && |b| >= 34
            && b[24..28] == (if large then [255, 255, 255, 255] else Four(c.size))
            && b[28..30] == Two(|c.name|) && b[30..32] == (if large then [28, 0] else [0, 0])
            && b[32..34] == [0, 0]
  {
    SmallNumbers();
    LittleEndian(c.size); LittleEndian(|c.name|);
    CentralStarts();
    hide LE;
    hide Fields;
    hide Start;
    hide Two;
    hide Four;
    hide Eight;
    var sig, v, w := LE(CENTRAL_SIG, 4), CentralFields(c, large), CENTRAL_WIDTHS;
    FieldBehind(sig, v, w, tail, 8, 24, 4); FieldBehind(sig, v, w, tail, 9, 28, 2);
    FieldBehind(sig, v, w, tail, 10, 30, 2); FieldBehind(sig, v, w, tail, 11, 32, 2);
  }

  lemma CentralBack(c: CentralEntry, large: bool, tail: seq<u8>)
    ensures var b := LE(CENTRAL_SIG, 4) + Fields(CentralFields(c, large), CENTRAL_WIDTHS) + tail;
            && |b| >= 46
            && b[34..36] == [0, 0] && b[36..38] == [0, 0] && b[38..42] == [0, 0, 0, 0]
            && b[42..46] == (if large then [255, 255, 255, 255] else Four(c.offset))
  {
    SmallNumbers();
    LittleEndian(c.offset);
    CentralStarts();
    hide LE;
    hide Fields;
    hide Start;
    hide Two;
    hide Four;
    hide Eight;
    var sig, v, w := LE(CENTRAL_SIG, 4), CentralFields(c, large), CENTRAL_WIDTHS;
    FieldBehind(sig, v, w, tail, 12, 34, 2); FieldBehind(sig, v, w, tail, 13, 36, 2);
    FieldBehind(sig, v, w, tail, 14, 38, 4); FieldBehind(sig, v, w, tail, 15, 42, 4);
  }

  /** The Zip64 extra of a central directory header. */
  lemma CentralExtraRecord(size: nat, offset: nat)
    ensures CentralExtra(size, offset, true) == [1, 0, 24, 0] + Eight(size) + Eight(size) + Eight(offset)
    ensures CentralExtra(size, offset, false) == []
  {
    SmallNumbers();
    LittleEndian(size);
    LittleEndian(offset);
    Unrolled4(24, size, size, offset, 2, 8, 8, 8);
    FieldsCons(ZIP64_ID, [24, size, size, offset], 2, [2, 8, 8, 8]);
    assert [ZIP64_ID] + [24, size, size, offset] == [ZIP64_ID, 24, size, size, offset];
    assert [2] + [2, 8, 8, 8] == [2, 2, 8, 8, 8];
    hide LE;
    hide Fields;
    hide Eight;
    FrontGrouped([1, 0], [24, 0], Eight(size), Eight(size), Eight(offset));
    assert [1, 0] + [24, 0] == [1, 0, 24, 0];
  }

  lemma FrontGrouped(a: seq<u8>, b: seq<u8>, c: seq<u8>, d: seq<u8>, e: seq<u8>)
    ensures a + (b + c + d + e) == a + b + c + d + e
  {
  }

  // ---- The end records ----

  lemma EndStarts()
    ensures |END_WIDTHS| == 7
    ensures Start(END_WIDTHS, 0) == 0 && END_WIDTHS[0] == 2
    ensures Start(END_WIDTHS, 1) == 2 && END_WIDTHS[1] == 2
    ensures Start(END_WIDTHS, 2) == 4 && END_WIDTHS[2] == 2
    ensures Start(END_WIDTHS, 3) == 6 && END_WIDTHS[3] == 2
    ensures Start(END_WIDTHS, 4) == 8 && END_WIDTHS[4] == 4
    ensures Start(END_WIDTHS, 5) == 12 && END_WIDTHS[5] == 4
    ensures Start(END_WIDTHS, 6) == 16 && END_WIDTHS[6] == 2
  {
  }

  lemma End64Starts()
    ensures |END64_WIDTHS| == 9
    ensures Start(END64_WIDTHS, 0) == 0 && END64_WIDTHS[0] == 8
    ensures Start(END64_WIDTHS, 1) == 8 && END64_WIDTHS[1] == 2
    ensures Start(END64_WIDTHS, 2) == 10 && END64_WIDTHS[2] == 2
    ensures Start(END64_WIDTHS, 3) == 12 && END64_WIDTHS[3] == 4
    ensures Start(END64_WIDTHS, 4) == 16 && END64_WIDTHS[4] == 4
    ensures Start(END64_WIDTHS, 5) == 20 && END64_WIDTHS[5] == 8
    ensures Start(END64_WIDTHS, 6) == 28 && END64_WIDTHS[6] == 8
    ensures Start(END64_WIDTHS, 7) == 36 && END64_WIDTHS[7] == 8
    ensures Start(END64_WIDTHS, 8) == 44 && END64_WIDTHS[8] == 8
  {
  }

  lemma LocatorStarts()
    ensures |LOCATOR64_WIDTHS| == 3
    ensures Start(LOCATOR64_WIDTHS, 0) == 0 && LOCATOR64_WIDTHS[0] == 4
    ensures Start(LOCATOR64_WIDTHS, 1) == 4 && LOCATOR64_WIDTHS[1] == 8
    ensures Start(LOCATOR64_WIDTHS, 2) == 12 && LOCATOR64_WIDTHS[2] == 4
  {
  }

  /** The end of central directory record, with markers when the Zip64 records are needed. */
  lemma EndRecordLayout(count: nat, size: nat, offset: nat)
    ensures var b := EndRecord(count, size, offset);
            var large := count > 0xFFFF || size > 0xFFFF_FFFF || offset > 0xFFFF_FFFF;
            && |b| == 22 && b[0..4] == [0x50, 0x4B, 0x05, 0x06]
            && b[4..6] == [0, 0] && b[6..8] == [0, 0]
            && b[8..10] == (if large then [255, 255] else Two(count))
            && b[10..12] == (if large then [255, 255] else Two(count))
            && b[12..16] == (if large then [255, 255, 255, 255] else Four(size))
            && b[16..20] == (if large then [255, 255, 255, 255] else Four(offset))
            && b[20..22] == [0, 0]
  {
    Signatures();
    SmallNumbers();
    LittleEndian(count); LittleEndian(size); LittleEndian(offset);
    EndStarts();
    EndLengths(count, size, offset);
    hide LE;
    hide Fields;
    hide Start;
    hide Two;
    hide Four;
    hide Eight;
    var sig, v, w, tail := LE(END_SIG, 4), EndFields(count, size, offset), END_WIDTHS, [];
    assert sig + Fields(v, w) + tail == EndRecord(count, size, offset);
    FieldBehind(sig, v, w, tail, 0, 4, 2); FieldBehind(sig, v, w, tail, 1, 6, 2);
    FieldBehind(sig, v, w, tail, 2, 8, 2); FieldBehind(sig, v, w, tail, 3, 10, 2);
    FieldBehind(sig, v, w, tail, 4, 12, 4); FieldBehind(sig, v, w, tail, 5, 16, 4);
    FieldBehind(sig, v, w, tail, 6, 20, 2);
  }

  /** The Zip64 end record and its locator, exactly when a number is too large for the end record. */
  lemma End64Layout(count: nat, size: nat, offset: nat)
    ensures var b := End64Records(count, size, offset);
            if count > 0xFFFF || size > 0xFFFF_FFFF || offset > 0xFFFF_FFFF then
              && |b| == 76 && b[0..4] == [0x50, 0x4B, 0x06, 0x06] && b[4..12] == [44, 0, 0, 0, 0, 0, 0, 0]
              && b[12..14] == [45, 0] && b[14..16] == [45, 0] && b[16..20] == [0, 0, 0, 0] && b[20..24] == [0, 0, 0, 0]
              && b[24..32] == Eight(count) && b[32..40] == Eight(count)
              && b[40..48] == Eight(size) && b[48..56] == Eight(offset)
              && b[56..60] == [0x50, 0x4B, 0x06, 0x07] && b[60..64] == [0, 0, 0, 0]
              && b[64..72] == Eight(offset + size) && b[72..76] == [1, 0, 0, 0]
            else b == []
  {
    if NeedsEnd64(count, size, offset) {
      End64Whole(count, size, offset);
    }
  }

  lemma End64Whole(count: nat, size: nat, offset: nat)
    requires NeedsEnd64(count, size, offset)
    ensures var b := End64Records(count, size, offset);
            && |b| == 76 && b[0..4] == [0x50, 0x4B, 0x06, 0x06] && b[4..12] == [44, 0, 0, 0, 0, 0, 0, 0]
            && b[12..14] == [45, 0] && b[14..16] == [45, 0] && b[16..20] == [0, 0, 0, 0] && b[20..24] == [0, 0, 0, 0]
            && b[24..32] == Eight(count) && b[32..40] == Eight(count)
            && b[40..48] == Eight(size) && b[48..56] == Eight(offset)
            && b[56..60] == [0x50, 0x4B, 0x06, 0x07] && b[60..64] == [0, 0, 0, 0]
            && b[64..72] == Eight(offset + size) && b[72..76] == [1, 0, 0, 0]
  {
    var v, w := [44, VERSION, VERSION, 0, 0, count, count, size, offset], END64_WIDTHS;
    var front := LE(END64_SIG, 4) + Fields(v, w);
    var locator := LE(LOCATOR64_SIG, 4) + Fields([0, offset + size, 1], LOCATOR64_WIDTHS);
    EndLengths(count, size, offset);
    assert End64Records(count, size, offset) == front + locator;
    LocatorRecord(offset + size);
    hide LE;
    hide Fields;
    hide Eight;
    hide End64Records;
    End64Record(count, size, offset, locator);
    Joined(front, locator);
  }

  lemma Joined(a: seq<u8>, b: seq<u8>)
    requires |a| == 56 && |b| == 20
    ensures var s := a + b;
            && s[56..60] == b[0..4] && s[60..64] == b[4..8] && s[64..72] == b[8..16] && s[72..76] == b[16..20]
  {
  }

  lemma End64Record(count: nat, size: nat, offset: nat, tail: seq<u8>)
    ensures var b := LE(END64_SIG, 4)
                     + Fields([44, VERSION, VERSION, 0, 0, count, count, size, offset], END64_WIDTHS) + tail;
            && |b| >= 56 && b[0..4] == [0x50, 0x4B, 0x06, 0x06] && b[4..12] == [44, 0, 0, 0, 0, 0, 0, 0]
            && b[12..14] == [45, 0] && b[14..16] == [45, 0] && b[16..20] == [0, 0, 0, 0] && b[20..24] == [0, 0, 0, 0]
            && b[24..32] == Eight(count) && b[32..40] == Eight(count)
            && b[40..48] == Eight(size) && b[48..56] == Eight(offset)
  {
    Signatures();
    SmallNumbers();
    LittleEndian(count); LittleEndian(size); LittleEndian(offset);
    End64Starts();
    hide LE;
    hide Fields;
    hide Start;
    hide Two;
    hide Four;
    hide Eight;
    var sig, v, w := LE(END64_SIG, 4), [44, VERSION, VERSION, 0, 0, count, count, size, offset], END64_WIDTHS;
    assert sig + Fields(v, w) + tail == sig + (Fields(v, w) + tail);
    FieldBehind(sig, v, w, tail, 0, 4, 8); FieldBehind(sig, v, w, tail, 1, 12, 2);
    FieldBehind(sig, v, w, tail, 2, 14, 2); FieldBehind(sig, v, w, tail, 3, 16, 4);
    FieldBehind(sig, v, w, tail, 4, 20, 4); FieldBehind(sig, v, w, tail, 5, 24, 8);
    FieldBehind(sig, v, w, tail, 6, 32, 8); FieldBehind(sig, v, w, tail, 7, 40, 8);
    FieldBehind(sig, v, w, tail, 8, 48, 8);
  }

  lemma LocatorRecord(at: nat)
    ensures var b := LE(LOCATOR64_SIG, 4) + Fields([0, at, 1], LOCATOR64_WIDTHS);
            && |b| == 20 && b[0..4] == [0x50, 0x4B, 0x06, 0x07] && b[4..8] == [0, 0, 0, 0]
            && b[8..16] == Eight(at) && b[16..20] == [1, 0, 0, 0]
  {
    Signatures();
    SmallNumbers();
    LittleEndian(at);
    LocatorStarts();
    WidthSums();
    FieldsLength([0, at, 1], LOCATOR64_WIDTHS);
    hide LE;
    hide Fields;
    hide Start;
    hide Two;
    hide Four;
    hide Eight;
    var sig, v, w, tail := LE(LOCATOR64_SIG, 4), [0, at, 1], LOCATOR64_WIDTHS, [];
    assert sig + Fields(v, w) + tail == sig + Fields(v, w);
    FieldBehind(sig, v, w, tail, 0, 4, 4); FieldBehind(sig, v, w, tail, 1, 8, 8);
    FieldBehind(sig, v, w, tail, 2, 16, 4);
  }
}
