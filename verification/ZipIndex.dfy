/**
 * A reader that starts from the end records, as PKWARE APPNOTE.TXT describes it (sections
 * 4.3.16, 4.3.15, 4.3.14, 4.3.12 and 4.5.3), and what it finds in a written archive.
 */
module ZipIndex {
  import opened Wrappers
  import opened Bytes
  import opened ZipFormat
  import opened ZipReader
  import opened ZipRoundTrip
  import opened ZipWriter
  import Crc32

  const TOO_LONG := 0x1_0000_0000_0000_0000

  datatype Directory = Directory(count: nat, size: nat, offset: nat)

  /** A central entry, sizes and offset already taken from the Zip64 extra where they apply. */
  datatype Located = Located(name: seq<u8>, crc: nat, csize: nat, usize: nat, offset: nat)

  // ---- The reader ----

  function ReadRecord(s: seq<u8>, at: int, sig: nat, widths: seq<nat>): (r: Option<seq<nat>>)
    ensures r.Some? ==> |r.value| == |widths|
  {
    if !(0 <= at <= |s| - 4) || Value(s[at..at + 4]) != sig then None
    else
      var (f, _) :- ReadFields(s[at + 4..], widths);
      Some(f)
  }

  /** End record; with a field at its maximum, the Zip64 locator and record. */
  function FindDirectory(s: seq<u8>): Option<Directory> {
    var end := |s| - 22;
    var f :- ReadRecord(s, end, END_SIG, END_WIDTHS);
    if f[3] == MAX_U16 || f[4] == SENTINEL || f[5] == SENTINEL then
      var l :- ReadRecord(s, end - 20, LOCATOR64_SIG, LOCATOR64_WIDTHS);
      var r :- ReadRecord(s, l[1], END64_SIG, END64_WIDTHS);
      Some(Directory(r[6], r[7], r[8]))
    else Some(Directory(f[3], f[4], f[5]))
  }

  /** The content of the Zip64 block, empty when there is none. */
  function Zip64Block(extra: seq<u8>): seq<u8> {
    if |extra| < 4 then []
    else
      var len := Value(extra[2..4]);
      if 4 + len > |extra| then []
      else if Value(extra[..2]) == ZIP64_ID then extra[4..4 + len]
      else Zip64Block(extra[4 + len..])
  }

  /** A field, or the next eight bytes of the block when it holds the marker. */
  function Widen(field: nat, block: seq<u8>): Option<(nat, seq<u8>)> {
    if field != SENTINEL then Some((field, block))
    else if |block| < 8 then None
    else Some((Value(block[..8]), block[8..]))
  }

  function ReadLocated(s: seq<u8>): Option<(Located, seq<u8>)> {
    if |s| < 4 || Value(s[..4]) != CENTRAL_SIG then None
    else
      var (f, s1) :- ReadFields(s[4..], CENTRAL_WIDTHS);
      if |s1| < f[9] + f[10] + f[11] then None
      else
        var (usize, csize, offset) :- Resolve(f[8], f[7], f[15], Zip64Block(s1[f[9]..f[9] + f[10]]));
        Some((Located(s1[..f[9]], f[6], csize, usize, offset), s1[f[9] + f[10] + f[11]..]))
  }

  /** Uncompressed size, compressed size and offset, in the order in which the block has them. */
  function Resolve(usize: nat, csize: nat, offset: nat, block: seq<u8>): Option<(nat, nat, nat)> {
    var (u, b1) :- Widen(usize, block);
    var (c, b2) :- Widen(csize, b1);
    var (o, _) :- Widen(offset, b2);
    Some((u, c, o))
  }

  function ReadDirectory(s: seq<u8>, count: nat): Option<seq<Located>>
    decreases count
  {
    if count == 0 then Some([])
    else
      var (l, rest) :- ReadLocated(s);
      var ls :- ReadDirectory(rest, count - 1);
      Some([l] + ls)
  }

  /** At the located offset there is a local entry that says the same, its checksum included. */
  predicate LocalAgrees(s: seq<u8>, l: Located) {
    && l.offset + 4 <= |s| && Value(s[l.offset..l.offset + 4]) == LOCAL_SIG
    && match ParseHeader(s[l.offset + 4..])
       case Err(_) => false
       case Ok((h, after)) =>
         && h.name == l.name && h.csize == l.csize && h.usize == l.usize
         && HasDescriptor(h.flags) && |after| >= l.csize
         && l.crc == Crc32.Of(after[..l.csize])
         && var d := ParseDescriptor(after[l.csize..], h.zip64);
            d.Some? && d.value.0 == (l.crc, l.csize, l.usize)
  }

  // ---- The end records ----

  lemma RecordAt(before: seq<u8>, sig: nat, vals: seq<nat>, widths: seq<nat>, tail: seq<u8>)
    requires sig < Pow256(4) && Fit(vals, widths)
    ensures ReadRecord(before + (LE(sig, 4) + Fields(vals, widths)) + tail, |before|, sig, widths) == Some(vals)
  {
    hide Fields;
    hide ReadFields;
    hide LE;
    hide Value;
    var s := before + (LE(sig, 4) + Fields(vals, widths)) + tail;
    var at := |before|;
    assert s[at..at + 4] == LE(sig, 4);
    assert s[at + 4..] == Fields(vals, widths) + tail;
    ValueOfLE(sig, 4);
    FieldsRoundTrip(vals, widths, tail);
  }

  /** A plain end record with a value that reads as the Zip64 marker. */
  predicate EndAmbiguous(count: nat, size: nat, offset: nat) {
    !NeedsEnd64(count, size, offset) && (count == MAX_U16 || size == SENTINEL || offset == SENTINEL)
  }

  /** The Zip64 records are found from the locator in front of the end record. */
  lemma End64Found(before: seq<u8>, count: nat, size: nat, offset: nat, end: seq<u8>)
    requires NeedsEnd64(count, size, offset)
    requires |before| == offset + size < TOO_LONG && count < TOO_LONG && |end| == 22
    ensures var s := before + End64Records(count, size, offset) + end;
            && |s| == |before| + 98
            && ReadRecord(s, |s| - 42, LOCATOR64_SIG, LOCATOR64_WIDTHS) == Some([0, offset + size, 1])
            && ReadRecord(s, offset + size, END64_SIG, END64_WIDTHS)
               == Some([44, VERSION, VERSION, 0, 0, count, count, size, offset])
  {
    var record, locator := [44, VERSION, VERSION, 0, 0, count, count, size, offset], [0, offset + size, 1];
    EndLengths(count, size, offset);
    End64Fit(count, size, offset);
    BothRecords(before, END64_SIG, record, END64_WIDTHS, LOCATOR64_SIG, locator, LOCATOR64_WIDTHS, end);
    hide Fields;
    hide LE;
    hide ReadRecord;
    hide Fit;
  }

  lemma RecordIs(before: seq<u8>, r: seq<u8>, sig: nat, vals: seq<nat>, widths: seq<nat>, tail: seq<u8>)
    requires sig < Pow256(4) && Fit(vals, widths) && r == LE(sig, 4) + Fields(vals, widths)
    ensures ReadRecord(before + r + tail, |before|, sig, widths) == Some(vals)
  {
    hide *;
    RecordAt(before, sig, vals, widths, tail);
  }

  /** Two records, one behind the other. */
  lemma BothRecords(before: seq<u8>, sigA: nat, a: seq<nat>, widthsA: seq<nat>,
                    sigB: nat, b: seq<nat>, widthsB: seq<nat>, end: seq<u8>)
    requires sigA < Pow256(4) && sigB < Pow256(4) && Fit(a, widthsA) && Fit(b, widthsB)
    requires |a| == |widthsA| && |b| == |widthsB|
    ensures var ra, rb := LE(sigA, 4) + Fields(a, widthsA), LE(sigB, 4) + Fields(b, widthsB);
            var s := before + (ra + rb) + end;
            && ReadRecord(s, |before|, sigA, widthsA) == Some(a)
            && ReadRecord(s, |before| + |ra|, sigB, widthsB) == Some(b)
  {
    hide *;
    var ra, rb := LE(sigA, 4) + Fields(a, widthsA), LE(sigB, 4) + Fields(b, widthsB);
    RecordIs(before + ra, rb, sigB, b, widthsB, end);
    RecordIs(before, ra, sigA, a, widthsA, rb + end);
    Regroup(before, ra, rb, end);
  }

  lemma Regroup(before: seq<u8>, a: seq<u8>, b: seq<u8>, end: seq<u8>)
    ensures before + (a + b) + end == (before + a) + b + end == before + a + (b + end)
    ensures |before + a| == |before| + |a|
  {
  }

  lemma End64Fit(count: nat, size: nat, offset: nat)
    requires offset + size < TOO_LONG && count < TOO_LONG
    ensures LOCATOR64_SIG < Pow256(4) && END64_SIG < Pow256(4)
    ensures Fit([44, VERSION, VERSION, 0, 0, count, count, size, offset], END64_WIDTHS)
    ensures Fit([0, offset + size, 1], LOCATOR64_WIDTHS)
    ensures |Fields([44, VERSION, VERSION, 0, 0, count, count, size, offset], END64_WIDTHS)| == 52
    ensures |Fields([0, offset + size, 1], LOCATOR64_WIDTHS)| == 16
  {
    Widths();
    WidthSums();
    hide Fields;
    hide Sum;
    hide Pow256;
    FieldsLength([44, VERSION, VERSION, 0, 0, count, count, size, offset], END64_WIDTHS);
    FieldsLength([0, offset + size, 1], LOCATOR64_WIDTHS);
  }

  lemma EndFound(before: seq<u8>, count: nat, size: nat, offset: nat)
    requires |before| == offset + size < TOO_LONG && count < TOO_LONG && !EndAmbiguous(count, size, offset)
    ensures FindDirectory(before + End64Records(count, size, offset) + EndRecord(count, size, offset))
            == Some(Directory(count, size, offset))
  {
    Widths();
    EndLengths(count, size, offset);
    hide Fields;
    hide LE;
    hide ReadRecord;
    hide End64Records;
    var end64, end := End64Records(count, size, offset), EndRecord(count, size, offset);
    assert before + end64 + end == (before + end64) + end + [];
    RecordAt(before + end64, END_SIG, EndFields(count, size, offset), END_WIDTHS, []);
    if NeedsEnd64(count, size, offset) {
      End64Found(before, count, size, offset, end);
    }
  }

  /** The end records lead to the central directory. */
  lemma DirectoryFound(es: seq<Entry>)
    requires |Archive(es)| < TOO_LONG && |es| < TOO_LONG
    requires !EndAmbiguous(|es|, |CentralDirectory(es)|, DirectoryOffset(es))
    ensures var at, size := DirectoryOffset(es), |CentralDirectory(es)|;
            && FindDirectory(Archive(es)) == Some(Directory(|es|, size, at))
            && at + size <= |Archive(es)| && Archive(es)[at..at + size] == CentralDirectory(es)
  {
    hide Entries;
    hide Central;
    hide Index;
    hide FindDirectory;
    hide End64Records;
    hide EndRecord;
    var at, size := DirectoryOffset(es), |CentralDirectory(es)|;
    var before := Entries(es, 0) + CentralDirectory(es);
    assert Archive(es) == before + End64Records(|es|, size, at) + EndRecord(|es|, size, at);
    EndFound(before, |es|, size, at);
  }

  // ---- The central directory ----

  /** A field of the entry that is stored plainly and reads as the Zip64 marker. */
  predicate CentralAmbiguous(size: nat, offset: nat) {
    !NeedsZip64(size, offset) && (size == SENTINEL || offset == SENTINEL)
  }

  predicate Recorded(c: CentralEntry) {
    && |c.name| <= MAX_U16 && c.crc <= MAX_U32 && c.size < TOO_LONG && c.offset < TOO_LONG
    && c.zip64 == NeedsZip64(c.size, c.offset) && !CentralAmbiguous(c.size, c.offset)
  }

  lemma BlockFound(x: seq<u8>)
    requires |x| == 28 && Value(x[..2]) == ZIP64_ID && Value(x[2..4]) == 24
    ensures Zip64Block(x) == x[4..28]
  {
    hide Value;
  }

  lemma CentralExtraBlock(size: nat, offset: nat)
    requires size < TOO_LONG && offset < TOO_LONG
    ensures var b := Zip64Block(CentralExtra(size, offset, true));
            && |b| == 24 && Value(b[..8]) == size && Value(b[8..16]) == size && Value(b[16..24]) == offset
  {
    Widths();
    hide LE;
    hide Value;
    hide Zip64Block;
    hide CentralExtra;
    ValueOfLE(ZIP64_ID, 2);
    ValueOfLE(24, 2);
    ValueOfLE(size, 8);
    ValueOfLE(offset, 8);
    CentralExtraLayout(size, offset);
    var x := CentralExtra(size, offset, true);
    BlockFound(x);
    assert x[4..28][..8] == x[4..12] && x[4..28][8..16] == x[12..20] && x[4..28][16..24] == x[20..28];
  }

  lemma CentralExtraLayout(size: nat, offset: nat)
    ensures var x := CentralExtra(size, offset, true);
            && |x| == 28
            && x[..2] == LE(ZIP64_ID, 2) && x[2..4] == LE(24, 2)
            && x[4..12] == LE(size, 8) && x[12..20] == LE(size, 8) && x[20..28] == LE(offset, 8)
  {
    hide LE;
    hide Fields;
    NoFields();
    FieldsCons(offset, [], 8, []);
    assert [offset] + [] == [offset] && [8] + [] == [8];
    FieldsCons(size, [offset], 8, [8]);
    assert [size] + [offset] == [size, offset] && [8] + [8] == [8, 8];
    FieldsCons(size, [size, offset], 8, [8, 8]);
    assert [size] + [size, offset] == [size, size, offset] && [8] + [8, 8] == [8, 8, 8];
    FieldsCons(24, [size, size, offset], 2, [8, 8, 8]);
    assert [24] + [size, size, offset] == [24, size, size, offset] && [2] + [8, 8, 8] == [2, 8, 8, 8];
    FieldsCons(ZIP64_ID, [24, size, size, offset], 2, [2, 8, 8, 8]);
    assert [ZIP64_ID] + [24, size, size, offset] == [ZIP64_ID, 24, size, size, offset]
           && [2] + [2, 8, 8, 8] == [2, 2, 8, 8, 8];
  }

  lemma Resolved(c: CentralEntry)
    requires Recorded(c)
    ensures var f := CentralFields(c, c.zip64);
            Resolve(f[8], f[7], f[15], Zip64Block(CentralExtra(c.size, c.offset, c.zip64)))
            == Some((c.size, c.size, c.offset))
  {
    if c.zip64 {
      CentralExtraBlock(c.size, c.offset);
      hide Zip64Block;
      hide CentralExtra;
      hide Value;
      var b := Zip64Block(CentralExtra(c.size, c.offset, true));
      assert b[8..][..8] == b[8..16] && b[8..][8..][..8] == b[16..24];
    }
  }

  lemma CentralPieces(c: CentralEntry, tail: seq<u8>)
    requires c.zip64 == NeedsZip64(c.size, c.offset)
    ensures var f, extra := Fields(CentralFields(c, c.zip64), CENTRAL_WIDTHS), CentralExtra(c.size, c.offset, c.zip64);
            var s := CentralBytes(c) + tail;
            |s| >= 4 && s[..4] == LE(CENTRAL_SIG, 4) && s[4..] == f + (c.name + extra + tail)
  {
    hide Fields;
    hide LE;
    hide CentralExtra;
    hide CentralFields;
    var f, extra := Fields(CentralFields(c, c.zip64), CENTRAL_WIDTHS), CentralExtra(c.size, c.offset, c.zip64);
    assert CentralBytes(c) + tail == LE(CENTRAL_SIG, 4) + (f + (c.name + extra + tail));
  }

  /** A central entry reads back. */
  lemma LocatedRoundTrip(c: CentralEntry, tail: seq<u8>)
    requires Recorded(c)
    ensures ReadLocated(CentralBytes(c) + tail) ==
            Some((Located(c.name, c.crc, c.size, c.size, c.offset), tail))
  {
    hide Fields;
    hide ReadFields;
    hide LE;
    hide Value;
    hide CentralExtra;
    hide Resolve;
    hide Zip64Block;
    hide CentralBytes;
    hide Fit;
    hide Recorded;
    Resolved(c);
    CentralFits(c);
    var f, extra := CentralFields(c, c.zip64), CentralExtra(c.size, c.offset, c.zip64);
    var s1 := c.name + extra + tail;
    FieldsRoundTrip(f, CENTRAL_WIDTHS, s1);
    CentralPieces(c, tail);
    ThreePieces(c.name, extra, tail);
  }

  lemma CentralFits(c: CentralEntry)
    requires Recorded(c)
    ensures Fit(CentralFields(c, c.zip64), CENTRAL_WIDTHS)
    ensures Value(LE(CENTRAL_SIG, 4)) == CENTRAL_SIG
    ensures |CentralExtra(c.size, c.offset, c.zip64)| == if c.zip64 then 28 else 0
    ensures c.zip64 == NeedsZip64(c.size, c.offset)
  {
    hide LE;
    hide Value;
    hide CentralExtra;
    Widths();
    ExtraLengths(c.size, c.offset, c.zip64);
    ValueOfLE(CENTRAL_SIG, 4);
  }

  lemma ThreePieces(a: seq<u8>, b: seq<u8>, c: seq<u8>)
    ensures var s := a + b + c;
            s[..|a|] == a && s[|a|..|a| + |b|] == b && s[|a| + |b|..] == c
  {
  }

  function View(c: CentralEntry): Located { Located(c.name, c.crc, c.size, c.size, c.offset) }

  function Views(cs: seq<CentralEntry>): (ls: seq<Located>)
    ensures |ls| == |cs| && forall i :: 0 <= i < |cs| ==> ls[i] == View(cs[i])
  {
    if cs == [] then [] else [View(cs[0])] + Views(cs[1..])
  }

  lemma {:induction false} DirectoryRoundTrip(cs: seq<CentralEntry>)
    requires forall c :: c in cs ==> Recorded(c)
    ensures ReadDirectory(Central(cs), |cs|) == Some(Views(cs))
  {
    if cs != [] {
      LocatedRoundTrip(cs[0], Central(cs[1..]));
      DirectoryRoundTrip(cs[1..]);
      hide ReadLocated;
      hide CentralBytes;
    }
  }

  // ---- Agreement ----

  /** No entry of the index has a field that is mistaken for the marker. */
  predicate Indexable(es: seq<Entry>) {
    forall c :: c in Index(es, 0) ==> !CentralAmbiguous(c.size, c.offset)
  }

  /** Where the `i`-th entry starts. */
  function Start(es: seq<Entry>, i: nat): nat
    requires i <= |es|
  {
    |Entries(es[..i], 0)|
  }

  lemma LayoutAround(a: seq<Entry>, e: Entry, b: seq<Entry>)
    ensures var at := |Entries(a, 0)|;
            var next := at + |EntryBytes(e, at)|;
            && Entries(a + ([e] + b), 0) == Entries(a, 0) + (EntryBytes(e, at) + Entries(b, next))
            && Index(a + ([e] + b), 0) == Index(a, 0) + ([CentralOf(e, at)] + Index(b, next))
  {
    hide *;
    LayoutConcat(a, [e] + b, 0);
    LaidOut([e] + b, |Entries(a, 0)|);
    assert ([e] + b)[1..] == b;
  }

  /** The index has the `i`-th entry where it stands. */
  lemma IndexedEntry(es: seq<Entry>, i: nat)
    requires i < |es|
    ensures var at := Start(es, i);
            && Index(es, 0)[i] == CentralOf(es[i], at)
            && at <= |Entries(es, 0)| && EntryBytes(es[i], at) <= Entries(es, 0)[at..]
  {
    hide *;
    var a, e, b := es[..i], es[i], es[i + 1..];
    var at := Start(es, i);
    StartIs(es, i);
    Around(es, i);
    LayoutAround(a, e, b);
    var next := at + |EntryBytes(e, at)|;
    SkipFront(Entries(es, 0), Entries(a, 0), EntryBytes(e, at), Entries(b, next));
    SkipIndex(Index(es, 0), Index(a, 0), CentralOf(e, at), Index(b, next), i);
  }

  lemma StartIs(es: seq<Entry>, i: nat)
    requires i <= |es|
    ensures Start(es, i) == |Entries(es[..i], 0)|
  {
  }

  lemma Around<T>(s: seq<T>, i: nat)
    requires i < |s|
    ensures s == s[..i] + ([s[i]] + s[i + 1..])
  {
  }

  lemma SkipIndex(all: seq<CentralEntry>, a: seq<CentralEntry>, c: CentralEntry, b: seq<CentralEntry>, i: nat)
    requires all == a + ([c] + b) && |a| == i
    ensures i < |all| && all[i] == c
  {
  }

  lemma SkipFront(all: seq<u8>, a: seq<u8>, b: seq<u8>, c: seq<u8>)
    requires all == a + (b + c)
    ensures |a| <= |all| && b <= all[|a|..]
  {
    assert all[|a|..] == b + c;
  }

  /** A written entry agrees with what the index says of it, wherever it stands. */
  lemma EntryAgrees(e: Entry, offset: nat, s: seq<u8>)
    requires Written(e) && !CentralAmbiguous(|e.data|, offset)
    requires offset <= |s| && EntryBytes(e, offset) <= s[offset..]
    ensures LocalAgrees(s, Located(e.name, Crc32.Of(e.data), |e.data|, |e.data|, offset))
  {
    var zip64 := NeedsZip64(|e.data|, offset);
    var f := Fields(LocalFields(|e.name|, |e.data|, zip64), LOCAL_WIDTHS);
    var extra, closing := LocalExtra(|e.data|, zip64), Descriptor(e, zip64);
    var tail := s[offset..][|EntryBytes(e, offset)|..];
    assert !zip64 ==> |e.data| <= MAX_U32;
    assert !Ambiguous(e, offset);
    hide *;
    EntryLayout(e, offset);
    assert s[offset..] == EntryBytes(e, offset) + tail;
    LocalSignature();
    HeaderRoundTrip(e, offset, e.data + (closing + tail));
    DescriptorRoundTrip(e, zip64, tail);
    EntryPieces(LE(LOCAL_SIG, 4), f, e.name, extra, e.data, closing, tail);
    Placed(s, offset, LE(LOCAL_SIG, 4), f + (e.name + (extra + (e.data + (closing + tail)))));
    Agrees(e, offset, s, zip64, closing + tail);
  }

  lemma LocalSignature()
    ensures Value(LE(LOCAL_SIG, 4)) == LOCAL_SIG
  {
    Widths();
    ValueOfLE(LOCAL_SIG, 4);
  }

  lemma Placed(s: seq<u8>, offset: nat, sig: seq<u8>, s1: seq<u8>)
    requires offset <= |s| && s[offset..] == sig + s1 && |sig| == 4
    ensures offset + 4 <= |s| && s[offset..offset + 4] == sig && s[offset + 4..] == s1
  {
    assert s[offset..][..4] == sig && s[offset..][4..] == s1;
  }

  lemma Agrees(e: Entry, offset: nat, s: seq<u8>, zip64: bool, closing: seq<u8>)
    requires offset + 4 <= |s| && Value(s[offset..offset + 4]) == LOCAL_SIG
    requires ParseHeader(s[offset + 4..]) ==
             Ok((Header(e.name, FLAGS, 0, zip64, |e.data|, |e.data|), e.data + closing))
    requires var d := ParseDescriptor(closing, zip64);
             d.Some? && d.value.0 == (Crc32.Of(e.data), |e.data|, |e.data|)
    ensures LocalAgrees(s, Located(e.name, Crc32.Of(e.data), |e.data|, |e.data|, offset))
  {
    hide ParseHeader;
    hide ParseDescriptor;
    hide Crc32.Of;
    hide Value;
    assert (e.data + closing)[..|e.data|] == e.data && (e.data + closing)[|e.data|..] == closing;
  }

  /** Entry by entry, the list has its name, checksum and size and leads to its local entry. */
  predicate Lists(ls: seq<Located>, es: seq<Entry>, s: seq<u8>) {
    && |ls| == |es|
    && forall i :: 0 <= i < |es| ==>
         && ls[i].name == es[i].name && ls[i].usize == |es[i].data| && ls[i].crc == Crc32.Of(es[i].data)
         && LocalAgrees(s, ls[i])
  }

  /** What the index records of the `i`-th entry is true of it, and of the bytes at its offset. */
  lemma IndexedAgrees(es: seq<Entry>, s: seq<u8>, i: nat)
    requires i < |es| && AllWritten(es) && Indexable(es)
    requires |Entries(es, 0)| < TOO_LONG && Entries(es, 0) <= s
    ensures var c := Index(es, 0)[i];
            && c == CentralOf(es[i], Start(es, i)) && Recorded(c)
            && LocalAgrees(s, View(c))
  {
    var e, at := es[i], Start(es, i);
    IndexedEntry(es, i);
    assert Index(es, 0)[i] in Index(es, 0);
    RecordedEntry(e, at);
    assert s[..|Entries(es, 0)|] == Entries(es, 0);
    hide *;
    Longer(EntryBytes(e, at), Entries(es, 0)[at..], s, at, |Entries(es, 0)|);
    EntryAgrees(e, at, s);
  }

  lemma RecordedEntry(e: Entry, at: nat)
    requires Written(e) && at < TOO_LONG
    ensures !CentralAmbiguous(|e.data|, at) <==> Recorded(CentralOf(e, at))
    ensures View(CentralOf(e, at)) == Located(e.name, Crc32.Of(e.data), |e.data|, |e.data|, at)
  {
    Crc32.OfBound(e.data);
    hide Crc32.Of;
  }

  lemma ViewAgrees(es: seq<Entry>, s: seq<u8>, i: nat)
    requires i < |es| && AllWritten(es) && Indexable(es)
    requires |Entries(es, 0)| < TOO_LONG && Entries(es, 0) <= s
    ensures var c := Index(es, 0)[i];
            && Recorded(c) && LocalAgrees(s, View(c))
            && c.name == es[i].name && c.size == |es[i].data| && c.crc == Crc32.Of(es[i].data)
  {
    IndexedAgrees(es, s, i);
    hide Entries;
    hide Index;
    hide Start;
    hide LocalAgrees;
    hide Crc32.Of;
  }

  lemma ViewsList(es: seq<Entry>, s: seq<u8>)
    requires AllWritten(es) && Indexable(es) && |Entries(es, 0)| < TOO_LONG && Entries(es, 0) <= s
    ensures Lists(Views(Index(es, 0)), es, s) && forall c :: c in Index(es, 0) ==> Recorded(c)
  {
    var cs := Index(es, 0);
    hide LocalAgrees;
    hide AllWritten;
    hide Indexable;
    hide Entries;
    hide Index;
    hide Views;
    hide Recorded;
    hide Crc32.Of;
    forall i | 0 <= i < |es|
      ensures Recorded(cs[i]) && LocalAgrees(s, View(cs[i]))
      ensures cs[i].name == es[i].name && cs[i].size == |es[i].data| && cs[i].crc == Crc32.Of(es[i].data)
    {
      ViewAgrees(es, s, i);
    }
  }

  /**
   * Index agreement: the end records lead to a directory of the recorded place, size and
   * count; it lists every entry with its name, checksum and size; and each listed offset
   * is that of a local entry that agrees with it.
   */
  lemma IndexAgreement(es: seq<Entry>)
    requires AllWritten(es) && |Archive(es)| < TOO_LONG && |es| < TOO_LONG && Indexable(es)
    requires !EndAmbiguous(|es|, |CentralDirectory(es)|, DirectoryOffset(es))
    ensures FindDirectory(Archive(es)) == Some(Directory(|es|, |CentralDirectory(es)|, DirectoryOffset(es)))
    ensures DirectoryOffset(es) + |CentralDirectory(es)| <= |Archive(es)|
    ensures var directory := Archive(es)[DirectoryOffset(es)..DirectoryOffset(es) + |CentralDirectory(es)|];
            var listed := ReadDirectory(directory, |es|);
            listed.Some? && Lists(listed.value, es, Archive(es))
  {
    var s := Archive(es);
    assert s[..|Entries(es, 0)|] == Entries(es, 0) && DirectoryOffset(es) == |Entries(es, 0)|;
    assert CentralDirectory(es) == Central(Index(es, 0));
    hide *;
    DirectoryFound(es);
    ViewsList(es, s);
    DirectoryRoundTrip(Index(es, 0));
  }

  lemma Longer(b: seq<u8>, within: seq<u8>, s: seq<u8>, from: nat, at: nat)
    requires from <= at <= |s| && within == s[..at][from..] && b <= within
    ensures b <= s[from..]
  {
    assert s[from..][..at - from] == within;
  }
}
