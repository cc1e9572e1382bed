/**
 * What the reader accepts, said of the positions in its input: every file it restores has the
 * checksum that is recorded for it, and damaged data is refused.
 */
module ZipIntegrity {
  import opened Wrappers
  import opened Bytes
  import opened ZipFormat
  import opened ZipPath
  import opened Dest
  import opened ZipReader
  import opened ZipLayout
  import Crc32
  import Text

  // ---- Numbers at positions ----

  function U16(s: seq<u8>, i: nat): nat
    requires i + 2 <= |s|
  {
    s[i] as int + 256 * (s[i + 1] as int)
  }

  function U32(s: seq<u8>, i: nat): nat
    requires i + 4 <= |s|
  {
    U16(s, i) + 65536 * U16(s, i + 2)
  }

  function U64(s: seq<u8>, i: nat): nat
    requires i + 8 <= |s|
  {
    U32(s, i) + 4294967296 * U32(s, i + 4)
  }

  lemma ValueTwo(s: seq<u8>, i: nat, j: nat)
    requires i + 2 <= j <= |s|
    ensures Value(s[i..j]) == U16(s, i) + 65536 * Value(s[i + 2..j])
  {
    var t := s[i..j];
    assert t[1..][1..] == s[i + 2..j];
    assert Value(t) == t[0] as int + 256 * Value(t[1..]);
    assert Value(t[1..]) == t[1] as int + 256 * Value(t[1..][1..]);
  }

  lemma NoValue(s: seq<u8>, i: nat)
    requires i <= |s|
    ensures Value(s[i..i]) == 0
  {
  }

  lemma ValueAt(s: seq<u8>, i: nat)
    ensures i + 2 <= |s| ==> Value(s[i..i + 2]) == U16(s, i)
    ensures i + 4 <= |s| ==> Value(s[i..i + 4]) == U32(s, i)
    ensures i + 8 <= |s| ==> Value(s[i..i + 8]) == U64(s, i)
  {
    hide Value;
    if i + 2 <= |s| {
      ValueTwo(s, i, i + 2);
      NoValue(s, i + 2);
    }
    if i + 4 <= |s| {
      ValueFour(s, i);
    }
    if i + 8 <= |s| {
      hide U16;
      ValueTwo(s, i, i + 8);
      ValueTwo(s, i + 2, i + 8);
      ValueFour(s, i + 4);
    }
  }

  lemma ValueFour(s: seq<u8>, i: nat)
    requires i + 4 <= |s|
    ensures Value(s[i..i + 4]) == U32(s, i)
  {
    hide Value;
    hide U16;
    ValueTwo(s, i, i + 4);
    ValueTwo(s, i + 2, i + 4);
    NoValue(s, i + 4);
  }

  /** A record is read exactly when it is all there; what follows is left. */
  lemma {:induction false} ReadsExactly(s: seq<u8>, widths: seq<nat>)
    ensures ReadFields(s, widths).Some? <==> |s| >= Start(widths, |widths|)
    ensures ReadFields(s, widths).Some? ==> ReadFields(s, widths).value.1 == s[Start(widths, |widths|)..]
  {
    if widths != [] {
      StartNext(widths, |widths|);
      if |s| >= widths[0] {
        ReadsExactly(s[widths[0]..], widths[1..]);
        var n := Start(widths[1..], |widths| - 1);
        assert |s| >= widths[0] + n ==> s[widths[0]..][n..] == s[widths[0] + n..];
      }
    } else {
      assert s[0..] == s;
    }
  }

  /** Its fields are the numbers at their places. */
  lemma {:induction false} ReadsAt(s: seq<u8>, widths: seq<nat>, k: nat)
    requires k < |widths| && ReadFields(s, widths).Some?
    ensures var i := Start(widths, k);
            i + widths[k] <= |s| && ReadFields(s, widths).value.0[k] == Value(s[i..i + widths[k]])
    decreases k
  {
    hide Value;
    if k > 0 {
      ReadsAt(s[widths[0]..], widths[1..], k - 1);
      StartNext(widths, k);
      var i := Start(widths[1..], k - 1);
      assert s[widths[0]..][i..i + widths[k]] == s[widths[0] + i..widths[0] + i + widths[k]];
    }
  }

  // ---- Local headers ----

  /** The header of a local entry that starts at the front of `s`, and the errors in it. */
  function HeaderAt(s: seq<u8>): Result<(ZipReader.Header, nat), ZipError> {
    if |s| < 30 || |s| < 30 + U16(s, 26) then Err(Truncated)
    else
      var n, x := U16(s, 26), U16(s, 28);
      if !Text.ValidUtf8(s[30..30 + n]) then Err(NameNotUtf8)
      else if |s| < 30 + n + x then Err(Truncated)
      else if U16(s, 8) != 0 then Err(BadMethod)
      else if U32(s, 18) == 0xFFFF_FFFF || U32(s, 22) == 0xFFFF_FFFF then
        var (csize, usize) :- ParseZip64(s[30 + n..30 + n + x]);
        Ok((ZipReader.Header(s[30..30 + n], U16(s, 6), U32(s, 14), true, csize, usize), 30 + n + x))
      else
        Ok((ZipReader.Header(s[30..30 + n], U16(s, 6), U32(s, 14), false, U32(s, 18), U32(s, 22)), 30 + n + x))
  }

  lemma HeaderFieldsAt(s: seq<u8>)
    requires |s| >= 30
    ensures ReadFields(s[4..], LOCAL_WIDTHS).Some?
    ensures var (f, rest) := ReadFields(s[4..], LOCAL_WIDTHS).value;
            && rest == s[30..] && f[1] == U16(s, 6) && f[2] == U16(s, 8) && f[5] == U32(s, 14)
            && f[6] == U32(s, 18) && f[7] == U32(s, 22) && f[8] == U16(s, 26) && f[9] == U16(s, 28)
  {
    var b, w := s[4..], LOCAL_WIDTHS;
    LocalStarts();
    assert Start(w, 10) == 26;
    hide Start;
    hide Value;
    hide ReadFields;
    hide U16;
    hide U32;
    ReadsExactly(b, w);
    assert b[26..] == s[30..];
    FieldFrom(s, 4, w, 1); FieldFrom(s, 4, w, 2); FieldFrom(s, 4, w, 5); FieldFrom(s, 4, w, 6);
    FieldFrom(s, 4, w, 7); FieldFrom(s, 4, w, 8); FieldFrom(s, 4, w, 9);
    ValueAt(s, 6); ValueAt(s, 8); ValueAt(s, 14); ValueAt(s, 18); ValueAt(s, 22); ValueAt(s, 26); ValueAt(s, 28);
  }

  lemma FieldFrom(s: seq<u8>, d: nat, widths: seq<nat>, k: nat)
    requires d <= |s| && ReadFields(s[d..], widths).Some? && k < |widths|
    ensures var i := d + Start(widths, k);
            i + widths[k] <= |s| && ReadFields(s[d..], widths).value.0[k] == Value(s[i..i + widths[k]])
  {
    hide Value;
    hide ReadFields;
    hide Start;
    ReadsAt(s[d..], widths, k);
    var i, w := Start(widths, k), widths[k];
    assert s[d..][i..i + w] == s[d + i..d + i + w];
  }

  lemma ShortHeader(s: seq<u8>)
    requires 4 <= |s| < 30
    ensures ReadFields(s[4..], LOCAL_WIDTHS).None?
  {
    LocalStarts();
    assert Start(LOCAL_WIDTHS, 10) == 26;
    ReadsExactly(s[4..], LOCAL_WIDTHS);
  }

  lemma HeaderIsAt(s: seq<u8>)
    requires |s| >= 4
    ensures ParseHeader(s[4..]) ==
            match HeaderAt(s)
            case Err(e) => Err(e)
            case Ok((h, n)) => Ok((h, s[n..]))
  {
    if |s| < 30 {
      ShortHeader(s);
    } else {
      HeaderFieldsAt(s);
      hide ReadFields;
      hide ParseZip64;
      hide Text.ValidUtf8;
      hide U16;
      hide U32;
      SlicesBehind(s, 30, U16(s, 26), U16(s, 28));
    }
  }

  lemma SlicesBehind(s: seq<u8>, i: nat, n: nat, x: nat)
    requires i <= |s|
    ensures i + n <= |s| ==> s[i..][..n] == s[i..i + n]
    ensures i + n + x <= |s| ==> s[i..][n..n + x] == s[i + n..i + n + x] && s[i..][n + x..] == s[i + n + x..]
  {
  }

  /** The Zip64 extra: the first block with identifier 1 counts, uncompressed size first. */
  lemma Zip64At(x: seq<u8>)
    ensures |x| < 4 || 4 + U16(x, 2) > |x| ==> ParseZip64(x) == Err(Zip64Missing)
    ensures |x| >= 4 && 4 + U16(x, 2) <= |x| ==>
              ParseZip64(x) ==
              if U16(x, 0) != 1 then ParseZip64(x[4 + U16(x, 2)..])
              else if U16(x, 2) < 16 then Err(Zip64TooShort)
              else Ok((U64(x, 12), U64(x, 4)))
  {
    hide Value;
    hide U16;
    hide U32;
    hide U64;
    hide ParseZip64;
    Zip64Values(x);
    ValueAt(x, 0);
    ValueAt(x, 2);
    ValueAt(x, 4);
    ValueAt(x, 12);
    assert |x| >= 4 ==> x[0..2] == x[..2];
  }

  lemma Zip64Values(x: seq<u8>)
    ensures |x| < 4 || 4 + Value(x[2..4]) > |x| ==> ParseZip64(x) == Err(Zip64Missing)
    ensures |x| >= 4 && 4 + Value(x[2..4]) <= |x| ==>
              ParseZip64(x) ==
              if Value(x[..2]) != 1 then ParseZip64(x[4 + Value(x[2..4])..])
              else if Value(x[2..4]) < 16 then Err(Zip64TooShort)
              else Ok((Value(x[12..20]), Value(x[4..12])))
  {
    hide Value;
    if |x| >= 4 {
      OneBlock(x, Value(x[..2]), Value(x[2..4]));
    }
  }

  lemma OneBlock(x: seq<u8>, id: nat, len: nat)
    requires |x| >= 4 && Value(x[..2]) == id && Value(x[2..4]) == len
    ensures 4 + len > |x| ==> ParseZip64(x) == Err(Zip64Missing)
    ensures 4 + len <= |x| && id != 1 ==> ParseZip64(x) == ParseZip64(x[4 + len..])
    ensures 4 + len <= |x| && id == 1 && len < 16 ==> ParseZip64(x) == Err(Zip64TooShort)
    ensures 4 + len <= |x| && id == 1 && len >= 16 ==> ParseZip64(x) == Ok((Value(x[12..20]), Value(x[4..12])))
  {
    hide Value;
  }

  // ---- Descriptors ----

  /** Checksum and sizes recorded behind the data at `c`, and where the next entry starts. */
  function DescriptorAt(s: seq<u8>, c: nat, zip64: bool): Option<((nat, nat, nat), nat)> {
    if |s| < c + 4 then None
    else
      var d := if s[c..c + 4] == [0x50, 0x4B, 0x07, 0x08] then c + 4 else c;
      if zip64 then
        if |s| < d + 20 then None else Some(((U32(s, d), U64(s, d + 4), U64(s, d + 12)), d + 20))
      else
        if |s| < d + 12 then None else Some(((U32(s, d), U32(s, d + 4), U32(s, d + 8)), d + 12))
  }

  lemma DescriptorIsAt(s: seq<u8>, c: nat, zip64: bool)
    requires c <= |s|
    ensures ParseDescriptor(s[c..], zip64) ==
            match DescriptorAt(s, c, zip64)
            case None => None
            case Some((v, n)) => Some((v, s[n..]))
  {
    var b := s[c..];
    if |b| >= 4 {
      ValueAt(s, c);
      assert b[..4] == s[c..c + 4];
      SignatureBytes(s, c);
      hide Value;
      hide ReadFields;
      if s[c..c + 4] == [0x50, 0x4B, 0x07, 0x08] {
        assert b[4..] == s[c + 4..];
        FieldsFrom(s, c + 4, DescriptorWidths(zip64), zip64);
      } else {
        assert b[4..] == s[c + 4..];
        SizesFrom(s, c + 4, SizeWidths(zip64), zip64);
      }
    }
  }

  /** Only these four bytes read as the signature. */
  lemma SignatureBytes(s: seq<u8>, c: nat)
    requires c + 4 <= |s|
    ensures Value(s[c..c + 4]) == DESCRIPTOR_SIG <==> s[c..c + 4] == [0x50, 0x4B, 0x07, 0x08]
    ensures Value(s[c..c + 4]) == LOCAL_SIG <==> s[c..c + 4] == [0x50, 0x4B, 0x03, 0x04]
    ensures IsTrailerSignature(Value(s[c..c + 4])) <==>
              s[c] == 0x50 && s[c + 1] == 0x4B
              && (s[c + 2], s[c + 3]) in {(0x01, 0x02), (0x05, 0x06), (0x06, 0x06), (0x06, 0x07)}
  {
    var b := s[c..c + 4];
    ValueAt(s, c);
    hide Value;
    assert U32(s, c) == b[0] as int + 256 * (b[1] as int) + 65536 * (b[2] as int + 256 * (b[3] as int));
    FourDigits(b[0], b[1], b[2], b[3]);
  }

  lemma FourDigits(a: u8, b: u8, c: u8, d: u8)
    ensures var v := a as int + 256 * (b as int) + 65536 * (c as int + 256 * (d as int));
            && (v == 0x0807_4B50 <==> a == 0x50 && b == 0x4B && c == 0x07 && d == 0x08)
            && (v == 0x0403_4B50 <==> a == 0x50 && b == 0x4B && c == 0x03 && d == 0x04)
            && (v == 0x0201_4B50 <==> a == 0x50 && b == 0x4B && c == 0x01 && d == 0x02)
            && (v == 0x0605_4B50 <==> a == 0x50 && b == 0x4B && c == 0x05 && d == 0x06)
            && (v == 0x0606_4B50 <==> a == 0x50 && b == 0x4B && c == 0x06 && d == 0x06)
            && (v == 0x0706_4B50 <==> a == 0x50 && b == 0x4B && c == 0x06 && d == 0x07)
  {
    SameDigits(a, b, c, d, 7, 8);
    SameDigits(a, b, c, d, 3, 4);
    SameDigits(a, b, c, d, 1, 2);
    SameDigits(a, b, c, d, 5, 6);
    SameDigits(a, b, c, d, 6, 6);
    SameDigits(a, b, c, d, 6, 7);
  }

  lemma SameDigits(a: u8, b: u8, c: u8, d: u8, x: u8, y: u8)
    ensures a as int + 256 * (b as int) + 65536 * (c as int + 256 * (d as int))
            == 0x50 + 256 * 0x4B + 65536 * (x as int + 256 * (y as int))
            <==> a == 0x50 && b == 0x4B && c == x && d == y
  {
    var low, high := a as int + 256 * (b as int), c as int + 256 * (d as int);
    assert 0 <= low < 65536 && (low == 0x50 + 256 * 0x4B <==> a == 0x50 && b == 0x4B);
    assert high == x as int + 256 * (y as int) <==> c == x && d == y;
  }

  lemma FieldsFrom(s: seq<u8>, d: nat, widths: seq<nat>, zip64: bool)
    requires d <= |s| && widths == DescriptorWidths(zip64)
    ensures var n := if zip64 then 20 else 12;
            ReadFields(s[d..], widths) ==
            if |s| < d + n then None
            else if zip64 then Some(([U32(s, d), U64(s, d + 4), U64(s, d + 12)], s[d + n..]))
            else Some(([U32(s, d), U32(s, d + 4), U32(s, d + 8)], s[d + n..]))
  {
    var b, w := s[d..], if zip64 then 8 else 4;
    assert Start(widths, 0) == 0 && Start(widths, 1) == 4 && Start(widths, 2) == 4 + w && Start(widths, 3) == 4 + 2 * w;
    hide Start;
    hide Value;
    hide ReadFields;
    hide U32;
    hide U64;
    ReadsExactly(b, widths);
    if |b| >= 4 + 2 * w {
      FieldFrom(s, d, widths, 0); FieldFrom(s, d, widths, 1); FieldFrom(s, d, widths, 2);
      ValueAt(s, d); ValueAt(s, d + 4); ValueAt(s, d + 4 + w);
      SlicesBehind(s, d, 0, 4 + 2 * w);
      var vs := ReadFields(b, widths).value.0;
      assert vs == [vs[0], vs[1], vs[2]];
    }
  }

  lemma SizesFrom(s: seq<u8>, d: nat, widths: seq<nat>, zip64: bool)
    requires d <= |s| && widths == SizeWidths(zip64)
    ensures var n := if zip64 then 16 else 8;
            ReadFields(s[d..], widths) ==
            if |s| < d + n then None
            else if zip64 then Some(([U64(s, d), U64(s, d + 8)], s[d + n..]))
            else Some(([U32(s, d), U32(s, d + 4)], s[d + n..]))
  {
    var b, w := s[d..], if zip64 then 8 else 4;
    assert Start(widths, 0) == 0 && Start(widths, 1) == w && Start(widths, 2) == 2 * w;
    hide Start;
    hide Value;
    hide ReadFields;
    hide U32;
    hide U64;
    ReadsExactly(b, widths);
    if |b| >= 2 * w {
      FieldFrom(s, d, widths, 0); FieldFrom(s, d, widths, 1);
      ValueAt(s, d); ValueAt(s, d + w);
      SlicesBehind(s, d, 0, 2 * w);
      var vs := ReadFields(b, widths).value.0;
      assert vs == [vs[0], vs[1]];
    }
  }

  // ---- Entries ----

  predicate IsLocal(s: seq<u8>) { |s| >= 4 && s[0..4] == [0x50, 0x4B, 0x03, 0x04] }

  /** The name of a directory ends in a slash. */
  predicate NamesDirectory(name: seq<u8>) { name != [] && name[|name| - 1] == 0x2F }

  /** What is recorded of the data: in the descriptor at `j`, or without bit 3 in the header. */
  function RecordAt(s: seq<u8>, h: ZipReader.Header, j: nat): Option<((nat, nat, nat), nat)> {
    if h.flags / 8 % 2 == 1 then DescriptorAt(s, j, h.zip64) else Some(((h.crc, h.csize, h.usize), j))
  }

  /** What a file entry at the front of `s`, with data from `i` on, does to the tree. */
  function FileAt(s: seq<u8>, h: ZipReader.Header, i: nat, t: Tree): Step
    requires i <= |s|
  {
    match Place(h.name)
    case Err(e) => Halt(Failed(t, BadPath(e)))
    case Ok(p) =>
      if MakeFile(t, p).None? then Halt(Failed(MakeParents(t, p), CannotCreate))
      else
        var made := MakeFile(t, p).value;
        var j := i + h.csize;
        if |s| < j then Halt(Failed(made.(files := made.files[p := s[i..]]), Truncated))
        else
          var filled := made.(files := made.files[p := s[i..j]]);
          match RecordAt(s, h, j)
          case None => Halt(Failed(filled, Truncated))
          case Some(((crc, csize, usize), next)) =>
            if crc != Crc32.Of(s[i..j]) then Halt(Failed(filled, CrcMismatch))
            else if csize != h.csize || usize != h.usize then Halt(Failed(filled, SizeMismatch))
            else if next <= |s| then Next(filled, s[next..])
            else Halt(Failed(filled, Truncated))
  }

  /** What a directory entry does. */
  function DirectoryAt(s: seq<u8>, h: ZipReader.Header, i: nat, t: Tree): Step
    requires i <= |s|
  {
    match Place(TrimSlashes(h.name))
    case Err(e) => Halt(Failed(t, BadPath(e)))
    case Ok(p) =>
      match MakeDirs(t, p)
      case None => Halt(Failed(t, CannotCreate))
      case Some(t1) => Next(t1, s[i..])
  }

  lemma ClosingIsAt(s: seq<u8>, h: ZipReader.Header, j: nat)
    requires j <= |s|
    ensures Closing(h, s[j..]) ==
            match RecordAt(s, h, j)
            case None => None
            case Some((v, n)) => Some((v, s[n..]))
    ensures RecordAt(s, h, j).Some? ==> RecordAt(s, h, j).value.1 <= |s|
  {
    DescriptorIsAt(s, j, h.zip64);
    hide ParseDescriptor;
  }

  lemma BodyIsAt(s: seq<u8>, h: ZipReader.Header, i: nat, t: Tree, p: Path)
    requires i <= |s| && Place(h.name) == Ok(p) && MakeFile(t, p).Some?
    ensures ReadBody(h, p, s[i..], MakeFile(t, p).value) == FileAt(s, h, i, t)
  {
    var j := i + h.csize;
    if |s| >= j {
      assert s[i..][..h.csize] == s[i..j] && s[i..][h.csize..] == s[j..];
      ClosingIsAt(s, h, j);
    }
    hide Closing;
    hide RecordAt;
    hide Crc32.Of;
    hide MakeFile;
    hide Place;
  }

  /** Every local entry, whole or not, is read by the positions of its parts. */
  lemma EntryIsAt(s: seq<u8>, t: Tree)
    requires IsLocal(s)
    ensures ReadStep(s, t) ==
            match HeaderAt(s)
            case Err(e) => Halt(Failed(t, e))
            case Ok((h, i)) => if NamesDirectory(h.name) then DirectoryAt(s, h, i, t) else FileAt(s, h, i, t)
  {
    SignatureBytes(s, 0);
    assert s[0..4] == s[..4];
    HeaderIsAt(s);
    hide Value;
    hide ParseHeader;
    hide HeaderAt;
    hide ReadBody;
    hide MakeDirs;
    hide MakeFile;
    hide MakeParents;
    hide Place;
    hide RecordAt;
    hide Crc32.Of;
    if HeaderAt(s).Ok? {
      var (h, i) := HeaderAt(s).value;
      HeaderInside(s);
      if !NamesDirectory(h.name) && Place(h.name).Ok? && MakeFile(t, Place(h.name).value).Some? {
        BodyIsAt(s, h, i, t, Place(h.name).value);
      }
      hide FileAt;
    }
  }

  /** Anything else ends the extraction: too little input, the trailer, or an error. */
  lemma NoEntryAt(s: seq<u8>, t: Tree)
    requires !IsLocal(s)
    ensures ReadStep(s, t) ==
            if |s| < 4 then Halt(Finished(t, []))
            else if s[0] == 0x50 && s[1] == 0x4B
                    && (s[2], s[3]) in {(0x01, 0x02), (0x05, 0x06), (0x06, 0x06), (0x06, 0x07)}
            then Halt(Finished(t, s[4..]))
            else Halt(Failed(t, BadSignature))
  {
    if |s| >= 4 {
      SignatureBytes(s, 0);
      assert s[0..4] == s[..4];
    }
    hide Value;
    hide IsTrailerSignature;
  }

  lemma HeaderInside(s: seq<u8>)
    ensures HeaderAt(s).Ok? ==> 30 <= HeaderAt(s).value.1 <= |s|
  {
    hide ParseZip64;
  }

  // ---- Integrity ----

  /**
   * A local entry at `k` that is whole and names `p`: its data are `data`, and the checksum
   * and the sizes recorded with it are those of the data.
   */
  ghost predicate IntactAt(s: seq<u8>, k: nat, p: Path, data: seq<u8>) {
    && k <= |s| && IsLocal(s[k..]) && HeaderAt(s[k..]).Ok?
    && var (h, i) := HeaderAt(s[k..]).value;
       var j := i + |data|;
       && Place(h.name) == Ok(p) && |data| == h.csize && k + j <= |s| && s[k + i..k + j] == data
       && RecordAt(s[k..], h, j).Some?
       && RecordAt(s[k..], h, j).value.0 == (Crc32.Of(data), |data|, h.usize)
  }

  /** What one accepted entry leaves: its own file intact, no other file changed. */
  lemma AcceptedIsIntact(s: seq<u8>, t: Tree)
    requires IsLocal(s) && ReadStep(s, t).Next?
    ensures var u := ReadStep(s, t).tree;
            forall p :: p in u.files ==> (p in t.files && u.files[p] == t.files[p]) || IntactAt(s, 0, p, u.files[p])
  {
    EntryIsAt(s, t);
    HeaderInside(s);
    var (h, i) := HeaderAt(s).value;
    hide HeaderAt;
    hide IntactAt;
    hide ReadStep;
    hide FileAt;
    hide IsLocal;
    if NamesDirectory(h.name) {
      DirectoriesKeepFiles(t, Place(TrimSlashes(h.name)).value);
    } else {
      FileIsIntact(s, h, i, t);
    }
    hide MakeDirs;
    hide Place;
  }

  lemma FileIsIntact(s: seq<u8>, h: ZipReader.Header, i: nat, t: Tree)
    requires IsLocal(s) && HeaderAt(s) == Ok((h, i)) && i <= |s| && FileAt(s, h, i, t).Next?
    ensures var p, u := Place(h.name), FileAt(s, h, i, t).tree;
            && p.Ok? && p.value in u.files && IntactAt(s, 0, p.value, u.files[p.value])
            && forall q :: q in u.files && q != p.value ==> q in t.files && u.files[q] == t.files[q]
  {
    assert s[0..] == s;
    hide HeaderAt;
    hide RecordAt;
    hide Crc32.Of;
    hide IsLocal;
    CreationKeepsFiles(t, Place(h.name).value);
    hide MakeFile;
    hide Place;
  }

  lemma DirectoriesKeepFiles(t: Tree, p: Path)
    ensures MakeDirs(t, p).Some? ==> MakeDirs(t, p).value.files == t.files
  {
  }

  lemma CreationKeepsFiles(t: Tree, p: Path)
    ensures MakeFile(t, p).Some? ==> MakeFile(t, p).value.files == t.files[p := []]
  {
  }

  lemma IntactLater(s: seq<u8>, n: nat, k: nat, p: Path, data: seq<u8>)
    requires n <= |s| && IntactAt(s[n..], k, p, data)
    ensures IntactAt(s, n + k, p, data)
  {
    assert s[n..][k..] == s[n + k..];
    var (h, i) := HeaderAt(s[n + k..]).value;
    assert s[n..][k + i..k + i + |data|] == s[n + k + i..n + k + i + |data|];
    hide HeaderAt;
    hide RecordAt;
    hide Crc32.Of;
    hide Place;
  }

  /**
   * Whatever the input is: when extraction succeeds, every file in the tree was there before,
   * unchanged, or is the data of a whole entry of the input, with the checksum recorded there.
   */
  lemma {:induction false} RestoredIsIntact(s: seq<u8>, t: Tree)
    requires Extract(s, t).Finished?
    ensures var u := Extract(s, t).tree;
            forall p :: p in u.files ==>
              (p in t.files && u.files[p] == t.files[p]) || exists k :: IntactAt(s, k, p, u.files[p])
    decreases |s|
  {
    StepUnfolds(s, t);
    hide IntactAt;
    hide ReadStep;
    if ReadStep(s, t).Next? {
      var v, rest := ReadStep(s, t).tree, ReadStep(s, t).rest;
      var n := |s| - |rest|;
      AcceptedIsIntact(s, t);
      RestoredIsIntact(rest, v);
      var u := Extract(s, t).tree;
      hide Extract;
      forall p | p in u.files && !(p in t.files && u.files[p] == t.files[p])
        ensures exists k :: IntactAt(s, k, p, u.files[p])
      {
        if k :| IntactAt(rest, k, p, u.files[p]) {
          IntactLater(s, n, k, p, u.files[p]);
        } else {
          assert IntactAt(s, 0, p, v.files[p]);
        }
      }
    }
  }

  /** A step that is not the last reads a local entry, and leaves an end of the input. */
  lemma StepUnfolds(s: seq<u8>, t: Tree)
    ensures match ReadStep(s, t)
            case Halt(o) => Extract(s, t) == o && (o.Finished? ==> o.tree == t)
            case Next(u, rest) =>
              IsLocal(s) && |rest| < |s| && rest == s[|s| - |rest|..] && Extract(s, t) == Extract(rest, u)
  {
    if ReadStep(s, t).Next? {
      SignatureBytes(s, 0);
      assert s[0..4] == s[..4];
      EntryIsAt(s, t);
      EndOfInput(s, t);
    }
    hide ReadEntry;
    hide Value;
    hide FileAt;
    hide DirectoryAt;
    hide HeaderAt;
  }

  lemma EndOfInput(s: seq<u8>, t: Tree)
    requires HeaderAt(s).Ok?
    ensures var (h, i) := HeaderAt(s).value;
            && i <= |s|
            && (FileAt(s, h, i, t).Next? ==>
                  var rest := FileAt(s, h, i, t).rest; |rest| <= |s| && rest == s[|s| - |rest|..])
            && (DirectoryAt(s, h, i, t).Next? ==>
                  var rest := DirectoryAt(s, h, i, t).rest; |rest| <= |s| && rest == s[|s| - |rest|..])
  {
    HeaderInside(s);
    hide HeaderAt;
    hide Place;
    hide RecordAt;
    hide Crc32.Of;
    hide MakeDirs;
    hide MakeFile;
  }
}
