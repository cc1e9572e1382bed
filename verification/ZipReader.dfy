/**
 * `extract_zip`: a reader that never seeks. The functions say what an archive
 * extracts to; the methods do it over a source that answers with short reads.
 */
module ZipReader {
  import opened Wrappers
  import opened Bytes
  import opened ZipFormat
  import opened ZipPath
  import opened Dest
  import opened Streams
  import Crc32
  import Text

  datatype ZipError =
    | Truncated
    | BadSignature
    | NameNotUtf8
    | BadMethod
    | Zip64Missing
    | Zip64TooShort
    | BadPath(reason: PathError)
    | CannotCreate
    | CrcMismatch
    | SizeMismatch

  /** A local header, sizes already taken from the Zip64 extra when it applies. */
  datatype Header =
    Header(name: seq<u8>, flags: nat, crc: nat, zip64: bool, csize: nat, usize: nat)

  datatype Outcome =
    | Finished(tree: Tree, rest: seq<u8>)
    | Failed(tree: Tree, error: ZipError)

  datatype Step =
    | Next(tree: Tree, rest: seq<u8>)
    | Halt(outcome: Outcome)

  function ParseZip64(extra: seq<u8>): Result<(nat, nat), ZipError> {
    if |extra| < 4 then Err(Zip64Missing)
    else
      var len := Value(extra[2..4]);
      if 4 + len > |extra| then Err(Zip64Missing)
      else if Value(extra[..2]) == ZIP64_ID then
        if len < 16 then Err(Zip64TooShort)
        else Ok((Value(extra[12..20]), Value(extra[4..12])))
      else ParseZip64(extra[4 + len..])
  }

  /** The rest of a local header, its signature already read. */
  function ParseHeader(s: seq<u8>): (r: Result<(Header, seq<u8>), ZipError>)
    ensures r.Ok? ==> |r.value.1| <= |s|
  {
    match ReadFields(s, LOCAL_WIDTHS)
    case None => Err(Truncated)
    case Some((f, s1)) =>
      if |s1| < f[8] then Err(Truncated)
      else if !Text.ValidUtf8(s1[..f[8]]) then Err(NameNotUtf8)
      else if |s1| < f[8] + f[9] then Err(Truncated)
      else if f[2] != STORED then Err(BadMethod)
      else
        var name, extra := s1[..f[8]], s1[f[8]..f[8] + f[9]];
        var rest := s1[f[8] + f[9]..];
        if f[6] == SENTINEL || f[7] == SENTINEL then
          var (csize, usize) :- ParseZip64(extra);
          Ok((Header(name, f[1], f[5], true, csize, usize), rest))
        else Ok((Header(name, f[1], f[5], false, f[6], f[7]), rest))
  }

  predicate HasDescriptor(flags: nat) { flags / 8 % 2 == 1 }

  function SizeWidths(zip64: bool): seq<nat> { if zip64 then [8, 8] else [4, 4] }

  /** `read_data_descriptor`: the signature is optional. */
  function ParseDescriptor(s: seq<u8>, zip64: bool): (r: Option<((nat, nat, nat), seq<u8>)>)
    ensures r.Some? ==> |r.value.1| <= |s|
  {
    if |s| < 4 then None
    else if Value(s[..4]) == DESCRIPTOR_SIG then
      var (f, rest) :- ReadFields(s[4..], DescriptorWidths(zip64));
      Some(((f[0], f[1], f[2]), rest))
    else
      var (f, rest) :- ReadFields(s[4..], SizeWidths(zip64));
      Some(((Value(s[..4]), f[0], f[1]), rest))
  }

  /** What must follow the data: the descriptor, or nothing when the header has it all. */
  function Closing(h: Header, s: seq<u8>): (r: Option<((nat, nat, nat), seq<u8>)>)
    ensures r.Some? ==> |r.value.1| <= |s|
  {
    if HasDescriptor(h.flags) then ParseDescriptor(s, h.zip64)
    else Some(((h.crc, h.csize, h.usize), s))
  }

  /** Copies the data of a file just created at `p` and checks it. */
  function ReadBody(h: Header, p: Path, s: seq<u8>, t: Tree): (r: Step)
    ensures r.Next? ==> |r.rest| <= |s|
    ensures r.Halt? ==> r.outcome.Failed?
  {
    if |s| < h.csize then Halt(Failed(t.(files := t.files[p := s]), Truncated))
    else
      var t1 := t.(files := t.files[p := s[..h.csize]]);
      match Closing(h, s[h.csize..])
      case None => Halt(Failed(t1, Truncated))
      case Some(((crc, csize, usize), rest)) =>
        if crc != Crc32.Of(s[..h.csize]) then Halt(Failed(t1, CrcMismatch))
        else if csize != h.csize || usize != h.usize then Halt(Failed(t1, SizeMismatch))
        else Next(t1, rest)
  }

  predicate IsDirectoryName(name: seq<u8>) { name != [] && name[|name| - 1] == SLASH }

  function TrimSlashes(name: seq<u8>): seq<u8> {
    if IsDirectoryName(name) then TrimSlashes(name[..|name| - 1]) else name
  }

  /** One local entry, its signature already read. */
  function ReadEntry(s: seq<u8>, t: Tree): (r: Step)
    ensures r.Next? ==> |r.rest| <= |s|
    ensures r.Halt? ==> r.outcome.Failed?
  {
    match ParseHeader(s)
    case Err(e) => Halt(Failed(t, e))
    case Ok((h, s1)) =>
      if IsDirectoryName(h.name) then
        match Place(TrimSlashes(h.name))
        case Err(e) => Halt(Failed(t, BadPath(e)))
        case Ok(p) =>
          match MakeDirs(t, p)
          case None => Halt(Failed(t, CannotCreate))
          case Some(t1) => Next(t1, s1)
      else
        match Place(h.name)
        case Err(e) => Halt(Failed(t, BadPath(e)))
        case Ok(p) =>
          match MakeFile(t, p)
          case None => Halt(Failed(MakeParents(t, p), CannotCreate))
          case Some(t1) => ReadBody(h, p, s1, t1)
  }

  predicate IsTrailerSignature(sig: nat) {
    sig == CENTRAL_SIG || sig == END_SIG || sig == END64_SIG || sig == LOCATOR64_SIG
  }

  function ReadStep(s: seq<u8>, t: Tree): (r: Step)
    ensures r.Next? ==> |r.rest| < |s|
  {
    if |s| < 4 then Halt(Finished(t, []))
    else if Value(s[..4]) == LOCAL_SIG then ReadEntry(s[4..], t)
    else if IsTrailerSignature(Value(s[..4])) then Halt(Finished(t, s[4..]))
    else Halt(Failed(t, BadSignature))
  }

  /** What `extract_zip` makes of the bytes `s`, starting from the tree `t`. */
  function Extract(s: seq<u8>, t: Tree): Outcome
    decreases |s|
  {
    match ReadStep(s, t)
    case Halt(o) => o
    case Next(t1, rest) => Extract(rest, t1)
  }

  /** Same tree apart from the content of files, or more files and directories. */
  ghost predicate Grown(t: Tree, u: Tree) {
    Sound(u) && t.dirs <= u.dirs && t.files.Keys <= u.files.Keys
  }

  function TreeAfter(step: Step): Tree {
    match step case Next(t, _) => t case Halt(o) => o.tree
  }

  lemma BodyGrows(h: Header, p: Path, s: seq<u8>, t: Tree)
    requires Sound(t) && p in t.files
    ensures Grown(t, TreeAfter(ReadBody(h, p, s, t)))
  {
    hide Closing;
    hide Crc32.Of;
  }

  lemma StepGrows(s: seq<u8>, t: Tree)
    requires Sound(t)
    ensures Grown(t, TreeAfter(ReadStep(s, t)))
  {
    hide ParseHeader;
    hide Closing;
    hide Place;
    hide TrimSlashes;
    hide MakeFile;
    hide MakeDirs;
    hide ReadBody;
    if |s| >= 4 && ParseHeader(s[4..]).Ok? {
      var h := ParseHeader(s[4..]).value.0;
      var place := Place(if IsDirectoryName(h.name) then TrimSlashes(h.name) else h.name);
      if place.Ok? {
        var p := place.value;
        MakeDirsSound(t, p);
        MakeFileSound(t, p);
        hide Sound;
        if MakeFile(t, p).Some? {
          BodyGrows(h, p, ParseHeader(s[4..]).value.1, MakeFile(t, p).value);
        }
      }
    }
  }

  /** Whatever the bytes are, extraction leaves a directory tree and takes nothing out of it. */
  lemma {:induction false} ExtractGrows(s: seq<u8>, t: Tree)
    requires Sound(t)
    ensures Grown(t, Extract(s, t).tree)
    decreases |s|
  {
    StepGrows(s, t);
    hide ReadStep;
    if ReadStep(s, t).Next? {
      ExtractGrows(ReadStep(s, t).rest, ReadStep(s, t).tree);
    }
  }

  method ParseZip64Loop(extra: seq<u8>) returns (r: Result<(nat, nat), ZipError>)
    ensures r == ParseZip64(extra)
  {
    var i := 0;
    while i + 4 <= |extra|
      invariant 0 <= i <= |extra|
      invariant ParseZip64(extra[i..]) == ParseZip64(extra)
    {
      ghost var here := extra[i..];
      var id := Value(extra[i..i + 2]);
      var len := Value(extra[i + 2..i + 4]);
      assert here[..2] == extra[i..i + 2] && here[2..4] == extra[i + 2..i + 4];
      i := i + 4;
      if i + len > |extra| {
        return Err(Zip64Missing);
      }
      if id == ZIP64_ID {
        if len < 16 {
          return Err(Zip64TooShort);
        }
        assert here[4..12] == extra[i..i + 8] && here[12..20] == extra[i + 8..i + 16];
        return Ok((Value(extra[i + 8..i + 16]), Value(extra[i..i + 8])));
      }
      assert here[4 + len..] == extra[i + len..];
      i := i + len;
    }
    r := Err(Zip64Missing);
  }

  method ReadHeader(r: Source) returns (res: Result<Header, ZipError>)
    modifies r
    ensures match ParseHeader(old(r.rest))
            case Err(e) => res == Err(e)
            case Ok((h, tail)) => res == Ok(h) && r.rest == tail
  {
    var fields := r.ReadRun(LOCAL_WIDTHS);
    if fields == None {
      return Err(Truncated);
    }
    var f := fields.value;
    ghost var s1 := r.rest;
    var name := r.ReadExact(f[8]);
    if name == None {
      return Err(Truncated);
    }
    if !Text.ValidUtf8(name.value) {
      return Err(NameNotUtf8);
    }
    var extra := r.ReadExact(f[9]);
    if extra == None {
      return Err(Truncated);
    }
    assert s1[f[8]..f[8] + f[9]] == extra.value;
    if f[2] != STORED {
      return Err(BadMethod);
    }
    var zip64 := f[6] == SENTINEL || f[7] == SENTINEL;
    var csize, usize := f[6], f[7];
    if zip64 {
      var sizes := ParseZip64Loop(extra.value);
      if sizes.Err? {
        return Err(sizes.error);
      }
      csize, usize := sizes.value.0, sizes.value.1;
    }
    res := Ok(Header(name.value, f[1], f[5], zip64, csize, usize));
  }

  method ReadDescriptor(r: Source, zip64: bool) returns (res: Option<(nat, nat, nat)>)
    modifies r
    ensures match ParseDescriptor(old(r.rest), zip64)
            case None => res == None
            case Some((v, tail)) => res == Some(v) && r.rest == tail
  {
    var first := r.ReadExact(4);
    if first == None {
      return None;
    }
    if Value(first.value) == DESCRIPTOR_SIG {
      var f := r.ReadRun(DescriptorWidths(zip64));
      if f == None {
        return None;
      }
      res := Some((f.value[0], f.value[1], f.value[2]));
    } else {
      var f := r.ReadRun(SizeWidths(zip64));
      if f == None {
        return None;
      }
      res := Some((Value(first.value), f.value[0], f.value[1]));
    }
  }

  const READ_BUFFER := 1024 * 1024

  /** The copy loop: at most `size` bytes go to the file, the hasher sees each of them. */
  method CopyData(r: Source, d: Directory, p: Path, size: nat) returns (crc: Option<nat>)
    requires p in d.tree.files && d.tree.files[p] == []
    modifies r, d
    ensures if |old(r.rest)| < size
            then crc == None && d.tree == old(d.tree).(files := old(d.tree).files[p := old(r.rest)])
            else
              && crc == Some(Crc32.Of(old(r.rest)[..size])) && r.rest == old(r.rest)[size..]
              && d.tree == old(d.tree).(files := old(d.tree).files[p := old(r.rest)[..size]])
  {
    var remaining := size;
    var hasher := 0xFFFF_FFFF;
    ghost var copied: seq<u8> := [];
    ghost var files := d.tree.files;
    while remaining > 0
      invariant 0 <= remaining <= size && |copied| == size - remaining
      invariant copied + r.rest == old(r.rest)
      invariant p in d.tree.files
      invariant d.tree.dirs == old(d.tree.dirs) && d.tree.files == files[p := copied]
      invariant hasher == Crc32.Update(0xFFFF_FFFF, copied)
    {
      var buf := r.Read(if READ_BUFFER < remaining then READ_BUFFER else remaining);
      if buf == [] {
        assert copied == old(r.rest);
        return None;
      }
      d.Append(p, buf);
      Crc32.UpdateConcat(0xFFFF_FFFF, copied, buf);
      hasher := Crc32.Update(hasher, buf);
      assert copied + (buf + r.rest) == copied + buf + r.rest;
      copied := copied + buf;
      remaining := remaining - |buf|;
    }
    assert copied == old(r.rest)[..size];
    crc := Some(Crc32.Finish(hasher));
  }

  method ExtractBody(r: Source, d: Directory, h: Header, p: Path) returns (res: Result<(), ZipError>)
    requires p in d.tree.files && d.tree.files[p] == []
    modifies r, d
    ensures match ReadBody(h, p, old(r.rest), old(d.tree))
            case Next(t, tail) => res == Ok(()) && d.tree == t && r.rest == tail
            case Halt(Failed(t, e)) => res == Err(e) && d.tree == t
            case Halt(Finished(_, _)) => false
  {
    var computed := CopyData(r, d, p, h.csize);
    if computed == None {
      return Err(Truncated);
    }
    var closing := Some((h.crc, h.csize, h.usize));
    if HasDescriptor(h.flags) {
      closing := ReadDescriptor(r, h.zip64);
    }
    if closing == None {
      return Err(Truncated);
    }
    if closing.value.0 != computed.value {
      return Err(CrcMismatch);
    }
    if closing.value.1 != h.csize || closing.value.2 != h.usize {
      return Err(SizeMismatch);
    }
    res := Ok(());
  }

  method ExtractEntry(r: Source, d: Directory) returns (res: Result<(), ZipError>)
    modifies r, d
    ensures match ReadEntry(old(r.rest), old(d.tree))
            case Next(t, tail) => res == Ok(()) && d.tree == t && r.rest == tail
            case Halt(Failed(t, e)) => res == Err(e) && d.tree == t
            case Halt(Finished(_, _)) => false
  {
    var header := ReadHeader(r);
    if header.Err? {
      return Err(header.error);
    }
    var h := header.value;
    if IsDirectoryName(h.name) {
      var p := Place(TrimSlashes(h.name));
      if p.Err? {
        return Err(BadPath(p.error));
      }
      var made := d.CreateDirAll(p.value);
      res := if made then Ok(()) else Err(CannotCreate);
    } else {
      var p := Place(h.name);
      if p.Err? {
        return Err(BadPath(p.error));
      }
      var made := d.Create(p.value);
      if !made {
        return Err(CannotCreate);
      }
      res := ExtractBody(r, d, h, p.value);
    }
  }

  /**
   * `extract_zip`: however the reads are cut up, the outcome is the one `Extract`
   * gives for the bytes of the stream.
   */
  method ExtractZip(r: Source, d: Directory) returns (res: Result<(), ZipError>)
    modifies r, d
    ensures match Extract(old(r.rest), old(d.tree))
            case Finished(t, tail) => res == Ok(()) && d.tree == t && r.rest == tail
            case Failed(t, e) => res == Err(e) && d.tree == t
  {
    while true
      invariant Extract(r.rest, d.tree) == Extract(old(r.rest), old(d.tree))
      decreases |r.rest|
    {
      ghost var before := r.rest;
      var sig := r.ReadExact(4);
      if sig == None {
        return Ok(());
      }
      var v := Value(sig.value);
      if v == LOCAL_SIG {
        var entry := ExtractEntry(r, d);
        if entry.Err? {
          return entry;
        }
      } else if IsTrailerSignature(v) {
        return Ok(());
      } else {
        return Err(BadSignature);
      }
    }
  }
}
