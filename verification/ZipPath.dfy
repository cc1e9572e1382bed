/** Entry paths: how the writer names a file, and where the reader puts a name. */
module ZipPath {
  import opened Wrappers
  import opened Bytes
  import Text

  const NUL: u8 := 0
  const SLASH: u8 := 0x2F
  const BACKSLASH: u8 := 0x5C
  const DOT: seq<u8> := [0x2E]
  const DOT_DOT: seq<u8> := [0x2E, 0x2E]

  /** A path component the operating system resolves inside its parent directory. */
  predicate IsSegment(n: seq<u8>) {
    n != [] && SLASH !in n && n != DOT && n != DOT_DOT
  }

  type Segment = n: seq<u8> | IsSegment(n) witness [0x61]

  /** A file name's text after `to_string_lossy`, hence well-formed UTF-8; no file name has a NUL. */
  type Utf8Segment = n: Segment | Text.ValidUtf8(n) && NUL !in n witness [0x61]

  /** A location below the destination directory, which is `[]` itself. */
  type Path = seq<Segment>

  /** The operating system takes the path: there is no NUL in it. */
  predicate Usable(p: Path) { forall n :: n in p ==> NUL !in n }

  datatype Component = Normal(name: Utf8Segment) | CurDir | ParentDir | RootDir | Prefix

  datatype PathError = EmptyPath | UnsafePath | EmptyName | BackslashInName

  predicate Harmless(c: Component) { c.Normal? || c.CurDir? }

  function Normals(rel: seq<Component>): (p: seq<Utf8Segment>)
    ensures (forall c :: c in rel ==> c.Normal?) ==> |p| == |rel|
  {
    if rel == [] then []
    else if rel[0].Normal? then [rel[0].name] + Normals(rel[1..])
    else Normals(rel[1..])
  }

  /** `path_to_zip_name`: the normal components joined with forward slashes. */
  function ZipName(rel: seq<Component>): Result<seq<u8>, PathError> {
    if rel == [] then Err(EmptyPath)
    else if exists c :: c in rel && !Harmless(c) then Err(UnsafePath)
    else if Normals(rel) == [] then Err(EmptyName)
    else
      var name := Text.Join(Normals(rel), SLASH);
      if BACKSLASH in name then Err(BackslashInName) else Ok(name)
  }

  /** The components of a name that lead anywhere: empty and "." ones do not. */
  function Resolve(parts: seq<seq<u8>>): (p: Path)
    requires forall n :: n in parts ==> SLASH !in n && n != DOT_DOT
  {
    if parts == [] then []
    else
      assert forall n :: n in parts[1..] ==> n in parts;
      if IsSegment(parts[0]) then [parts[0]] + Resolve(parts[1..]) else Resolve(parts[1..])
  }

  /** `PathBuf::from` and `validate_rel_path`: where below the destination a name points. */
  function Place(name: seq<u8>): Result<Path, PathError> {
    if name == [] then Err(EmptyPath)
    else if name[0] == SLASH || DOT_DOT in Text.Split(name, SLASH) then Err(UnsafePath)
    else Ok(Resolve(Text.Split(name, SLASH)))
  }

  /** Which paths get a name: at least one normal component, no other but `.`, and no backslash. */
  lemma NameExactly(rel: seq<Component>)
    ensures ZipName(rel).Ok? <==>
            && (forall c :: c in rel ==> c.Normal? || c.CurDir?)
            && (exists c :: c in rel && c.Normal?)
            && forall c :: c in rel && c.Normal? ==> 0x5C !in c.name
    ensures ZipName(rel) == Err(EmptyPath) <==> rel == []
    ensures ZipName(rel) == Err(UnsafePath) <==> exists c :: c in rel && !c.Normal? && !c.CurDir?
    ensures ZipName(rel) == Err(EmptyName) <==> rel != [] && forall c :: c in rel ==> c.CurDir?
  {
    NormalsAre(rel);
    if Normals(rel) != [] {
      JoinHas(Normals(rel), BACKSLASH);
      assert Normals(rel)[0] in Normals(rel);
    }
    if rel != [] {
      assert rel[0] in rel;
    }
  }

  lemma {:induction false} NormalsAre(rel: seq<Component>)
    ensures forall n: Utf8Segment :: n in Normals(rel) <==> Normal(n) in rel
  {
    if rel != [] {
      NormalsAre(rel[1..]);
      assert rel == [rel[0]] + rel[1..];
    }
  }

  lemma {:induction false} JoinHas(parts: seq<Utf8Segment>, c: u8)
    requires parts != [] && c != SLASH
    ensures c in Text.Join(parts, SLASH) <==> exists n :: n in parts && c in n
  {
    if |parts| > 1 {
      JoinHas(parts[1..], c);
      assert parts == [parts[0]] + parts[1..];
      assert Text.Join(parts, SLASH) == parts[0] + [SLASH] + Text.Join(parts[1..], SLASH);
    } else {
      assert parts == [parts[0]];
    }
  }

  /** A name is its components with slashes between them, and `.` leaves no trace. */
  lemma NameGrows(rel: seq<Component>, n: Utf8Segment)
    requires 0x5C !in n
    ensures ZipName([Normal(n)]) == Ok(n)
    ensures ZipName(rel).Ok? ==> ZipName(rel + [Normal(n)]) == Ok(ZipName(rel).value + [0x2F] + n)
    ensures ZipName(rel).Ok? ==> ZipName(rel + [CurDir]) == ZipName(rel) == ZipName([CurDir] + rel)
  {
    assert Normals([Normal(n)]) == [n] by {
      assert [Normal(n)][1..] == [];
    }
    if ZipName(rel).Ok? {
      NormalsConcat(rel, [Normal(n)]);
      NormalsConcat(rel, [CurDir]);
      NormalsConcat([CurDir], rel);
      assert Normals([CurDir]) == [];
      assert Normals(rel) + [] == Normals(rel) && [] + Normals(rel) == Normals(rel);
      JoinMore(Normals(rel), n);
    }
  }

  lemma Grouped<T>(a: seq<T>, b: seq<T>, c: seq<T>)
    ensures a + b + c == a + (b + c)
  {
  }

  lemma NormalsUnfold(a: seq<Component>)
    requires a != []
    ensures Normals(a) == (if a[0].Normal? then [a[0].name] else []) + Normals(a[1..])
  {
  }

  lemma {:induction false} NormalsConcat(a: seq<Component>, b: seq<Component>)
    ensures Normals(a + b) == Normals(a) + Normals(b)
  {
    if a == [] {
      assert a + b == b;
    } else {
      hide Normals;
      NormalsConcat(a[1..], b);
      assert (a + b)[0] == a[0] && (a + b)[1..] == a[1..] + b;
      NormalsUnfold(a);
      NormalsUnfold(a + b);
      Grouped(if a[0].Normal? then [a[0].name] else [], Normals(a[1..]), Normals(b));
    }
  }

  lemma {:induction false} JoinMore(parts: seq<Utf8Segment>, n: Utf8Segment)
    requires parts != []
    ensures Text.Join(parts + [n], SLASH) == Text.Join(parts, SLASH) + [SLASH] + n
  {
    if |parts| > 1 {
      JoinMore(parts[1..], n);
      assert (parts + [n])[1..] == parts[1..] + [n];
    } else {
      assert (parts + [n])[1..] == [n];
    }
  }

  /** A name without a slash is one component, `.` is none, and `..` is refused. */
  lemma PlaceOne(a: seq<u8>)
    requires 0x2F !in a
    ensures Place(a) ==
            if a == [] then Err(EmptyPath)
            else if a == [0x2E, 0x2E] then Err(UnsafePath)
            else if a == [0x2E] then Ok([])
            else Ok([a])
  {
    Text.SplitNone(a, SLASH);
    assert [a][1..] == [] && Resolve([]) == [];
  }

  /** A slash in front is refused; one between two names puts the second below the first. */
  lemma PlaceMore(a: seq<u8>, b: seq<u8>)
    ensures Place([0x2F] + b) == Err(UnsafePath)
    ensures a != [] && Place(a).Err? ==> Place(a + [0x2F] + b).Err?
    ensures Place(a).Ok? ==> Place(a + [0x2F]) == Place(a)
    ensures Place(a).Ok? ==> Place(a + [0x2F] + [0x2F] + b) == Place(a + [0x2F] + b)
    ensures Place(a).Ok? && b != [] && b[0] != 0x2F ==>
              Place(a + [0x2F] + b) == if Place(b).Ok? then Ok(Place(a).value + Place(b).value) else Err(UnsafePath)
  {
    var x, y := Text.Split(a, SLASH), Text.Split(b, SLASH);
    Text.SplitConcat(a, SLASH, b);
    Text.SplitConcat(a, SLASH, []);
    Text.SplitConcat(a + [SLASH], SLASH, b);
    assert x + [[]] + y == x + ([[]] + y);
    if Place(a).Ok? {
      assert a + [SLASH] == a + [SLASH] + [];
      ResolveConcat(x, [[]]);
      assert Resolve(x) + [] == Resolve(x);
      if DOT_DOT !in y {
        ResolveConcat(x, y);
        ResolveConcat(x + [[]], y);
      }
    }
  }

  lemma {:induction false} ResolveConcat(a: seq<seq<u8>>, b: seq<seq<u8>>)
    requires forall n :: n in a + b ==> SLASH !in n && n != DOT_DOT
    ensures (forall n :: n in a ==> n in a + b) && (forall n :: n in b ==> n in a + b)
    ensures Resolve(a + b) == Resolve(a) + Resolve(b)
  {
    assert forall n :: n in a ==> n in a + b;
    assert forall n :: n in b ==> n in a + b;
    if a == [] {
      assert a + b == b;
    } else {
      assert (a + b)[1..] == a[1..] + b;
      forall n | n in a[1..] + b
        ensures n in a + b
      {
      }
      ResolveConcat(a[1..], b);
    }
  }

  lemma {:induction false} ResolveSegments(parts: seq<Segment>)
    ensures Resolve(parts) == parts
  {
    if parts != [] {
      ResolveSegments(parts[1..]);
      assert [parts[0]] + parts[1..] == parts;
    }
  }

  lemma SlashUtf8()
    ensures Text.ValidUtf8([SLASH])
  {
  }

  lemma {:induction false} JoinUtf8(parts: seq<Utf8Segment>)
    requires parts != []
    ensures Text.ValidUtf8(Text.Join(parts, SLASH))
    ensures Text.Join(parts, SLASH) != []
    ensures Text.Join(parts, SLASH)[0] != SLASH
    ensures Text.Join(parts, SLASH)[|Text.Join(parts, SLASH)| - 1] != SLASH
  {
    hide Text.ValidUtf8;
    if |parts| > 1 {
      JoinUtf8(parts[1..]);
      SlashUtf8();
      Text.Utf8Concat([SLASH], Text.Join(parts[1..], SLASH));
      Text.Utf8Concat(parts[0], [SLASH] + Text.Join(parts[1..], SLASH));
      assert Text.Join(parts, SLASH) == parts[0] + ([SLASH] + Text.Join(parts[1..], SLASH));
    }
  }

  /**
   * The reader puts a file where the writer took it from: a name made by the
   * writer is valid UTF-8, is no directory name, and resolves to the same components.
   */
  lemma NameRoundTrip(rel: seq<Component>)
    requires ZipName(rel).Ok?
    ensures var name := ZipName(rel).value;
            && Text.ValidUtf8(name)
            && name[|name| - 1] != SLASH
            && Place(name) == Ok(Normals(rel))
  {
    var parts := Normals(rel);
    JoinUtf8(parts);
    Text.SplitJoin<u8>(parts, SLASH);
    ResolveSegments(parts);
  }
}
