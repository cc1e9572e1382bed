/** The destination directory of an extraction, as a value and as an object. */
module Dest {
  import opened Bytes
  import opened Wrappers
  import opened ZipPath

  datatype Tree = Tree(files: map<Path, seq<u8>>, dirs: set<Path>)

  /** A fresh directory. */
  const EMPTY := Tree(map[], {[]})

  function Prefixes(p: Path): set<Path> {
    set k | 0 <= k <= |p| :: p[..k]
  }

  /** `create_dir_all`: fails when a file stands where a directory is needed, and on an unusable path. */
  function MakeDirs(t: Tree, p: Path): Option<Tree> {
    if !Usable(p) || exists q :: q in Prefixes(p) && q in t.files then None
    else Some(t.(dirs := t.dirs + Prefixes(p)))
  }

  /** `create_dir_all` on the parent, then `File::create`, which empties an existing file. */
  function MakeFile(t: Tree, p: Path): Option<Tree> {
    if p == [] then None
    else
      var t1 :- MakeDirs(t, p[..|p| - 1]);
      if p in t1.dirs || !Usable(p) then None else Some(t1.(files := t1.files[p := []]))
  }

  /** What is left when a file cannot be created: its directories may have been. */
  function MakeParents(t: Tree, p: Path): Tree {
    if p == [] then t
    else
      match MakeDirs(t, p[..|p| - 1])
      case None => t
      case Some(t1) => t1
  }

  /** A directory tree: all that is in it lies in directories of it, and nothing is both. */
  ghost predicate Sound(t: Tree) {
    && [] in t.dirs && t.files.Keys !! t.dirs
    && (forall p :: p in t.dirs ==> Prefixes(p) <= t.dirs)
    && (forall p :: p in t.files ==> p != [] && Prefixes(p[..|p| - 1]) <= t.dirs)
  }

  lemma PrefixesOfPrefix(p: Path, q: Path)
    requires q in Prefixes(p)
    ensures Prefixes(q) <= Prefixes(p) && |q| <= |p|
  {
    var k :| 0 <= k <= |p| && q == p[..k];
    forall x | x in Prefixes(q)
      ensures x in Prefixes(p)
    {
      var j :| 0 <= j <= |q| && x == q[..j];
      assert x == p[..j];
    }
  }

  /** Directories can be made exactly on a usable path with no file in the way, and the tree stays one. */
  lemma MakeDirsSound(t: Tree, p: Path)
    requires Sound(t)
    ensures MakeDirs(t, p).Some? <==> Usable(p) && Prefixes(p) !! t.files.Keys
    ensures MakeDirs(t, p).Some? ==>
              var u := MakeDirs(t, p).value;
              Sound(u) && p in u.dirs && t.dirs <= u.dirs && u.files == t.files
  {
    forall q | q in Prefixes(p)
      ensures Prefixes(q) <= Prefixes(p)
    {
      PrefixesOfPrefix(p, q);
    }
    assert p == p[..|p|];
  }

  /**
   * A file can be created exactly on a usable path where no directory stands and no file is in
   * the way of its parents. The tree stays one, every other file stays as it was, and this one is
   * empty; and no file is touched when it cannot be created.
   */
  lemma MakeFileSound(t: Tree, p: Path)
    requires Sound(t)
    ensures MakeFile(t, p).Some? <==>
              Usable(p) && p !in t.dirs && forall k :: 0 <= k < |p| ==> p[..k] !in t.files
    ensures var u := MakeParents(t, p); Sound(u) && t.dirs <= u.dirs && u.files == t.files
    ensures MakeFile(t, p).Some? ==>
              var u := MakeFile(t, p).value;
              && Sound(u) && t.dirs <= u.dirs
              && p in u.files && u.files[p] == []
              && forall q :: q != p ==> (q in u.files <==> q in t.files) && (q in t.files ==> u.files[q] == t.files[q])
  {
    if p != [] {
      var parent := p[..|p| - 1];
      MakeDirsSound(t, parent);
      assert p == parent + [p[|p| - 1]];
      forall k | 0 <= k < |p|
        ensures p[..k] in Prefixes(parent)
      {
        assert p[..k] == parent[..k];
      }
      forall q | q in Prefixes(parent)
        ensures |q| < |p| && q == p[..|q|]
      {
        PrefixesOfPrefix(parent, q);
        var k :| 0 <= k <= |parent| && q == parent[..k];
      }
    }
  }

  class Directory {
    var tree: Tree

    constructor ()
      ensures tree == EMPTY
    {
      tree := EMPTY;
    }

    method CreateDirAll(p: Path) returns (ok: bool)
      modifies this
      ensures ok <==> MakeDirs(old(tree), p).Some?
      ensures tree == if ok then MakeDirs(old(tree), p).value else old(tree)
    {
      var made := MakeDirs(tree, p);
      ok := made.Some?;
      if ok {
        tree := made.value;
      }
    }

    method Create(p: Path) returns (ok: bool)
      modifies this
      ensures ok <==> MakeFile(old(tree), p).Some?
      ensures tree == if ok then MakeFile(old(tree), p).value else MakeParents(old(tree), p)
    {
      var made := MakeFile(tree, p);
      ok := made.Some?;
      tree := if ok then made.value else MakeParents(tree, p);
    }

    method Append(p: Path, bytes: seq<u8>)
      requires p in tree.files
      modifies this
      ensures tree == old(tree).(files := old(tree).files[p := old(tree).files[p] + bytes])
    {
      tree := tree.(files := tree.files[p := tree.files[p] + bytes]);
    }
  }
}
