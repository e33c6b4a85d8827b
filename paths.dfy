/**
 * Path strings, the two `os.path` helpers the file copier relies on
 * (`basename` and `join`), and the slice of the filesystem the copier
 * observes (`exists` and `isfile`).
 *
 * The platform is a parameter: `sep` is its native separator, '/' on Linux
 * and '\\' on Windows. '/' separates components on both.
 */
module Paths {

  datatype Option<T> = None | Some(value: T)

  type Path = string

  /** `c` separates path components on a platform whose native separator is `sep`. */
  predicate IsSep(sep: char, c: char) {
    c == '/' || c == sep
  }

  /** No character of `s` is a separator. */
  predicate NoSep(sep: char, s: string) {
    forall i :: 0 <= i < |s| ==> !IsSep(sep, s[i])
  }

  /** The length of the directory part of `p`: everything up to and including its last separator. */
  function DirLength(sep: char, p: Path): (k: nat)
    ensures k <= |p|
    ensures k > 0 ==> IsSep(sep, p[k - 1])
    ensures NoSep(sep, p[k..])
  {
    if p == [] then 0
    else if IsSep(sep, p[|p| - 1]) then |p|
    else
      var k := DirLength(sep, p[..|p| - 1]);
      assert p[k..] == p[..|p| - 1][k..] + [p[|p| - 1]];
      k
  }

  /** `os.path.basename`: what follows the last separator. */
  function Basename(sep: char, p: Path): (name: Path)
    ensures NoSep(sep, name)
  {
    p[DirLength(sep, p)..]
  }

  /** The basename of each path, in order: what the files list widget shows for them. */
  function Basenames(sep: char, paths: seq<Path>): (names: seq<Path>)
    ensures |names| == |paths|
    ensures forall i :: 0 <= i < |paths| ==> names[i] == Basename(sep, paths[i])
  {
    seq(|paths|, i requires 0 <= i < |paths| => Basename(sep, paths[i]))
  }

  lemma BasenamesSnoc(sep: char, paths: seq<Path>, i: nat)
    requires i < |paths|
    ensures Basenames(sep, paths[..i + 1]) == Basenames(sep, paths[..i]) + [Basename(sep, paths[i])]
  {
  }

  /**
   * `os.path.join(dir, name)` for a relative `name`: a separator is put
   * between the two unless `dir` is empty or already ends with one.
   */
  function Join(sep: char, dir: Path, name: Path): (r: Path)
    ensures |dir| + |name| <= |r| <= |dir| + 1 + |name|
  {
    if dir == [] || IsSep(sep, dir[|dir| - 1]) then dir + name else dir + [sep] + name
  }

  /** The directory part of `dir + name` is exactly `dir` when `dir` ends a directory and `name` is one component. */
  lemma {:induction false} DirLengthOfSplit(sep: char, dir: Path, name: Path)
    requires dir == [] || IsSep(sep, dir[|dir| - 1])
    requires NoSep(sep, name)
    ensures DirLength(sep, dir + name) == |dir|
    decreases |name|
  {
    if name == [] {
      assert dir + name == dir;
    } else {
      var p := dir + name;
      assert p[|p| - 1] == name[|name| - 1];
      assert p[..|p| - 1] == dir + name[..|name| - 1];
      DirLengthOfSplit(sep, dir, name[..|name| - 1]);
    }
  }

  /** Joining a single component onto a directory and taking the basename gives the component back. */
  lemma BasenameOfJoin(sep: char, dir: Path, name: Path)
    requires NoSep(sep, name)
    ensures Basename(sep, Join(sep, dir, name)) == name
  {
    if dir == [] || IsSep(sep, dir[|dir| - 1]) {
      DirLengthOfSplit(sep, dir, name);
    } else {
      assert Join(sep, dir, name) == (dir + [sep]) + name;
      DirLengthOfSplit(sep, dir + [sep], name);
    }
  }

  /**
   * What the copier can observe of the filesystem: the paths that exist
   * (`os.path.exists`) and those that are regular files (`os.path.isfile`).
   */
  datatype FileSystem = FileSystem(existing: set<Path>, regularFiles: set<Path>) {

    /** `os.path.exists`; the empty path never exists. */
    predicate Exists(p: Path) {
      p != [] && p in existing
    }

    /** `os.path.isfile`; the empty path is never a file. */
    predicate IsFile(p: Path) {
      p != [] && p in regularFiles
    }

    /** The paths `os.path.isfile` accepts. */
    function Files(): (r: set<Path>)
      ensures forall p :: p in r <==> IsFile(p)
    {
      regularFiles - {[]}
    }
  }
}
