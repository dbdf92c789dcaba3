/** The filesystem as the cache sees it: file contents keyed by the
    dot-normalised form of their path, so two spellings of one path name
    one file. Directories are not modelled; `create_dir_all` always
    succeeds. */
module Storage {
  import opened Basics
  import opened Paths

  type Files = map<Path, Bytes>

  function Key(p: Path): Path {
    Normalize(p)
  }

  /** `Path::exists`. */
  predicate Exists(fs: Files, p: Path) {
    Key(p) in fs
  }

  /** `fs::read` of a file that exists. */
  function Read(fs: Files, p: Path): (b: Bytes)
    requires Exists(fs, p)
  {
    fs[Key(p)]
  }

  /** Creating or truncating a file and writing `b` to it. */
  function Write(fs: Files, p: Path, b: Bytes): (r: Files)
    ensures Exists(r, p) && Read(r, p) == b
  {
    fs[Key(p) := b]
  }

  /** `remove_file` after an `exists` test. */
  function Remove(fs: Files, p: Path): (r: Files)
    ensures !Exists(r, p)
  {
    fs - {Key(p)}
  }

  /** Removing a file that is not there changes nothing, so removing only
      after an `exists` test is the same as removing unconditionally. */
  lemma RemoveAbsent(fs: Files, p: Path)
    requires !Exists(fs, p)
    ensures Remove(fs, p) == fs
  {
    assert fs - {Key(p)} == fs;
  }

  /** Every file outside `dirs` is as it was. */
  ghost predicate Confined(before: Files, after: Files, dirs: set<Path>) {
    forall k {:trigger k in before} {:trigger k in after} {:trigger before[k]} {:trigger after[k]} :: !UnderSome(k, dirs) ==> (k in before <==> k in after) && (k in before ==> before[k] == after[k])
  }

  ghost predicate UnderSome(k: Path, dirs: set<Path>) {
    exists d :: d in dirs && Under(k, d)
  }

  lemma ConfinedTrans(a: Files, b: Files, c: Files, dirs: set<Path>)
    requires Confined(a, b, dirs) && Confined(b, c, dirs)
    ensures Confined(a, c, dirs)
  {
  }

  /** A write to a path whose key is under one of `dirs` is confined. */
  lemma WriteConfined(fs: Files, p: Path, b: Bytes, dirs: set<Path>)
    requires UnderSome(Key(p), dirs)
    ensures Confined(fs, Write(fs, p, b), dirs)
  {
  }

  lemma RemoveConfined(fs: Files, p: Path, dirs: set<Path>)
    requires UnderSome(Key(p), dirs)
    ensures Confined(fs, Remove(fs, p), dirs)
  {
  }
}
