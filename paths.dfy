/** Unix paths as Rust's std::path sees them: a root flag and a sequence of
    components. Covers what the packer does with paths: Path::new on a
    string, join, with_extension, has_root, path_dedot's parse_dot, and the
    lexical dot-normalisation that names one file by one key. */
module Paths {

  /** A component of a parsed path (the root is kept apart, as `rooted`). */
  datatype Component = CurDir | ParentDir | Normal(name: string)

  /** A parsed path; `rooted` is Path::has_root on Unix. */
  datatype Path = Path(rooted: bool, comps: seq<Component>)

  // ---------------------------------------------------------------------
  // Parsing text into components
  // ---------------------------------------------------------------------

  predicate Lacks(s: string, c: char) {
    forall i :: 0 <= i < |s| ==> s[i] != c
  }

  /** Index of the last occurrence of c in s, or -1. */
  function LastIndex(s: string, c: char): (k: int)
    ensures -1 <= k < |s|
    ensures k >= 0 ==> s[k] == c
    ensures forall j :: k < j < |s| ==> s[j] != c
  {
    if |s| == 0 then -1
    else if s[|s| - 1] == c then |s| - 1
    else LastIndex(s[..|s| - 1], c)
  }

  /** The '/'-separated segments of s, empty ones included. */
  function Segments(s: string): (segs: seq<string>)
    ensures |segs| >= 1
    decreases |s|
  {
    var k := LastIndex(s, '/');
    if k < 0 then [s] else Segments(s[..k]) + [s[k + 1..]]
  }

  /** What one segment contributes in the middle of a path. */
  function SegmentComponents(seg: string): seq<Component> {
    if seg == "" || seg == "." then []
    else if seg == ".." then [ParentDir]
    else [Normal(seg)]
  }

  function SegmentsComponents(segs: seq<string>): seq<Component> {
    if segs == [] then []
    else SegmentsComponents(segs[..|segs| - 1]) + SegmentComponents(segs[|segs| - 1])
  }

  /** Components of s; a first segment "." is kept as CurDir only when
      `atStart` (Rust drops "." everywhere but at the front). */
  function ComponentsOf(s: string, atStart: bool): seq<Component> {
    var segs := Segments(s);
    (if atStart && segs[0] == "." then [CurDir] else SegmentComponents(segs[0]))
      + SegmentsComponents(segs[1..])
  }

  /** Path::new(s). */
  function FromString(s: string): Path {
    Path(|s| > 0 && s[0] == '/', ComponentsOf(s, true))
  }

  // ---------------------------------------------------------------------
  // join, with_extension
  // ---------------------------------------------------------------------

  function DropCurDir(cs: seq<Component>): seq<Component> {
    if |cs| > 0 && cs[0] == CurDir then cs[1..] else cs
  }

  /** PathBuf::join: an absolute argument replaces the base; a "." at the
      front of the argument vanishes once it is no longer in front. */
  function Join(base: Path, p: Path): Path {
    if p.rooted then p
    else if !base.rooted && base.comps == [] then p
    else Path(base.rooted, base.comps + DropCurDir(p.comps))
  }

  /** Path::file_stem of a file name: everything before the last '.', unless
      that leaves nothing (".bashrc") or the name is "..". */
  function FileStem(f: string): string {
    if f == ".." then f
    else
      var k := LastIndex(f, '.');
      if k <= 0 then f else f[..k]
  }

  /** Path::with_extension: the last component, when it is a file name, is cut
      after its stem and `ext` is appended after a '.'. The resulting text is
      parsed again, so separators inside `ext` make new components. */
  function WithExtension(p: Path, ext: string): Path {
    if |p.comps| == 0 || !p.comps[|p.comps| - 1].Normal? then p
    else
      var prefix := p.comps[..|p.comps| - 1];
      var renamed := Renamed(FileStem(p.comps[|p.comps| - 1].name), ext);
      Path(p.rooted, prefix + ComponentsOf(renamed, prefix == [] && !p.rooted))
  }

  /** The new file name with_extension forms from a stem. */
  function Renamed(stem: string, ext: string): string {
    if ext == "" then stem else stem + "." + ext
  }

  /** with_extension on a path whose last component is the file name `f`. */
  lemma WithExtensionOfFile(rooted: bool, prefix: seq<Component>, f: string, ext: string)
    ensures WithExtension(Path(rooted, prefix + [Normal(f)]), ext) ==
            Path(rooted, prefix + ComponentsOf(Renamed(FileStem(f), ext), prefix == [] && !rooted))
  {
    var cs := prefix + [Normal(f)];
    assert cs[..|cs| - 1] == prefix;
  }

  // ---------------------------------------------------------------------
  // Dot-normalisation and the escape test
  // ---------------------------------------------------------------------

  /** One step of lexical normalisation: "." vanishes, ".." cancels the name
      before it, stays at the front of a relative path, and vanishes at the
      root. */
  function Step(rooted: bool, stack: seq<Component>, c: Component): seq<Component> {
    match c
    case CurDir => stack
    case Normal(_) => stack + [c]
    case ParentDir =>
      if |stack| > 0 && stack[|stack| - 1] != ParentDir then stack[..|stack| - 1]
      else if rooted then stack
      else stack + [ParentDir]
  }

  function NormalizeFrom(rooted: bool, stack: seq<Component>, cs: seq<Component>): seq<Component>
    decreases |cs|
  {
    if cs == [] then stack else NormalizeFrom(rooted, Step(rooted, stack, cs[0]), cs[1..])
  }

  /** Lexical normalisation: the key of a file, and the normalisation a
      path test needs to see a leading "..". */
  function Normalize(p: Path): Path {
    Path(p.rooted, NormalizeFrom(p.rooted, [], p.comps))
  }

  predicate StartsWithParent(p: Path) {
    |p.comps| > 0 && p.comps[0] == ParentDir
  }

  /** A rooted path, or one whose lexical normalisation starts with "..":
      exactly the paths that can leave a directory they are joined to. */
  predicate Escapes(p: Path) {
    p.rooted || StartsWithParent(Normalize(p))
  }

  // ---------------------------------------------------------------------
  // parse_dot as path_dedot performs it
  // ---------------------------------------------------------------------

  /** The working directory, as `std::env::current_dir` returns it: the
      root followed by plain names. */
  function CwdPath(cwd: seq<string>): (p: Path)
    ensures p.rooted && |p.comps| == |cwd| && AllNormal(p.comps)
  {
    Path(true, Names(cwd))
  }

  function Names(ns: seq<string>): (cs: seq<Component>)
    ensures |cs| == |ns| && AllNormal(cs)
  {
    if ns == [] then [] else Names(ns[..|ns| - 1]) + [Normal(ns[|ns| - 1])]
  }

  /** One step of parse_dot after the first component: "." vanishes, ".."
      drops the last component kept so far, or vanishes when none is kept,
      and a name is kept. */
  function DedotStep(stack: seq<Component>, c: Component): seq<Component> {
    match c
    case CurDir => stack
    case ParentDir => if |stack| > 0 then stack[..|stack| - 1] else stack
    case Normal(_) => stack + [c]
  }

  function DedotFrom(stack: seq<Component>, cs: seq<Component>): seq<Component>
    decreases |cs|
  {
    if cs == [] then stack else DedotFrom(DedotStep(stack, cs[0]), cs[1..])
  }

  /** path_dedot's parse_dot in the working directory `cwd`. A leading "."
      is replaced by the working directory and a leading ".." by its parent
      (the root when the working directory is the root); the rest goes
      through DedotStep. A ".." therefore never survives. */
  function ParseDot(cwd: seq<string>, p: Path): Path {
    if p.rooted || |p.comps| == 0 then Path(p.rooted, DedotFrom([], p.comps))
    else
      var w := CwdPath(cwd).comps;
      match p.comps[0]
      case CurDir => Path(true, DedotFrom(w, p.comps[1..]))
      case ParentDir => Path(true, DedotFrom(if |w| > 0 then w[..|w| - 1] else w, p.comps[1..]))
      case Normal(_) => Path(false, DedotFrom([p.comps[0]], p.comps[1..]))
  }

  /** parse_dot keeps a stack of plain names plain. */
  lemma {:induction false} DedotKeepsNames(stack: seq<Component>, cs: seq<Component>)
    requires AllNormal(stack)
    ensures AllNormal(DedotFrom(stack, cs))
    decreases |cs|
  {
    if cs != [] {
      var next := DedotStep(stack, cs[0]);
      assert AllNormal(next) by {
        if cs[0].ParentDir? && |stack| > 0 {
          assert forall i :: 0 <= i < |next| ==> next[i] == stack[i];
        } else if cs[0].Normal? {
          assert forall i :: 0 <= i < |stack| ==> next[i] == stack[i];
        }
      }
      DedotKeepsNames(next, cs[1..]);
    }
  }

  /** Hence what parse_dot returns is made of plain names after the root, if
      any, and never starts with "..": `parse_dot()?.starts_with("..")`
      never holds. */
  lemma ParseDotNeverClimbs(cwd: seq<string>, p: Path)
    ensures AllNormal(ParseDot(cwd, p).comps)
    ensures !StartsWithParent(ParseDot(cwd, p))
  {
    if p.rooted || |p.comps| == 0 {
      DedotKeepsNames([], p.comps);
    } else {
      var w := CwdPath(cwd).comps;
      match p.comps[0]
      case CurDir => DedotKeepsNames(w, p.comps[1..]);
      case ParentDir =>
        var w2 := if |w| > 0 then w[..|w| - 1] else w;
        assert AllNormal(w2) by {
          assert forall i :: 0 <= i < |w2| ==> w2[i] == w[i];
        }
        DedotKeepsNames(w2, p.comps[1..]);
      case Normal(_) => DedotKeepsNames([p.comps[0]], p.comps[1..]);
    }
  }

  /** `p` names `dir` or something below it. */
  predicate Under(p: Path, dir: Path) {
    p.rooted == dir.rooted && |dir.comps| <= |p.comps| && p.comps[..|dir.comps|] == dir.comps
  }

  predicate AllNormal(cs: seq<Component>) {
    forall i :: 0 <= i < |cs| ==> cs[i].Normal?
  }

  // ---------------------------------------------------------------------
  // Lemmas: normalisation
  // ---------------------------------------------------------------------

  /** Normalising a concatenation is normalising the second part from the
      first part's result. */
  lemma {:induction false} NormalizeFromAppend(rooted: bool, stack: seq<Component>, a: seq<Component>, b: seq<Component>)
    ensures NormalizeFrom(rooted, stack, a + b) == NormalizeFrom(rooted, NormalizeFrom(rooted, stack, a), b)
    decreases |a|
  {
    if a == [] {
      assert a + b == b;
    } else {
      assert (a + b)[0] == a[0];
      assert (a + b)[1..] == a[1..] + b;
      NormalizeFromAppend(rooted, Step(rooted, stack, a[0]), a[1..], b);
    }
  }

  /** In a relative path, a ".." that reached the front is never removed. */
  lemma {:induction false} ParentStaysInFront(stack: seq<Component>, cs: seq<Component>)
    requires |stack| > 0 && stack[0] == ParentDir
    ensures StartsWithParent(Path(false, NormalizeFrom(false, stack, cs)))
    decreases |cs|
  {
    if cs != [] {
      var next := Step(false, stack, cs[0]);
      assert |next| > 0 && next[0] == ParentDir by {
        if cs[0] == ParentDir && |stack| > 0 && stack[|stack| - 1] != ParentDir {
          assert |stack| > 1;
        }
      }
      ParentStaysInFront(next, cs[1..]);
    }
  }

  /** A relative tail that never climbs above its start normalises the same
      way after any prefix. */
  lemma {:induction false} NormalizeFromShift(rooted: bool, s: seq<Component>, x: seq<Component>, cs: seq<Component>)
    requires AllNormal(x)
    requires !StartsWithParent(Path(false, NormalizeFrom(false, x, cs)))
    ensures NormalizeFrom(rooted, s + x, cs) == s + NormalizeFrom(false, x, cs)
    decreases |cs|
  {
    if cs == [] {
    } else {
      match cs[0]
      case CurDir =>
        NormalizeFromShift(rooted, s, x, cs[1..]);
      case Normal(_) =>
        assert s + x + [cs[0]] == s + (x + [cs[0]]);
        NormalizeFromShift(rooted, s, x + [cs[0]], cs[1..]);
      case ParentDir =>
        if |x| == 0 {
          assert Step(false, x, cs[0]) == [ParentDir];
          ParentStaysInFront([ParentDir], cs[1..]);
          assert false;
        } else {
          assert (s + x)[|s + x| - 1] == x[|x| - 1];
          assert (s + x)[..|s + x| - 1] == s + x[..|x| - 1];
          NormalizeFromShift(rooted, s, x[..|x| - 1], cs[1..]);
        }
    }
  }

  /** The point of the escape test: joining a path that passes it to a
      directory yields, once normalised, the directory followed by the path. */
  lemma JoinUnescaped(base: Path, p: Path)
    requires !Escapes(p)
    ensures Normalize(Join(base, p)) == Path(base.rooted, Normalize(base).comps + Normalize(p).comps)
  {
    if !base.rooted && base.comps == [] {
    } else {
      var tail := DropCurDir(p.comps);
      assert NormalizeFrom(false, [], tail) == NormalizeFrom(false, [], p.comps);
      NormalizeFromAppend(base.rooted, [], base.comps, tail);
      var s := NormalizeFrom(base.rooted, [], base.comps);
      NormalizeFromShift(base.rooted, s, [], tail);
      assert s + [] == s;
    }
  }

  /** Hence the joined path stays under the directory. */
  lemma JoinUnescapedIsUnder(base: Path, p: Path)
    requires !Escapes(p)
    ensures Under(Normalize(Join(base, p)), Normalize(base))
  {
    JoinUnescaped(base, p);
  }

  /** Without the test, a relative "../x" leaves the directory it is joined to. */
  lemma ParentEscapes(dirName: string, x: string)
    requires dirName != x
    ensures var dir := Path(true, [Normal(dirName)]);
            var p := Path(false, [ParentDir, Normal(x)]);
            Escapes(p) && Normalize(Join(dir, p)) == Path(true, [Normal(x)]) &&
            !Under(Normalize(Join(dir, p)), Normalize(dir))
  {
    var dir := Path(true, [Normal(dirName)]);
    var p := Path(false, [ParentDir, Normal(x)]);
    assert Normalize(p).comps == [ParentDir, Normal(x)] by {
      assert Step(false, [], ParentDir) == [ParentDir];
      assert p.comps[1..] == [Normal(x)];
      assert NormalizeFrom(false, [], p.comps) == NormalizeFrom(false, [ParentDir], [Normal(x)]);
      assert Step(false, [ParentDir], Normal(x)) == [ParentDir, Normal(x)];
      assert NormalizeFrom(false, [ParentDir], [Normal(x)]) == NormalizeFrom(false, [ParentDir, Normal(x)], []);
    }
    var joined := Join(dir, p);
    assert joined.comps == [Normal(dirName), ParentDir, Normal(x)];
    assert NormalizeFrom(true, [], joined.comps) == [Normal(x)] by {
      calc {
        NormalizeFrom(true, [], joined.comps);
        NormalizeFrom(true, [Normal(dirName)], [ParentDir, Normal(x)]);
        NormalizeFrom(true, [], [Normal(x)]);
        NormalizeFrom(true, [Normal(x)], []);
      }
    }
    assert Normalize(dir).comps == [Normal(dirName)] by {
      assert NormalizeFrom(true, [], dir.comps) == NormalizeFrom(true, [Normal(dirName)], []);
    }
  }

  // ---------------------------------------------------------------------
  // Lemmas: building a file name from text
  // ---------------------------------------------------------------------

  lemma LastIndexOfSuffix(t: string, w: string, c: char)
    requires Lacks(w, c)
    ensures LastIndex(t + w, c) == LastIndex(t, c)
  {
    var tw := t + w;
    var k1 := LastIndex(tw, c);
    var k2 := LastIndex(t, c);
    assert forall j :: |t| <= j < |tw| ==> tw[j] == w[j - |t|];
    assert forall j :: 0 <= j < |t| ==> tw[j] == t[j];
    assert k1 < |t|;
    assert k1 <= k2;
    assert k2 <= k1;
  }

  /** Appending slash-free text extends the last segment only. */
  lemma SegmentsOfSuffix(t: string, w: string)
    requires Lacks(w, '/')
    ensures var st := Segments(t);
            Segments(t + w) == st[..|st| - 1] + [st[|st| - 1] + w]
  {
    LastIndexOfSuffix(t, w, '/');
    var k := LastIndex(t, '/');
    if k >= 0 {
      assert (t + w)[..k] == t[..k];
      assert (t + w)[k + 1..] == t[k + 1..] + w;
      var prev := Segments(t[..k]);
      assert Segments(t)[..|Segments(t)| - 1] == prev;
    }
  }

  lemma SegmentsComponentsSnoc(segs: seq<string>, last: string)
    ensures SegmentsComponents(segs + [last]) == SegmentsComponents(segs) + SegmentComponents(last)
  {
    assert (segs + [last])[..|segs|] == segs;
  }

  /** The text of the last segment of s. */
  function LastSegment(s: string): string {
    var segs := Segments(s);
    segs[|segs| - 1]
  }

  /** The components Path::new(s) gives before the last segment. */
  function DirComponents(s: string): seq<Component> {
    var segs := Segments(s);
    if |segs| == 1 then []
    else
      (if segs[0] == "." then [CurDir] else SegmentComponents(segs[0]))
        + SegmentsComponents(segs[1..|segs| - 1])
  }

  /** A segment holding a '-' is a plain file name. */
  lemma DashedSegment(seg: string, i: int)
    requires 0 <= i < |seg| && seg[i] == '-'
    ensures SegmentComponents(seg) == [Normal(seg)]
  {
  }

  lemma ComponentsWithSuffix(t: string, w: string)
    requires Lacks(w, '/') && |w| > 0 && w[0] == '-'
    ensures ComponentsOf(t + w, true) == DirComponents(t) + [Normal(LastSegment(t) + w)]
  {
    SegmentsOfSuffix(t, w);
    var st := Segments(t);
    var lastw := st[|st| - 1] + w;
    DashedSegment(lastw, |st[|st| - 1]|);
    ComponentsOfSegments(st[..|st| - 1] + [lastw], lastw);
  }

  /** ComponentsOf, read off a given segmentation whose last segment is a
      plain file name. */
  lemma ComponentsOfSegments(segs: seq<string>, last: string)
    requires |segs| >= 1 && segs[|segs| - 1] == last
    requires SegmentComponents(last) == [Normal(last)]
    ensures var head := if segs[0] == "." then [CurDir] else SegmentComponents(segs[0]);
            head + SegmentsComponents(segs[1..]) ==
            (if |segs| == 1 then [] else head + SegmentsComponents(segs[1..|segs| - 1])) + [Normal(last)]
  {
    if |segs| > 1 {
      assert segs[1..] == segs[1..|segs| - 1] + [last];
      SegmentsComponentsSnoc(segs[1..|segs| - 1], last);
    } else {
      assert segs[1..] == [];
    }
  }

  /** Path::new(t + w), for a slash-free `w` that starts with '-': the last
      component is the last segment of t followed by w, and what precedes it
      depends on t alone. */
  lemma FromStringWithSuffix(t: string, w: string)
    requires Lacks(w, '/') && |w| > 0 && w[0] == '-'
    ensures FromString(t + w) ==
            Path(|t| > 0 && t[0] == '/', DirComponents(t) + [Normal(LastSegment(t) + w)])
  {
    ComponentsWithSuffix(t, w);
    if |t| == 0 {
      assert t + w == w;
    } else {
      assert (t + w)[0] == t[0];
    }
  }

  /** A stem of a name with a '.' past its first character stops at the
      name's last '.', whatever dot-free text follows. */
  lemma FileStemOfSuffix(f: string, w: string)
    requires Lacks(w, '.') && |w| > 0 && w[0] == '-'
    ensures LastIndex(f, '.') <= 0 ==> FileStem(f + w) == f + w
    ensures LastIndex(f, '.') > 0 ==> FileStem(f + w) == f[..LastIndex(f, '.')]
  {
    LastIndexOfSuffix(f, w, '.');
    var k := LastIndex(f, '.');
    if k > 0 {
      assert (f + w)[..k] == f[..k];
    }
  }

  lemma LastIndexNonNegative(s: string, c: char, i: int)
    requires 0 <= i < |s| && s[i] == c
    ensures LastIndex(s, c) >= i
  {
  }

  /** Two different texts that each carry no '.' stay apart once the same
      '.'-led extension follows them. */
  lemma DotSeparated(a: string, b: string, e: string)
    requires Lacks(a, '.') && Lacks(b, '.') && a != b
    ensures a + "." + e != b + "." + e
  {
    var x, y := a + "." + e, b + "." + e;
    if |a| == |b| {
      assert exists i :: 0 <= i < |a| && a[i] != b[i];
      var i :| 0 <= i < |a| && a[i] != b[i];
      assert x[i] == a[i] && y[i] == b[i];
    } else if |a| < |b| {
      assert x[|a|] == '.' && y[|a|] == b[|a|];
    } else {
      assert y[|b|] == '.' && x[|b|] == a[|b|];
    }
  }

  /** A slash-free text is a single segment. */
  lemma SlashFreeSegments(s: string)
    requires Lacks(s, '/')
    ensures Segments(s) == [s] && LastSegment(s) == s && DirComponents(s) == []
  {
  }

  /** A slash-free text other than "", "." and ".." parses to one plain
      file name. */
  lemma SlashFreePlain(s: string, atStart: bool)
    requires Lacks(s, '/') && s != "" && s != "." && s != ".."
    ensures ComponentsOf(s, atStart) == [Normal(s)]
  {
    SlashFreeSegments(s);
  }

  lemma LacksConcat(a: string, b: string, c: char)
    requires Lacks(a, c) && Lacks(b, c)
    ensures Lacks(a + b, c)
  {
    assert forall i :: 0 <= i < |a + b| ==> (a + b)[i] == if i < |a| then a[i] else b[i - |a|];
  }
}
