/** How `create` names an asset's output file, and the test it applies to
    that name before writing anything. */
module OutputPaths {
  import opened Basics
  import opened Paths
  import opened Assets

  /** The three revisions of the cache logic: the live module
      (asset_cache.rs), the earlier one beside the shared types (assets.rs),
      which has no path test, and the orphaned one (assets_cache.rs), whose
      path test unwraps the normalisation result. `Strict` is not a revision
      of the program: it is the live module with the path test its authors
      evidently meant, one that sees a leading ".." (see CheckOutputPath). */
  datatype Variant = Live | Legacy | Orphan | Strict

  // ---------------------------------------------------------------------
  // Fresh names
  // ---------------------------------------------------------------------

  function HexDigit(d: int): (c: char)
    requires 0 <= d < 16
  {
    if d < 10 then ('0' as int + d) as char else ('a' as int + (d - 10)) as char
  }

  function DigitValue(c: char): int {
    if '0' <= c <= '9' then c as int - '0' as int
    else if 'a' <= c <= 'f' then c as int - 'a' as int + 10
    else 0
  }

  function HexValue(s: string): nat {
    if s == [] then 0 else HexValue(s[..|s| - 1]) * 16 + (var d := DigitValue(s[|s| - 1]); if d < 0 then 0 else d)
  }

  /** The text of the k-th fresh name drawn, standing for `Uuid::new_v4()`:
      lower-case hex digits, never empty, never holding '.', '/' or '-'. */
  function UuidText(k: nat): (s: string)
    ensures |s| >= 1
    ensures forall i :: 0 <= i < |s| ==> s[i] != '.' && s[i] != '/' && s[i] != '-'
    ensures HexValue(s) == k
  {
    if k < 16 then [HexDigit(k)]
    else
      var prefix := UuidText(k / 16);
      var s := prefix + [HexDigit(k % 16)];
      assert s[..|s| - 1] == prefix;
      s
  }

  // ---------------------------------------------------------------------
  // The output path
  // ---------------------------------------------------------------------

  /** `name-uuid`, put under the asset's output base path when it has one,
      with its extension set to the asset's extension. */
  function OutputPath(data: AssetData, name: string, uuid: string): Path {
    WithExtension(FileBase(data, name, uuid), data.extension)
  }

  /** `name-uuid` joined to the output base path, before the extension is set. */
  function FileBase(data: AssetData, name: string, uuid: string): Path {
    var file := FromString(name + "-" + uuid);
    match data.outputBasePath
    case Some(b) => Join(b, file)
    case None => file
  }

  /** The path test `create` applies, and `process_public_assets` applies
      again before publishing: `has_root() || parse_dot()?.starts_with("..")`.
      The earlier revision has none. A rooted path fails before parse_dot is
      called; parse_dot needs the working directory, whose failure the live
      revision returns and the orphaned one unwraps. Because parse_dot
      resolves a leading ".." against the working directory, the second
      half of the test never fires (LiveCheckRefusesOnlyRooted). `Strict`
      uses lexical normalisation instead, which needs no working directory
      and keeps a leading "..". */
  function CheckOutputPath(v: Variant, cwdReadable: bool, cwd: seq<string>, p: Path): (r: AssetResult<Path>)
    ensures v == Legacy ==> r == Ok(p)
    ensures r.Ok? ==> r.value == p && (v != Legacy ==> !p.rooted) && (v == Strict ==> !Escapes(p))
    ensures v != Legacy && p.rooted ==> r == Err(AssetPathError(p))
    ensures v == Strict ==> (r.Ok? <==> !Escapes(p)) && (r.Err? ==> r.error == AssetPathError(p))
    ensures r.Panicked? <==> v == Orphan && !p.rooted && !cwdReadable
    ensures v == Live && !p.rooted && !cwdReadable ==> r == Err(IOError(CurrentDirUnavailable))
  {
    if v.Legacy? then Ok(p)
    else if p.rooted then Err(AssetPathError(p))
    else if v.Strict? then (if StartsWithParent(Normalize(p)) then Err(AssetPathError(p)) else Ok(p))
    else if !cwdReadable then (if v.Live? then Err(FromIo(CurrentDirUnavailable)) else Panicked)
    else if StartsWithParent(ParseDot(cwd, p)) then Err(AssetPathError(p))
    else Ok(p)
  }

  /** As written, the live and orphaned test refuses only rooted paths: with
      a readable working directory, every other path passes, ".." or not. */
  lemma LiveCheckRefusesOnlyRooted(v: Variant, cwd: seq<string>, p: Path)
    requires v == Live || v == Orphan
    ensures CheckOutputPath(v, true, cwd, p) == if p.rooted then Err(AssetPathError(p)) else Ok(p)
  {
    ParseDotNeverClimbs(cwd, p);
  }

  // ---------------------------------------------------------------------
  // Lemmas
  // ---------------------------------------------------------------------

  /** What FileBase puts before the file name: it depends on the name and
      the base path, not on the uuid. */
  function PrefixRooted(data: AssetData, name: string): bool {
    var r0 := |name| > 0 && name[0] == '/';
    match data.outputBasePath
    case Some(b) => if r0 || (!b.rooted && b.comps == []) then r0 else b.rooted
    case None => r0
  }

  function PrefixComps(data: AssetData, name: string): seq<Component> {
    var r0 := |name| > 0 && name[0] == '/';
    match data.outputBasePath
    case Some(b) =>
      if r0 || (!b.rooted && b.comps == []) then DirComponents(name)
      else b.comps + DropCurDir(DirComponents(name))
    case None => DirComponents(name)
  }

  /** The last component `name-uuid` contributes to Path::new. */
  lemma FileOfName(name: string, uuid: string)
    requires Lacks(uuid, '/')
    ensures FromString(name + "-" + uuid) ==
            Path(|name| > 0 && name[0] == '/', DirComponents(name) + [Normal(LastSegment(name) + "-" + uuid)])
  {
    var w := "-" + uuid;
    assert name + "-" + uuid == name + w;
    assert LastSegment(name) + "-" + uuid == LastSegment(name) + w;
    FromStringWithSuffix(name, w);
  }

  /** FileBase is the prefix followed by one file name ending in the uuid. */
  lemma FileBaseShape(data: AssetData, name: string, uuid: string)
    requires Lacks(uuid, '/')
    ensures FileBase(data, name, uuid) ==
            Path(PrefixRooted(data, name), PrefixComps(data, name) + [Normal(LastSegment(name) + "-" + uuid)])
  {
    var r0 := |name| > 0 && name[0] == '/';
    var d := DirComponents(name);
    var f := Normal(LastSegment(name) + "-" + uuid);
    var file := FromString(name + "-" + uuid);
    assert file == Path(r0, d + [f]) by {
      FileOfName(name, uuid);
    }
    assert DropCurDir(d + [f]) == DropCurDir(d) + [f] by {
      DropCurDirSnoc(d, f);
    }
  }

  lemma DropCurDirSnoc(d: seq<Component>, f: Component)
    requires f != CurDir
    ensures DropCurDir(d + [f]) == DropCurDir(d) + [f]
  {
    if |d| > 0 && d[0] == CurDir {
      assert (d + [f])[1..] == d[1..] + [f];
    }
  }

  /** Hence OutputPath is the prefix followed by the renamed file name. */
  lemma OutputPathShape(data: AssetData, name: string, uuid: string)
    requires Lacks(uuid, '/') && Lacks(uuid, '.')
    ensures var r, pre := PrefixRooted(data, name), PrefixComps(data, name);
            OutputPath(data, name, uuid) ==
            Path(r, pre + ComponentsOf(Renamed(FileStem(LastSegment(name) + "-" + uuid), data.extension), pre == [] && !r))
  {
    FileBaseShape(data, name, uuid);
    WithExtensionOfFile(PrefixRooted(data, name), PrefixComps(data, name), LastSegment(name) + "-" + uuid, data.extension);
  }

  /** With a base path, the output path keeps the base as its prefix (for a
      name that is not itself rooted, which would replace the base). */
  lemma OutputUnderBase(data: AssetData, name: string, uuid: string)
    requires data.outputBasePath.Some?
    requires Lacks(uuid, '/') && Lacks(uuid, '.')
    requires |name| == 0 || name[0] != '/'
    ensures Under(OutputPath(data, name, uuid), data.outputBasePath.value)
  {
    OutputPathShape(data, name, uuid);
    var b := data.outputBasePath.value;
    var pre := PrefixComps(data, name);
    var rest := ComponentsOf(Renamed(FileStem(LastSegment(name) + "-" + uuid), data.extension), pre == [] && !PrefixRooted(data, name));
    if !(!b.rooted && b.comps == []) {
      assert (pre + rest)[..|b.comps|] == b.comps;
    }
  }

  /** For a name without '.', the file name keeps the uuid, followed by the
      extension. */
  lemma DotFreeRename(data: AssetData, name: string, uuid: string)
    requires Lacks(name, '.') && Lacks(uuid, '/') && Lacks(uuid, '.') && Lacks(data.extension, '/')
    ensures var out := OutputPath(data, name, uuid);
            |out.comps| > 0 &&
            out.comps[|out.comps| - 1] == Normal(Renamed(LastSegment(name) + "-" + uuid, data.extension))
  {
    var seg := LastSegment(name) + "-" + uuid;
    var r, pre := PrefixRooted(data, name), PrefixComps(data, name);
    var renamed := Renamed(seg, data.extension);
    assert OutputPath(data, name, uuid) ==
           Path(r, pre + ComponentsOf(Renamed(FileStem(seg), data.extension), pre == [] && !r)) by {
      OutputPathShape(data, name, uuid);
    }
    assert FileStem(seg) == seg by {
      DotFreeStem(name, uuid);
    }
    assert ComponentsOf(renamed, pre == [] && !r) == [Normal(renamed)] by {
      DotFreeRenamedPlain(name, uuid, data.extension, pre == [] && !r);
    }
  }

  /** The stem of `last-uuid` for a dot-free name is all of it. */
  lemma DotFreeStem(name: string, uuid: string)
    requires Lacks(name, '.') && Lacks(uuid, '.')
    ensures FileStem(LastSegment(name) + "-" + uuid) == LastSegment(name) + "-" + uuid
  {
    var last := LastSegment(name);
    assert Lacks(last, '.') by {
      SegmentsLack(name, '.');
    }
    assert LastIndex(last, '.') == -1;
    FileStemOfSuffix(last, "-" + uuid);
    assert last + "-" + uuid == last + ("-" + uuid);
  }

  /** `last-uuid`, with or without an extension, parses to one file name. */
  lemma DotFreeRenamedPlain(name: string, uuid: string, ext: string, atStart: bool)
    requires Lacks(uuid, '/') && Lacks(ext, '/')
    ensures var renamed := Renamed(LastSegment(name) + "-" + uuid, ext);
            ComponentsOf(renamed, atStart) == [Normal(renamed)]
  {
    var last := LastSegment(name);
    var seg := last + "-" + uuid;
    var renamed := Renamed(seg, ext);
    assert Lacks(seg, '/') by {
      SegmentsLack(name, '/');
      LacksConcat(last, "-", '/');
      LacksConcat(last + "-", uuid, '/');
    }
    assert Lacks(renamed, '/') by {
      if ext != "" {
        LacksConcat(seg, ".", '/');
        LacksConcat(seg + ".", ext, '/');
      }
    }
    assert renamed[|last|] == '-';
    SlashFreePlain(renamed, atStart);
  }

  /** Every segment of a text that lacks a character lacks it too, and no
      segment holds a '/'. */
  lemma SegmentsLack(s: string, c: char)
    requires c == '/' || Lacks(s, c)
    ensures Lacks(LastSegment(s), c)
  {
    var k := LastIndex(s, '/');
    if k >= 0 {
      assert LastSegment(s) == s[k + 1..];
    }
  }

  /** For a name without '.', a rebuild (a later draw) gets a new path. */
  lemma DotFreeNameGetsFreshPath(data: AssetData, name: string, k1: nat, k2: nat)
    requires Lacks(name, '.') && Lacks(data.extension, '/')
    requires k1 != k2
    ensures OutputPath(data, name, UuidText(k1)) != OutputPath(data, name, UuidText(k2))
  {
    var u1, u2 := UuidText(k1), UuidText(k2);
    var ext := data.extension;
    var last := LastSegment(name);
    var o1, o2 := OutputPath(data, name, u1), OutputPath(data, name, u2);
    var s1, s2 := last + "-" + u1, last + "-" + u2;
    assert |o1.comps| > 0 && o1.comps[|o1.comps| - 1] == Normal(Renamed(s1, ext)) by {
      DotFreeRename(data, name, u1);
    }
    assert |o2.comps| > 0 && o2.comps[|o2.comps| - 1] == Normal(Renamed(s2, ext)) by {
      DotFreeRename(data, name, u2);
    }
    assert Renamed(s1, ext) != Renamed(s2, ext) by {
      DistinctDraws(name, u1, u2, k1, k2, ext);
    }
    LastComponentsDiffer(o1, o2);
  }

  lemma LastComponentsDiffer(p: Path, q: Path)
    requires |p.comps| > 0 && |q.comps| > 0 && p.comps[|p.comps| - 1] != q.comps[|q.comps| - 1]
    ensures p != q
  {
  }

  /** Two draws give two different file names, before and after renaming. */
  lemma DistinctDraws(name: string, u1: string, u2: string, k1: nat, k2: nat, ext: string)
    requires u1 == UuidText(k1) && u2 == UuidText(k2) && k1 != k2
    requires Lacks(name, '.')
    ensures var last := LastSegment(name);
            Renamed(last + "-" + u1, ext) != Renamed(last + "-" + u2, ext)
  {
    var last := LastSegment(name);
    var s1, s2 := last + "-" + u1, last + "-" + u2;
    assert u1 != u2;
    assert s1 != s2 by {
      assert u1 == s1[|last| + 1..] && u2 == s2[|last| + 1..];
    }
    if ext != "" {
      assert Lacks(s1, '.') && Lacks(s2, '.') by {
        SegmentsLack(name, '.');
        LacksConcat(last, "-", '.');
        LacksConcat(last + "-", u1, '.');
        LacksConcat(last + "-", u2, '.');
      }
      DotSeparated(s1, s2, ext);
    }
  }

  /** For a slash-free name with a '.' past its first character,
      with_extension cuts the uuid away with the old extension: every draw
      gives the same path. */
  lemma DottedNameIgnoresUuid(data: AssetData, name: string, i: nat, k1: nat, k2: nat)
    requires Lacks(name, '/') && 0 < i < |name| && name[i] == '.'
    ensures OutputPath(data, name, UuidText(k1)) == OutputPath(data, name, UuidText(k2))
  {
    var u1, u2 := UuidText(k1), UuidText(k2);
    var stem := DottedStem(name, i, u1);
    assert stem == DottedStem(name, i, u2);
    assert LastSegment(name) == name by {
      SlashFreeSegments(name);
    }
    OutputPathShape(data, name, u1);
    OutputPathShape(data, name, u2);
  }

  /** The stem of `name-uuid` for a name with a '.' past its first character:
      the part of the name before its last '.', whatever the uuid. */
  function DottedStem(name: string, i: nat, uuid: string): (stem: string)
    requires 0 < i < |name| && name[i] == '.' && Lacks(uuid, '.')
    ensures stem == FileStem(name + "-" + uuid)
    ensures stem == name[..LastIndex(name, '.')]
  {
    LastIndexNonNegative(name, '.', i);
    FileStemOfSuffix(name, "-" + uuid);
    assert name + "-" + uuid == name + ("-" + uuid);
    name[..LastIndex(name, '.')]
  }

  /** The output path evidently intended: the extension follows the uuid
      instead of replacing whatever follows the last '.', so
      `name-uuid.ext` keeps the uuid for every name. */
  function IntendedOutputPath(data: AssetData, name: string, uuid: string): Path {
    FileBase(data, name, Renamed(uuid, data.extension))
  }

  /** Under the intended naming, every rebuild (a later draw) gets a new
      path, whatever '.' the name holds. */
  lemma IntendedPathIsFresh(data: AssetData, name: string, k1: nat, k2: nat)
    requires Lacks(data.extension, '/') && k1 != k2
    ensures IntendedOutputPath(data, name, UuidText(k1)) != IntendedOutputPath(data, name, UuidText(k2))
  {
    var u1, u2 := UuidText(k1), UuidText(k2);
    var ext := data.extension;
    var x1, x2 := Renamed(u1, ext), Renamed(u2, ext);
    assert u1 != u2;
    assert x1 != x2 by {
      if ext != "" {
        DotSeparated(u1, u2, ext);
      }
    }
    assert Lacks(x1, '/') && Lacks(x2, '/') by {
      if ext != "" {
        LacksConcat(u1, ".", '/');
        LacksConcat(u1 + ".", ext, '/');
        LacksConcat(u2, ".", '/');
        LacksConcat(u2 + ".", ext, '/');
      }
    }
    var last := LastSegment(name);
    FileBaseShape(data, name, x1);
    FileBaseShape(data, name, x2);
    assert last + "-" + x1 != last + "-" + x2 by {
      assert x1 == (last + "-" + x1)[|last| + 1..] && x2 == (last + "-" + x2)[|last| + 1..];
    }
    LastComponentsDiffer(IntendedOutputPath(data, name, u1), IntendedOutputPath(data, name, u2));
  }

  /** A concrete instance: "app.min" with extension "js" is written to
      "app.js" whatever uuid is drawn. */
  lemma DottedNameExample(k: nat)
    ensures OutputPath(AssetData(None, "js", File(Path(false, []))), "app.min", UuidText(k)) ==
            Path(false, [Normal("app.js")])
  {
    var data := AssetData(None, "js", File(Path(false, [])));
    var u := UuidText(k);
    assert "app.min"[3] == '.';
    var stem := DottedStem("app.min", 3, u);
    assert LastIndex("app.min", '.') == 3;
    assert stem == "app";
    assert PrefixRooted(data, "app.min") == false && PrefixComps(data, "app.min") == [] && LastSegment("app.min") == "app.min" by {
      SlashFreeSegments("app.min");
    }
    assert Renamed("app", "js") == "app.js";
    SlashFreePlain("app.js", true);
    OutputPathShape(data, "app.min", u);
  }

  /** An asset "evil" whose output base path is "..". */
  function Climbing(p: Path): AssetData {
    AssetData(Some(Path(false, [ParentDir])), "", File(p))
  }

  /** Its output path: a ".." and then the file. */
  lemma ClimbingOutputPath(k: nat, p: Path)
    ensures OutputPath(Climbing(p), "evil", UuidText(k)) == Path(false, [ParentDir, Normal("evil-" + UuidText(k))])
  {
    var u := UuidText(k);
    var seg := LastSegment("evil") + "-" + u;
    ClimbingPrefix(p, u);
    ClimbingFile(u);
    OutputPathShape(Climbing(p), "evil", u);
    calc {
      OutputPath(Climbing(p), "evil", u);
      Path(false, [ParentDir] + ComponentsOf(Renamed(FileStem(seg), ""), false));
      { assert seg == "evil-" + u; }
      Path(false, [ParentDir] + [Normal("evil-" + u)]);
    }
  }

  lemma ClimbingPrefix(p: Path, u: string)
    ensures PrefixRooted(Climbing(p), "evil") == false && PrefixComps(Climbing(p), "evil") == [ParentDir]
    ensures LastSegment("evil") + "-" + u == "evil-" + u
  {
    SlashFreeSegments("evil");
  }

  lemma ClimbingFile(u: string)
    requires Lacks(u, '.') && Lacks(u, '/')
    ensures Renamed(FileStem("evil-" + u), "") == "evil-" + u
    ensures ComponentsOf("evil-" + u, false) == [Normal("evil-" + u)]
  {
    var seg := "evil-" + u;
    assert FileStem(seg) == seg by {
      FileStemOfSuffix("evil", "-" + u);
      assert LastIndex("evil", '.') == -1;
      assert seg == "evil" + ("-" + u);
    }
    assert Lacks(seg, '/') by {
      LacksConcat("evil-", u, '/');
    }
    assert seg[0] == 'e';
    SlashFreePlain(seg, false);
  }

  /** The live and orphaned tests let that path through, and joined to
      "/internal" it lands at "/evil-<uuid>", outside "/internal"; the strict
      test refuses it. */
  lemma ClimbingChecked(v: Variant, cwd: seq<string>, k: nat, p: Path)
    ensures var x := "evil-" + UuidText(k);
            var out := Path(false, [ParentDir, Normal(x)]);
            var internal := Path(true, [Normal("internal")]);
            OutputPath(Climbing(p), "evil", UuidText(k)) == out &&
            (v == Live || v == Orphan ==> CheckOutputPath(v, true, cwd, out) == Ok(out)) &&
            CheckOutputPath(Strict, true, cwd, out) == Err(AssetPathError(out)) &&
            Normalize(Join(internal, out)) == Path(true, [Normal(x)]) &&
            !Under(Path(true, [Normal(x)]), Normalize(internal))
  {
    var x := "evil-" + UuidText(k);
    ClimbingOutputPath(k, p);
    assert x != "internal" by {
      assert x[0] == 'e';
    }
    ParentEscapes("internal", x);
    if v == Live || v == Orphan {
      LiveCheckRefusesOnlyRooted(v, cwd, Path(false, [ParentDir, Normal(x)]));
    }
  }
}
