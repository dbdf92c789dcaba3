/** What the reconciliation promises, stated over the reference definition
    in CacheSpec: when an entry is kept, that a second pass does nothing,
    how the `changed` flag lets a dependent go stale, what the path check
    rejects, and how publishing composes. */
module CacheProps {
  import opened Basics
  import opened Paths
  import opened Assets
  import opened Storage
  import opened AssetFilter
  import opened OutputPaths
  import opened CacheSpec

  /** The source file of a File asset, under the source directory. */
  function SourceOf(env: Env, p: Path): Path {
    Join(env.config.sourceDirectoryPath, p)
  }

  /** A File entry that `update` would keep: built from the current
      definition, its built file present, and its stored hash that of the
      source file as it is now. */
  ghost predicate FreshFile(env: Env, files: Files, e: AssetCacheEntry) {
    e.name in env.manifest.assets && e.data == env.manifest.assets[e.name] && e.data.source.File? &&
    Exists(files, Join(env.config.internalDirectoryPath, e.path)) &&
    Exists(files, SourceOf(env, e.data.source.path)) &&
    e.fileHash == Some(env.hash(Read(files, SourceOf(env, e.data.source.path))))
  }

  /** The output path the next draw gives `name` does not climb out of the
      directory it is joined to. The strict test makes sure of it; for the
      other revisions it is a condition on the asset's definition. */
  ghost predicate NextOutputInside(env: Env, st: St, name: string)
    requires name in env.manifest.assets
  {
    env.variant.Strict? || !Escapes(OutputPath(env.manifest.assets[name], name, UuidText(st.drawn)))
  }

  /** Once the name is defined and its output path passes the check,
      `create` is `Build` from the state after the draw. */
  lemma CreateBuilds(env: Env, rank: map<string, nat>, st: St, name: string, out: Path)
    requires Ranked(env.manifest, rank) && NamesMatch(st.cache) && name in env.manifest.assets
    requires out == OutputPath(env.manifest.assets[name], name, UuidText(st.drawn))
    requires CheckOutputPath(env.variant, env.cwdReadable, env.cwd, out).Ok?
    ensures Create(env, rank, st, name).st == Build(env, rank, st.(drawn := st.drawn + 1), name, out).st
    ensures Create(env, rank, st, name).result == Build(env, rank, st.(drawn := st.drawn + 1), name, out).result
  {
  }

  // ---------------------------------------------------------------------
  // When update keeps an entry
  // ---------------------------------------------------------------------

  /** `update` keeps a stored entry (returns None) exactly when its
      definition is unchanged, its built file exists, and either its source
      file hashes to the stored hash or processing its inputs reports no
      change; any other successful outcome is a rebuild. */
  lemma UpdateKeepsIff(env: Env, rank: map<string, nat>, st: St, e: AssetCacheEntry)
    requires Ranked(env.manifest, rank) && NamesMatch(st.cache)
    requires e.name in st.cache && st.cache[e.name] == e
    requires Update(env, rank, st, e).result.Ok?
    ensures var o := Update(env, rank, st, e);
            o.result.value.None? <==>
              (e.name in env.manifest.assets && env.manifest.assets[e.name] == e.data &&
               Exists(st.files, Join(env.config.internalDirectoryPath, e.path)) &&
               if e.data.source.File? then
                 var src := SourceOf(env, e.data.source.path);
                 Exists(st.files, src) && e.fileHash == Some(env.hash(Read(st.files, src)))
               else
                 var inputs := e.data.source.filtered.inputNames;
                 Below(rank, inputs, e.name) && ScanInputs(env, rank, e.name, st, inputs).result == Ok(false))
  {
    var o := Update(env, rank, st, e);
    assert e.name in env.manifest.assets;
    var full := Join(env.config.internalDirectoryPath, e.path);
    if env.manifest.assets[e.name] != e.data || !Exists(st.files, full) {
      assert o == Rebuild(env, rank, st, e);
    } else if e.data.source.File? {
      var src := SourceOf(env, e.data.source.path);
      assert Exists(st.files, src);
      if e.fileHash.None? || env.hash(Read(st.files, src)) != e.fileHash.value {
        assert o == Rebuild(env, rank, st, e);
      } else {
        assert o.st == st && o.result == Ok(None);
      }
    } else {
      var inputs := e.data.source.filtered.inputNames;
      assert Below(rank, inputs, e.name);
      var scan := ScanInputs(env, rank, e.name, st, inputs);
      assert scan.result.Ok?;
      if scan.result.value {
        var rb := Rebuild(env, rank, scan.st, e);
        assert o == rb;
      } else {
        assert o.st == scan.st && o.result == Ok(None);
      }
    }
  }

  /** A fresh File entry is kept: `process` returns it, unchanged, and
      changes nothing at all. */
  lemma FreshIsKept(env: Env, rank: map<string, nat>, st: St, name: string)
    requires Ranked(env.manifest, rank) && NamesMatch(st.cache)
    requires name in st.cache && FreshFile(env, st.files, st.cache[name])
    ensures Process(env, rank, st, name).st == st
    ensures Process(env, rank, st, name).result == Ok(Processed(st.cache[name], false))
  {
    var e := st.cache[name];
    assert e.name == name;
    assert Update(env, rank, st, e).st == st && Update(env, rank, st, e).result == Ok(None);
  }

  /** A successful `create` of a File asset leaves a fresh entry, as long as
      its output path stays inside the internal directory and the source
      file lies outside the internal and target directories (so the copy
      cannot overwrite it). */
  lemma CreatedFileIsFresh(env: Env, rank: map<string, nat>, st: St, name: string)
    requires Ranked(env.manifest, rank) && NamesMatch(st.cache)
    requires name in env.manifest.assets && env.manifest.assets[name].source.File?
    requires NextOutputInside(env, st, name)
    requires !UnderSome(Key(SourceOf(env, env.manifest.assets[name].source.path)), Dirs(env.config))
    ensures var o := Create(env, rank, st, name);
            o.result.Ok? ==> FreshFile(env, o.st.files, o.result.value)
  {
    var out := OutputPath(env.manifest.assets[name], name, UuidText(st.drawn));
    if CheckOutputPath(env.variant, env.cwdReadable, env.cwd, out).Ok? {
      CreateBuilds(env, rank, st, name, out);
      BuiltFileIsFresh(env, rank, st.(drawn := st.drawn + 1), name, out);
    }
  }

  lemma BuiltFileIsFresh(env: Env, rank: map<string, nat>, st: St, name: string, out: Path)
    requires Ranked(env.manifest, rank) && NamesMatch(st.cache) && !Escapes(out)
    requires name in env.manifest.assets && env.manifest.assets[name].source.File?
    requires !UnderSome(Key(SourceOf(env, env.manifest.assets[name].source.path)), Dirs(env.config))
    ensures var o := Build(env, rank, st, name, out);
            o.result.Ok? ==> FreshFile(env, o.st.files, o.result.value)
  {
    var o := Build(env, rank, st, name, out);
    if o.result.Ok? {
      var src := SourceOf(env, env.manifest.assets[name].source.path);
      var outFull := Join(env.config.internalDirectoryPath, out);
      assert Key(outFull) != Key(src) by {
        JoinedInside(env.config.internalDirectoryPath, out, Dirs(env.config));
      }
      assert Exists(st.files, src);
      assert o.st.files == Write(st.files, outFull, Read(st.files, src));
    }
  }

  /** The same for a rebuild: removing the old files does not touch the
      source either. */
  lemma RebuiltFileIsFresh(env: Env, rank: map<string, nat>, st: St, e: AssetCacheEntry)
    requires Ranked(env.manifest, rank) && NamesMatch(st.cache)
    requires e.name in st.cache && st.cache[e.name] == e
    requires e.name in env.manifest.assets && env.manifest.assets[e.name].source.File?
    requires NextOutputInside(env, st, e.name)
    requires !UnderSome(Key(SourceOf(env, env.manifest.assets[e.name].source.path)), Dirs(env.config))
    ensures var o := Rebuild(env, rank, st, e);
            o.result.Ok? ==> FreshFile(env, o.st.files, o.result.value.value)
  {
    var cfg := env.config;
    var files1 := Remove(st.files, Join(cfg.internalDirectoryPath, e.path));
    var files2 := Remove(files1, Join(cfg.targetDirectoryPath, e.path));
    CreatedFileIsFresh(env, rank, st.(files := files2), e.name);
  }

  /** The old files a rebuild removes: the built file under the internal
      directory and its published copy under the target directory. */
  function Cleared(env: Env, files: Files, e: AssetCacheEntry): Files {
    Remove(Remove(files, Join(env.config.internalDirectoryPath, e.path)), Join(env.config.targetDirectoryPath, e.path))
  }

  /** `rebuild` deletes the old built file and its published copy, and only
      then runs `create`, whose state and result it passes on. */
  lemma RebuildRemovesThenCreates(env: Env, rank: map<string, nat>, st: St, e: AssetCacheEntry)
    requires Ranked(env.manifest, rank) && NamesMatch(st.cache)
    requires e.name in st.cache && st.cache[e.name] == e
    ensures var cleared := Cleared(env, st.files, e);
            !Exists(cleared, Join(env.config.internalDirectoryPath, e.path)) &&
            !Exists(cleared, Join(env.config.targetDirectoryPath, e.path))
    ensures var c := Create(env, rank, st.(files := Cleared(env, st.files, e)), e.name);
            var o := Rebuild(env, rank, st, e);
            o.st == c.st && (c.result.Ok? ==> o.result == Ok(Some(c.result.value))) &&
            (!c.result.Ok? ==> o.result == Fail(c.result))
  {
  }

  /** A rebuild whose new output path the check refuses still has deleted
      the old files: it leaves exactly the cleared files, with one more
      uuid drawn and the check's error. */
  lemma RefusedRebuildClears(env: Env, rank: map<string, nat>, st: St, e: AssetCacheEntry)
    requires Ranked(env.manifest, rank) && NamesMatch(st.cache)
    requires e.name in st.cache && st.cache[e.name] == e && e.name in env.manifest.assets
    requires !CheckOutputPath(env.variant, env.cwdReadable, env.cwd,
                              OutputPath(env.manifest.assets[e.name], e.name, UuidText(st.drawn))).Ok?
    ensures var o := Rebuild(env, rank, st, e);
            o.st == St(st.cache, Cleared(env, st.files, e), st.drawn + 1) && !o.result.Ok? &&
            !Exists(o.st.files, Join(env.config.internalDirectoryPath, e.path)) &&
            !Exists(o.st.files, Join(env.config.targetDirectoryPath, e.path))
  {
    RebuildRemovesThenCreates(env, rank, st, e);
    RefusedBeforeWriting(env, rank, st.(files := Cleared(env, st.files, e)), e.name);
  }

  /** After a successful `process` of a File asset, its entry is fresh. */
  lemma ProcessedFileIsFresh(env: Env, rank: map<string, nat>, st: St, name: string)
    requires Ranked(env.manifest, rank) && NamesMatch(st.cache)
    requires name in env.manifest.assets && env.manifest.assets[name].source.File?
    requires NextOutputInside(env, st, name)
    requires !UnderSome(Key(SourceOf(env, env.manifest.assets[name].source.path)), Dirs(env.config))
    ensures var o := Process(env, rank, st, name);
            o.result.Ok? ==> name in o.st.cache && FreshFile(env, o.st.files, o.st.cache[name])
  {
    if name in st.cache {
      assert st.cache[name].name == name;
      UpdatedFileIsFresh(env, rank, st, st.cache[name]);
      ProcessStoresUpdate(env, rank, st, name);
    } else {
      CreatedFileIsFresh(env, rank, st, name);
      ProcessStoresCreate(env, rank, st, name);
    }
  }

  /** For a stored name, a successful `process` leaves the files `update`
      left and stores the entry `update` returned, or keeps the old one. */
  lemma ProcessStoresUpdate(env: Env, rank: map<string, nat>, st: St, name: string)
    requires Ranked(env.manifest, rank) && NamesMatch(st.cache) && name in st.cache
    ensures var e := st.cache[name];
            var o := Process(env, rank, st, name);
            o.result.Ok? ==>
              var u := Update(env, rank, st, e);
              u.result.Ok? && o.st.files == u.st.files && name in o.st.cache &&
              o.st.cache[name] == (if u.result.value.Some? then u.result.value.value else e)
  {
    assert st.cache[name].name == name;
  }

  /** For a name not stored, a successful `process` leaves the files
      `create` left and stores the entry `create` returned. */
  lemma ProcessStoresCreate(env: Env, rank: map<string, nat>, st: St, name: string)
    requires Ranked(env.manifest, rank) && NamesMatch(st.cache) && name !in st.cache
    ensures var o := Process(env, rank, st, name);
            o.result.Ok? ==>
              var c := Create(env, rank, st, name);
              c.result.Ok? && o.st.files == c.st.files && name in o.st.cache && o.st.cache[name] == c.result.value
  {
  }

  /** The entry `update` leaves for a File asset, the stored one or the
      rebuilt one, is fresh. */
  lemma UpdatedFileIsFresh(env: Env, rank: map<string, nat>, st: St, e: AssetCacheEntry)
    requires Ranked(env.manifest, rank) && NamesMatch(st.cache)
    requires e.name in st.cache && st.cache[e.name] == e
    requires e.name in env.manifest.assets && env.manifest.assets[e.name].source.File?
    requires NextOutputInside(env, st, e.name)
    requires !UnderSome(Key(SourceOf(env, env.manifest.assets[e.name].source.path)), Dirs(env.config))
    ensures var u := Update(env, rank, st, e);
            u.result.Ok? ==> FreshFile(env, u.st.files, if u.result.value.Some? then u.result.value.value else e)
  {
    var u := Update(env, rank, st, e);
    if u.result.Ok? {
      if u.result.value.Some? {
        assert u == Rebuild(env, rank, st, e);
        RebuiltFileIsFresh(env, rank, st, e);
      } else {
        UpdateKeepsIff(env, rank, st, e);
        assert u.st == st;
      }
    }
  }

  /** Incremental rebuild is idempotent for File assets: once `process`
      succeeds, processing the same name again reports no change and changes
      nothing. */
  lemma FileProcessIdempotent(env: Env, rank: map<string, nat>, st: St, name: string)
    requires Ranked(env.manifest, rank) && NamesMatch(st.cache)
    requires name in env.manifest.assets && env.manifest.assets[name].source.File?
    requires NextOutputInside(env, st, name)
    requires !UnderSome(Key(SourceOf(env, env.manifest.assets[name].source.path)), Dirs(env.config))
    ensures var o := Process(env, rank, st, name);
            o.result.Ok? ==>
              (name in o.st.cache &&
               Process(env, rank, o.st, name).st == o.st &&
               Process(env, rank, o.st, name).result == Ok(Processed(o.st.cache[name], false)))
  {
    var o := Process(env, rank, st, name);
    ProcessedFileIsFresh(env, rank, st, name);
    if o.result.Ok? {
      FreshIsKept(env, rank, o.st, name);
    }
  }

  /** The `changed` flag means "this call rebuilt it", not "it is newer than
      its dependents": once an input has been rebuilt earlier in the same
      pass, a filtered asset over it sees no change and keeps its old output. */
  lemma StaleDependentKept(env: Env, rank: map<string, nat>, st: St, a: string, f: string)
    requires Ranked(env.manifest, rank) && NamesMatch(st.cache)
    requires a in env.manifest.assets && env.manifest.assets[a].source.File?
    requires NextOutputInside(env, st, a)
    requires !UnderSome(Key(SourceOf(env, env.manifest.assets[a].source.path)), Dirs(env.config))
    requires f in env.manifest.assets && env.manifest.assets[f].source.Filtered?
    requires env.manifest.assets[f].source.filtered.inputNames == [a]
    requires f in st.cache && st.cache[f].data == env.manifest.assets[f]
    requires var p := Process(env, rank, st, a);
             p.result.Ok? && p.result.value.changed &&
             Exists(p.st.files, Join(env.config.internalDirectoryPath, st.cache[f].path))
    ensures var p := Process(env, rank, st, a);
            Process(env, rank, p.st, f).st == p.st &&
            Process(env, rank, p.st, f).result == Ok(Processed(st.cache[f], false))
  {
    var p := Process(env, rank, st, a);
    var inputs := env.manifest.assets[f].source.filtered.inputNames;
    assert a in inputs;
    assert RankOf(rank, a) < RankOf(rank, f);
    assert p.st.cache[f] == st.cache[f];
    FileProcessIdempotent(env, rank, st, a);
    SingleScanUnchanged(env, rank, f, p.st, a);
    FilteredIsKept(env, rank, p.st, f);
  }

  /** Scanning one input that `process` reports unchanged, and that changes
      nothing, reports no change and changes nothing. */
  lemma SingleScanUnchanged(env: Env, rank: map<string, nat>, parent: string, st: St, a: string)
    requires Ranked(env.manifest, rank) && NamesMatch(st.cache) && Below(rank, [a], parent)
    requires var p := Process(env, rank, st, a);
             p.st == st && p.result.Ok? && !p.result.value.changed
    ensures ScanInputs(env, rank, parent, st, [a]).st == st
    ensures ScanInputs(env, rank, parent, st, [a]).result == Ok(false)
  {
    assert [a][0] == a && [a][1..] == [];
  }

  /** A filtered entry is kept when its definition is unchanged, its built
      file exists, and scanning its inputs reports no change and changes
      nothing: `process` returns it, unchanged, and changes nothing. */
  lemma FilteredIsKept(env: Env, rank: map<string, nat>, st: St, name: string)
    requires Ranked(env.manifest, rank) && NamesMatch(st.cache)
    requires name in st.cache && name in env.manifest.assets
    requires var e := st.cache[name];
             e.data == env.manifest.assets[name] && e.data.source.Filtered? &&
             Exists(st.files, Join(env.config.internalDirectoryPath, e.path)) &&
             Below(rank, e.data.source.filtered.inputNames, name)
    requires var inputs := st.cache[name].data.source.filtered.inputNames;
             ScanInputs(env, rank, name, st, inputs).st == st &&
             ScanInputs(env, rank, name, st, inputs).result == Ok(false)
    ensures Process(env, rank, st, name).st == st
    ensures Process(env, rank, st, name).result == Ok(Processed(st.cache[name], false))
  {
    var e := st.cache[name];
    assert e.name == name;
    assert Update(env, rank, st, e).st == st && Update(env, rank, st, e).result == Ok(None);
  }

  // ---------------------------------------------------------------------
  // The inputs a filter receives
  // ---------------------------------------------------------------------

  /** `es` extends `acc` by one entry per name of `names`, in order, each
      stored for that name and built from its current definition. */
  ghost predicate Collected(m: AssetManifest, es: seq<AssetCacheEntry>, acc: seq<AssetCacheEntry>, names: seq<string>) {
    |es| == |acc| + |names| && es[..|acc|] == acc &&
    forall j :: 0 <= j < |names| ==>
      names[j] in m.assets && es[|acc| + j].name == names[j] && es[|acc| + j].data == m.assets[names[j]]
  }

  /** `create` collects one entry per input name, in the order of the names,
      each the entry `process` returned for that name and so built from
      that name's current definition. */
  lemma {:induction false} InputsCollectedInOrder(env: Env, rank: map<string, nat>, parent: string, st: St,
                                                  inputs: seq<string>, acc: seq<AssetCacheEntry>)
    requires Ranked(env.manifest, rank) && NamesMatch(st.cache) && Below(rank, inputs, parent)
    ensures var o := CreateInputs(env, rank, parent, st, inputs, acc);
            o.result.Ok? ==> Collected(env.manifest, o.result.value, acc, inputs)
    decreases |inputs|
  {
    var o := CreateInputs(env, rank, parent, st, inputs, acc);
    if inputs != [] && o.result.Ok? {
      var p := Process(env, rank, st, inputs[0]);
      assert p.result.Ok?;
      var x := p.result.value.entry;
      assert x.name == inputs[0] by {
        assert NamesMatch(p.st.cache);
      }
      assert Below(rank, inputs[1..], parent);
      var rest := CreateInputs(env, rank, parent, p.st, inputs[1..], acc + [x]);
      InputsCollectedInOrder(env, rank, parent, p.st, inputs[1..], acc + [x]);
      assert o == rest;
      InputsInOrder(env.manifest, acc, x, inputs, rest.result.value);
    }
  }

  /** One more input collected keeps the entries in the order of the names. */
  lemma InputsInOrder(m: AssetManifest, acc: seq<AssetCacheEntry>, x: AssetCacheEntry, names: seq<string>, es: seq<AssetCacheEntry>)
    requires |names| > 0 && names[0] in m.assets && x.name == names[0] && x.data == m.assets[names[0]]
    requires Collected(m, es, acc + [x], names[1..])
    ensures Collected(m, es, acc, names)
  {
    assert es[..|acc|] == es[..|acc + [x]|][..|acc|];
    forall j | 0 <= j < |names|
      ensures names[j] in m.assets && es[|acc| + j].name == names[j] && es[|acc| + j].data == m.assets[names[j]]
    {
      if j == 0 {
        assert es[|acc|] == es[..|acc + [x]|][|acc|];
      } else {
        assert es[|acc| + j] == es[|acc + [x]| + (j - 1)];
        assert names[j] == names[1..][j - 1];
      }
    }
  }

  // ---------------------------------------------------------------------
  // Errors create and update report
  // ---------------------------------------------------------------------

  /** A name the manifest does not define is refused by `process`, whether
      it goes through `create` or `update`, and nothing changes. */
  lemma MissingNameRefused(env: Env, rank: map<string, nat>, st: St, name: string)
    requires Ranked(env.manifest, rank) && NamesMatch(st.cache)
    requires name !in env.manifest.assets
    ensures Create(env, rank, st, name).st == st
    ensures Create(env, rank, st, name).result == Err(AssetNotFoundInManifestError(name))
    ensures Process(env, rank, st, name).st == st
    ensures Process(env, rank, st, name).result == Err(AssetNotFoundInManifestError(name))
  {
    if name in st.cache {
      assert st.cache[name].name == name;
    }
  }

  /** A filtered asset whose filter is not registered never builds. */
  lemma UnknownFilterRefused(env: Env, rank: map<string, nat>, st: St, name: string)
    requires Ranked(env.manifest, rank) && NamesMatch(st.cache)
    requires name in env.manifest.assets && env.manifest.assets[name].source.Filtered?
    requires env.manifest.assets[name].source.filtered.filterName !in env.registry.filters
    ensures !Create(env, rank, st, name).result.Ok?
  {
    var out := OutputPath(env.manifest.assets[name], name, UuidText(st.drawn));
    var st1 := st.(drawn := st.drawn + 1);
    if CheckOutputPath(env.variant, env.cwdReadable, env.cwd, out).Ok? {
      CreateBuilds(env, rank, st, name, out);
      BuildUnknownFilter(env, rank, st1, name, out);
    }
  }

  /** Once its path passes and its inputs are processed, the error names the
      filter. */
  lemma UnknownFilterNamed(env: Env, rank: map<string, nat>, st: St, name: string)
    requires Ranked(env.manifest, rank) && NamesMatch(st.cache)
    requires name in env.manifest.assets && env.manifest.assets[name].source.Filtered?
    requires env.manifest.assets[name].source.filtered.filterName !in env.registry.filters
    requires CheckOutputPath(env.variant, env.cwdReadable, env.cwd, OutputPath(env.manifest.assets[name], name, UuidText(st.drawn))).Ok?
    requires var f := env.manifest.assets[name].source.filtered;
             Below(rank, f.inputNames, name) &&
             CreateInputs(env, rank, name, st.(drawn := st.drawn + 1), f.inputNames, []).result.Ok?
    ensures Create(env, rank, st, name).result == Err(AssetFilterNotFoundError(env.manifest.assets[name].source.filtered.filterName))
  {
    var out := OutputPath(env.manifest.assets[name], name, UuidText(st.drawn));
    var st1 := st.(drawn := st.drawn + 1);
    CreateBuilds(env, rank, st, name, out);
    BuildUnknownFilter(env, rank, st1, name, out);
  }

  lemma BuildUnknownFilter(env: Env, rank: map<string, nat>, st: St, name: string, out: Path)
    requires Ranked(env.manifest, rank) && NamesMatch(st.cache) && name in env.manifest.assets
    requires env.variant.Strict? ==> !Escapes(out)
    requires env.manifest.assets[name].source.Filtered?
    requires env.manifest.assets[name].source.filtered.filterName !in env.registry.filters
    ensures var f := env.manifest.assets[name].source.filtered;
            var o := Build(env, rank, st, name, out);
            !o.result.Ok? &&
            (Below(rank, f.inputNames, name) && CreateInputs(env, rank, name, st, f.inputNames, []).result.Ok? ==>
               o.result == Err(AssetFilterNotFoundError(f.filterName)))
  {
    var f := env.manifest.assets[name].source.filtered;
    assert Below(rank, f.inputNames, name);
    var ins := CreateInputs(env, rank, name, st, f.inputNames, []);
    if ins.result.Ok? {
      var outFull := Join(env.config.internalDirectoryPath, out);
      assert ProcessAssetFile(env.registry, f.filterName, InputPaths(env.config, ins.result.value), outFull, f.options, ins.st.files).None?;
    }
  }

  // ---------------------------------------------------------------------
  // The path check, revision by revision
  // ---------------------------------------------------------------------

  /** Any output path that fails the check is refused before any file is
      touched or any input processed: only the draw is spent. */
  lemma RefusedBeforeWriting(env: Env, rank: map<string, nat>, st: St, name: string)
    requires Ranked(env.manifest, rank) && NamesMatch(st.cache)
    requires name in env.manifest.assets
    requires !CheckOutputPath(env.variant, env.cwdReadable, env.cwd, OutputPath(env.manifest.assets[name], name, UuidText(st.drawn))).Ok?
    ensures var o := Create(env, rank, st, name);
            o.st == st.(drawn := st.drawn + 1) && !o.result.Ok? &&
            o.result == Fail(CheckOutputPath(env.variant, env.cwdReadable, env.cwd, OutputPath(env.manifest.assets[name], name, UuidText(st.drawn))))
  {
  }

  /** The strict test refuses an output path that climbs out of the internal
      directory, and nothing is written. */
  lemma TraversalRefused(env: Env, rank: map<string, nat>, st: St, p: Path)
    requires Ranked(env.manifest, rank) && NamesMatch(st.cache)
    requires env.variant.Strict?
    requires "evil" in env.manifest.assets && env.manifest.assets["evil"] == Climbing(p)
    ensures var out := Path(false, [ParentDir, Normal("evil-" + UuidText(st.drawn))]);
            Create(env, rank, st, "evil").st == st.(drawn := st.drawn + 1) &&
            Create(env, rank, st, "evil").result == Err(AssetPathError(out))
  {
    ClimbingChecked(env.variant, env.cwd, st.drawn, p);
  }

  /** As written, no revision keeps that asset in: the earlier one has no
      test, and the live and orphaned tests (with a readable working
      directory) accept a leading "..". With the internal directory
      "/internal", the source is copied to "/evil-<uuid>". */
  lemma LiveWritesOutside(env: Env, rank: map<string, nat>, st: St, p: Path)
    requires Ranked(env.manifest, rank) && NamesMatch(st.cache)
    requires !env.variant.Strict? && (env.variant.Legacy? || env.cwdReadable)
    requires env.config.internalDirectoryPath == Path(true, [Normal("internal")])
    requires "evil" in env.manifest.assets && env.manifest.assets["evil"] == Climbing(p)
    requires Exists(st.files, SourceOf(env, p))
    ensures var o := Create(env, rank, st, "evil");
            var written := Path(true, [Normal("evil-" + UuidText(st.drawn))]);
            o.result.Ok? && written in o.st.files && o.st.files[written] == Read(st.files, SourceOf(env, p)) &&
            !Under(written, Normalize(env.config.internalDirectoryPath))
  {
    ClimbingChecked(env.variant, env.cwd, st.drawn, p);
  }

  /** When the working directory cannot be read, the live revision returns
      the io error and the orphaned one panics (it unwraps); the earlier
      revision and the strict test do not look. */
  lemma UnreadableCwd(env: Env, rank: map<string, nat>, st: St, name: string)
    requires Ranked(env.manifest, rank) && NamesMatch(st.cache)
    requires name in env.manifest.assets && !env.cwdReadable
    requires !OutputPath(env.manifest.assets[name], name, UuidText(st.drawn)).rooted
    ensures var o := Create(env, rank, st, name);
            (env.variant.Live? || env.variant.Orphan? ==> o.st == st.(drawn := st.drawn + 1)) &&
            (env.variant.Live? ==> o.result == Err(IOError(CurrentDirUnavailable))) &&
            (env.variant.Orphan? ==> o.result.Panicked?)
  {
  }

  // ---------------------------------------------------------------------
  // process_public_assets
  // ---------------------------------------------------------------------

  /** Publishing a list is publishing its first part and then, if that
      succeeded, the rest from where it left off: names after a failure are
      never processed. */
  lemma {:induction false} PublishAppend(env: Env, rank: map<string, nat>, st: St, a: seq<string>, b: seq<string>)
    requires Ranked(env.manifest, rank) && NamesMatch(st.cache)
    ensures var pa := Publish(env, rank, st, a);
            Publish(env, rank, st, a + b) == if pa.result.Ok? then Publish(env, rank, pa.st, b) else pa
    decreases |a|
  {
    if a == [] {
      assert a + b == b;
    } else {
      assert (a + b)[0] == a[0];
      assert (a + b)[1..] == a[1..] + b;
      var p := Process(env, rank, st, a[0]);
      if p.result.Ok? {
        var e := p.result.value.entry;
        var src := Join(env.config.internalDirectoryPath, e.path);
        if CheckOutputPath(env.variant, env.cwdReadable, env.cwd, e.path).Ok? && Exists(p.st.files, src) {
          var st2 := p.st.(files := Write(p.st.files, Join(env.config.targetDirectoryPath, e.path), Read(p.st.files, src)));
          PublishAppend(env, rank, st2, a[1..], b);
        }
      }
    }
  }

  /** Publishing one name copies its built file to the same relative path
      under the target directory. */
  lemma PublishCopies(env: Env, rank: map<string, nat>, st: St, name: string)
    requires Ranked(env.manifest, rank) && NamesMatch(st.cache)
    ensures var o := Publish(env, rank, st, [name]);
            o.result.Ok? ==>
              name in o.st.cache &&
              var e := o.st.cache[name];
              Exists(o.st.files, Join(env.config.targetDirectoryPath, e.path)) &&
              Exists(o.st.files, Join(env.config.internalDirectoryPath, e.path)) &&
              Read(o.st.files, Join(env.config.targetDirectoryPath, e.path)) ==
              Read(o.st.files, Join(env.config.internalDirectoryPath, e.path))
  {
    var o := Publish(env, rank, st, [name]);
    if o.result.Ok? {
      var p := Process(env, rank, st, name);
      assert [name][0] == name && [name][1..] == [];
      var e := p.result.value.entry;
      var src := Join(env.config.internalDirectoryPath, e.path);
      var dst := Join(env.config.targetDirectoryPath, e.path);
      assert CheckOutputPath(env.variant, env.cwdReadable, env.cwd, e.path).Ok? && Exists(p.st.files, src);
      var st2 := p.st.(files := Write(p.st.files, dst, Read(p.st.files, src)));
      assert Publish(env, rank, st2, []) == Outcome(st2, Ok(()));
      assert o.st == st2;
    }
  }

  /** The earlier revision publishes without the check: once a name is
      processed and its built file exists, the copy goes ahead whatever the
      entry's path. */
  lemma LegacyPublishUnchecked(env: Env, rank: map<string, nat>, st: St, name: string)
    requires Ranked(env.manifest, rank) && NamesMatch(st.cache) && env.variant.Legacy?
    ensures var p := Process(env, rank, st, name);
            p.result.Ok? && Exists(p.st.files, Join(env.config.internalDirectoryPath, p.result.value.entry.path)) ==>
              Publish(env, rank, st, [name]).result == Ok(())
  {
    assert [name][0] == name && [name][1..] == [];
  }

  /** The orphaned revision unwraps the normalisation when it checks a
      processed entry again: with the working directory unreadable, a
      processed entry whose path is not rooted makes publishing panic. */
  lemma OrphanPublishPanics(env: Env, rank: map<string, nat>, st: St, name: string)
    requires Ranked(env.manifest, rank) && NamesMatch(st.cache) && env.variant.Orphan? && !env.cwdReadable
    ensures var p := Process(env, rank, st, name);
            p.result.Ok? && !p.result.value.entry.path.rooted ==>
              Publish(env, rank, st, [name]).st == p.st && Publish(env, rank, st, [name]).result.Panicked?
  {
    assert [name][0] == name && [name][1..] == [];
  }
}
