/** The cache as the program runs it: `AssetCacheManifestV1` is an object
    whose map (the field `entries`) the operations update in place, and the
    host machine is an object holding the files and the uuid generator. Every method is proved
    to leave exactly the state, and return exactly the result, of its
    reference definition in CacheSpec; what those definitions promise is
    proved in CacheProps. */
module Cache {
  import opened Basics
  import opened Paths
  import opened Assets
  import opened Storage
  import opened AssetFilter
  import opened OutputPaths
  import opened CacheSpec
  import CacheProps
  import CacheSteps

  /** The machine the cache runs on: its files, and the uuid generator,
      which has handed out `drawn` names so far. */
  class Host {
    var files: Files
    var drawn: nat

    constructor (files0: Files)
      ensures files == files0 && drawn == 0
    {
      files := files0;
      drawn := 0;
    }

    /** `Path::exists`. */
    predicate PathExists(p: Path)
      reads this
    {
      Exists(files, p)
    }

    /** `Uuid::new_v4`: a name never handed out before. */
    method NewUuid() returns (u: string)
      modifies this
      ensures u == UuidText(old(drawn)) && drawn == old(drawn) + 1 && files == old(files)
    {
      u := UuidText(drawn);
      drawn := drawn + 1;
    }

    /** `fs::read`: the bytes of a file, or NotFound. */
    method ReadFile(p: Path) returns (r: AssetResult<Bytes>)
      ensures Exists(files, p) ==> r == Ok(Read(files, p))
      ensures !Exists(files, p) ==> r == Err(FromIo(NotFound(p)))
    {
      if Exists(files, p) {
        r := Ok(Read(files, p));
      } else {
        r := Err(FromIo(NotFound(p)));
      }
    }

    /** Creating or truncating a file and writing to it. */
    method WriteFile(p: Path, b: Bytes)
      modifies this
      ensures files == Write(old(files), p, b) && drawn == old(drawn)
    {
      files := Write(files, p, b);
    }

    /** `fs::copy`: NotFound when the source is missing. */
    method Copy(src: Path, dst: Path) returns (r: AssetResult<()>)
      modifies this
      ensures drawn == old(drawn)
      ensures Exists(old(files), src) ==> r == Ok(()) && files == Write(old(files), dst, Read(old(files), src))
      ensures !Exists(old(files), src) ==> r == Err(FromIo(NotFound(src))) && files == old(files)
    {
      if Exists(files, src) {
        files := Write(files, dst, Read(files, src));
        r := Ok(());
      } else {
        r := Err(FromIo(NotFound(src)));
      }
    }

    /** `remove_file`, called only after `exists`. */
    method RemoveFile(p: Path)
      modifies this
      ensures files == Remove(old(files), p) && drawn == old(drawn)
    {
      files := Remove(files, p);
    }
  }

  /** `AssetCacheManifestV1`: the map from asset name to cache entry. */
  class AssetCacheManifest {
    var entries: map<string, AssetCacheEntry>

    /** `Default`: an empty map. */
    constructor ()
      ensures entries == map[]
    {
      entries := map[];
    }

    constructor FromMap(m: map<string, AssetCacheEntry>)
      ensures entries == m
    {
      entries := m;
    }

    /** The state the reference definitions speak of. */
    ghost function StateOf(host: Host): St
      reads this, host
    {
      St(entries, host.files, host.drawn)
    }

    /** `get_entry`: the stored entry for a name, or None. */
    function GetEntry(name: string): (r: Option<AssetCacheEntry>)
      reads this
      ensures r.Some? <==> name in entries
      ensures r.Some? ==> r.value == entries[name]
    {
      if name in entries then Some(entries[name]) else None
    }

    /** `process`. */
    method Process(env: Env, ghost rank: map<string, nat>, host: Host, name: string) returns (r: AssetResult<Processed>)
      requires Ranked(env.manifest, rank) && NamesMatch(entries)
      modifies this, host
      ensures var o := CacheSpec.Process(env, rank, old(StateOf(host)), name);
              entries == o.st.cache && host.files == o.st.files && host.drawn == o.st.drawn && r == o.result
      decreases RankOf(rank, name), 5, 0
    {
      ghost var st := StateOf(host);
      var stored := GetEntry(name);
      match stored
      case Some(e) =>
        assert e.name == name;
        CacheSteps.ProcessStored(env, rank, st, name);
        var u := Update(env, rank, host, e);
        if u.Ok? && u.value.Some? {
          entries := entries[name := u.value.value];
          r := Ok(Processed(u.value.value, true));
        } else if u.Ok? {
          r := Ok(Processed(e, false));
        } else {
          r := Fail(u);
        }
      case None =>
        CacheSteps.ProcessAbsent(env, rank, st, name);
        var c := Create(env, rank, host, name);
        if c.Ok? {
          entries := entries[name := c.value];
          r := Ok(Processed(c.value, true));
        } else {
          r := Fail(c);
        }
    }

    /** `update`: None when the stored entry is still good, otherwise the
        entry built anew after the old files are removed. */
    method Update(env: Env, ghost rank: map<string, nat>, host: Host, e: AssetCacheEntry)
      returns (r: AssetResult<Option<AssetCacheEntry>>)
      requires Ranked(env.manifest, rank) && NamesMatch(entries)
      requires e.name in entries && entries[e.name] == e
      modifies this, host
      ensures var o := CacheSpec.Update(env, rank, old(StateOf(host)), e);
              entries == o.st.cache && host.files == o.st.files && host.drawn == o.st.drawn && r == o.result
      decreases RankOf(rank, e.name), 4, 0
    {
      ghost var st := StateOf(host);
      if e.name !in env.manifest.assets {
        return Err(AssetNotFoundInManifestError(e.name));
      }
      var newData := env.manifest.assets[e.name];
      var fullPath := Join(env.config.internalDirectoryPath, e.path);
      var needUpdate: bool;
      if newData != e.data || !host.PathExists(fullPath) {
        CacheSteps.UpdateOutdated(env, rank, st, e);
        needUpdate := true;
      } else {
        match e.data.source
        case File(p) =>
          CacheSteps.UpdateFile(env, rank, st, e);
          var src := Join(env.config.sourceDirectoryPath, p);
          var bytes := host.ReadFile(src);
          if !bytes.Ok? {
            return Fail(bytes);
          }
          var fileHash := env.hash(bytes.value);
          needUpdate := e.fileHash.None? || fileHash != e.fileHash.value;
        case Filtered(f) =>
          CacheSteps.UpdateFiltered(env, rank, st, e);
          var scan := ScanInputs(env, rank, host, e.name, f.inputNames);
          if !scan.Ok? {
            return Fail(scan);
          }
          needUpdate := scan.value;
      }
      if needUpdate {
        r := Rebuild(env, rank, host, e);
        return;
      }
      r := Ok(None);
    }

    /** The input loop of `update`: process the inputs in order and stop at
        the first one reported changed. */
    method ScanInputs(env: Env, ghost rank: map<string, nat>, host: Host, parent: string, inputs: seq<string>)
      returns (r: AssetResult<bool>)
      requires Ranked(env.manifest, rank) && NamesMatch(entries) && Below(rank, inputs, parent)
      modifies this, host
      ensures var o := CacheSpec.ScanInputs(env, rank, parent, old(StateOf(host)), inputs);
              entries == o.st.cache && host.files == o.st.files && host.drawn == o.st.drawn && r == o.result
      decreases RankOf(rank, parent), 3, 0
    {
      ghost var scan := CacheSpec.ScanInputs(env, rank, parent, StateOf(host), inputs);
      var hasUpdatedInputs := false;
      var i := 0;
      while i < |inputs|
        invariant 0 <= i <= |inputs| && NamesMatch(entries)
        invariant hasUpdatedInputs ==> StateOf(host) == scan.st && scan.result == Ok(true)
        invariant !hasUpdatedInputs ==>
                    var rest := CacheSpec.ScanInputs(env, rank, parent, StateOf(host), inputs[i..]);
                    scan.st == rest.st && scan.result == rest.result
        decreases |inputs| - i, if hasUpdatedInputs then 0 else 1
      {
        var input := inputs[i];
        assert inputs[i..][0] == input && inputs[i..][1..] == inputs[i + 1..];
        CacheSteps.ScanStep(env, rank, parent, StateOf(host), inputs[i..]);
        var p := Process(env, rank, host, input);
        if !p.Ok? {
          return Fail(p);
        }
        if p.value.changed {
          hasUpdatedInputs := true;
          break;
        }
        i := i + 1;
      }
      r := Ok(hasUpdatedInputs);
    }

    /** The rebuild branch of `update`: remove the old internal and target
        files where they exist, then create the entry anew. */
    method Rebuild(env: Env, ghost rank: map<string, nat>, host: Host, e: AssetCacheEntry)
      returns (r: AssetResult<Option<AssetCacheEntry>>)
      requires Ranked(env.manifest, rank) && NamesMatch(entries)
      requires e.name in entries && entries[e.name] == e
      modifies this, host
      ensures var o := CacheSpec.Rebuild(env, rank, old(StateOf(host)), e);
              entries == o.st.cache && host.files == o.st.files && host.drawn == o.st.drawn && r == o.result
      decreases RankOf(rank, e.name), 2, 0
    {
      var fullPath := Join(env.config.internalDirectoryPath, e.path);
      if host.PathExists(fullPath) {
        host.RemoveFile(fullPath);
      } else {
        RemoveAbsent(host.files, fullPath);
      }
      var targetFullPath := Join(env.config.targetDirectoryPath, e.path);
      if host.PathExists(targetFullPath) {
        host.RemoveFile(targetFullPath);
      } else {
        RemoveAbsent(host.files, targetFullPath);
      }
      var c := Create(env, rank, host, e.name);
      r := if c.Ok? then Ok(Some(c.value)) else Fail(c);
    }

    /** `create`: draw a uuid, build and check the output path, then copy
        the source file or run the filter over the processed inputs. */
    method Create(env: Env, ghost rank: map<string, nat>, host: Host, name: string)
      returns (r: AssetResult<AssetCacheEntry>)
      requires Ranked(env.manifest, rank) && NamesMatch(entries)
      modifies this, host
      ensures var o := CacheSpec.Create(env, rank, old(StateOf(host)), name);
              entries == o.st.cache && host.files == o.st.files && host.drawn == o.st.drawn && r == o.result
      decreases RankOf(rank, name), 1, 1
    {
      ghost var st := StateOf(host);
      if name !in env.manifest.assets {
        return Err(AssetNotFoundInManifestError(name));
      }
      var data := env.manifest.assets[name];
      var uuid := host.NewUuid();
      var outputPath := OutputPath(data, name, uuid);
      var checked := CheckOutputPath(env.variant, env.cwdReadable, env.cwd, outputPath);
      if !checked.Ok? {
        CacheProps.RefusedBeforeWriting(env, rank, st, name);
        return Fail(checked);
      }
      CacheProps.CreateBuilds(env, rank, st, name, outputPath);
      r := Build(env, rank, host, name, outputPath);
    }

    /** The second half of `create`, once the output path has passed the
        check: copy the source file and hash the copy, or process the inputs
        in order, collecting their built paths, and run the filter. */
    method Build(env: Env, ghost rank: map<string, nat>, host: Host, name: string, outputPath: Path)
      returns (r: AssetResult<AssetCacheEntry>)
      requires Ranked(env.manifest, rank) && NamesMatch(entries) && name in env.manifest.assets
      requires env.variant.Strict? ==> !Escapes(outputPath)
      modifies this, host
      ensures var o := CacheSpec.Build(env, rank, old(StateOf(host)), name, outputPath);
              entries == o.st.cache && host.files == o.st.files && host.drawn == o.st.drawn && r == o.result
      decreases RankOf(rank, name), 1, 0
    {
      ghost var st := StateOf(host);
      var data := env.manifest.assets[name];
      var outputFullPath := Join(env.config.internalDirectoryPath, outputPath);
      match data.source
      case File(p) =>
        CacheSteps.BuildFile(env, rank, st, name, outputPath);
        var src := Join(env.config.sourceDirectoryPath, p);
        var copied := host.Copy(src, outputFullPath);
        if !copied.Ok? {
          return Fail(copied);
        }
        var bytes := host.ReadFile(outputFullPath);
        var fileHash := env.hash(bytes.value);
        r := Ok(AssetCacheEntry(name, data, outputPath, Some(fileHash)));
      case Filtered(f) =>
        CacheSteps.BuildFiltered(env, rank, st, name, outputPath);
        var inputFullPaths := CreateInputs(env, rank, host, name, f.inputNames);
        if !inputFullPaths.Ok? {
          return Fail(inputFullPaths);
        }
        var res := ProcessAssetFile(env.registry, f.filterName, inputFullPaths.value, outputFullPath, f.options, host.files);
        if res.None? {
          return Err(AssetFilterNotFoundError(f.filterName));
        }
        if !res.value.Ok? {
          return Fail(res.value);
        }
        host.WriteFile(outputFullPath, res.value.value);
        r := Ok(AssetCacheEntry(name, data, outputPath, None));
    }

    /** The input loop of `create`: process each input in order and collect
        its built file's path under the internal directory; the first failure
        ends it. */
    method CreateInputs(env: Env, ghost rank: map<string, nat>, host: Host, parent: string, inputs: seq<string>)
      returns (r: AssetResult<seq<Path>>)
      requires Ranked(env.manifest, rank) && NamesMatch(entries) && Below(rank, inputs, parent)
      modifies this, host
      ensures var o := CacheSpec.CreateInputs(env, rank, parent, old(StateOf(host)), inputs, []);
              entries == o.st.cache && host.files == o.st.files && host.drawn == o.st.drawn &&
              (o.result.Ok? ==> r == Ok(InputPaths(env.config, o.result.value))) &&
              (!o.result.Ok? ==> r == Fail(o.result))
      decreases RankOf(rank, parent), 0, 0
    {
      ghost var ins := CacheSpec.CreateInputs(env, rank, parent, StateOf(host), inputs, []);
      var inputFullPaths: seq<Path> := [];
      ghost var collected: seq<AssetCacheEntry> := [];
      var i := 0;
      while i < |inputs|
        invariant 0 <= i <= |inputs| && NamesMatch(entries)
        invariant inputFullPaths == InputPaths(env.config, collected)
        invariant var rest := CacheSpec.CreateInputs(env, rank, parent, StateOf(host), inputs[i..], collected);
                  ins.st == rest.st && ins.result == rest.result
        decreases |inputs| - i
      {
        assert inputs[i..][0] == inputs[i] && inputs[i..][1..] == inputs[i + 1..];
        CacheSteps.CreateInputsStep(env, rank, parent, StateOf(host), inputs[i..], collected);
        var p := Process(env, rank, host, inputs[i]);
        if !p.Ok? {
          return Fail(p);
        }
        CacheSteps.InputPathsAppend(env.config, collected, p.value.entry);
        inputFullPaths := inputFullPaths + [Join(env.config.internalDirectoryPath, p.value.entry.path)];
        collected := collected + [p.value.entry];
        i := i + 1;
      }
      r := Ok(inputFullPaths);
    }

    /** `process_public_assets`: process every public asset in the order the
        manifest lists them, check the entry's path again, and copy its built
        file to the same relative path under the target directory; the first
        failure ends it. */
    method ProcessPublicAssets(env: Env, ghost rank: map<string, nat>, host: Host) returns (r: AssetResult<()>)
      requires Ranked(env.manifest, rank) && NamesMatch(entries)
      modifies this, host
      ensures var o := CacheSpec.Publish(env, rank, old(StateOf(host)), env.manifest.publicAssets);
              entries == o.st.cache && host.files == o.st.files && host.drawn == o.st.drawn && r == o.result
    {
      var names := env.manifest.publicAssets;
      ghost var pub := CacheSpec.Publish(env, rank, StateOf(host), names);
      var i := 0;
      while i < |names|
        invariant 0 <= i <= |names| && NamesMatch(entries)
        invariant var rest := CacheSpec.Publish(env, rank, StateOf(host), names[i..]);
                  pub.st == rest.st && pub.result == rest.result
        decreases |names| - i
      {
        assert names[i..][0] == names[i] && names[i..][1..] == names[i + 1..];
        CacheSteps.PublishStep(env, rank, StateOf(host), names[i..]);
        var p := Process(env, rank, host, names[i]);
        if !p.Ok? {
          return Fail(p);
        }
        var e := p.value.entry;
        var sourceFullPath := Join(env.config.internalDirectoryPath, e.path);
        var outputFullPath := Join(env.config.targetDirectoryPath, e.path);
        var checked := CheckOutputPath(env.variant, env.cwdReadable, env.cwd, e.path);
        if !checked.Ok? {
          return Fail(checked);
        }
        ghost var st1 := StateOf(host);
        var copied := host.Copy(sourceFullPath, outputFullPath);
        if !copied.Ok? {
          return Fail(copied);
        }
        assert StateOf(host) == st1.(files := Write(st1.files, outputFullPath, Read(st1.files, sourceFullPath)));
        i := i + 1;
      }
      r := Ok(());
    }
  }
}
