/** The reference definitions of CacheSpec taken apart case by case: for
    each way an operation can go, the state it leaves and the result it
    returns, in terms of the operations it calls. The methods of module
    Cache follow these steps. */
module CacheSteps {
  import opened Basics
  import opened Paths
  import opened Assets
  import opened Storage
  import opened AssetFilter
  import opened OutputPaths
  import opened CacheSpec

  /** `process` of a stored name: insert what `update` rebuilt, or keep the
      stored entry, or pass the failure on. */
  lemma ProcessStored(env: Env, rank: map<string, nat>, st: St, name: string)
    requires Ranked(env.manifest, rank) && NamesMatch(st.cache) && name in st.cache
    ensures var e := st.cache[name];
            var u := Update(env, rank, st, e);
            var o := Process(env, rank, st, name);
            (u.result.Ok? && u.result.value.Some? ==>
               o.st == u.st.(cache := u.st.cache[name := u.result.value.value]) &&
               o.result == Ok(Processed(u.result.value.value, true))) &&
            (u.result.Ok? && u.result.value.None? ==> o.st == u.st && o.result == Ok(Processed(e, false))) &&
            (!u.result.Ok? ==> o.st == u.st && o.result == Fail(u.result))
  {
    assert st.cache[name].name == name;
  }

  /** `process` of a name not stored: insert what `create` built, or pass
      the failure on. */
  lemma ProcessAbsent(env: Env, rank: map<string, nat>, st: St, name: string)
    requires Ranked(env.manifest, rank) && NamesMatch(st.cache) && name !in st.cache
    ensures var c := Create(env, rank, st, name);
            var o := Process(env, rank, st, name);
            (c.result.Ok? ==>
               o.st == c.st.(cache := c.st.cache[name := c.result.value]) &&
               o.result == Ok(Processed(c.result.value, true))) &&
            (!c.result.Ok? ==> o.st == c.st && o.result == Fail(c.result))
  {
  }

  /** `update` when the definition changed or the built file is gone:
      rebuild. */
  lemma UpdateOutdated(env: Env, rank: map<string, nat>, st: St, e: AssetCacheEntry)
    requires Ranked(env.manifest, rank) && NamesMatch(st.cache) && e.name in st.cache && st.cache[e.name] == e
    requires e.name in env.manifest.assets
    requires env.manifest.assets[e.name] != e.data || !Exists(st.files, Join(env.config.internalDirectoryPath, e.path))
    ensures Update(env, rank, st, e).st == Rebuild(env, rank, st, e).st
    ensures Update(env, rank, st, e).result == Rebuild(env, rank, st, e).result
  {
  }

  /** `update` of an unchanged File asset whose built file exists: NotFound
      when the source is gone, a rebuild when its hash differs from the
      stored one or none is stored, and otherwise nothing. */
  lemma UpdateFile(env: Env, rank: map<string, nat>, st: St, e: AssetCacheEntry)
    requires Ranked(env.manifest, rank) && NamesMatch(st.cache) && e.name in st.cache && st.cache[e.name] == e
    requires e.name in env.manifest.assets && env.manifest.assets[e.name] == e.data && e.data.source.File?
    requires Exists(st.files, Join(env.config.internalDirectoryPath, e.path))
    ensures var src := Join(env.config.sourceDirectoryPath, e.data.source.path);
            var o := Update(env, rank, st, e);
            var rb := Rebuild(env, rank, st, e);
            (!Exists(st.files, src) ==> o.st == st && o.result == Err(FromIo(NotFound(src)))) &&
            (Exists(st.files, src) && (e.fileHash.None? || env.hash(Read(st.files, src)) != e.fileHash.value) ==>
               o.st == rb.st && o.result == rb.result) &&
            (Exists(st.files, src) && e.fileHash.Some? && env.hash(Read(st.files, src)) == e.fileHash.value ==>
               o.st == st && o.result == Ok(None))
  {
  }

  /** `update` of an unchanged Filtered asset whose built file exists: scan
      the inputs; pass a failure on, rebuild on a change, otherwise nothing. */
  lemma UpdateFiltered(env: Env, rank: map<string, nat>, st: St, e: AssetCacheEntry)
    requires Ranked(env.manifest, rank) && NamesMatch(st.cache) && e.name in st.cache && st.cache[e.name] == e
    requires e.name in env.manifest.assets && env.manifest.assets[e.name] == e.data && e.data.source.Filtered?
    requires Exists(st.files, Join(env.config.internalDirectoryPath, e.path))
    ensures Below(rank, e.data.source.filtered.inputNames, e.name)
    ensures var scan := ScanInputs(env, rank, e.name, st, e.data.source.filtered.inputNames);
            var o := Update(env, rank, st, e);
            (!scan.result.Ok? ==> o.st == scan.st && o.result == Fail(scan.result)) &&
            (scan.result.Ok? && !scan.result.value ==> o.st == scan.st && o.result == Ok(None)) &&
            (scan.result.Ok? && scan.result.value ==>
               e.name in scan.st.cache && scan.st.cache[e.name] == e &&
               o.st == Rebuild(env, rank, scan.st, e).st && o.result == Rebuild(env, rank, scan.st, e).result)
  {
    assert Below(rank, e.data.source.filtered.inputNames, e.name);
  }

  /** One step of the input scan of `update`. */
  lemma ScanStep(env: Env, rank: map<string, nat>, parent: string, st: St, inputs: seq<string>)
    requires Ranked(env.manifest, rank) && NamesMatch(st.cache) && Below(rank, inputs, parent) && inputs != []
    ensures var p := Process(env, rank, st, inputs[0]);
            var o := ScanInputs(env, rank, parent, st, inputs);
            (!p.result.Ok? ==> o.st == p.st && o.result == Fail(p.result)) &&
            (p.result.Ok? && p.result.value.changed ==> o.st == p.st && o.result == Ok(true)) &&
            (p.result.Ok? && !p.result.value.changed ==>
               o.st == ScanInputs(env, rank, parent, p.st, inputs[1..]).st &&
               o.result == ScanInputs(env, rank, parent, p.st, inputs[1..]).result)
  {
  }

  /** One step of the input loop of `create`. */
  lemma CreateInputsStep(env: Env, rank: map<string, nat>, parent: string, st: St, inputs: seq<string>,
                         acc: seq<AssetCacheEntry>)
    requires Ranked(env.manifest, rank) && NamesMatch(st.cache) && Below(rank, inputs, parent) && inputs != []
    ensures var p := Process(env, rank, st, inputs[0]);
            var o := CreateInputs(env, rank, parent, st, inputs, acc);
            (!p.result.Ok? ==> o.st == p.st && o.result == Fail(p.result)) &&
            (p.result.Ok? ==>
               o.st == CreateInputs(env, rank, parent, p.st, inputs[1..], acc + [p.result.value.entry]).st &&
               o.result == CreateInputs(env, rank, parent, p.st, inputs[1..], acc + [p.result.value.entry]).result)
  {
  }

  /** Building a File asset: NotFound when the source is gone, otherwise
      its bytes written to the output path and their hash stored. */
  lemma BuildFile(env: Env, rank: map<string, nat>, st: St, name: string, out: Path)
    requires Ranked(env.manifest, rank) && NamesMatch(st.cache) && name in env.manifest.assets
    requires env.variant.Strict? ==> !Escapes(out)
    requires env.manifest.assets[name].source.File?
    ensures var data := env.manifest.assets[name];
            var src := Join(env.config.sourceDirectoryPath, data.source.path);
            var o := Build(env, rank, st, name, out);
            (!Exists(st.files, src) ==> o.st == st && o.result == Err(FromIo(NotFound(src)))) &&
            (Exists(st.files, src) ==>
               var bytes := Read(st.files, src);
               o.st == st.(files := Write(st.files, Join(env.config.internalDirectoryPath, out), bytes)) &&
               o.result == Ok(AssetCacheEntry(name, data, out, Some(env.hash(bytes)))))
  {
  }

  /** Building a Filtered asset: collect the inputs, then look the filter up
      and write what it produced. */
  lemma BuildFiltered(env: Env, rank: map<string, nat>, st: St, name: string, out: Path)
    requires Ranked(env.manifest, rank) && NamesMatch(st.cache) && name in env.manifest.assets
    requires env.variant.Strict? ==> !Escapes(out)
    requires env.manifest.assets[name].source.Filtered?
    ensures Below(rank, env.manifest.assets[name].source.filtered.inputNames, name)
    ensures var data := env.manifest.assets[name];
            var f := data.source.filtered;
            var ins := CreateInputs(env, rank, name, st, f.inputNames, []);
            var outFull := Join(env.config.internalDirectoryPath, out);
            var o := Build(env, rank, st, name, out);
            (!ins.result.Ok? ==> o.st == ins.st && o.result == Fail(ins.result)) &&
            (ins.result.Ok? ==>
               match ProcessAssetFile(env.registry, f.filterName, InputPaths(env.config, ins.result.value), outFull, f.options, ins.st.files)
               case None => o.st == ins.st && o.result == Err(AssetFilterNotFoundError(f.filterName))
               case Some(res) =>
                 (!res.Ok? ==> o.st == ins.st && o.result == Fail(res)) &&
                 (res.Ok? ==> o.st == ins.st.(files := Write(ins.st.files, outFull, res.value)) &&
                              o.result == Ok(AssetCacheEntry(name, data, out, None))))
  {
    assert Below(rank, env.manifest.assets[name].source.filtered.inputNames, name);
  }

  /** Collecting one more entry adds its built file's path at the end. */
  lemma InputPathsAppend(cfg: AssetConfig, es: seq<AssetCacheEntry>, e: AssetCacheEntry)
    ensures InputPaths(cfg, es + [e]) == InputPaths(cfg, es) + [Join(cfg.internalDirectoryPath, e.path)]
  {
    var a := InputPaths(cfg, es + [e]);
    var b := InputPaths(cfg, es) + [Join(cfg.internalDirectoryPath, e.path)];
    assert |a| == |b|;
    forall j | 0 <= j < |a|
      ensures a[j] == b[j]
    {
      if j < |es| {
        assert (es + [e])[j] == es[j];
      }
    }
  }

  /** One step of `process_public_assets`: process the name, check the
      entry's path, copy the built file to the target directory, go on. */
  lemma PublishStep(env: Env, rank: map<string, nat>, st: St, names: seq<string>)
    requires Ranked(env.manifest, rank) && NamesMatch(st.cache) && names != []
    ensures var p := Process(env, rank, st, names[0]);
            var o := Publish(env, rank, st, names);
            (!p.result.Ok? ==> o.st == p.st && o.result == Fail(p.result)) &&
            (p.result.Ok? ==>
               var e := p.result.value.entry;
               var checked := CheckOutputPath(env.variant, env.cwdReadable, env.cwd, e.path);
               var src := Join(env.config.internalDirectoryPath, e.path);
               (!checked.Ok? ==> o.st == p.st && o.result == Fail(checked)) &&
               (checked.Ok? && !Exists(p.st.files, src) ==> o.st == p.st && o.result == Err(FromIo(NotFound(src)))) &&
               (checked.Ok? && Exists(p.st.files, src) ==>
                  var st2 := p.st.(files := Write(p.st.files, Join(env.config.targetDirectoryPath, e.path), Read(p.st.files, src)));
                  o.st == Publish(env, rank, st2, names[1..]).st && o.result == Publish(env, rank, st2, names[1..]).result))
  {
  }
}
