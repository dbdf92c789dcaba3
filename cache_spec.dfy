/** The reference definition of the cache's reconciliation: `process`,
    `update`, `create` and `process_public_assets` as functions from a state
    (the cache map, the files, the number of fresh names drawn so far) to a
    new state and a result. The methods of module Cache are proved to
    compute exactly these functions. */
module CacheSpec {
  import opened Basics
  import opened Paths
  import opened Assets
  import opened Storage
  import opened AssetFilter
  import opened OutputPaths

  // ---------------------------------------------------------------------
  // State, environment, results
  // ---------------------------------------------------------------------

  /** What an operation reads but never changes: the revision of the cache
      logic, the three directories, the manifest, the filters, the hash
      function standing for blake3, whether the working directory can be
      read (parse_dot reads it), and the working directory itself. */
  datatype Env = Env(variant: Variant, config: AssetConfig, manifest: AssetManifest,
                     registry: AssetFilterRegistry, hash: Bytes -> Digest, cwdReadable: bool, cwd: seq<string>)

  /** What an operation changes: the cache map, the files, and the number of
      fresh names drawn (the next one is UuidText(drawn)). */
  datatype St = St(cache: map<string, AssetCacheEntry>, files: Files, drawn: nat)

  /** The state after an operation, together with its result. Errors and
      panics leave behind whatever the operation had already changed. */
  datatype Outcome<T> = Outcome(st: St, result: AssetResult<T>)

  /** What `process` returns: the entry, and whether this call created or
      replaced it. */
  datatype Processed = Processed(entry: AssetCacheEntry, changed: bool)

  /** A failed result, carried over to another result type by `?`. */
  function Fail<T, U>(r: AssetResult<T>): (f: AssetResult<U>)
    requires !r.Ok?
    ensures f.Err? == r.Err? && f.Panicked? == r.Panicked?
    ensures f.Err? ==> f.error == r.error
  {
    if r.Err? then Err(r.error) else Panicked
  }

  // ---------------------------------------------------------------------
  // Invariants
  // ---------------------------------------------------------------------

  /** Every entry is stored under its own name. `process` only inserts
      entries built for the name it inserts them under. */
  ghost predicate NamesMatch(cache: map<string, AssetCacheEntry>) {
    forall n {:trigger cache[n]} :: n in cache ==> cache[n].name == n
  }

  /** A rank for the names of an acyclic manifest: every input of a filtered
      asset ranks below that asset. Names without a rank rank 0. */
  function RankOf(rank: map<string, nat>, n: string): nat {
    if n in rank then rank[n] else 0
  }

  ghost predicate Ranked(m: AssetManifest, rank: map<string, nat>) {
    forall n, i :: n in m.assets && m.assets[n].source.Filtered? && i in m.assets[n].source.filtered.inputNames ==>
      RankOf(rank, i) < RankOf(rank, n)
  }

  ghost predicate Below(rank: map<string, nat>, names: seq<string>, parent: string) {
    forall i :: i in names ==> RankOf(rank, i) < RankOf(rank, parent)
  }

  /** Entries for names ranked `r` or higher, except those in `skip`, are as
      they were: present with the same value, or still absent. */
  ghost predicate Kept(rank: map<string, nat>, c: map<string, AssetCacheEntry>, c2: map<string, AssetCacheEntry>,
                       r: nat, skip: set<string>) {
    forall k {:trigger k in c} {:trigger k in c2} {:trigger c[k]} {:trigger c2[k]} :: k !in skip && RankOf(rank, k) >= r ==> (k in c <==> k in c2) && (k in c ==> c2[k] == c[k])
  }

  /** No stored output path is rooted or climbs out with "..". */
  ghost predicate SafeEntries(cache: map<string, AssetCacheEntry>) {
    forall n {:trigger cache[n]} :: n in cache ==> !Escapes(cache[n].path)
  }

  /** The directories the cache may write to: internal and target. */
  function Dirs(cfg: AssetConfig): set<Path> {
    {Normalize(cfg.internalDirectoryPath), Normalize(cfg.targetDirectoryPath)}
  }

  /** The strict path test is in force and the stored paths pass it. (The
      live and orphaned tests let a leading ".." through, so they confine
      nothing: see CacheProps.LiveWritesOutside.) */
  ghost predicate Guarded(env: Env, st: St) {
    env.variant.Strict? && SafeEntries(st.cache)
  }

  /** No filter ever panics. */
  ghost predicate FiltersNeverPanic(reg: AssetFilterRegistry) {
    forall f, ins, out, opts, fs :: f in reg.filters ==> !reg.filters[f](ins, out, opts, fs).Panicked?
  }

  /** Nothing can panic: the path check does not unwrap, or the working
      directory is readable, and the filters do not panic. */
  ghost predicate NoPanic(env: Env) {
    (!env.variant.Orphan? || env.cwdReadable) && FiltersNeverPanic(env.registry)
  }

  /** What every operation of the cache keeps, for an operation working at
      rank `r`: names still match, keys and draws only grow, entries at rank
      `r` and above (but `skip`) are kept, and under the path check the
      stored paths stay safe and every file change is inside the internal or
      target directory. */
  ghost predicate Evolves(env: Env, rank: map<string, nat>, st: St, st2: St, r: nat, skip: set<string>) {
    NamesMatch(st2.cache) &&
    st.cache.Keys <= st2.cache.Keys && st.drawn <= st2.drawn &&
    Kept(rank, st.cache, st2.cache, r, skip) &&
    (Guarded(env, st) ==> SafeEntries(st2.cache) && Confined(st.files, st2.files, Dirs(env.config)))
  }

  /** A change made at a lower rank is kept at any higher one. */
  lemma EvolvesWeaken(env: Env, rank: map<string, nat>, a: St, b: St, r1: nat, skip1: set<string>, r2: nat)
    requires Evolves(env, rank, a, b, r1, skip1)
    requires r1 <= r2 && forall k :: k in skip1 ==> RankOf(rank, k) < r2
    ensures Evolves(env, rank, a, b, r2, {})
  {
  }

  lemma EvolvesTrans(env: Env, rank: map<string, nat>, a: St, b: St, c: St, r: nat)
    requires Evolves(env, rank, a, b, r, {}) && Evolves(env, rank, b, c, r, {})
    ensures Evolves(env, rank, a, c, r, {})
  {
    if Guarded(env, a) {
      ConfinedTrans(a.files, b.files, c.files, Dirs(env.config));
    }
  }

  /** Changing only files, inside the two directories when the check is in
      force, keeps everything else. */
  lemma EvolvesFiles(env: Env, rank: map<string, nat>, a: St, files: Files, r: nat)
    requires NamesMatch(a.cache)
    requires Guarded(env, a) ==> Confined(a.files, files, Dirs(env.config))
    ensures Evolves(env, rank, a, a.(files := files), r, {})
  {
  }

  lemma EvolvesRefl(env: Env, rank: map<string, nat>, a: St, r: nat)
    requires NamesMatch(a.cache)
    ensures Evolves(env, rank, a, a, r, {})
  {
  }

  lemma EvolvesDraw(env: Env, rank: map<string, nat>, a: St, r: nat)
    requires NamesMatch(a.cache)
    ensures Evolves(env, rank, a, a.(drawn := a.drawn + 1), r, {})
  {
  }

  /** Inserting an entry built for `name` under `name` keeps everything but
      that name. */
  lemma EvolvesInsert(env: Env, rank: map<string, nat>, a: St, b: St, name: string, e: AssetCacheEntry)
    requires Evolves(env, rank, a, b, RankOf(rank, name), {})
    requires e.name == name && (Guarded(env, a) ==> !Escapes(e.path))
    ensures Evolves(env, rank, a, b.(cache := b.cache[name := e]), RankOf(rank, name), {name})
  {
  }

  // ---------------------------------------------------------------------
  // File effects inside the two directories
  // ---------------------------------------------------------------------

  lemma JoinedInside(dir: Path, p: Path, dirs: set<Path>)
    requires Normalize(dir) in dirs
    ensures !Escapes(p) ==> UnderSome(Key(Join(dir, p)), dirs)
  {
    if !Escapes(p) {
      JoinUnescapedIsUnder(dir, p);
    }
  }

  /** Writing `p` joined to the internal or target directory, for a `p` that
      passes the check, changes nothing outside the two directories. */
  lemma WriteInside(cfg: AssetConfig, toTarget: bool, files: Files, p: Path, b: Bytes)
    ensures var dir := if toTarget then cfg.targetDirectoryPath else cfg.internalDirectoryPath;
            !Escapes(p) ==> Confined(files, Write(files, Join(dir, p), b), Dirs(cfg))
  {
    var dir := if toTarget then cfg.targetDirectoryPath else cfg.internalDirectoryPath;
    JoinedInside(dir, p, Dirs(cfg));
    if !Escapes(p) {
      WriteConfined(files, Join(dir, p), b, Dirs(cfg));
    }
  }

  /** Writing the built file after a passed check extends an evolution. */
  lemma WrittenInside(env: Env, rank: map<string, nat>, a: St, b: St, out: Path, bytes: Bytes, r: nat)
    requires Evolves(env, rank, a, b, r, {})
    requires env.variant.Strict? ==> !Escapes(out)
    ensures Evolves(env, rank, a, b.(files := Write(b.files, Join(env.config.internalDirectoryPath, out), bytes)), r, {})
  {
    WriteInside(env.config, false, b.files, out, bytes);
    var b2 := b.(files := Write(b.files, Join(env.config.internalDirectoryPath, out), bytes));
    if Guarded(env, a) {
      assert Guarded(env, b);
      EvolvesFiles(env, rank, b, b2.files, r);
    } else {
      EvolvesFiles(env, rank, b, b2.files, r);
    }
    EvolvesTrans(env, rank, a, b, b2, r);
  }

  lemma RemoveInside(cfg: AssetConfig, toTarget: bool, files: Files, p: Path)
    ensures var dir := if toTarget then cfg.targetDirectoryPath else cfg.internalDirectoryPath;
            !Escapes(p) ==> Confined(files, Remove(files, Join(dir, p)), Dirs(cfg))
  {
    var dir := if toTarget then cfg.targetDirectoryPath else cfg.internalDirectoryPath;
    JoinedInside(dir, p, Dirs(cfg));
    if !Escapes(p) {
      RemoveConfined(files, Join(dir, p), Dirs(cfg));
    }
  }

  // ---------------------------------------------------------------------
  // process, update, create
  // ---------------------------------------------------------------------

  /** `process`: update the stored entry, or create one when there is none;
      insert what was built under `name`. */
  ghost function Process(env: Env, rank: map<string, nat>, st: St, name: string): (o: Outcome<Processed>)
    requires Ranked(env.manifest, rank) && NamesMatch(st.cache)
    ensures Evolves(env, rank, st, o.st, RankOf(rank, name), {name})
    ensures NoPanic(env) ==> !o.result.Panicked?
    ensures o.result.Ok? ==>
      name in o.st.cache && o.st.cache[name] == o.result.value.entry &&
      name in env.manifest.assets && o.result.value.entry.data == env.manifest.assets[name]
    ensures o.result.Ok? && !o.result.value.changed ==> name in st.cache && o.result.value.entry == st.cache[name]
    ensures o.result.Ok? && name !in st.cache ==> o.result.value.changed
    ensures !o.result.Ok? && name !in st.cache ==> name !in o.st.cache
    decreases RankOf(rank, name), 5, 0
  {
    if name in st.cache then
      var e := st.cache[name];
      var u := Update(env, rank, st, e);
      match u.result
      case Ok(Some(e2)) =>
        EvolvesInsert(env, rank, st, u.st, name, e2);
        Outcome(u.st.(cache := u.st.cache[name := e2]), Ok(Processed(e2, true)))
      case Ok(None) =>
        EvolvesWeaken(env, rank, st, u.st, RankOf(rank, name), {}, RankOf(rank, name));
        Outcome(u.st, Ok(Processed(e, false)))
      case _ =>
        EvolvesWeaken(env, rank, st, u.st, RankOf(rank, name), {}, RankOf(rank, name));
        Outcome(u.st, Fail(u.result))
    else
      var c := Create(env, rank, st, name);
      match c.result
      case Ok(e2) =>
        EvolvesInsert(env, rank, st, c.st, name, e2);
        Outcome(c.st.(cache := c.st.cache[name := e2]), Ok(Processed(e2, true)))
      case _ =>
        EvolvesWeaken(env, rank, st, c.st, RankOf(rank, name), {}, RankOf(rank, name));
        Outcome(c.st, Fail(c.result))
  }

  /** `update`: rebuild when the definition changed, the built file is gone,
      the source file's hash differs from the stored one (or none is
      stored), or processing some input reports a change; otherwise None. */
  ghost function Update(env: Env, rank: map<string, nat>, st: St, e: AssetCacheEntry): (o: Outcome<Option<AssetCacheEntry>>)
    requires Ranked(env.manifest, rank) && NamesMatch(st.cache)
    requires e.name in st.cache && st.cache[e.name] == e
    ensures Evolves(env, rank, st, o.st, RankOf(rank, e.name), {})
    ensures NoPanic(env) ==> !o.result.Panicked?
    ensures o.result.Ok? ==> e.name in env.manifest.assets
    ensures o.result.Ok? && o.result.value.Some? ==>
      o.result.value.value.name == e.name && o.result.value.value.data == env.manifest.assets[e.name] &&
      (!env.variant.Legacy? ==> !o.result.value.value.path.rooted) &&
      (env.variant.Strict? ==> !Escapes(o.result.value.value.path))
    ensures o.result.Ok? && o.result.value.None? ==> env.manifest.assets[e.name] == e.data
    decreases RankOf(rank, e.name), 4, 0
  {
    EvolvesRefl(env, rank, st, RankOf(rank, e.name));
    if e.name !in env.manifest.assets then Outcome(st, Err(AssetNotFoundInManifestError(e.name)))
    else
      var full := Join(env.config.internalDirectoryPath, e.path);
      if env.manifest.assets[e.name] != e.data || !Exists(st.files, full) then Rebuild(env, rank, st, e)
      else
        match e.data.source
        case File(p) =>
          var src := Join(env.config.sourceDirectoryPath, p);
          if !Exists(st.files, src) then Outcome(st, Err(FromIo(NotFound(src))))
          else if e.fileHash.None? || env.hash(Read(st.files, src)) != e.fileHash.value then Rebuild(env, rank, st, e)
          else Outcome(st, Ok(None))
        case Filtered(f) =>
          var scan := ScanInputs(env, rank, e.name, st, f.inputNames);
          if !scan.result.Ok? then Outcome(scan.st, Fail(scan.result))
          else if scan.result.value then
            var rb := Rebuild(env, rank, scan.st, e);
            EvolvesTrans(env, rank, st, scan.st, rb.st, RankOf(rank, e.name));
            rb
          else Outcome(scan.st, Ok(None))
  }

  /** The input loop of `update`: process the inputs in order and stop at
      the first one reported changed. */
  ghost function ScanInputs(env: Env, rank: map<string, nat>, parent: string, st: St, inputs: seq<string>): (o: Outcome<bool>)
    requires Ranked(env.manifest, rank) && NamesMatch(st.cache) && Below(rank, inputs, parent)
    ensures Evolves(env, rank, st, o.st, RankOf(rank, parent), {})
    ensures NoPanic(env) ==> !o.result.Panicked?
    decreases RankOf(rank, parent), 3, |inputs|
  {
    if inputs == [] then Outcome(st, Ok(false))
    else
      var p := Process(env, rank, st, inputs[0]);
      EvolvesWeaken(env, rank, st, p.st, RankOf(rank, inputs[0]), {inputs[0]}, RankOf(rank, parent));
      if !p.result.Ok? then Outcome(p.st, Fail(p.result))
      else if p.result.value.changed then Outcome(p.st, Ok(true))
      else
        var rest := ScanInputs(env, rank, parent, p.st, inputs[1..]);
        EvolvesTrans(env, rank, st, p.st, rest.st, RankOf(rank, parent));
        rest
  }

  /** The rebuild branch of `update`: remove the old internal and target
      files, then create the entry anew. */
  ghost function Rebuild(env: Env, rank: map<string, nat>, st: St, e: AssetCacheEntry): (o: Outcome<Option<AssetCacheEntry>>)
    requires Ranked(env.manifest, rank) && NamesMatch(st.cache)
    requires e.name in st.cache && st.cache[e.name] == e
    ensures Evolves(env, rank, st, o.st, RankOf(rank, e.name), {})
    ensures NoPanic(env) ==> !o.result.Panicked?
    ensures o.result.Ok? ==> o.result.value.Some? && e.name in env.manifest.assets
    ensures o.result.Ok? ==>
      o.result.value.value.name == e.name && o.result.value.value.data == env.manifest.assets[e.name] &&
      (!env.variant.Legacy? ==> !o.result.value.value.path.rooted) &&
      (env.variant.Strict? ==> !Escapes(o.result.value.value.path))
    decreases RankOf(rank, e.name), 2, 0
  {
    var cfg := env.config;
    var files1 := Remove(st.files, Join(cfg.internalDirectoryPath, e.path));
    var files2 := Remove(files1, Join(cfg.targetDirectoryPath, e.path));
    RemoveInside(cfg, false, st.files, e.path);
    RemoveInside(cfg, true, files1, e.path);
    assert Guarded(env, st) ==> Confined(st.files, files2, Dirs(cfg)) by {
      if Guarded(env, st) {
        ConfinedTrans(st.files, files1, files2, Dirs(cfg));
      }
    }
    EvolvesFiles(env, rank, st, files2, RankOf(rank, e.name));
    var c := Create(env, rank, st.(files := files2), e.name);
    EvolvesTrans(env, rank, st, st.(files := files2), c.st, RankOf(rank, e.name));
    Outcome(c.st, if c.result.Ok? then Ok(Some(c.result.value)) else Fail(c.result))
  }

  /** `create`: look the name up, draw a fresh name, build the output path
      and check it, then build the file. */
  ghost function Create(env: Env, rank: map<string, nat>, st: St, name: string): (o: Outcome<AssetCacheEntry>)
    requires Ranked(env.manifest, rank) && NamesMatch(st.cache)
    ensures Evolves(env, rank, st, o.st, RankOf(rank, name), {})
    ensures NoPanic(env) ==> !o.result.Panicked?
    ensures o.result.Ok? ==>
      o.result.value.name == name && name in env.manifest.assets &&
      o.result.value.data == env.manifest.assets[name] &&
      (!env.variant.Legacy? ==> !o.result.value.path.rooted) &&
      (env.variant.Strict? ==> !Escapes(o.result.value.path)) &&
      (o.result.value.fileHash.Some? <==> o.result.value.data.source.File?)
    decreases RankOf(rank, name), 1, 1
  {
    if name !in env.manifest.assets then Outcome(st, Err(AssetNotFoundInManifestError(name)))
    else
      var data := env.manifest.assets[name];
      var out := OutputPath(data, name, UuidText(st.drawn));
      var st1 := st.(drawn := st.drawn + 1);
      EvolvesDraw(env, rank, st, RankOf(rank, name));
      var checked := CheckOutputPath(env.variant, env.cwdReadable, env.cwd, out);
      if !checked.Ok? then Outcome(st1, Fail(checked))
      else
        var b := Build(env, rank, st1, name, out);
        EvolvesTrans(env, rank, st, st1, b.st, RankOf(rank, name));
        b
  }

  /** The second half of `create`, once `out` has passed the check: copy the
      source file to `out` under the internal directory and store the hash
      of its bytes, or process the inputs in order and run the filter over
      them, storing no hash. */
  ghost function Build(env: Env, rank: map<string, nat>, st: St, name: string, out: Path): (o: Outcome<AssetCacheEntry>)
    requires Ranked(env.manifest, rank) && NamesMatch(st.cache) && name in env.manifest.assets
    requires env.variant.Strict? ==> !Escapes(out)
    ensures Evolves(env, rank, st, o.st, RankOf(rank, name), {})
    ensures NoPanic(env) ==> !o.result.Panicked?
    ensures o.result.Ok? ==>
      o.result.value.name == name && o.result.value.path == out &&
      o.result.value.data == env.manifest.assets[name] &&
      (o.result.value.fileHash.Some? <==> o.result.value.data.source.File?)
    decreases RankOf(rank, name), 1, 0
  {
    EvolvesRefl(env, rank, st, RankOf(rank, name));
    var data := env.manifest.assets[name];
    var outFull := Join(env.config.internalDirectoryPath, out);
    match data.source
    case File(p) =>
      var src := Join(env.config.sourceDirectoryPath, p);
      if !Exists(st.files, src) then Outcome(st, Err(FromIo(NotFound(src))))
      else
        var bytes := Read(st.files, src);
        WrittenInside(env, rank, st, st, out, bytes, RankOf(rank, name));
        Outcome(st.(files := Write(st.files, outFull, bytes)), Ok(AssetCacheEntry(name, data, out, Some(env.hash(bytes)))))
    case Filtered(f) =>
      var ins := CreateInputs(env, rank, name, st, f.inputNames, []);
      if !ins.result.Ok? then Outcome(ins.st, Fail(ins.result))
      else
        var st2 := ins.st;
        match ProcessAssetFile(env.registry, f.filterName, InputPaths(env.config, ins.result.value), outFull, f.options, st2.files)
        case None => Outcome(st2, Err(AssetFilterNotFoundError(f.filterName)))
        case Some(res) =>
          if !res.Ok? then Outcome(st2, Fail(res))
          else
            WrittenInside(env, rank, st, st2, out, res.value, RankOf(rank, name));
            Outcome(st2.(files := Write(st2.files, outFull, res.value)), Ok(AssetCacheEntry(name, data, out, None)))
  }

  /** The paths a filter receives: each input's output path, joined to the
      internal directory, in the order of the entries. */
  function InputPaths(cfg: AssetConfig, entries: seq<AssetCacheEntry>): (ps: seq<Path>)
    ensures |ps| == |entries|
    ensures forall j :: 0 <= j < |entries| ==> ps[j] == Join(cfg.internalDirectoryPath, entries[j].path)
  {
    seq(|entries|, j requires 0 <= j < |entries| => Join(cfg.internalDirectoryPath, entries[j].path))
  }

  /** The input loop of `create`: process each input in order, collecting
      the entries; the first failure ends it. */
  ghost function CreateInputs(env: Env, rank: map<string, nat>, parent: string, st: St, inputs: seq<string>,
                              acc: seq<AssetCacheEntry>): (o: Outcome<seq<AssetCacheEntry>>)
    requires Ranked(env.manifest, rank) && NamesMatch(st.cache) && Below(rank, inputs, parent)
    ensures Evolves(env, rank, st, o.st, RankOf(rank, parent), {})
    ensures NoPanic(env) ==> !o.result.Panicked?
    decreases RankOf(rank, parent), 0, |inputs|
  {
    if inputs == [] then Outcome(st, Ok(acc))
    else
      var p := Process(env, rank, st, inputs[0]);
      EvolvesWeaken(env, rank, st, p.st, RankOf(rank, inputs[0]), {inputs[0]}, RankOf(rank, parent));
      if !p.result.Ok? then Outcome(p.st, Fail(p.result))
      else
        var rest := CreateInputs(env, rank, parent, p.st, inputs[1..], acc + [p.result.value.entry]);
        EvolvesTrans(env, rank, st, p.st, rest.st, RankOf(rank, parent));
        rest
  }

  // ---------------------------------------------------------------------
  // process_public_assets
  // ---------------------------------------------------------------------

  /** `process_public_assets`: process each public name in order, check the
      entry's path again, and copy the built file to the same relative path
      under the target directory; the first failure ends it. */
  ghost function Publish(env: Env, rank: map<string, nat>, st: St, names: seq<string>): (o: Outcome<()>)
    requires Ranked(env.manifest, rank) && NamesMatch(st.cache)
    ensures NamesMatch(o.st.cache) && st.cache.Keys <= o.st.cache.Keys && st.drawn <= o.st.drawn
    ensures Guarded(env, st) ==> SafeEntries(o.st.cache) && Confined(st.files, o.st.files, Dirs(env.config))
    ensures NoPanic(env) ==> !o.result.Panicked?
    decreases |names|
  {
    if names == [] then Outcome(st, Ok(()))
    else
      var p := Process(env, rank, st, names[0]);
      if !p.result.Ok? then Outcome(p.st, Fail(p.result))
      else
        var e := p.result.value.entry;
        var checked := CheckOutputPath(env.variant, env.cwdReadable, env.cwd, e.path);
        var src := Join(env.config.internalDirectoryPath, e.path);
        if !checked.Ok? then Outcome(p.st, Fail(checked))
        else if !Exists(p.st.files, src) then Outcome(p.st, Err(FromIo(NotFound(src))))
        else
          var bytes := Read(p.st.files, src);
          WriteInside(env.config, true, p.st.files, e.path, bytes);
          Publish(env, rank, p.st.(files := Write(p.st.files, Join(env.config.targetDirectoryPath, e.path), bytes)), names[1..])
  }
}
