/** The two entry points of the library: `load_cache_manifest`, and `pack`,
    which reads the asset manifest, loads the cache file (an empty cache
    when there is none), processes the public assets and writes the cache
    back whatever the processing returned. JSON itself is a parameter: the
    model keeps the document's shape (an ordered list of name/entry pairs,
    hashes as base64 text) and takes the text syntax as functions. */
module Pack {
  import opened Basics
  import opened Paths
  import opened Assets
  import opened Storage
  import opened AssetFilter
  import opened OutputPaths
  import opened AssetHashes
  import opened CacheSpec
  import Cache

  // ---------------------------------------------------------------------
  // The cache file
  // ---------------------------------------------------------------------

  /** An AssetCacheEntry as the cache file holds it: the hash as text. */
  datatype StoredEntry = StoredEntry(name: string, data: AssetData, path: Path, fileHash: Option<string>)

  /** `AssetCacheManifestVersioned`: the only version, V1, whose map is
      written as a JSON object, that is, name/entry pairs in some order. */
  datatype CacheDocument = V1(pairs: seq<(string, StoredEntry)>)

  /** serde_json, as far as the model needs it: reading the asset manifest,
      reading and writing the cache document, and the order in which a
      HashMap hands out its keys. */
  datatype Serde = Serde(readManifest: Bytes -> Option<AssetManifest>,
                         readCache: Bytes -> Option<CacheDocument>,
                         writeCache: CacheDocument -> Bytes,
                         keyOrder: map<string, AssetCacheEntry> -> seq<string>)

  /** What serde_json is trusted to do: read back what it wrote, and list
      every key of a map and nothing else. */
  ghost predicate Faithful(serde: Serde) {
    (forall d :: serde.readCache(serde.writeCache(d)) == Some(d)) &&
    (forall c, k :: k in serde.keyOrder(c) <==> k in c)
  }

  /** `AssetHash::serialize` applied to an entry. */
  function StoredOf(e: AssetCacheEntry): StoredEntry {
    StoredEntry(e.name, e.data, e.path,
                if e.fileHash.Some? then Some(Serialize(AssetHash(e.fileHash.value))) else None)
  }

  /** Deserialising one entry: the hash text goes through `visit_str`, whose
      error ends the whole parse. */
  function EntryOf(s: StoredEntry): (r: AssetResult<AssetCacheEntry>)
    ensures r.Ok? ==> r.value.name == s.name && r.value.data == s.data && r.value.path == s.path
    ensures r.Ok? <==> (s.fileHash.Some? ==> VisitStr(s.fileHash.value).Ok?)
    ensures s.fileHash.Some? && !VisitStr(s.fileHash.value).Ok? ==> r == Fail(VisitStr(s.fileHash.value))
  {
    match s.fileHash
    case None => Ok(AssetCacheEntry(s.name, s.data, s.path, None))
    case Some(t) =>
      var h := VisitStr(t);
      if h.Ok? then Ok(AssetCacheEntry(s.name, s.data, s.path, Some(h.value.hash))) else Fail(h)
  }

  /** Serialising the map: one pair per key, in the order given. */
  function EncodeEntries(cache: map<string, AssetCacheEntry>, order: seq<string>): (ps: seq<(string, StoredEntry)>)
    requires forall k :: k in order ==> k in cache
    ensures |ps| == |order|
    ensures forall i :: 0 <= i < |order| ==> ps[i] == (order[i], StoredOf(cache[order[i]]))
  {
    seq(|order|, i requires 0 <= i < |order| => (order[i], StoredOf(cache[order[i]])))
  }

  /** The names of a sequence of pairs. */
  function PairNames(ps: seq<(string, StoredEntry)>): set<string> {
    set i | 0 <= i < |ps| :: ps[i].0
  }

  /** Deserialising the map: pairs are read in order into `acc`, a later
      pair for the same name replaces an earlier one, and the first entry
      that fails ends the parse. */
  function DecodeEntries(ps: seq<(string, StoredEntry)>, acc: map<string, AssetCacheEntry>)
    : (r: AssetResult<map<string, AssetCacheEntry>>)
    ensures r.Ok? <==> forall i :: 0 <= i < |ps| ==> EntryOf(ps[i].1).Ok?
    ensures r.Ok? ==> r.value.Keys == acc.Keys + PairNames(ps)
    ensures !r.Panicked?
    decreases |ps|
  {
    if ps == [] then Ok(acc)
    else
      var e := EntryOf(ps[0].1);
      assert PairNames(ps) == {ps[0].0} + PairNames(ps[1..]) by {
        assert forall i :: 1 <= i < |ps| ==> ps[i] == ps[1..][i - 1];
      }
      if e.Ok? then DecodeEntries(ps[1..], acc[ps[0].0 := e.value]) else Fail(e)
  }

  /** A name no pair mentions keeps the entry it had in `acc`. */
  lemma {:induction false} DecodeKeepsUnnamed(ps: seq<(string, StoredEntry)>, acc: map<string, AssetCacheEntry>, k: string)
    requires DecodeEntries(ps, acc).Ok? && k in acc && k !in PairNames(ps)
    ensures DecodeEntries(ps, acc).value[k] == acc[k]
    decreases |ps|
  {
    if ps != [] {
      var tail := ps[1..];
      assert ps[0].0 in PairNames(ps);
      assert PairNames(tail) <= PairNames(ps) by {
        forall j | 0 <= j < |tail| ensures tail[j].0 in PairNames(ps) {
          assert tail[j] == ps[j + 1];
        }
      }
      DecodeKeepsUnnamed(tail, acc[ps[0].0 := EntryOf(ps[0].1).value], k);
    }
  }

  /** A name holds the entry of the last pair that mentions it: a later
      pair for the same name replaces an earlier one. */
  lemma {:induction false} DecodeLastWins(ps: seq<(string, StoredEntry)>, acc: map<string, AssetCacheEntry>, i: nat)
    requires DecodeEntries(ps, acc).Ok? && i < |ps|
    requires forall j :: i < j < |ps| ==> ps[j].0 != ps[i].0
    ensures DecodeEntries(ps, acc).value[ps[i].0] == EntryOf(ps[i].1).value
    decreases |ps|
  {
    var tail := ps[1..];
    var acc2 := acc[ps[0].0 := EntryOf(ps[0].1).value];
    if i == 0 {
      assert ps[0].0 !in PairNames(tail) by {
        forall j | 0 <= j < |tail| ensures tail[j].0 != ps[0].0 {
          assert tail[j] == ps[j + 1];
        }
      }
      DecodeKeepsUnnamed(tail, acc2, ps[0].0);
    } else {
      assert ps[i] == tail[i - 1];
      forall j | i - 1 < j < |tail| ensures tail[j].0 != tail[i - 1].0 {
        assert tail[j] == ps[j + 1];
      }
      DecodeLastWins(tail, acc2, i - 1);
    }
  }

  /** The document written for a cache. */
  function Store(serde: Serde, cache: map<string, AssetCacheEntry>): CacheDocument
    requires forall k :: k in serde.keyOrder(cache) ==> k in cache
  {
    V1(EncodeEntries(cache, serde.keyOrder(cache)))
  }

  /** `load_cache_manifest`: the default, an empty V1 map, when the file is
      not there; otherwise the parsed document, or JSONError. */
  function LoadCacheManifest(files: Files, path: Path, serde: Serde): (r: AssetResult<map<string, AssetCacheEntry>>)
    ensures !Exists(files, path) ==> r == Ok(map[])
    ensures Exists(files, path) && serde.readCache(Read(files, path)).None? ==> r == Err(JSONError(Malformed))
    ensures !r.Panicked?
  {
    if !Exists(files, path) then Ok(map[])
    else
      match serde.readCache(Read(files, path))
      case None => Err(FromJson(Malformed))
      case Some(V1(ps)) => DecodeEntries(ps, map[])
  }

  /** Opening and parsing the asset manifest. */
  function ReadManifest(files: Files, path: Path, serde: Serde): (r: AssetResult<AssetManifest>)
    ensures !Exists(files, path) ==> r == Err(IOError(NotFound(path)))
    ensures Exists(files, path) ==> (r.Ok? <==> serde.readManifest(Read(files, path)).Some?)
    ensures !r.Panicked?
  {
    if !Exists(files, path) then Err(FromIo(NotFound(path)))
    else
      match serde.readManifest(Read(files, path))
      case None => Err(FromJson(Malformed))
      case Some(m) => Ok(m)
  }

  // ---------------------------------------------------------------------
  // pack
  // ---------------------------------------------------------------------

  /** What one call of `pack` is given: the two file paths, the
      configuration and filters, blake3, whether the working directory can
      be read and what it is, serde_json, and whether `File::create` on the cache path
      succeeds. */
  datatype Job = Job(manifestPath: Path, cachePath: Path, config: AssetConfig, registry: AssetFilterRegistry,
                     hash: Bytes -> Digest, cwdReadable: bool, cwd: seq<string>, serde: Serde, canCreate: bool)

  /** `pack` runs the live cache logic over the manifest it read. */
  function EnvOf(job: Job, m: AssetManifest): Env {
    Env(Live, job.config, m, job.registry, job.hash, job.cwdReadable, job.cwd)
  }

  /** The manifest, if it reads, has no cycle of inputs. */
  ghost predicate Acyclic(job: Job, files: Files, rank: map<string, nat>) {
    var m := ReadManifest(files, job.manifestPath, job.serde);
    m.Ok? ==> Ranked(m.value, rank)
  }

  /** The cache file, if it loads, stores each entry under its own name. */
  ghost predicate LoadedNamesMatch(job: Job, files: Files) {
    var c := LoadCacheManifest(files, job.cachePath, job.serde);
    c.Ok? ==> NamesMatch(c.value)
  }

  /** The files and draws after `pack`, and what it returns. */
  datatype PackOutcome = PackOutcome(files: Files, drawn: nat, result: AssetResult<()>)

  /** The reference definition of `pack`: a manifest that cannot be opened
      or parsed, or a cache file that cannot be parsed, ends it with nothing
      changed; otherwise the public assets are processed, a panic ends the
      program there, and in every other case the cache map is written back
      (unless the file cannot be created, which is then the result) and the
      processing result returned. */
  ghost function PackSpec(job: Job, rank: map<string, nat>, files: Files, drawn: nat): (o: PackOutcome)
    requires Faithful(job.serde) && Acyclic(job, files, rank) && LoadedNamesMatch(job, files)
  {
    var m := ReadManifest(files, job.manifestPath, job.serde);
    if !m.Ok? then PackOutcome(files, drawn, Fail(m))
    else
      var c := LoadCacheManifest(files, job.cachePath, job.serde);
      if !c.Ok? then PackOutcome(files, drawn, Fail(c))
      else
        var p := Publish(EnvOf(job, m.value), rank, St(c.value, files, drawn), m.value.publicAssets);
        if p.result.Panicked? then PackOutcome(p.st.files, p.st.drawn, Panicked)
        else if !job.canCreate then PackOutcome(p.st.files, p.st.drawn, Err(FromIo(CreateFailed(job.cachePath))))
        else
          var text := job.serde.writeCache(Store(job.serde, p.st.cache));
          PackOutcome(Write(p.st.files, job.cachePath, text), p.st.drawn, p.result)
  }

  /** `pack` on the host: the cache object is built from the loaded map,
      updated in place by `process_public_assets`, and written back. */
  method Pack(job: Job, ghost rank: map<string, nat>, host: Cache.Host) returns (r: AssetResult<()>)
    requires Faithful(job.serde) && Acyclic(job, host.files, rank) && LoadedNamesMatch(job, host.files)
    modifies host
    ensures var o := PackSpec(job, rank, old(host.files), old(host.drawn));
            host.files == o.files && host.drawn == o.drawn && r == o.result
  {
    var manifest := ReadManifest(host.files, job.manifestPath, job.serde);
    if !manifest.Ok? {
      return Fail(manifest);
    }
    var loaded := LoadCacheManifest(host.files, job.cachePath, job.serde);
    if !loaded.Ok? {
      return Fail(loaded);
    }
    var cacheManifest := new Cache.AssetCacheManifest.FromMap(loaded.value);
    var result := cacheManifest.ProcessPublicAssets(EnvOf(job, manifest.value), rank, host);
    if result.Panicked? {
      return Panicked;
    }
    if !job.canCreate {
      return Err(FromIo(CreateFailed(job.cachePath)));
    }
    var doc := Store(job.serde, cacheManifest.entries);
    host.WriteFile(job.cachePath, job.serde.writeCache(doc));
    r := result;
  }

  // ---------------------------------------------------------------------
  // Properties
  // ---------------------------------------------------------------------

  /** Every entry reads back as itself. */
  lemma EntryRoundTrip(e: AssetCacheEntry)
    ensures EntryOf(StoredOf(e)) == Ok(e)
  {
    if e.fileHash.Some? {
      HashRoundTrip(AssetHash(e.fileHash.value));
    }
  }

  /** Reading the pairs written for some keys of a map, on top of part of
      that map, gives the part of the map with those keys added. */
  lemma {:induction false} DecodeEncoded(cache: map<string, AssetCacheEntry>, order: seq<string>,
                                         acc: map<string, AssetCacheEntry>)
    requires forall k :: k in order ==> k in cache
    requires forall k :: k in acc ==> k in cache && acc[k] == cache[k]
    ensures var r := DecodeEntries(EncodeEntries(cache, order), acc);
            r.Ok? && (forall k :: k in r.value <==> k in acc || k in order) &&
            (forall k :: k in r.value ==> r.value[k] == cache[k])
    decreases |order|
  {
    if order != [] {
      var k0 := order[0];
      EntryRoundTrip(cache[k0]);
      assert EncodeEntries(cache, order)[1..] == EncodeEntries(cache, order[1..]);
      DecodeEncoded(cache, order[1..], acc[k0 := cache[k0]]);
      assert forall k :: k in order <==> k == k0 || k in order[1..];
    }
  }

  /** Decoding the pairs written for a cache gives back that cache. */
  lemma StoredEntriesDecode(serde: Serde, cache: map<string, AssetCacheEntry>)
    requires Faithful(serde)
    ensures DecodeEntries(Store(serde, cache).pairs, map[]) == Ok(cache)
  {
    var order := serde.keyOrder(cache);
    DecodeEncoded(cache, order, map[]);
    var r := DecodeEntries(EncodeEntries(cache, order), map[]);
    assert r.value.Keys == cache.Keys;
    assert r.value == cache;
  }

  /** The cache file round trip: loading the document written for a cache
      gives back that cache. */
  lemma StoreLoadRoundTrip(files: Files, path: Path, serde: Serde, cache: map<string, AssetCacheEntry>)
    requires Faithful(serde)
    ensures LoadCacheManifest(Write(files, path, serde.writeCache(Store(serde, cache))), path, serde) == Ok(cache)
  {
    StoredEntriesDecode(serde, cache);
    var doc := Store(serde, cache);
    var fs := Write(files, path, serde.writeCache(doc));
    assert serde.readCache(Read(fs, path)) == Some(doc);
  }

  /** A manifest that cannot be opened or parsed ends `pack` before the
      cache file is read: nothing changes, and the error is NotFound or
      JSONError. */
  lemma ManifestFailureAborts(job: Job, rank: map<string, nat>, files: Files, drawn: nat)
    requires Faithful(job.serde) && Acyclic(job, files, rank) && LoadedNamesMatch(job, files)
    requires !Exists(files, job.manifestPath) || job.serde.readManifest(Read(files, job.manifestPath)).None?
    ensures var o := PackSpec(job, rank, files, drawn);
            o.files == files && o.drawn == drawn &&
            (!Exists(files, job.manifestPath) ==> o.result == Err(IOError(NotFound(job.manifestPath)))) &&
            (Exists(files, job.manifestPath) ==> o.result == Err(JSONError(Malformed)))
  {
  }

  /** With no cache file, `pack` processes the public assets starting from
      an empty cache: it draws what that processing draws, leaves every file
      but the cache file as that processing left it, and returns its
      result. */
  lemma AbsentCacheStartsEmpty(job: Job, rank: map<string, nat>, files: Files, drawn: nat)
    requires Faithful(job.serde) && Acyclic(job, files, rank) && LoadedNamesMatch(job, files)
    requires !Exists(files, job.cachePath)
    requires ReadManifest(files, job.manifestPath, job.serde).Ok?
    ensures var m := ReadManifest(files, job.manifestPath, job.serde).value;
            var p := Publish(EnvOf(job, m), rank, St(map[], files, drawn), m.publicAssets);
            var o := PackSpec(job, rank, files, drawn);
            o.drawn == p.st.drawn &&
            (job.canCreate && !p.result.Panicked? ==> o.result == p.result) &&
            (p.result.Panicked? || !job.canCreate ==> o.files == p.st.files) &&
            (forall k {:trigger k in o.files} {:trigger k in p.st.files} :: k != Key(job.cachePath) ==>
               (k in o.files <==> k in p.st.files) && (k in o.files ==> o.files[k] == p.st.files[k]))
  {
  }

  /** `pack` writes the cache back whether or not the processing succeeded:
      once the manifest and the cache file have been read, unless a filter
      panicked or the file cannot be created, the cache file afterwards
      loads as exactly the map the processing left, and `pack` returns the
      processing result. */
  lemma PackKeepsProgress(job: Job, rank: map<string, nat>, files: Files, drawn: nat)
    requires Faithful(job.serde) && Acyclic(job, files, rank) && LoadedNamesMatch(job, files)
    requires ReadManifest(files, job.manifestPath, job.serde).Ok?
    requires LoadCacheManifest(files, job.cachePath, job.serde).Ok?
    requires job.canCreate
    ensures var m := ReadManifest(files, job.manifestPath, job.serde).value;
            var c := LoadCacheManifest(files, job.cachePath, job.serde).value;
            var p := Publish(EnvOf(job, m), rank, St(c, files, drawn), m.publicAssets);
            var o := PackSpec(job, rank, files, drawn);
            !p.result.Panicked? ==>
              LoadCacheManifest(o.files, job.cachePath, job.serde) == Ok(p.st.cache) && o.result == p.result
  {
    var m := ReadManifest(files, job.manifestPath, job.serde).value;
    var c := LoadCacheManifest(files, job.cachePath, job.serde).value;
    var p := Publish(EnvOf(job, m), rank, St(c, files, drawn), m.publicAssets);
    StoreLoadRoundTrip(p.st.files, job.cachePath, job.serde, p.st.cache);
  }

  /** When the cache file cannot be created, that error replaces the
      processing result and the cache file is left as processing left it. */
  lemma CreateFailureReplacesResult(job: Job, rank: map<string, nat>, files: Files, drawn: nat)
    requires Faithful(job.serde) && Acyclic(job, files, rank) && LoadedNamesMatch(job, files)
    requires ReadManifest(files, job.manifestPath, job.serde).Ok?
    requires LoadCacheManifest(files, job.cachePath, job.serde).Ok?
    requires !job.canCreate
    ensures var m := ReadManifest(files, job.manifestPath, job.serde).value;
            var c := LoadCacheManifest(files, job.cachePath, job.serde).value;
            var p := Publish(EnvOf(job, m), rank, St(c, files, drawn), m.publicAssets);
            var o := PackSpec(job, rank, files, drawn);
            !p.result.Panicked? ==> o.files == p.st.files && o.result == Err(IOError(CreateFailed(job.cachePath)))
  {
  }

  /** The cache file `pack` writes is one the next `pack` accepts: it loads,
      and every entry in it is stored under its own name. */
  lemma PackedCacheReloads(job: Job, rank: map<string, nat>, files: Files, drawn: nat)
    requires Faithful(job.serde) && Acyclic(job, files, rank) && LoadedNamesMatch(job, files)
    requires ReadManifest(files, job.manifestPath, job.serde).Ok?
    requires LoadCacheManifest(files, job.cachePath, job.serde).Ok?
    requires job.canCreate && !PackSpec(job, rank, files, drawn).result.Panicked?
    ensures var o := PackSpec(job, rank, files, drawn);
            LoadCacheManifest(o.files, job.cachePath, job.serde).Ok? && LoadedNamesMatch(job, o.files)
  {
    PackKeepsProgress(job, rank, files, drawn);
  }

  /** A stored hash that is not base64 makes the whole cache file fail to
      load, with the text in the error. */
  lemma GarbledHashRefused(files: Files, path: Path, serde: Serde, name: string, s: StoredEntry)
    requires Faithful(serde)
    requires s.fileHash.Some? && Base64.Decode(s.fileHash.value).None?
    ensures var text := serde.writeCache(V1([(name, s)]));
            LoadCacheManifest(Write(files, path, text), path, serde) == Err(JSONError(InvalidValue(s.fileHash.value)))
  {
  }
}
