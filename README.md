# artushak-web-assets: the incremental asset cache, in Dafny

`artushak-web-assets` packs web assets. An asset manifest defines named
assets. Each asset is either a source file or the output of a named filter
run over other assets, and has an optional output base path and an
extension. The manifest also lists which assets are public.

`pack` keeps a cache manifest: a map from asset name to cache entry. An
entry holds the definition the asset was built from, the relative path of
its built file and, for a file asset, the blake3 hash of its source. On
every run the cache is reconciled against the manifest:

- `process` creates a missing entry, or asks `update` whether a stored one
  is still good;
- `update` rebuilds when the definition changed, the built file is gone,
  the source hash differs (or none is stored), or processing some input
  reports a change; a rebuild removes the old built and published files and
  calls `create`;
- `create` draws a uuid, joins `name-uuid` to the output base path, sets
  the extension with `with_extension` (which, for a name holding a '.',
  replaces the `-uuid` too), applies the check
  `has_root() || parse_dot()?.starts_with("..")`, which as written refuses
  rooted paths only (see below), then copies and hashes the source file, or
  processes the inputs in order and runs the filter over their built files;
- `process_public_assets` processes the public assets in order and copies
  each built file to the same relative path under the target directory;
- `pack` reads the manifest, loads the cache file (an empty cache when there
  is none), processes the public assets, and writes the cache back whatever
  the processing returned.

The repository holds three revisions of this logic, and the model covers all
three through one parameter, `Variant`:

- `Live` is `src/asset_cache.rs`, the module `pack` uses; a failure to read
  the working directory during the path check is returned as an error;
- `Legacy` is `src/assets.rs`, which has no path check;
- `Orphan` is `src/assets_cache.rs`, whose path check unwraps, so that
  failure panics.

The path check of the live and orphaned revisions is
`has_root() || parse_dot()?.starts_with("..")`. path_dedot's `parse_dot`
replaces a leading ".." by the parent of the working directory and drops a
".." that has nothing left to remove, so its result never starts with "..":
as written, the check refuses rooted paths only, and an output base path of
".." writes outside the internal directory. A fourth value, `Strict`, is
the live revision with the check its authors evidently meant: lexical
normalisation, which keeps a leading "..". The claims that file changes
stay inside the internal and target directories are made under `Strict`.

## Layout

- `basics.dfy`, `paths.dfy`, `storage.dfy`: bytes; paths as components,
  with `Path::join`, `with_extension`, path_dedot's `parse_dot` and lexical
  dot-normalisation; the file system as a map from lexically normalised
  path to bytes.
- `base64.dfy`, `asset_hash.dfy`: standard base64 (section 4 of RFC 4648)
  and the `AssetHash` text form.
- `assets.dfy`: the shared data model and the error type.
- `asset_filter.dfy`: the filter registry.
- `output_path.dfy`: the output path of `create`, the fresh names standing
  for uuids, and the path check of each revision, with the intended check
  and the intended file name beside them.
- `cache_spec.dfy`: `process`, `update`, `create` and
  `process_public_assets` as mutually recursive functions from a state (the
  cache map, the files, the names drawn so far) to a new state and a result.
- `cache_steps.dfy`: unfolding lemmas, one case of those functions each,
  used by the proofs of module `Cache`; they state nothing of their own.
- `cache.dfy`: the running program. The cache manifest is a class whose map
  the methods update in place, and the host (files and uuid generator) is a
  class too. Each method is proved to leave exactly the state, and return
  exactly the result, of its reference function.
- `cache_props.dfy`: what the reconciliation promises, proved about the
  reference functions.
- `pack.dfy`: `load_cache_manifest`, the cache file format, and `pack`.

Termination rests on an acyclic manifest: a ghost `rank` gives every input
of a filtered asset a lower rank than the asset (`Ranked`). The cache must
also store each entry under its own name (`NamesMatch`), an invariant that
`process` keeps.

## Model

| member | source | states |
|---|---|---|
| Cache.AssetCacheManifest.GetEntry | src/asset_cache.rs:331-333 | Returns Some exactly when the name is stored, and then the stored entry. |
| Cache.AssetCacheManifest.Process | src/asset_cache.rs:266-297 | The map, files and uuid draws after the in-place `process`, and its result, are those of `CacheSpec.Process`. |
| Cache.AssetCacheManifest.Update | src/asset_cache.rs:167-245 | `update` on the live objects leaves exactly the state, and returns exactly the result, of `CacheSpec.Update`. |
| Cache.AssetCacheManifest.ScanInputs | src/asset_cache.rs:204-220 | The input loop with its `break` on the first changed input equals `CacheSpec.ScanInputs`. |
| Cache.AssetCacheManifest.Rebuild | src/asset_cache.rs:224-242 | Removing the old internal and target files where they exist, then creating, equals `CacheSpec.Rebuild`. |
| Cache.AssetCacheManifest.Create | src/asset_cache.rs:81-111 | Lookup, uuid draw, output path and path check, then build: equals `CacheSpec.Create`. |
| Cache.AssetCacheManifest.Build | src/asset_cache.rs:112-165 | Copy and hash a file source, or run the filter over the processed inputs: equals `CacheSpec.Build`. |
| Cache.AssetCacheManifest.CreateInputs | src/asset_cache.rs:128-140 | The input loop of `create` leaves the state of `CacheSpec.CreateInputs` and returns the internal paths of the collected entries, in order, or its error. |
| Cache.AssetCacheManifest.ProcessPublicAssets | src/asset_cache.rs:299-329 | The public-asset loop equals `CacheSpec.Publish` over the manifest's public list. |
| CacheSpec.Process | src/asset_cache.rs:266-297 | On success the entry is stored under the name and built from the name's current definition. A `false` flag means the stored entry was returned unchanged. An absent name always reports `true`, and on failure stays absent. Entries of higher rank are kept, and under the strict path check every file change stays inside the internal or target directory. With `Variant` Legacy and Orphan the same function is `process` in src/assets.rs and src/assets_cache.rs. |
| CacheSpec.Update | src/asset_cache.rs:167-245 | A rebuilt entry has the same name and the current definition, a path that is not rooted under any check, and one that does not climb out under the strict check. Returning None means the definition is unchanged. No panic unless a filter panics or the orphaned check unwraps. The same rule serves all three revisions. |
| CacheSpec.ScanInputs | src/asset_cache.rs:204-220 | Processing the inputs keeps every entry ranked at or above the parent, so the parent's own entry survives the scan. |
| CacheSpec.Rebuild | src/asset_cache.rs:224-242 | A successful rebuild returns Some entry with the asset's name and current definition. |
| CacheSpec.Create | src/asset_cache.rs:81-165 | A created entry has the name and the current definition, a path that is not rooted under any check, and one that does not climb out under the strict check. It holds a hash exactly when the source is a file. |
| CacheSpec.Build | src/asset_cache.rs:112-165 | The built entry carries the path it was given, and a hash exactly when the source is a file. |
| CacheSpec.CreateInputs | src/asset_cache.rs:128-140 | Processing inputs keeps entries ranked at or above the parent. |
| CacheSpec.InputPaths | src/asset_cache.rs:132-138 | One internal-directory path per collected entry, in the same order. |
| CacheSpec.Publish | src/asset_cache.rs:299-329 | Publishing keeps stored names, never loses an entry, and under the strict check writes only inside the two directories. |
| CacheSpec.Fail | src/asset_cache.rs:96 | `?` passes an error, or a panic, on unchanged to another result type. |
| CacheProps.UpdateKeepsIff | src/asset_cache.rs:189-222 | `update` keeps an entry exactly when the definition is unchanged, the built file exists, and either the source hashes to the stored hash or no input reports a change. |
| CacheProps.FreshIsKept | src/asset_cache.rs:276-286 | A fresh File entry is returned by `process` with `false`, and nothing changes. |
| CacheProps.CreatedFileIsFresh | src/asset_cache.rs:114-127 | A created File entry is fresh: its built file exists and its hash is the source's hash. This holds in every revision once the output path does not climb out, which the strict check ensures. |
| CacheProps.BuiltFileIsFresh | src/asset_cache.rs:122-126 | The same for the build step. |
| CacheProps.RebuiltFileIsFresh | src/asset_cache.rs:224-241 | The same after a rebuild. |
| CacheProps.RebuildRemovesThenCreates | src/asset_cache.rs:224-242 | A rebuild deletes the old built file under the internal directory and its published copy under the target directory, so neither exists when `create` starts, and then passes on the state and result of `create` run on what is left. |
| CacheProps.RefusedRebuildClears | src/asset_cache.rs:224-242 | When the new output path is refused, the rebuild fails with the old built file and its published copy already gone and nothing else changed but one uuid drawn. |
| CacheProps.UpdatedFileIsFresh | src/asset_cache.rs:189-245 | The entry `update` leaves for a File asset, kept or rebuilt, is fresh. |
| CacheProps.ProcessedFileIsFresh | src/asset_cache.rs:266-297 | After a successful `process` of a File asset, its stored entry is fresh. |
| CacheProps.ProcessStoresUpdate | src/asset_cache.rs:277-287 | For a stored name, `process` stores what `update` rebuilt, or keeps the old entry. |
| CacheProps.ProcessStoresCreate | src/asset_cache.rs:288-295 | For an absent name, `process` stores what `create` built. |
| CacheProps.FileProcessIdempotent | src/asset_cache.rs:266-297 | Processing a File asset a second time reports no change and changes nothing. |
| CacheProps.StaleDependentKept | src/asset_cache.rs:204-220 | Once an input has been rebuilt earlier in the same pass, a filtered asset over it sees no change and keeps its old output. |
| CacheProps.SingleScanUnchanged | src/asset_cache.rs:206-219 | Scanning one input that `process` keeps gives `false` with nothing changed. |
| CacheProps.FilteredIsKept | src/asset_cache.rs:189-222 | A filtered entry with an unchanged definition, an existing built file and unchanged inputs is kept. |
| CacheProps.InputsCollectedInOrder | src/asset_cache.rs:128-140 | `create` collects one entry per input name, in order, each built from that name's current definition. |
| CacheProps.MissingNameRefused | src/asset_cache.rs:91-97 | A name missing from the manifest gives AssetNotFoundInManifestError(name) from `create` and `process`, with nothing changed. |
| CacheProps.UnknownFilterRefused | src/asset_cache.rs:142-153 | An unregistered filter never builds. |
| CacheProps.UnknownFilterNamed | src/asset_cache.rs:142-153 | Once the path passes and the inputs are processed, the error is AssetFilterNotFoundError with the filter's name. |
| CacheProps.BuildUnknownFilter | src/asset_cache.rs:142-153 | The build step with an unregistered filter gives AssetFilterNotFoundError, or the inputs' error. |
| CacheProps.RefusedBeforeWriting | src/asset_cache.rs:109-111 | A path that fails the check is refused with the check's error before any file is touched or any input processed. |
| CacheProps.TraversalRefused | src/asset_cache.rs:109-111 | The strict check refuses the output path "../evil-uuid" with AssetPathError, and nothing is written. |
| CacheProps.LiveWritesOutside | src/asset_cache.rs:99-127 | As written, the live and orphaned checks (with a readable working directory) and the earlier revision let that path through, and the source is copied to "/evil-uuid", outside "/internal". |
| CacheProps.UnreadableCwd | src/assets_cache.rs:57-59 | An unreadable working directory: the live revision returns the io error, the orphaned one panics. |
| CacheProps.CreateBuilds | src/asset_cache.rs:99-112 | Once the output path passes the check, `create` is the build step after one uuid draw. |
| CacheProps.PublishAppend | src/asset_cache.rs:308-328 | Publishing a list is publishing its first part and then the rest, and names after a failure are never processed. |
| CacheProps.LegacyPublishUnchecked | src/assets.rs:343-356 | The earlier revision publishes a processed entry whose built file exists, whatever its path. |
| CacheProps.OrphanPublishPanics | src/assets_cache.rs:257-271 | The orphaned revision panics when it checks a processed, non-rooted entry again with the working directory unreadable. |
| CacheProps.PublishCopies | src/asset_cache.rs:312-325 | Publishing a name leaves its built file copied, byte for byte, to the same relative path under the target directory. |
| OutputPaths.UuidText | src/asset_cache.rs:99 | The k-th fresh name: non-empty hex text without '.', '/' or '-', from which k can be read back. |
| OutputPaths.CheckOutputPath | src/asset_cache.rs:109-111 | Every check refuses a rooted path with AssetPathError; a path it accepts is returned as it is. The strict check accepts exactly the paths that do not climb out. An unreadable working directory is an io error in the live revision and a panic in the orphaned one; the earlier revision accepts every path. |
| OutputPaths.LiveCheckRefusesOnlyRooted | src/asset_cache.rs:109-111 | With a readable working directory, the live and orphaned checks refuse exactly the rooted paths and accept every other one, ".." or not. |
| Paths.ParseDotNeverClimbs | src/asset_cache.rs:109 | What `parse_dot` returns is plain names after an optional root, so `starts_with("..")` never holds for it. |
| OutputPaths.OutputUnderBase | src/asset_cache.rs:101-105 | With an output base path and a name that is not rooted, the output path keeps the base as its prefix. |
| OutputPaths.DotFreeNameGetsFreshPath | src/asset_cache.rs:99-108 | For a name without '.', two draws give two different output paths. |
| OutputPaths.DottedNameIgnoresUuid | src/asset_cache.rs:101-108 | For a slash-free name with an inner '.', `with_extension` cuts the uuid away, so every draw gives the same path. |
| OutputPaths.DottedNameExample | src/asset_cache.rs:106-107 | "app.min" with extension "js" is written to "app.js", whatever uuid is drawn. |
| OutputPaths.IntendedPathIsFresh | src/asset_cache.rs:99-108 | With the extension appended after the uuid, two draws give two different output paths whatever the name holds. |
| OutputPaths.ClimbingChecked | src/asset_cache.rs:101-111 | An asset with base path ".." gets the output "../evil-uuid". The live and orphaned checks accept it and the strict check refuses it; joined to "/internal", it lands outside "/internal". |
| Paths.JoinUnescapedIsUnder | src/asset_cache.rs:109-112 | A path that passes the strict check, joined to a directory, stays under that directory. |
| AssetHashes.Serialize | src/asset_cache.rs:30-38 | A hash is written as 44 characters of base64. |
| AssetHashes.VisitStr | src/asset_cache.rs:48-61 | Non-base64 text is an invalid value; base64 of anything but 32 bytes is an invalid length; otherwise the decoded bytes. |
| AssetHashes.HashRoundTrip | src/asset_cache.rs:30-61 | Reading back a written hash gives the same hash. |
| AssetHashes.VisitAcceptsIff | src/asset_cache.rs:48-61 | A text is accepted as a hash exactly when it is that hash's serialisation. |
| AssetHashes.WrongLengthRefused | src/asset_cache.rs:56-58 | The base64 of 31 or 33 bytes is refused by length. |
| Base64.EncodeRoundTrip | src/asset_cache.rs:36 | Decoding the encoding of any bytes gives them back. |
| Base64.DecodeIffEncode | src/asset_cache.rs:52-54 | The decoder accepts exactly the canonical encodings. |
| AssetFilter.New | src/asset_filter.rs:28-32 | The registry holds the given map as it is. |
| AssetFilter.ProcessAssetFile | src/asset_filter.rs:35-53 | None exactly when no filter has that name; otherwise that filter's result on the same inputs, in order, and the same output and options. |
| AssetFilter.NewDispatches | src/asset_filter.rs:28-53 | A registry built from a map dispatches exactly to that map's filters. |
| Assets.FromIo | src/assets.rs:49-59 | io errors become IOError. |
| Assets.FromJson | src/assets.rs:61-71 | serde errors become JSONError. |
| Assets.FromFilter | src/assets.rs:73-83 | Filter errors become FilterError. |
| Assets.ConversionsDistinct | src/assets.rs:49-83 | The three conversions never produce the same error. |
| Assets.DataEqualityIsStructural | src/assets.rs:106-112 | Two definitions are equal exactly when base path, extension and source all agree, including filter name, input order and options. |
| Pack.EntryOf | src/asset_cache.rs:71-77 | A stored entry reads back with its fields. Its hash text goes through `visit_str`, whose error is the entry's error. |
| Pack.EncodeEntries | src/asset_cache.rs:260-263 | One name/entry pair per key, in the order given. |
| Pack.DecodeEntries | src/asset_cache.rs:260-263 | Reading the pairs succeeds exactly when every stored entry reads; the names then held are those read before plus the names of the pairs. |
| Pack.DecodeKeepsUnnamed | src/asset_cache.rs:260-263 | A name no pair mentions keeps the entry read before. |
| Pack.DecodeLastWins | src/asset_cache.rs:260-263 | A name holds the entry of the last pair that mentions it: a later pair replaces an earlier one. |
| Pack.DecodeEncoded | src/asset_cache.rs:260-263 | Reading the pairs written for a map's keys, on top of part of the map, gives that part with those keys added. |
| Pack.StoredEntriesDecode | src/asset_cache.rs:260-263 | Reading back the pairs written for a cache, in whatever key order the serializer chose, gives that cache. |
| Pack.StoreLoadRoundTrip | src/lib.rs:19-33 | Loading the cache file written for a cache gives back that cache. |
| Pack.LoadCacheManifest | src/lib.rs:19-33 | A missing file gives the default empty V1 map; an unparsable one gives JSONError. |
| Pack.ReadManifest | src/lib.rs:45-49 | A missing manifest gives IOError NotFound; one that parses is returned. |
| Pack.Pack | src/lib.rs:36-80 | `pack` on the host leaves the files and draws, and returns the result, of its reference definition `PackSpec`. |
| Pack.ManifestFailureAborts | src/lib.rs:45-49 | A manifest that cannot be opened or parsed ends `pack` with nothing changed and NotFound or JSONError. |
| Pack.AbsentCacheStartsEmpty | src/lib.rs:51-56 | With no cache file, `pack` processes from an empty cache: its draws, every file but the cache file, and its result (when the cache file can be created) are those of processing from the empty map. |
| Pack.PackKeepsProgress | src/lib.rs:58-77 | The cache is written back whether processing succeeded or not. The file then loads as exactly the map processing left, and `pack` returns the processing result. |
| Pack.CreateFailureReplacesResult | src/lib.rs:69-77 | When the cache file cannot be created, that error replaces the processing result. |
| Pack.PackedCacheReloads | src/lib.rs:69-75 | The cache file `pack` writes loads again and stores each entry under its own name, so the next `pack` accepts it. |
| Pack.GarbledHashRefused | src/asset_cache.rs:48-55 | A stored hash that is not base64 makes the whole cache file fail to load, with the text in the error. |

## Left out

- File system effects are a map from normalised path to bytes. `create_dir_all` is not modelled, and `remove_file`, `fs::read` of the copied file and `File::open` of an existing file are taken to succeed.
- blake3 is a parameter of the environment (`Env.hash`). `Uuid::new_v4` is the k-th name of a counter, so draws are distinct by construction.
- path_dedot is not part of this model. `Paths.ParseDot` follows its documented behaviour: a leading "." becomes the working directory, a leading ".." its parent, and an inner ".." removes the last component kept, or nothing when none is. Symbolic links are not resolved. The working directory is a parameter (`Env.cwd`) with a flag for whether it can be read.
- serde_json is a parameter (`Pack.Serde`): the text syntax of both files, and the key order of the HashMap when the cache is written. The model keeps the shape of the cache document, with hashes as base64 text. A `to_writer` failure after `File::create` succeeded is not modelled.
- Logging (`debug!`) and the backtrace an error carries are diagnostics and are left out.
- Filters are functions from input paths, output path, options and files to the output bytes. The model writes those bytes to the output path on the filter's behalf, and other effects of a filter are not modelled.
- The error type in `src/assets.rs` has no AssetPathError variant, although `src/asset_cache.rs` and `src/assets_cache.rs` raise one. The model's `AssetError` includes it.
- A panic is an outcome (`Panicked`) that ends the operation. Nothing after it runs: `pack` does not write the cache after a panic.
- Pack.Pack, Pack.PackSpec: require an acyclic manifest and a cache file whose entries sit under their own names. The program itself would recurse without end on a cycle, and a tampered cache file can make `update` do the same.
- Cache.AssetCacheManifest.Update, Cache.AssetCacheManifest.Rebuild: require the entry to be the one stored under its name, which is how `process` calls them.
- CacheProps.CreatedFileIsFresh, CacheProps.ProcessedFileIsFresh, CacheProps.FileProcessIdempotent, CacheProps.StaleDependentKept: hold only when the source file lies outside the internal and target directories, since a copy onto the source changes it, and, outside `Strict`, only when the next output path does not climb out (`NextOutputInside`), since the as-written check lets a climbing path through.
- A corrected rule for a filtered asset whose input was rebuilt earlier in the same pass: the model keeps the program's rule, which leaves the stale output in place (stated by `CacheProps.StaleDependentKept`). A fix needs entries that record what they were built from, and no such design is modelled.
- CacheSpec.Process, CacheSpec.Update, CacheSpec.Create, CacheSpec.Publish: promise that file changes stay inside the internal and target directories under `Strict` only. The program's own check does not keep them there.
- Cache.AssetCacheManifest.ScanInputs, Cache.AssetCacheManifest.Rebuild, Cache.AssetCacheManifest.Build, Cache.AssetCacheManifest.CreateInputs: these loops and branches sit inside `update` and `create` in the source; the model gives each its own method.

## Findings

| source | as written | input that shows it | evidently intended | confidence | as-written member | corrected member |
|---|---|---|---|---|---|---|
| src/asset_cache.rs:109-111 | the check `has_root() \|\| parse_dot()?.starts_with("..")` never fires on its second half, since `parse_dot` resolves a leading ".." against the working directory | asset "evil" with output base path "..", extension "" and a file source, internal directory "/internal", readable working directory: the path "../evil-uuid" passes and the source is copied to "/evil-uuid" | refuse a rooted or ".."-climbing output path, judged on the lexical normalisation | not executed | CacheProps.LiveWritesOutside | CacheProps.TraversalRefused |
| src/assets.rs:149-157 | `create` joins the output path to the internal directory with no check, so a base path of ".." writes outside it | the same asset: the source is copied to "/evil-uuid" | refuse a rooted or ".."-climbing output path, judged on the lexical normalisation | not executed | CacheProps.LiveWritesOutside | CacheProps.TraversalRefused |
| src/asset_cache.rs:101-108 | `with_extension` replaces everything after the last '.', so a name holding a '.' loses its `-uuid` and every rebuild writes the same path | asset "app.min" with extension "js": written to "app.js" whatever uuid is drawn | append the extension after `name-uuid`, so the uuid survives | not executed | OutputPaths.DottedNameIgnoresUuid | OutputPaths.IntendedPathIsFresh |
