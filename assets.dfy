/** The shared data model of the asset packer: asset definitions, the
    manifest, the directories of a configuration, cache entries and the
    error type every operation reports through. */
module Assets {
  import opened Basics
  import opened Paths

  // ---------------------------------------------------------------------
  // Errors
  // ---------------------------------------------------------------------

  /** The io errors the model can raise: a file that is not there, and the
      working directory that dot-normalisation could not read. */
  datatype IoError =
    | NotFound(path: Path)
    | CurrentDirUnavailable
    | CreateFailed(path: Path)

  /** serde errors: a document that does not parse, and the two ways the
      hash visitor rejects a string. */
  datatype JsonError =
    | Malformed
    | InvalidValue(text: string)
    | InvalidLength(len: nat)

  /** AssetErrorType, with the filter's own error type taken as text. The
      backtrace an AssetError also carries is diagnostics and is dropped.
      AssetPathError is the variant the path check raises. */
  datatype AssetError =
    | IOError(io: IoError)
    | JSONError(json: JsonError)
    | FilterError(filter: string)
    | AssetFilterNotFoundError(filterName: string)
    | AssetNotFoundInManifestError(assetName: string)
    | AssetPathError(path: Path)

  /** The outcome of an operation: its value, an error returned through `?`,
      or a panic (an `unwrap` on an error), which ends the program. */
  datatype AssetResult<T> = Ok(value: T) | Err(error: AssetError) | Panicked

  /** `From<std::io::Error>`. */
  function FromIo(e: IoError): (r: AssetError)
    ensures r.IOError? && r.io == e
  {
    IOError(e)
  }

  /** `From<serde_json::Error>`. */
  function FromJson(e: JsonError): (r: AssetError)
    ensures r.JSONError? && r.json == e
  {
    JSONError(e)
  }

  /** `From<E>` for the filter error type. */
  function FromFilter(e: string): (r: AssetError)
    ensures r.FilterError? && r.filter == e
  {
    FilterError(e)
  }

  /** The three conversions keep the error they wrap and never coincide. */
  lemma ConversionsDistinct(io: IoError, json: JsonError, filter: string)
    ensures FromIo(io) != FromJson(json) && FromJson(json) != FromFilter(filter)
    ensures FromIo(io) != FromFilter(filter)
    ensures forall io2 :: FromIo(io2) == FromIo(io) ==> io2 == io
    ensures forall json2 :: FromJson(json2) == FromJson(json) ==> json2 == json
    ensures forall f2 :: FromFilter(f2) == FromFilter(filter) ==> f2 == filter
  {
  }

  // ---------------------------------------------------------------------
  // Asset definitions
  // ---------------------------------------------------------------------

  /** AssetFiltered: a filter name, the input asset names in order, and an
      uninterpreted option map. */
  datatype AssetFiltered = AssetFiltered(filterName: string, inputNames: seq<string>, options: map<string, string>)

  datatype AssetSource = File(path: Path) | Filtered(filtered: AssetFiltered)

  datatype AssetData = AssetData(outputBasePath: Option<Path>, extension: string, source: AssetSource)

  datatype AssetManifest = AssetManifest(assets: map<string, AssetData>, publicAssets: seq<string>)

  datatype AssetConfig = AssetConfig(targetDirectoryPath: Path, internalDirectoryPath: Path, sourceDirectoryPath: Path)

  /** A blake3 digest: 32 bytes. */
  type Digest = d: Bytes | |d| == 32 witness seq(32, _ => 0)

  /** A cache entry: the definition it was built from, its output path
      relative to the internal directory, and the hash of the source file
      for a File asset. */
  datatype AssetCacheEntry = AssetCacheEntry(name: string, data: AssetData, path: Path, fileHash: Option<Digest>)

  /** Two definitions are the same asset exactly when every field agrees:
      a different filter, input order or option map is a different asset. */
  lemma DataEqualityIsStructural(a: AssetData, b: AssetData)
    ensures a == b <==>
      a.outputBasePath == b.outputBasePath && a.extension == b.extension &&
      (match (a.source, b.source)
       case (File(p), File(q)) => p == q
       case (Filtered(f), Filtered(g)) =>
         f.filterName == g.filterName && f.inputNames == g.inputNames && f.options == g.options
       case _ => false)
  {
  }
}
