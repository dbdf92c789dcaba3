/** The filter registry: a map from filter name to filter, consulted by
    name when a Filtered asset is built. */
module AssetFilter {
  import opened Basics
  import opened Paths
  import opened Assets
  import opened Storage

  /** A filter reads its input files and produces the bytes of its output
      file (which the caller writes), or fails. The option map is passed
      through uninterpreted. */
  type Filter = (seq<Path>, Path, map<string, string>, Files) -> AssetResult<Bytes>

  datatype AssetFilterRegistry = AssetFilterRegistry(filters: map<string, Filter>)

  /** `AssetFilterRegistry::new`: the registry holds the given map as it is. */
  function New(filters: map<string, Filter>): (r: AssetFilterRegistry)
    ensures r.filters == filters
  {
    AssetFilterRegistry(filters)
  }

  /** `process_asset_file`: None when no filter has that name, otherwise that
      filter's result on the same inputs (in order), output and options. */
  function ProcessAssetFile(reg: AssetFilterRegistry, filterName: string, inputs: seq<Path>, output: Path,
                            options: map<string, string>, fs: Files): (r: Option<AssetResult<Bytes>>)
    ensures r.None? <==> filterName !in reg.filters
    ensures r.Some? ==> r.value == reg.filters[filterName](inputs, output, options, fs)
  {
    if filterName in reg.filters then Some(reg.filters[filterName](inputs, output, options, fs)) else None
  }

  /** A registry built from a map dispatches exactly to that map's filters:
      a name outside the map is never served by some other filter. */
  lemma NewDispatches(filters: map<string, Filter>, filterName: string, inputs: seq<Path>, output: Path,
                      options: map<string, string>, fs: Files)
    ensures var r := ProcessAssetFile(New(filters), filterName, inputs, output, options, fs);
            (filterName in filters ==> r == Some(filters[filterName](inputs, output, options, fs))) &&
            (filterName !in filters ==> r == None)
  {
  }
}
