/**
 * processMapData of Main.java: load both inputs, merge them, analyse the
 * result. The two texts are passed in; reading them is left to the caller.
 */
module Pipeline {
  import opened Wrappers
  import opened Records
  import opened Parsers
  import opened Loader
  import opened Merge
  import opened Analysis

  /**
   * A report on what the two loaders gave: the report on some merge of
   * their records (any HashSet order).
   */
  ghost predicate IsReportOn(locations: seq<Location>, metadata: seq<Metadata>, report: Report) {
    exists merged :: IsMergeOf(locations, metadata, merged) && IsReportOf(merged, report)
  }

  /**
   * An unsupported locations file stops the run before the metadata file is
   * looked at; an unsupported metadata file stops it before anything is
   * merged, after the locations parser has written its diagnostics;
   * otherwise the run yields a report. `diagnostics` is everything written
   * to the error stream on the way, locations first.
   */
  method ProcessMapData(locationsPath: string, locationsText: string, metadataPath: string, metadataText: string, ext: Externals)
    returns (r: Result<Report, LoadError>, diagnostics: seq<Diagnostic>)
    ensures FormatOf(locationsPath).None? ==> r == Failure(UnsupportedFormat(locationsPath)) && diagnostics == []
    ensures FormatOf(locationsPath).Some? && FormatOf(metadataPath).None? ==>
              && r == Failure(UnsupportedFormat(metadataPath))
              && diagnostics == Load(locationsPath, locationsText, ext.decodeLocations, LocationParser(ext.parseDouble)).value.diagnostics
    ensures r.Success? <==> FormatOf(locationsPath).Some? && FormatOf(metadataPath).Some?
    ensures r.Success? ==>
              && Load(locationsPath, locationsText, ext.decodeLocations, LocationParser(ext.parseDouble)).Success?
              && Load(metadataPath, metadataText, ext.decodeMetadata, MetadataParser(ext.parseDouble, ext.parseInt)).Success?
              && diagnostics
                 == Load(locationsPath, locationsText, ext.decodeLocations, LocationParser(ext.parseDouble)).value.diagnostics
                    + Load(metadataPath, metadataText, ext.decodeMetadata, MetadataParser(ext.parseDouble, ext.parseInt)).value.diagnostics
              && IsReportOn(Load(locationsPath, locationsText, ext.decodeLocations, LocationParser(ext.parseDouble)).value.records,
                            Load(metadataPath, metadataText, ext.decodeMetadata, MetadataParser(ext.parseDouble, ext.parseInt)).value.records,
                            r.value)
  {
    var locations := LoadLocations(locationsPath, locationsText, ext);
    if locations.Failure? {
      return Failure(locations.error), [];
    }
    var metadata := LoadMetadata(metadataPath, metadataText, ext);
    if metadata.Failure? {
      return Failure(metadata.error), locations.value.diagnostics;
    }
    var merged := MergeData(locations.value.records, metadata.value.records);
    var report := AnalyzeData(merged);
    r, diagnostics := Success(report), locations.value.diagnostics + metadata.value.diagnostics;
    assert IsMergeOf(locations.value.records, metadata.value.records, merged) && IsReportOf(merged, report);
  }
}
