/**
 * loadLocations and loadMetadata of Main.java: the file name's suffix picks
 * the parser. Reading the file is left to the caller, which passes its text.
 */
module Loader {
  import opened Wrappers
  import opened JavaStrings
  import opened Records
  import opened Parsers

  datatype Format = Json | Csv

  /** The IllegalArgumentException thrown for any other suffix. */
  datatype LoadError = UnsupportedFormat(path: string)

  /**
   * The code the loaders run in place of the library calls they make:
   * Double.parseDouble, Integer.parseInt and Gson's decoding of a list,
   * each of which may fail.
   */
  datatype Externals = Externals(
    parseDouble: string -> Option<real>,
    parseInt: string -> Option<int32>,
    decodeLocations: string -> JsonOutcome<Location>,
    decodeMetadata: string -> JsonOutcome<Metadata>)

  /** ".json" selects the JSON parser, ".csv" the CSV parser, anything else none. */
  function FormatOf(path: string): (f: Option<Format>)
    ensures f == Some(Json) <==> EndsWith(path, ".json")
    ensures f == Some(Csv) <==> EndsWith(path, ".csv")
    ensures f == None <==> !EndsWith(path, ".json") && !EndsWith(path, ".csv")
  {
    if EndsWith(path, ".json") then
      assert path[|path| - 1] == ".json"[4];
      Some(Json)
    else if EndsWith(path, ".csv") then Some(Csv)
    else None
  }

  /**
   * What a loader yields: an error for an unsupported suffix, before any
   * parsing; otherwise the JSON or the CSV parse of the text.
   */
  function Load<T>(path: string, content: string, decode: string -> JsonOutcome<T>, row: string -> RowOutcome<T>)
    : (r: Result<Parsed<T>, LoadError>)
    ensures FormatOf(path) == None ==> r == Failure(UnsupportedFormat(path))
    ensures FormatOf(path) == Some(Json) ==> r == Success(ParseJson(content, decode))
    ensures FormatOf(path) == Some(Csv) ==> r == Success(CsvRows(content, row))
  {
    match FormatOf(path)
    case None => Failure(UnsupportedFormat(path))
    case Some(Json) => Success(ParseJson(content, decode))
    case Some(Csv) => Success(CsvRows(content, row))
  }

  /** loadLocations, which runs the CSV parser's loop. */
  method LoadLocations(path: string, content: string, ext: Externals) returns (r: Result<Parsed<Location>, LoadError>)
    ensures r == Load(path, content, ext.decodeLocations, LocationParser(ext.parseDouble))
  {
    if EndsWith(path, ".json") {
      r := Success(ParseJson(content, ext.decodeLocations));
    } else if EndsWith(path, ".csv") {
      var p := ParseCsvLocations(content, ext.parseDouble);
      r := Success(p);
    } else {
      r := Failure(UnsupportedFormat(path));
    }
  }

  /** loadMetadata, which runs the CSV parser's loop. */
  method LoadMetadata(path: string, content: string, ext: Externals) returns (r: Result<Parsed<Metadata>, LoadError>)
    ensures r == Load(path, content, ext.decodeMetadata, MetadataParser(ext.parseDouble, ext.parseInt))
  {
    if EndsWith(path, ".json") {
      r := Success(ParseJson(content, ext.decodeMetadata));
    } else if EndsWith(path, ".csv") {
      var p := ParseCsvMetadata(content, ext.parseDouble, ext.parseInt);
      r := Success(p);
    } else {
      r := Failure(UnsupportedFormat(path));
    }
  }
}
