/**
 * The record parsers of Main.java: the CSV parsers, which are modelled in
 * full, and the JSON parsers, which wrap a Gson decoder given as a parameter.
 */
module Parsers {
  import opened Wrappers
  import opened JavaStrings
  import opened Records

  /** A message the parsers write to the error stream; none of them stops the parse. */
  datatype Diagnostic =
    | EmptyId(line: string)       // a CSV line whose id field is blank
    | Unparsable(line: string)    // a CSV line with a number that does not parse
    | JsonError(message: string)  // the JSON decoder threw

  /** What one CSV line contributes: nothing, a diagnostic, or a record. */
  datatype RowOutcome<T> = Skip | Warn(diagnostic: Diagnostic) | Emit(record: T)

  /** The records a parser returns and the diagnostics it wrote on the way. */
  datatype Parsed<T> = Parsed(records: seq<T>, diagnostics: seq<Diagnostic>)

  /** What the JSON decoder does with a text: a list, null (for an empty text), or an exception. */
  datatype JsonOutcome<T> = Decoded(values: seq<T>) | NullPayload | DecodeFailure(message: string)

  /** The comma-separated fields of a CSV line once the line is trimmed. */
  function Fields(raw: string): seq<string> {
    Split(Trim(raw), ',')
  }

  /**
   * One data line of a locations CSV file: id, latitude, longitude. A line
   * with fewer than three fields is dropped silently (a blank line has one);
   * a blank id or a latitude or longitude that does not parse drops the line
   * with a diagnostic; otherwise the line gives a Location whose id is the
   * trimmed first field.
   */
  function LocationRow(raw: string, parseDouble: string -> Option<real>): (r: RowOutcome<Location>)
    ensures r.Skip? <==> |Fields(raw)| < 3
    ensures r.Warn? ==> !r.diagnostic.JsonError? && r.diagnostic.line == Trim(raw)
    ensures r.Emit? ==> var id := r.record.id;
      && id.Some? && id.value != [] && IsTrimmed(id.value) && ',' !in id.value
      && id.value == Trim(Fields(raw)[0])
      && parseDouble(Trim(Fields(raw)[1])) == Some(r.record.latitude)
      && parseDouble(Trim(Fields(raw)[2])) == Some(r.record.longitude)
    ensures r == Warn(EmptyId(Trim(raw))) <==> |Fields(raw)| >= 3 && Trim(Fields(raw)[0]) == []
    ensures |Fields(raw)| >= 3 && (parseDouble(Trim(Fields(raw)[1])).None? || parseDouble(Trim(Fields(raw)[2])).None?)
      ==> r.Warn?
    ensures |Fields(raw)| >= 3 && Trim(Fields(raw)[0]) != []
            && parseDouble(Trim(Fields(raw)[1])).Some? && parseDouble(Trim(Fields(raw)[2])).Some?
      ==> r == Emit(Location(Some(Trim(Fields(raw)[0])),
                             parseDouble(Trim(Fields(raw)[1])).value, parseDouble(Trim(Fields(raw)[2])).value))
  {
    var line := Trim(raw);
    if line == [] then Skip
    else
      var parts := Split(line, ',');
      if |parts| < 3 then Skip
      else
        var id := Trim(parts[0]);
        if id == [] then Warn(EmptyId(line))
        else
          TrimKeepsOut(parts[0], ',');
          match (parseDouble(Trim(parts[1])), parseDouble(Trim(parts[2])))
          case (Some(latitude), Some(longitude)) => Emit(Location(Some(id), latitude, longitude))
          case _ => Warn(Unparsable(line))
  }

  /**
   * One data line of a metadata CSV file: id, type, rating, reviews. Fewer
   * than four fields drop the line silently; a blank id, a rating that is not
   * a double or a review count that is not an int drop it with a diagnostic.
   */
  function MetadataRow(raw: string, parseDouble: string -> Option<real>, parseInt: string -> Option<int32>): (r: RowOutcome<Metadata>)
    ensures r.Skip? <==> |Fields(raw)| < 4
    ensures r.Warn? ==> !r.diagnostic.JsonError? && r.diagnostic.line == Trim(raw)
    ensures r.Emit? ==> var id := r.record.id;
      && id.Some? && id.value != [] && IsTrimmed(id.value) && ',' !in id.value
      && id.value == Trim(Fields(raw)[0])
      && r.record.category == Some(Trim(Fields(raw)[1]))
      && parseDouble(Trim(Fields(raw)[2])) == Some(r.record.rating)
      && parseInt(Trim(Fields(raw)[3])) == Some(r.record.reviews)
    ensures r == Warn(EmptyId(Trim(raw))) <==> |Fields(raw)| >= 4 && Trim(Fields(raw)[0]) == []
    ensures |Fields(raw)| >= 4 && (parseDouble(Trim(Fields(raw)[2])).None? || parseInt(Trim(Fields(raw)[3])).None?)
      ==> r.Warn?
    ensures |Fields(raw)| >= 4 && Trim(Fields(raw)[0]) != []
            && parseDouble(Trim(Fields(raw)[2])).Some? && parseInt(Trim(Fields(raw)[3])).Some?
      ==> r == Emit(Metadata(Some(Trim(Fields(raw)[0])), Some(Trim(Fields(raw)[1])),
                             parseDouble(Trim(Fields(raw)[2])).value, parseInt(Trim(Fields(raw)[3])).value))
  {
    var line := Trim(raw);
    if line == [] then Skip
    else
      var parts := Split(line, ',');
      if |parts| < 4 then Skip
      else
        var id := Trim(parts[0]);
        if id == [] then Warn(EmptyId(line))
        else
          TrimKeepsOut(parts[0], ',');
          var category := Trim(parts[1]);
          match (parseDouble(Trim(parts[2])), parseInt(Trim(parts[3])))
          case (Some(rating), Some(reviews)) => Emit(Metadata(Some(id), Some(category), rating, reviews))
          case _ => Warn(Unparsable(line))
  }

  /** LocationRow as a function of the line alone. */
  function LocationParser(parseDouble: string -> Option<real>): string -> RowOutcome<Location> {
    raw => LocationRow(raw, parseDouble)
  }

  /** MetadataRow as a function of the line alone. */
  function MetadataParser(parseDouble: string -> Option<real>, parseInt: string -> Option<int32>): string -> RowOutcome<Metadata> {
    raw => MetadataRow(raw, parseDouble, parseInt)
  }

  /** The lines processed in order, each contributing what `row` says. */
  function Rows<T>(lines: seq<string>, row: string -> RowOutcome<T>): (p: Parsed<T>)
    ensures |p.records| + |p.diagnostics| <= |lines|
  {
    if lines == [] then Parsed([], [])
    else
      var p := Rows(lines[..|lines| - 1], row);
      match row(lines[|lines| - 1])
      case Skip => p
      case Warn(d) => Parsed(p.records, p.diagnostics + [d])
      case Emit(x) => Parsed(p.records + [x], p.diagnostics)
  }

  /**
   * A CSV text: split into lines at '\n', the first line (the header) is
   * discarded and every other line goes through `row`.
   */
  function CsvRows<T>(content: string, row: string -> RowOutcome<T>): (p: Parsed<T>)
    ensures |Split(content, '\n')| <= 1 ==> p == Parsed([], [])
    ensures p == Parsed([], []) || |p.records| + |p.diagnostics| < |Split(content, '\n')|
  {
    var lines := Split(content, '\n');
    if |lines| <= 1 then Parsed([], []) else Rows(lines[1..], row)
  }

  /** The loop shared by parseCsvLocations and parseCsvMetadata. */
  method ParseCsv<T>(content: string, row: string -> RowOutcome<T>) returns (p: Parsed<T>)
    ensures p == CsvRows(content, row)
  {
    var lines := Split(content, '\n');
    if |lines| <= 1 {
      return Parsed([], []);
    }
    p := ParseLines(lines, row);
  }

  /** The loop over the lines after the header, each appending what `row` gives to the result. */
  method ParseLines<T>(lines: seq<string>, row: string -> RowOutcome<T>) returns (p: Parsed<T>)
    requires lines != []
    ensures p == Rows(lines[1..], row)
  {
    var records: seq<T> := [];
    var diagnostics: seq<Diagnostic> := [];
    for i := 1 to |lines|
      invariant Parsed(records, diagnostics) == Rows(lines[1..i], row)
    {
      assert lines[1..i + 1][..i - 1] == lines[1..i];
      assert lines[1..i + 1][i - 1] == lines[i];
      match row(lines[i])
      case Skip =>
      case Warn(d) => diagnostics := diagnostics + [d];
      case Emit(x) => records := records + [x];
    }
    assert lines[1..|lines|] == lines[1..];
    p := Parsed(records, diagnostics);
  }

  /** parseCsvLocations: every location it returns has a non-blank, trimmed id. */
  method ParseCsvLocations(content: string, parseDouble: string -> Option<real>) returns (p: Parsed<Location>)
    ensures p == CsvRows(content, LocationParser(parseDouble))
    ensures forall loc :: loc in p.records ==> loc.id.Some? && loc.id.value != [] && IsTrimmed(loc.id.value)
  {
    p := ParseCsv(content, LocationParser(parseDouble));
    forall loc | loc in p.records
      ensures loc.id.Some? && loc.id.value != [] && IsTrimmed(loc.id.value)
    {
      CsvRecordFromLine(content, LocationParser(parseDouble), loc);
    }
  }

  /** parseCsvMetadata: every metadata record it returns has a non-blank, trimmed id. */
  method ParseCsvMetadata(content: string, parseDouble: string -> Option<real>, parseInt: string -> Option<int32>)
    returns (p: Parsed<Metadata>)
    ensures p == CsvRows(content, MetadataParser(parseDouble, parseInt))
    ensures forall m :: m in p.records ==> m.id.Some? && m.id.value != [] && IsTrimmed(m.id.value)
  {
    p := ParseCsv(content, MetadataParser(parseDouble, parseInt));
    forall m | m in p.records
      ensures m.id.Some? && m.id.value != [] && IsTrimmed(m.id.value)
    {
      CsvRecordFromLine(content, MetadataParser(parseDouble, parseInt), m);
    }
  }

  /**
   * parseJsonLocations / parseJsonMetadata: a decoded list is returned as it
   * is; a null result gives an empty list silently, an exception an empty
   * list and its message on the error stream.
   */
  function ParseJson<T>(content: string, decode: string -> JsonOutcome<T>): (p: Parsed<T>)
    ensures decode(content).Decoded? ==> p == Parsed(decode(content).values, [])
    ensures decode(content).NullPayload? ==> p == Parsed([], [])
    ensures decode(content).DecodeFailure? ==> p == Parsed([], [JsonError(decode(content).message)])
  {
    match decode(content)
    case Decoded(values) => Parsed(values, [])
    case NullPayload => Parsed([], [])
    case DecodeFailure(message) => Parsed([], [JsonError(message)])
  }

  /** Lines are processed independently and in order: a block of lines contributes the same wherever it is. */
  lemma {:induction false} RowsAppend<T>(a: seq<string>, b: seq<string>, row: string -> RowOutcome<T>)
    ensures Rows(a + b, row).records == Rows(a, row).records + Rows(b, row).records
    ensures Rows(a + b, row).diagnostics == Rows(a, row).diagnostics + Rows(b, row).diagnostics
  {
    if b == [] {
      assert a + b == a;
    } else {
      var b' := b[..|b| - 1];
      assert (a + b)[..|a + b| - 1] == a + b';
      RowsAppend(a, b', row);
    }
  }

  /**
   * A line that gives no record is dropped whole, and the lines after it are
   * still processed.
   */
  lemma FailedLineDropped<T>(before: seq<string>, raw: string, after: seq<string>, row: string -> RowOutcome<T>)
    requires !row(raw).Emit?
    ensures Rows(before + [raw] + after, row).records == Rows(before, row).records + Rows(after, row).records
  {
    RowsAppend(before, [raw], row);
    RowsAppend(before + [raw], after, row);
    assert Rows([raw], row).records == [];
  }

  /** Every record comes from one of the lines. */
  lemma {:induction false} RowRecordFromLine<T>(lines: seq<string>, row: string -> RowOutcome<T>, x: T)
    requires x in Rows(lines, row).records
    ensures exists i :: 0 <= i < |lines| && row(lines[i]) == Emit(x)
  {
    var init := lines[..|lines| - 1];
    if row(lines[|lines| - 1]) != Emit(x) {
      RowRecordFromLine(init, row, x);
      var i :| 0 <= i < |init| && row(init[i]) == Emit(x);
      assert lines[i] == init[i];
    }
  }

  /** Every record of a CSV text comes from a line after the header. */
  lemma CsvRecordFromLine<T>(content: string, row: string -> RowOutcome<T>, x: T)
    requires x in CsvRows(content, row).records
    ensures exists i :: 1 <= i < |Split(content, '\n')| && row(Split(content, '\n')[i]) == Emit(x)
  {
    var lines := Split(content, '\n');
    RowRecordFromLine(lines[1..], row, x);
    var i :| 0 <= i < |lines[1..]| && row(lines[1..][i]) == Emit(x);
    assert lines[i + 1] == lines[1..][i];
  }

  /** A text of at most one line is all header: it gives nothing. */
  lemma OneLineGivesNothing<T>(content: string, row: string -> RowOutcome<T>)
    requires '\n' !in content
    ensures CsvRows(content, row) == Parsed([], [])
  {
  }

  /** What a CSV text gives depends on what follows its first '\n' only. */
  lemma CsvRowsAfterHeader<T>(header: string, body: string, row: string -> RowOutcome<T>)
    requires '\n' !in header
    ensures var rest := DropTrailingEmpty(Pieces(body, '\n'));
      CsvRows(header + ['\n'] + body, row) == if rest == [] then Parsed([], []) else Rows(rest, row)
  {
    var content := header + ['\n'] + body;
    assert content[|header|] == '\n';
    PiecesAfterSeparator(header, body, '\n');
    DropTrailingEmptyPrepend(header, Pieces(body, '\n'));
  }

  /** The header line is never parsed: replacing it changes nothing. */
  lemma HeaderIgnored<T>(header1: string, header2: string, body: string, row: string -> RowOutcome<T>)
    requires '\n' !in header1 && '\n' !in header2
    ensures CsvRows(header1 + ['\n'] + body, row) == CsvRows(header2 + ['\n'] + body, row)
  {
    CsvRowsAfterHeader(header1, body, row);
    CsvRowsAfterHeader(header2, body, row);
  }
}
