# Map data merge and analysis, modelled in Dafny

This project models the processing core of a small Java program, `org.example.Main`. The program reads point-of-interest data from two files. One holds locations (`id`, `latitude`, `longitude`), the other descriptive metadata (`id`, `type`, `rating`, `reviews`). Each file is JSON or CSV, chosen by its suffix. The program joins the two on `id` (a full outer join in which the first record with an id wins) and produces four results:

- the number of complete points per type;
- the average rating per type;
- the complete point with the most reviews;
- the list of points that lack a location or metadata.

Modules, one file each:

- `Wrappers` (`wrappers.dfy`): `Option` for Java's nullable references and `Result` for thrown exceptions.
- `JavaStrings` (`java_strings.dfy`): the parts of `java.lang.String` the parsers depend on.
  - `trim()` removes characters at or below U+0020.
  - `split(",")` / `split("\n")`: when the separator does not occur, the result is the string itself. Otherwise it is all pieces with the trailing empty ones removed, so `"A,1.0,"` has two fields.
  - `endsWith`.
- `Records` (`records.dfy`): `Location`, `Metadata` and `MergedData` as immutable values, plus Java's `int` as `int32`.
- `Parsers` (`parsers.dfy`): the CSV parsers with their per-line rules, and the JSON parsers wrapped around a decoder.
- `Loader` (`loader.dfy`): the choice of parser by file suffix.
- `Merge` (`merge.dfy`): `mergeData`.
- `Analysis` (`analysis.dfy`): `analyzeData`.
- `Pipeline` (`pipeline.dfy`): `processMapData`, which chains the others.

Modelling choices:

- The CSV parsers, the final loop of `mergeData` and both loops of `analyzeData` update local state step by step in Java. Here they are methods with loops. Each is proved against a specification function (`CsvRows`, `FirstWithId`, `Count`, `Ratings`, `Sum`, `Incomplete`) or a predicate (`IsFirstMaximum`). The properties of those functions are proved as lemmas.
- `mergeData` walks a `HashSet`, and the averaging loop walks a `HashMap`. Both are modelled as loops that pick any remaining key (`:|`), so the proofs hold for every iteration order. `analyzeData` accepts the merged records in any order.
- Library calls the code makes but that are not modelled are parameters (the `Externals` datatype): `Double.parseDouble` and `Integer.parseInt` as partial functions returning `Option`, and Gson's list decoding as a function giving a list, `null` or an exception.
- The text of each file is a parameter. Messages printed to `System.err` while parsing are returned as a list of `Diagnostic`s. A CSV line with too few fields is dropped without a diagnostic. A blank id or a number that does not parse is reported.
- Java's `type` field is called `category`, because `type` is a Dafny keyword. Fields that Gson may leave `null` are `Option`s: both ids and `type`. The per-type maps are keyed by `Option<string>`, because a `HashMap` accepts a `null` key.
- Doubles are modelled as `real`, so sums and averages are exact.

Four behaviours of the code that may be unexpected, modelled as written:

- `mergeData` filters out only `null` ids (Main.java:221, 229). An empty-string id, which a JSON file can carry, is joined like any other. The CSV parsers never produce one.
- `mostReviewed` starts from `maxReviews = -1` and needs `reviews > maxReviews`. So it is absent not only when there is no complete record, but also when every complete record has `-1` or fewer reviews.
- When several complete records tie for the most reviews, the first in the given order wins. `FirstMaximumUnique` shows that this choice is fixed once the order is fixed. `MostReviewsIgnoreOrder` shows that the winning review count does not depend on the order.
- The `line.isEmpty()` test in the CSV parsers never changes the outcome. A blank line splits into one field, which is already fewer than the minimum. The contracts of `LocationRow` and `MetadataRow` therefore state "skipped exactly when fewer than 3 (4) fields".

## Model

| member | source | states |
|---|---|---|
| `JavaStrings.Trim` | src/main/java/org/example/Main.java:153 | The result is a slice of the line with no character at or below U+0020 at either end. Only such characters are cut off. It is empty exactly when the line is blank. |
| `JavaStrings.TrimOfTrimmed` | src/main/java/org/example/Main.java:159 | Trimming an already trimmed field leaves it unchanged. |
| `JavaStrings.TrimKeepsOut` | src/main/java/org/example/Main.java:159 | Trimming adds no characters: a trimmed comma-free field has no comma. |
| `JavaStrings.Pieces` | src/main/java/org/example/Main.java:156 | The pieces between separators number at least one, contain no separator, and are the whole string when there is no separator. |
| `JavaStrings.JoinPieces` | src/main/java/org/example/Main.java:156 | Joining the pieces with the separator gives back the original string. |
| `JavaStrings.PiecesJoin` | src/main/java/org/example/Main.java:156 | Splitting a join of separator-free pieces gives back those pieces, so splitting and joining are inverse. |
| `JavaStrings.PiecesAfterSeparator` | src/main/java/org/example/Main.java:147 | A separator-free first line followed by `\n` is split off as exactly one piece. |
| `JavaStrings.DropTrailingEmpty` | src/main/java/org/example/Main.java:156 | The result is the longest prefix that does not end in an empty string. Everything dropped is empty. |
| `JavaStrings.DropTrailingEmptyPrepend` | src/main/java/org/example/Main.java:147 | A string put in front survives unless everything after it is dropped too. |
| `JavaStrings.Split` | src/main/java/org/example/Main.java:156 | The fields contain no separator. An empty text gives one empty field. Otherwise the fields are a prefix of the pieces that ends in a non-empty field, and only empty pieces are dropped. |
| `JavaStrings.PiecesWithTrailingSeparator` | src/main/java/org/example/Main.java:156 | `"A,1.0,"` has three pieces, the last one empty. |
| `JavaStrings.TrailingEmptyFieldDropped` | src/main/java/org/example/Main.java:156-157 | `"A,1.0,"` has two fields, so it fails the three-field test. |
| `Records.MergedData.IsComplete` | src/main/java/org/example/MergedData.java:19 | `isComplete`: both the location and the metadata are present. Its consequences for a freshly built record are stated in `MergedDataConstruction`, and its use in the merge in `MergeData`. |
| `Records.MergedDataConstruction` | src/main/java/org/example/MergedData.java:13-19 | The constructor stores id, location and metadata unchanged. A record with a null location or null metadata is incomplete. One with both present is complete, whatever its id. |
| `Parsers.LocationRow` | src/main/java/org/example/Main.java:153-171 | A line is skipped silently exactly when it has fewer than 3 fields. A blank id gives the empty-id diagnostic, exactly in that case. A latitude or longitude that does not parse gives a diagnostic and no record. A line with at least 3 fields, a non-blank id and two coordinates that parse gives exactly the Location with the trimmed first field as id and the two parses as coordinates. A record's id is always non-empty, trimmed and comma-free. |
| `Parsers.MetadataRow` | src/main/java/org/example/Main.java:190-209 | The same for metadata with 4 fields. A record's type is the trimmed second field. Its rating is the double parse of field 3 and its reviews the int parse of field 4. A failed parse gives a diagnostic and no record. A line with at least 4 fields, a non-blank id and a rating and review count that parse always gives that record. |
| `Parsers.Rows` | src/main/java/org/example/Main.java:152-173 | Each line gives at most one record or one diagnostic. |
| `Parsers.CsvRows` | src/main/java/org/example/Main.java:147-152 | A text with at most one line gives nothing. Otherwise there are fewer results than lines, because the header gives none. |
| `Parsers.ParseCsv` | src/main/java/org/example/Main.java:147-173 | Splitting the text into lines, returning nothing for at most one line and otherwise running the loop gives exactly `CsvRows` of the text. |
| `Parsers.ParseLines` | src/main/java/org/example/Main.java:152-173 | The loop from line 1 on gives exactly `Rows` of the lines after the header: the records and the diagnostics, each in line order. |
| `Parsers.ParseCsvLocations` | src/main/java/org/example/Main.java:143-176 | The result is `CsvRows` under the location line rule, and every returned location has a non-empty, trimmed id. |
| `Parsers.ParseCsvMetadata` | src/main/java/org/example/Main.java:181-214 | The result is `CsvRows` under the metadata line rule, and every returned record has a non-empty, trimmed id. |
| `Parsers.ParseJson` | src/main/java/org/example/Main.java:111-122 | A decoded list is returned as is, with no diagnostic. A `null` result gives an empty list and no diagnostic. An exception gives an empty list and exactly one diagnostic carrying its message. |
| `Parsers.RowsAppend` | src/main/java/org/example/Main.java:152-173 | The lines are processed independently and in order. The output of `a + b` is the output of `a` followed by that of `b`, for records and diagnostics alike. |
| `Parsers.FailedLineDropped` | src/main/java/org/example/Main.java:165-171 | A line that gives no record is dropped whole, and the lines after it are still processed. |
| `Parsers.RowRecordFromLine` | src/main/java/org/example/Main.java:152-168 | Every record comes from a line that the line rule accepts. |
| `Parsers.CsvRecordFromLine` | src/main/java/org/example/Main.java:147-168 | Every record of a CSV text comes from a line after the header (index 1 or more). |
| `Parsers.OneLineGivesNothing` | src/main/java/org/example/Main.java:147-150 | A text with no `\n` is all header and gives no records and no diagnostics. |
| `Parsers.CsvRowsAfterHeader` | src/main/java/org/example/Main.java:147-152 | The output of `header + "\n" + body` is determined by `body` alone. |
| `Parsers.HeaderIgnored` | src/main/java/org/example/Main.java:147-152 | Replacing the header line changes nothing, so the header is never parsed as data. |
| `JavaStrings.EndsWith` | src/main/java/org/example/Main.java:76-78 | A string ends with a suffix exactly when it is some prefix of itself followed by that suffix. |
| `Loader.FormatOf` | src/main/java/org/example/Main.java:76-82 | The JSON parser is chosen exactly for a `.json` suffix and the CSV parser exactly for `.csv`. No parser is chosen exactly when the path has neither suffix. |
| `Loader.Load` | src/main/java/org/example/Main.java:73-99 | An unsupported suffix gives the `UnsupportedFormat(path)` error before any parsing. `.json` gives the JSON parse of the text and `.csv` the CSV parse under the given line rule. |
| `Loader.LoadLocations` | src/main/java/org/example/Main.java:73-83 | Loading the locations file, which runs the CSV loop, gives exactly `Load` with the location decoder and the location line rule. |
| `Loader.LoadMetadata` | src/main/java/org/example/Main.java:89-99 | The same for the metadata file, with the metadata decoder and line rule. |
| `Merge.Lookup` | src/main/java/org/example/Main.java:242-243 | `Map.get`: the value stored for the id, or absent (Java's `null`) when the map has no such key. Its use is covered by `MergeOfMaps` and `FirstByIdIsFirstOccurrence`. |
| `Merge.FirstById` | src/main/java/org/example/Main.java:220-234 | Every entry of the collected map is a record of the input whose id is its key. `FirstByIdIsFirstOccurrence` and `FirstByIdKeys` fix which record that is and which keys are present. |
| `Merge.FirstWithId` | src/main/java/org/example/Main.java:220-226 | This is the reference for first-occurrence-wins. The result is absent exactly when no element has the id. Otherwise it is the element at the lowest index with that id. |
| `Merge.FirstWithIdSnoc` | src/main/java/org/example/Main.java:225 | A later element never displaces an earlier one with the same id. |
| `Merge.FirstByIdIsFirstOccurrence` | src/main/java/org/example/Main.java:220-234 | The map built by `toMap` with the keep-existing merge function holds, for each non-null id, the first record with that id. Later duplicates are discarded. |
| `Merge.FirstByIdKeys` | src/main/java/org/example/Main.java:220-234 | The map's keys are exactly the non-null ids of the input. |
| `Merge.MergeOfMaps` | src/main/java/org/example/Main.java:236-245 | Records built from the union of the two maps' keys, with distinct ids, each holding the maps' lookups for its id, make a merge of the two inputs in the sense of `IsMergeOf`. |
| `Merge.MergeData` | src/main/java/org/example/Main.java:219-248 | The result satisfies `IsMergeOf`: there is exactly one record per distinct non-null id found in either input, with no id twice. Its location and metadata are the first occurrences, absent when an input lacks the id. It is complete exactly when both inputs have the id. |
| `Analysis.Incomplete` | src/main/java/org/example/Main.java:264-266 | The incomplete list is no longer than the input. |
| `Analysis.IncompleteMembers` | src/main/java/org/example/Main.java:264-266 | The incomplete list holds exactly the input's incomplete records. |
| `Analysis.Count` | src/main/java/org/example/Main.java:271 | A type's count of complete records never exceeds the number of records. |
| `Analysis.Ratings` | src/main/java/org/example/Main.java:273-276 | A type has exactly as many collected ratings as its count, which is what lets the average divide by the list size. |
| `Analysis.CountPositive` | src/main/java/org/example/Main.java:269-271 | A type has a positive count exactly when some complete record has that type. |
| `Analysis.TallySnoc` | src/main/java/org/example/Main.java:263-276 | One more record adds exactly its own contribution: to the incomplete list if incomplete, otherwise one to its type's count and its rating to its type's list. |
| `Analysis.TalliesStep` | src/main/java/org/example/Main.java:269-276 | The `put`/`getOrDefault` update of `typeCount` and the create-then-append update of `typeRatings` keep both maps equal to the count and ratings of the records seen so far. An incomplete record leaves them unchanged. |
| `Analysis.FirstMaximumKept` | src/main/java/org/example/Main.java:278-281 | A record that is incomplete, or has no more reviews than the current maximum, leaves the first maximum in place. |
| `Analysis.FirstMaximumReplaced` | src/main/java/org/example/Main.java:278-281 | A complete record with strictly more reviews than every earlier one becomes the first maximum. |
| `Analysis.LeaderStep` | src/main/java/org/example/Main.java:258-281 | One step of the strict `>` scan from -1 keeps the running maximum and `maxReviews` in step with the records seen. |
| `Analysis.AnalyzeData` | src/main/java/org/example/Main.java:253-294 | The report satisfies `IsReportOf`: incomplete records appear in encounter order and are excluded from all aggregates. `typeCount[t]` is the number of complete records of type `t`, keyed exactly by the types present. The average-rating keys equal the count keys, and each average is the type's rating sum divided by its count. `mostReviewed` is absent exactly when no complete record has more than -1 reviews. Otherwise it is the first complete record whose reviews are at least every complete record's. |
| `Analysis.Scan` | src/main/java/org/example/Main.java:263-282 | After the loop, `incomplete`, `typeCount`, `typeRatings` and `mostReviewed` are exactly those of the whole input. |
| `Analysis.Averages` | src/main/java/org/example/Main.java:284-291 | Each type's average is the sum of its rating list divided by the list's length, for exactly the types in `typeRatings`. |
| `Analysis.Sum` | src/main/java/org/example/Main.java:286-289 | The ratings added up from left to right. `SumAppend`, `SumBounds` and `SumOf` state its properties. |
| `Analysis.SumBounds` | src/main/java/org/example/Main.java:284-291 | A sum of ratings between `lo` and `hi` lies between `n * lo` and `n * hi`, so each type's average lies between its smallest and largest rating. |
| `Analysis.SumOf` | src/main/java/org/example/Main.java:286-289 | The summing loop gives the sum of the list. |
| `Analysis.SumAppend` | src/main/java/org/example/Main.java:287-289 | The sum of a concatenation is the sum of the sums. |
| `Analysis.TallyAppend` | src/main/java/org/example/Main.java:269-276 | The count and ratings of a concatenation are those of its parts. |
| `Analysis.TallyRemove` | src/main/java/org/example/Main.java:269-276 | Taking a record out removes exactly its contribution to the count and to the rating sum. |
| `Analysis.TalliesIgnoreOrder` | src/main/java/org/example/Main.java:263-291 | Per-type counts and rating sums, and hence the averages, are the same (in exact arithmetic) for every order of the merged records, as `mergeData`'s HashSet order requires. |
| `Analysis.FirstMaximumUnique` | src/main/java/org/example/Main.java:278-281 | At most one index is the first maximum, so `mostReviewed` is determined once the order is fixed. |
| `Analysis.MostReviewsIgnoreOrder` | src/main/java/org/example/Main.java:278-281 | Reordering the records can change which of several tied records is chosen, but not its review count. |
| `Pipeline.ProcessMapData` | src/main/java/org/example/Main.java:57-67 | An unsupported locations suffix stops the run with that error before the metadata file is used, and nothing has been written to the error stream. An unsupported metadata suffix stops it before merging, after the locations loader's diagnostics were written. Otherwise both loads succeed. The diagnostics are then those of both loads, locations first, and the report satisfies `IsReportOf` for some merge of the loaded records that satisfies `IsMergeOf`. |

## Left out

- `main` (Main.java:19-52): reading `config.properties` and falling back to default paths is file-system I/O.
- `readFile` (Main.java:104-106): file reading. Each loader takes the file's text as a parameter. An `IOException` from reading, which Java raises before the suffix is checked, is not modelled.
- `parseJsonLocations` / `parseJsonMetadata` (Main.java:111-138): Gson's reflective decoding is not modelled. It is a parameter that yields a list, `null` or an exception. A JSON list holding a `null` element is not modelled (`mergeData` would throw `NullPointerException` on it). Neither are Gson's defaults for missing numeric fields.
- `Double.parseDouble` and `Integer.parseInt`: these are parameters. The model does not say which strings they accept.
- IEEE double arithmetic: coordinates, ratings, sums and averages are exact reals, with no rounding and no NaN. In Java the sum of a rating list may differ in its last bits from one HashSet order to another; `TalliesIgnoreOrder` holds for exact sums only.
- `Analysis.Averages`: requires that every rating list be non-empty. In Java an empty list would give `0/0 = NaN`, but `analyzeData` only creates a list when it adds a rating to it.
- `printResults` (Main.java:299-338) and the "Loaded N ..." lines of `processMapData`: console output. The report and the diagnostics are returned instead.
- Iteration order of `HashSet` and `HashMap`: the model allows any order and does not predict Java's.
- `e.printStackTrace()` output and the exact wording of the error-stream messages. Diagnostics keep only their kind and the offending line or exception message.
- The Lombok setters and the no-argument constructors of `Location` and `Metadata`: nothing in the code calls them except Gson.
- `Analysis.Incomplete`, `Analysis.Count`: their own contracts only bound the length. Their meaning is proved in `IncompleteMembers`, `CountPositive`, `TallyAppend` and `TalliesIgnoreOrder`.
