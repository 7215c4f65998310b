# DeepStateMap snapshot pipeline: a verified model of its core

`script.py` fetches the daily DeepStateMap front-line map and runs it through a short pipeline:

1. It normalises every feature's composite name `"<prefix>///<label>///..."` to its label.
2. It keeps the Polygon features whose label is one of the three occupied-area categories.
3. It writes the merged result as `data/deepstatemap_data_YYYYMMDD.geojson`.
4. It folds every snapshot file of the `data` directory into a history table, `aggregated_deepstatemap.csv`. The table has one row per polygon, with its date, centroid, area and WKT.

This project models the parts of that pipeline that are plain logic and proves what they promise. Geometry, HTTP and file formats are left out.

The modules, one file each:

- `wrappers.dfy` (`Wrappers`): `Option` and `Result`.
- `py_str.dfy` (`PyStr`): the Python string operations the script relies on:
  - `str.split` with a separator, and `"".join`;
  - `str.replace(pat, "")`;
  - `str.strip()` with Python's whitespace set;
  - `os.path.basename`.
- `sorting.dfy` (`Sorting`) covers two things:
  - Python's ordering of `str`: code point by code point, with a proper prefix first.
  - `sorted()`, specified by `SortedListing`, the unique strictly ascending listing of a set of names.
- `geometry.dfy` (`Geometry`): a geometry is a tagged value, `Poly`, `Multi(parts)` or `Other`. A polygon carries its centroid, area and WKT text as given values.
- `labels.dfy` (`Labels`): `extract_first_part` and `process_data`.
- `category_filter.dfy` (`CategoryFilter`): the two masks applied before the union.
- `dates.dfy` (`Dates`) has two parts:
  - `extract_date_from_filename`;
  - a model of `datetime.strptime(text, "%Y%m%d")`. It tries the regular-expression alternatives for month and day in the engine's order, backtracks, does not anchor the match at the end, reports leftover text as an error, and checks the calendar.
- `aggregation.dfy` (`Aggregation`): `process_geojson` and `update_aggregated_csv`.
  - The directory is a `map` from entry name to snapshot contents.
  - The history table is `Option<seq<Row>>`, where `None` means the CSV file does not exist yet.
  - The methods follow the source's loops. Each is proved equal to a specification function: `SnapshotRows`, `NewRows` or `Aggregated`. The lemmas state the properties of those functions.

Two behaviours follow from the code as written, and the model keeps both:

- The dates of the table are read once, before the directory is walked. So two entries of one run whose names give the same new date are both appended (`Aggregation.SameDateTwiceInOneRun`).
- `strptime` also accepts texts that are not eight digits. For example, `"2024131"` reads as 2024-01-31 and `"20241 5"` as 2024-01-05.
  - The model reproduces these forms rather than rejecting them.
  - For eight ASCII digits, `Dates.ParseEightDigits` states the exact outcome.

## Model

| member | source | states |
|---|---|---|
| Labels.ExtractFirstPartIsBetween | script.py:63-65 | When the name's first delimiter is at `i` and the next one, or the end, is at `j`, the label is `name[i+3..j]` stripped. It satisfies the independent characterisation of stripping. |
| Labels.DelimitersLocated | script.py:64 | Every name holding `///` has such a first and next delimiter, so the previous row covers every name that does not fail. |
| Labels.ExtractFirstPartFails | script.py:64 | The extraction fails, always with `IndexError`, exactly when the name holds no `///`. There is no fallback value. |
| Labels.ExtractedLabelIsClean | script.py:64 | An extracted label neither starts nor ends with whitespace, and contains no `///`. |
| Labels.ExtractPart | script.py:63-65 | Definition of `name.split('///')[part].strip()`, with `IndexError` past the last piece; its properties are the rows `ExtractFirstPartIsBetween`, `ExtractFirstPartFails` and `ExtractedLabelIsClean`. |
| Labels.ExtractFirstPart | script.py:63-68 | Definition: `ExtractPart` with the `part=1` the script always passes; its properties are the rows above. |
| Labels.ProcessData | script.py:50-70 | On typed `{name, geometry}` records, the method succeeds iff every feature's name holds a delimiter, and otherwise fails with `IndexError` (the payload errors are under Left out). On success it gives one record per input feature, in input order. Each record keeps the feature's geometry and has the extracted label as its name. |
| PyStr.SplitJoin | script.py:64 | Joining the pieces of `split(sep)` with `sep` gives the original text back. |
| PyStr.SplitPiecesFree | script.py:64 | No piece of a split contains the separator. |
| PyStr.SplitHasSecondPiece | script.py:64 | A split has a piece at index 1 exactly when the separator occurs. |
| PyStr.StripCharacterised | script.py:64 | `strip()` removes exactly the maximal leading and trailing runs of whitespace. No other result has that property. |
| PyStr.BasenameOfName | script.py:99 | The basename of a name without `/` is the name itself. |
| PyStr.BasenameOfJoin | script.py:99 | The basename of `os.path.join(dir, name)` (line 156) is `name`. |
| PyStr.RemoveLeading | script.py:100 | `replace(pat, "")` deletes a leading occurrence and carries on after it. |
| PyStr.RemoveOnlyLeading | script.py:100 | Deleting the prefix from `prefix + rest` leaves `rest` when `rest` cannot start an occurrence. |
| PyStr.RemoveAfterAbsent | script.py:100 | Text that cannot start an occurrence passes through `replace` unchanged in front of what follows. |
| PyStr.RemoveAbsent | script.py:100 | Text that cannot start an occurrence is unchanged by `replace`. |
| PyStr.Split | script.py:64 | Definition of `str.split(sep)`, cutting at each leftmost occurrence; its properties are the rows `SplitJoin`, `SplitPiecesFree` and `SplitHasSecondPiece`. |
| PyStr.Strip | script.py:64 | Definition of `str.strip()` over CPython's whitespace set; its property is the row `StripCharacterised`. |
| PyStr.Remove | script.py:100 | Definition of `str.replace(pat, "")` as the pieces of the split joined with nothing; its properties are the `Remove*` rows. |
| PyStr.Basename | script.py:99 | `os.path.basename`: the result holds no `/`, is a suffix of the path, and is preceded by a `/` when shorter than the path; see also the `BasenameOf*` rows. |
| CategoryFilter.SelectForMergeSpec | script.py:77-80 | A feature reaches the union iff it is in the input, its geometry is exactly a Polygon, and its label is one of the three categories. The selection distributes over concatenation, so input order is kept. It never grows. |
| CategoryFilter.KeepMembers | script.py:78-80 | A boolean mask keeps exactly the rows in the frame that it selects. |
| CategoryFilter.KeepAppend | script.py:78-80 | Masking a concatenation masks each part, so relative order is kept. |
| CategoryFilter.Keep | script.py:78-80 | Definition of indexing a frame with a boolean mask (`frame[mask]`); its properties are the rows `KeepMembers` and `KeepAppend`. |
| CategoryFilter.SelectForMergeIdempotent | script.py:77-80 | Selecting twice selects nothing more. |
| CategoryFilter.SelectForMergeExample | script.py:77-80 | Two category Polygons are kept; a Polygon with another label and a MultiPolygon with a category label are dropped. |
| CategoryFilter.IsPolygon | script.py:77 | Definition of `isinstance(x, Polygon)`: only the `Poly` kind, not `Multi`. |
| CategoryFilter.InCategories | script.py:80 | Definition of `name.isin([...])` against the three category labels. |
| CategoryFilter.SelectForMerge | script.py:77-80 | Definition: the Polygon mask, then the category mask; its properties are the rows `SelectForMergeSpec`, `SelectForMergeIdempotent` and `SelectForMergeExample`. |
| Dates.ParseYmd | script.py:102-104 | Every date the parser returns exists in the calendar: years 1-9999, months 1-12, and a day within its month, leap years included. |
| Dates.ParseEightDigits | script.py:102-104 | On eight ASCII digits, the parser returns the date they spell exactly when that date exists, and `None` otherwise. |
| Dates.LeapDayParses | script.py:102-104 | `YYYY0229` parses exactly when `YYYY` is a leap year other than 0000. |
| Dates.ImpossibleDatesRefused | script.py:102-104 | Month 13, February 30 and year 0000 give `None`. |
| Dates.LeapDayExamples | script.py:102-104 | `20240229` gives 2024-02-29; `20230229` gives `None`. |
| Dates.ParseShortFormExamples | script.py:102-104 | Backtracking accepts one-digit months and days: `2024131` gives 2024-01-31 and `202411` gives 2024-01-01. `2024010` gives `None`. |
| Dates.ParseSpaceAndTrailingExamples | script.py:102-104 | A space before a one-digit day is accepted. Text left after the match gives `None`. |
| Dates.DateDependsOnlyOnBasename | script.py:98-100 | The date of `dir/name` is the date of `name`. |
| Dates.SnapshotNameDateText | script.py:99-100 | For digits `t`, deleting the prefix and every extension from `deepstatemap_data_<t>.geojson`, and from the same name with the extension doubled, leaves `t`. |
| Dates.FormatParseRoundTrip | script.py:102 | `strftime('%Y%m%d')` (line 22) followed by the parse gives back any date with a four-digit year. |
| Dates.SnapshotFilenameRoundTrip | script.py:98-104 | The date read back from the name of the snapshot written on day `d` (line 22) is `d`. |
| Dates.DateText | script.py:99-100 | Definition: the basename with every prefix occurrence, then every extension occurrence, deleted; its property is the row `SnapshotNameDateText`. |
| Dates.ExtractDateFromFilename | script.py:98-104 | Definition: `ParseYmd` of `DateText`, `None` standing for the caught `ValueError`; its properties are the rows `DateDependsOnlyOnBasename` and `SnapshotFilenameRoundTrip`. |
| Dates.FormatYmd | script.py:22 | Definition of `strftime('%Y%m%d')` for four-digit years; its property is the row `FormatParseRoundTrip`. |
| Dates.SnapshotFilename | script.py:22 | Definition of the snapshot file name written on a date; its property is the row `SnapshotFilenameRoundTrip`. |
| Sorting.LexLtTotal | script.py:154 | Two different strings are ordered one way or the other. |
| Sorting.LexLtTransitive | script.py:154 | The string order is transitive. |
| Sorting.ProperPrefixFirst | script.py:154 | A proper prefix sorts first. |
| Sorting.Sort | script.py:154 | `sorted()` gives an ascending permutation of its input. The result is strictly ascending when the input has no duplicates. |
| Sorting.LexLt | script.py:154 | Definition of the `str` `<` that `sorted()` compares with: code point by code point, a proper prefix first; its properties are the rows `LexLtTotal`, `LexLtTransitive` and `ProperPrefixFirst`. |
| Sorting.SortedListing | script.py:154 | The ascending listing of a set of names: it holds exactly those names, strictly ascending; the rows `StrictlySortedUnique` and `SortIsSortedListing` show it is the one `sorted()` gives. |
| Sorting.StrictlySortedUnique | script.py:154 | A set of names has exactly one strictly ascending listing. |
| Sorting.SortIsSortedListing | script.py:154 | Sorting any duplicate-free listing of a directory gives that unique listing. |
| Aggregation.PolygonRowsAt | script.py:122-138 | The rows of a record's polygons are one per polygon, in order. Row `k` summarises polygon `k`: its centroid's y as `centroid_lat`, x as `centroid_lon`, its area and its WKT. |
| Aggregation.RecordDecomposition | script.py:115-138 | A Polygon record gives one row, a MultiPolygon record one row per part in part order, and any other geometry none. Every row carries the snapshot's date. |
| Aggregation.RecordsRowsAppend | script.py:115-138 | The rows of a run of records are the rows of its first part followed by those of its second, so file order is kept. |
| Aggregation.SnapshotRowsShape | script.py:115-138 | A snapshot gives exactly one row per polygon part, all with the snapshot's date. |
| Aggregation.ThreePartSnapshot | script.py:120-138 | A MultiPolygon of three parts gives three rows, one per part, in part order. |
| Aggregation.SummariseSnapshot | script.py:113-140 | The nested loop produces exactly `SnapshotRows` of the snapshot. |
| Aggregation.ProcessGeojson | script.py:107-140 | The file is read iff its name gives a date. With no date there are no rows; otherwise the rows are the snapshot's rows with that date. |
| Aggregation.ContributionDates | script.py:155-164 | Every row an entry contributes carries the date of the entry's name, and that date is not among the table's dates. |
| Aggregation.ContributionOfDated | script.py:155-164 | A `.geojson` entry whose date is not in the table contributes all of its snapshot's rows. |
| Aggregation.NewRowsAreFresh | script.py:147-166 | No appended row carries a date the table held when the run started. |
| Aggregation.NewRowsFromGeojsonFiles | script.py:154-166 | Every appended row comes from a `.geojson` entry whose name gives that row's date. |
| Aggregation.SkippedFilesAreNotRead | script.py:155-164 | Two directories that agree on the entries actually processed yield the same new rows. Entries that are not `.geojson`, have no date, or have a covered date may have any contents. |
| Aggregation.NothingLeftToAdd | script.py:147-166 | Once the table holds the dates of what a run appended, a run over the same entries appends nothing. |
| Aggregation.AggregationIdempotent | script.py:143-181 | A second run over the same directory leaves the table as the first run left it. |
| Aggregation.AggregationExtends | script.py:168-181 | The old table is an unchanged prefix of the new one. The result is "no table" iff there was no table and nothing was added. Every appended row has a date the old table lacked. |
| Aggregation.AggregatedOfTable | script.py:168-173 | With an existing table, the new table is the old one followed by the new rows (the old one when there are none). |
| Aggregation.TwoFilesAppended | script.py:154-173 | A directory of two entries appends the first entry's rows, then the second's, in name order. |
| Aggregation.SameDateTwiceInOneRun | script.py:147-166 | `deepstatemap_data_<t>.geojson` and the same name with the extension doubled give the same new date. Both are processed and appended in name order. |
| Aggregation.IsGeojsonName | script.py:155 | Definition of `file.endswith(".geojson")`; it decides `FileContribution`, whose properties are the rows `ContributionDates` and `NewRowsFromGeojsonFiles`. |
| Aggregation.JoinPath | script.py:156 | Definition of `os.path.join(dir, name)`; its properties are the rows `BasenameOfJoin` and `DateDependsOnlyOnBasename`, which `VisitEntry` uses. |
| Aggregation.PolygonRows | script.py:122-138 | Definition: one summary row per polygon of a record, in order; its property is the row `PolygonRowsAt`. |
| Aggregation.RecordsRows | script.py:115-138 | Definition: the rows of the records, record after record; its properties are the rows `RecordsRowsAppend` and `RecordDecomposition`. |
| Aggregation.SnapshotRows | script.py:113-140 | Definition of the rows `process_geojson` collects from a read snapshot; its properties are the rows `RecordDecomposition`, `SnapshotRowsShape`, `ThreePartSnapshot` and `SummariseSnapshot`. |
| Aggregation.FileRows | script.py:107-140 | Definition of what `process_geojson` returns for a path: no rows without a date, else `SnapshotRows` with that date; its property is the row `ProcessGeojson`. |
| Aggregation.DatesOf | script.py:147 | Definition of `set(existing_df["date"].dt.date)`; its properties are the rows `NewRowsAreFresh`, `NothingLeftToAdd` and `AggregationExtends`. |
| Aggregation.Covered | script.py:157-159 | Definition of `file_date in existing_dates`, false when the name gives no date; its properties are the rows `ContributionDates` and `SkippedFilesAreNotRead`. |
| Aggregation.Consulted | script.py:155-159 | Definition of an entry handed to `process_geojson`: `.geojson` and not covered; its properties are the rows `SkippedFilesAreNotRead` and `NewRowsFromGeojsonFiles`. |
| Aggregation.FileContribution | script.py:155-166 | Definition of the rows one directory entry adds; its properties are the rows `ContributionDates`, `ContributionOfDated` and `VisitEntry`. |
| Aggregation.NewRows | script.py:152-166 | Definition of the rows a run appends, entry after entry in the given order; its properties are the rows `NewRowsAreFresh`, `NewRowsFromGeojsonFiles`, `SkippedFilesAreNotRead`, `NothingLeftToAdd` and `CollectNewRows`. |
| Aggregation.Aggregated | script.py:143-181 | Definition of the table after a run: unchanged when nothing is added, else the old table followed by the new rows; its properties are the rows `AggregationExtends`, `AggregationIdempotent`, `AggregatedOfTable` and `UpdateAggregatedCsv`. |
| Aggregation.Concat | script.py:169 | Definition of `pd.concat` of the collected frames, in order; its properties are the rows `CollectNewRows` and `UpdateAggregatedCsv`. |
| Aggregation.ListDir | script.py:154 | The listing names every entry once. |
| Aggregation.SortedDir | script.py:154 | `sorted(os.listdir(...))` is the unique ascending listing of the entries. |
| Aggregation.VisitEntry | script.py:155-166 | One turn of the loop yields the entry's contribution. A covered or non-`.geojson` entry yields no rows. Any other entry yields its rows, dated by its name even though `process_geojson` receives the joined path. |
| Aggregation.CollectNewRows | script.py:152-166 | The frames collected over the sorted entries concatenate to `NewRows`, and none of them is empty. |
| Aggregation.UpdateAggregatedCsv | script.py:143-181 | The new table is `Aggregated` of the old table and the directory. The reported outcome works as follows: it is "updated" iff the table changed, and "no initial data" iff there was no table and none was made. The old table is always a prefix of the new one. |

## Left out

- `make_api_request` (HTTP, retries, `time.sleep`, `sys.exit`) and `main` are not part of this model. They are I/O orchestration.
- Geometry parsing and the flattening to two dimensions (`shape`, `wkt.loads(wkt.dumps(...))`) are not modelled: a feature arrives with its geometry already built as a tagged value. They are foreign shapely calls.
- `unary_union` and the mitre buffer round trip are floating-point computational geometry inside GEOS.
- A polygon's centroid, area and WKT text are given fields of the polygon, not computed.
- Reading and writing GeoJSON and CSV are left out, and so are pandas' column union and dtypes and `parse_dates`. The history table is a sequence of rows and the directory a map of contents.
- Logging ("Skipping", "Processing", and the final messages) is left out. Only the outcome the final message reports is returned.
- `Dates.ParseYmd`: `strptime`'s `\d` also matches non-ASCII Unicode digits. The model accepts ASCII digits only.
- Labels.ProcessData: the payload is taken as typed `{name: str, geometry}` records, so the model's `IndexError` is its only failure. Two groups of errors are not modelled. The first loop (script.py:53-60), before any name is split, raises `KeyError` for a missing `map`, `features`, `geometry`, `properties` or `name` key, `TypeError` for null properties, `AttributeError` for a null geometry, and `GeometryTypeError` for an unknown geometry type. The second loop (script.py:67-68) raises `AttributeError` from `None.split` for a null name, at that feature's turn, in place of its `IndexError`.
- `Labels.ExtractPart`: a negative `part` index is not modelled. The script only ever uses `part=1`.
- `Dates.FormatYmd`: only four-digit years are formatted. `strftime` pads years below 1000 differently across platforms.
- `Aggregation.UpdateAggregatedCsv`: requires that no directory entry contains `/`. `os.listdir` guarantees this.
- `Aggregation.UpdateAggregatedCsv`: the loop body and the summary of one snapshot are separate methods (`VisitEntry`, `CollectNewRows`, `SummariseSnapshot`). `ProcessGeojson` takes the file's contents as a parameter instead of reading it.
