/**
 * The incremental history table: every snapshot file becomes one row per polygon, and a run
 * appends the rows of the snapshots whose date the table does not hold yet.
 */
module Aggregation {
  import opened Wrappers
  import opened Sorting
  import opened Geometry
  import opened Dates
  import opened Seqs

  /** The `name` cell of a history row: no cell when the snapshot file has no name column. */
  datatype NameCell = NoNameColumn | NameValue(value: Option<string>)

  /** One row of the history table. */
  datatype Row = Row(date: Date, centroidLat: real, centroidLon: real, area: real, geometryWkt: string, name: NameCell)

  /** One row of a snapshot file as the geospatial reader returns it. */
  datatype Record = Record(geometry: Geom, name: Option<string>)

  /** A snapshot file's contents: whether it has a name column, and its rows in file order. */
  datatype Snapshot = Snapshot(hasNameColumn: bool, records: seq<Record>)

  /** The directory holding the snapshots (and the table itself). */
  const OutputDir := "data"

  /** `os.path.join(dir, name)`. */
  function JoinPath(dir: string, name: string): string
  {
    dir + "/" + name
  }

  /** `name.endswith(".geojson")`. */
  predicate IsGeojsonName(name: string)
  {
    |name| >= |SnapshotSuffix| && name[|name| - |SnapshotSuffix|..] == SnapshotSuffix
  }

  /** The polygons a geometry is decomposed into: itself, its parts in order, or none. */
  function Parts(g: Geom): seq<Polygon>
  {
    match g
    case Poly(p) => [p]
    case Multi(ps) => ps
    case Other => []
  }

  /** The row a polygon contributes: `centroid_lat` is the centroid's y, `centroid_lon` its x. */
  function SummaryRow(date: Date, p: Polygon, name: NameCell): Row
  {
    Row(date, p.centroid.y, p.centroid.x, p.area, p.wkt, name)
  }

  function NameCellOf(hasNameColumn: bool, rec: Record): NameCell
  {
    if hasNameColumn then NameValue(rec.name) else NoNameColumn
  }

  /** The rows of some polygons of one record, in order. */
  function PolygonRows(date: Date, ps: seq<Polygon>, name: NameCell): seq<Row>
  {
    if ps == [] then [] else PolygonRows(date, ps[..|ps| - 1], name) + [SummaryRow(date, ps[|ps| - 1], name)]
  }

  /** The rows of some records of a snapshot, record after record. */
  function RecordsRows(date: Date, hasNameColumn: bool, recs: seq<Record>): seq<Row>
  {
    if recs == [] then []
    else
      var last := recs[|recs| - 1];
      RecordsRows(date, hasNameColumn, recs[..|recs| - 1]) + PolygonRows(date, Parts(last.geometry), NameCellOf(hasNameColumn, last))
  }

  /** All rows of a snapshot dated `date`. */
  function SnapshotRows(date: Date, snap: Snapshot): seq<Row>
  {
    RecordsRows(date, snap.hasNameColumn, snap.records)
  }

  /** The rows of a snapshot whose file name gave `date`: none when it gave no date. */
  function DatedRows(date: Option<Date>, snap: Snapshot): seq<Row>
  {
    match date
    case None => []
    case Some(d) => SnapshotRows(d, snap)
  }

  /** What `process_geojson` yields for a file. */
  function FileRows(path: string, snap: Snapshot): seq<Row>
  {
    DatedRows(ExtractDateFromFilename(path), snap)
  }

  /** Row `k` of the rows of `ps` summarises polygon `k`. */
  lemma {:induction false} PolygonRowsAt(date: Date, ps: seq<Polygon>, name: NameCell)
    ensures |PolygonRows(date, ps, name)| == |ps|
    ensures forall k :: 0 <= k < |ps| ==> PolygonRows(date, ps, name)[k] == SummaryRow(date, ps[k], name)
  {
    if ps != [] {
      PolygonRowsAt(date, ps[..|ps| - 1], name);
    }
  }

  /** The rows of two runs of records are the rows of the first followed by those of the second. */
  lemma {:induction false} RecordsRowsAppend(date: Date, hasNameColumn: bool, a: seq<Record>, b: seq<Record>)
    ensures RecordsRows(date, hasNameColumn, a + b) == RecordsRows(date, hasNameColumn, a) + RecordsRows(date, hasNameColumn, b)
    decreases |b|
  {
    if b == [] {
      assert a + b == a;
    } else {
      var b', last := b[..|b| - 1], b[|b| - 1];
      assert (a + b)[..|a + b| - 1] == a + b';
      RecordsRowsAppend(date, hasNameColumn, a, b');
      SeqAssoc(RecordsRows(date, hasNameColumn, a), RecordsRows(date, hasNameColumn, b'),
        PolygonRows(date, Parts(last.geometry), NameCellOf(hasNameColumn, last)));
    }
  }

  /**
   * A Polygon record gives one row, a MultiPolygon record one row per part in part order,
   * any other geometry none; every row carries the snapshot's date.
   */
  lemma RecordDecomposition(date: Date, hasNameColumn: bool, rec: Record)
    ensures var rows := RecordsRows(date, hasNameColumn, [rec]);
      var cell := NameCellOf(hasNameColumn, rec);
      && (rec.geometry.Poly? ==> rows == [SummaryRow(date, rec.geometry.polygon, cell)])
      && (rec.geometry.Multi? ==>
            (|rows| == |rec.geometry.parts| && forall k :: 0 <= k < |rows| ==> rows[k] == SummaryRow(date, rec.geometry.parts[k], cell)))
      && (rec.geometry.Other? ==> rows == [])
      && forall k :: 0 <= k < |rows| ==> rows[k].date == date
  {
    var cell := NameCellOf(hasNameColumn, rec);
    RecordsRowsStep(date, hasNameColumn, [rec], 0);
    assert [rec][..0] == [];
    assert RecordsRows(date, hasNameColumn, [rec]) == PolygonRows(date, Parts(rec.geometry), cell);
    PolygonRowsAt(date, Parts(rec.geometry), cell);
  }

  /** Processing one more record appends that record's rows. */
  lemma RecordsRowsStep(date: Date, hasNameColumn: bool, recs: seq<Record>, i: nat)
    requires i < |recs|
    ensures RecordsRows(date, hasNameColumn, recs[..i + 1])
      == RecordsRows(date, hasNameColumn, recs[..i]) + PolygonRows(date, Parts(recs[i].geometry), NameCellOf(hasNameColumn, recs[i]))
  {
    assert recs[..i + 1][..i] == recs[..i];
  }

  /** Summarising one more polygon appends its row to what was collected before. */
  lemma PolygonRowsStep(before: seq<Row>, date: Date, ps: seq<Polygon>, name: NameCell, j: nat)
    requires j < |ps|
    ensures before + PolygonRows(date, ps[..j + 1], name) == before + PolygonRows(date, ps[..j], name) + [SummaryRow(date, ps[j], name)]
  {
    assert ps[..j + 1][..j] == ps[..j];
  }

  /** The number of polygons the records decompose into. */
  function PartCount(recs: seq<Record>): nat
  {
    if recs == [] then 0 else PartCount(recs[..|recs| - 1]) + |Parts(recs[|recs| - 1].geometry)|
  }

  /** A snapshot gives one row per polygon part, every one of them dated with the snapshot's date. */
  lemma {:induction false} SnapshotRowsShape(date: Date, hasNameColumn: bool, recs: seq<Record>)
    ensures |RecordsRows(date, hasNameColumn, recs)| == PartCount(recs)
    ensures forall r :: r in RecordsRows(date, hasNameColumn, recs) ==> r.date == date
  {
    if recs != [] {
      var last := recs[|recs| - 1];
      SnapshotRowsShape(date, hasNameColumn, recs[..|recs| - 1]);
      PolygonRowsAt(date, Parts(last.geometry), NameCellOf(hasNameColumn, last));
    }
  }

  /** A snapshot holding one MultiPolygon of three parts gives three rows of that date, one per part. */
  lemma ThreePartSnapshot(date: Date, a: Polygon, b: Polygon, c: Polygon)
    ensures SnapshotRows(date, Snapshot(false, [Record(Multi([a, b, c]), None)]))
      == [SummaryRow(date, a, NoNameColumn), SummaryRow(date, b, NoNameColumn), SummaryRow(date, c, NoNameColumn)]
  {
    RecordDecomposition(date, false, Record(Multi([a, b, c]), None));
  }

  /**
   * `process_geojson`: no date in the file name gives no rows and the file is not read;
   * otherwise its rows are those of `SummariseSnapshot`.
   */
  method ProcessGeojson(filepath: string, contents: Snapshot) returns (rows: seq<Row>, loaded: bool)
    ensures loaded <==> ExtractDateFromFilename(filepath).Some?
    ensures rows == FileRows(filepath, contents)
  {
    var date := ExtractDateFromFilename(filepath);
    if date.None? {
      return [], false;
    }
    loaded := true;
    rows := SummariseSnapshot(date.value, contents);
  }

  /**
   * The loop of `process_geojson` over a read file: every Polygon gives one row and every
   * MultiPolygon one row per part, in file order; other geometries give none.
   */
  method SummariseSnapshot(date: Date, gdf: Snapshot) returns (rows: seq<Row>)
    ensures rows == SnapshotRows(date, gdf)
  {
    rows := [];
    for i := 0 to |gdf.records|
      invariant rows == RecordsRows(date, gdf.hasNameColumn, gdf.records[..i])
    {
      var rec := gdf.records[i];
      ghost var cell := NameCellOf(gdf.hasNameColumn, rec);
      RecordsRowsStep(date, gdf.hasNameColumn, gdf.records, i);
      if !(rec.geometry.Poly? || rec.geometry.Multi?) {
        continue;
      }
      var polygons := if rec.geometry.Multi? then rec.geometry.parts else [rec.geometry.polygon];
      assert polygons == Parts(rec.geometry);
      ghost var before := rows;
      for j := 0 to |polygons|
        invariant rows == before + PolygonRows(date, polygons[..j], cell)
      {
        var polygon := polygons[j];
        var rowData := Row(date, polygon.centroid.y, polygon.centroid.x, polygon.area, polygon.wkt, NoNameColumn);
        if gdf.hasNameColumn {
          rowData := rowData.(name := NameValue(rec.name));
        }
        assert rowData == SummaryRow(date, polygon, cell);
        PolygonRowsStep(before, date, polygons, cell, j);
        rows := rows + [rowData];
      }
      assert polygons[..|polygons|] == polygons;
    }
    assert gdf.records[..|gdf.records|] == gdf.records;
  }

  /** The dates a table holds. */
  function DatesOf(table: seq<Row>): set<Date>
  {
    set r | r in table :: r.date
  }

  lemma DatesOfAppend(a: seq<Row>, b: seq<Row>)
    ensures DatesOf(a + b) == DatesOf(a) + DatesOf(b)
  {
    forall d | d in DatesOf(a + b) ensures d in DatesOf(a) + DatesOf(b) {
      var r :| r in a + b && r.date == d;
    }
    forall d | d in DatesOf(a) + DatesOf(b) ensures d in DatesOf(a + b) {
      if d in DatesOf(a) { var r :| r in a && r.date == d; assert r in a + b; }
      else { var r :| r in b && r.date == d; assert r in a + b; }
    }
  }

  /** A file whose name yields a date the table already holds. */
  predicate Covered(existing: set<Date>, name: string)
  {
    var d := ExtractDateFromFilename(name);
    d.Some? && d.value in existing
  }

  /** A directory entry the run hands to `process_geojson`: a `.geojson` file not covered by the table. */
  predicate Consulted(existing: set<Date>, name: string)
  {
    IsGeojsonName(name) && !Covered(existing, name)
  }

  /** The rows one directory entry adds: only a `.geojson` file not covered by the table is processed. */
  function FileContribution(existing: set<Date>, files: map<string, Snapshot>, name: string): seq<Row>
    requires name in files
  {
    if Consulted(existing, name) then FileRows(name, files[name]) else []
  }

  /** The rows a run appends when it visits `order`, file after file. */
  function NewRows(existing: set<Date>, files: map<string, Snapshot>, order: seq<string>): seq<Row>
    requires forall k :: 0 <= k < |order| ==> order[k] in files
  {
    if order == [] then []
    else NewRows(existing, files, order[..|order| - 1]) + FileContribution(existing, files, order[|order| - 1])
  }

  /** Directory entries are plain names: they hold no `/`. */
  predicate PlainNames(files: map<string, Snapshot>)
  {
    forall n :: n in files ==> '/' !in n
  }

  /** The table after a run over `files`, starting from the table `csv` (`None`: no table file yet). */
  ghost function Aggregated(csv: Option<seq<Row>>, files: map<string, Snapshot>): Option<seq<Row>>
  {
    var table := if csv.Some? then csv.value else [];
    var added := NewRows(DatesOf(table), files, SortedListing(files.Keys));
    if added == [] then csv else Some(table + added)
  }

  /** The rows a processed file contributes all carry the date of its name. */
  lemma ContributionDates(existing: set<Date>, files: map<string, Snapshot>, name: string)
    requires name in files
    ensures forall r :: r in FileContribution(existing, files, name) ==>
      ExtractDateFromFilename(name) == Some(r.date) && r.date !in existing
  {
    var d := ExtractDateFromFilename(name);
    if d.Some? {
      SnapshotRowsShape(d.value, files[name].hasNameColumn, files[name].records);
    }
  }

  /** No appended row carries a date the table held when the run started. */
  lemma {:induction false} NewRowsAreFresh(existing: set<Date>, files: map<string, Snapshot>, order: seq<string>)
    requires forall k :: 0 <= k < |order| ==> order[k] in files
    ensures forall r :: r in NewRows(existing, files, order) ==> r.date !in existing
  {
    if order != [] {
      NewRowsAreFresh(existing, files, order[..|order| - 1]);
      ContributionDates(existing, files, order[|order| - 1]);
    }
  }

  /** Every appended row comes from a `.geojson` entry of the walk whose name gives the row's date. */
  lemma {:induction false} NewRowsFromGeojsonFiles(existing: set<Date>, files: map<string, Snapshot>, order: seq<string>)
    requires forall k :: 0 <= k < |order| ==> order[k] in files
    ensures forall r :: r in NewRows(existing, files, order) ==>
      exists k :: 0 <= k < |order| && IsGeojsonName(order[k]) && ExtractDateFromFilename(order[k]) == Some(r.date)
  {
    if order != [] {
      var init, name := order[..|order| - 1], order[|order| - 1];
      NewRowsFromGeojsonFiles(existing, files, init);
      ContributionDates(existing, files, name);
      forall r | r in NewRows(existing, files, order)
        ensures exists k :: 0 <= k < |order| && IsGeojsonName(order[k]) && ExtractDateFromFilename(order[k]) == Some(r.date)
      {
        if r in NewRows(existing, files, init) {
          var k :| 0 <= k < |init| && IsGeojsonName(init[k]) && ExtractDateFromFilename(init[k]) == Some(r.date);
          assert order[k] == init[k];
        } else {
          assert order[|order| - 1] == name;
        }
      }
    }
  }

  /**
   * Only the files a run actually reads matter: entries that are not `.geojson`, that hold no
   * date, or whose date the table already holds may have any contents.
   */
  lemma {:induction false} SkippedFilesAreNotRead(existing: set<Date>, files: map<string, Snapshot>, files': map<string, Snapshot>, order: seq<string>)
    requires forall k :: 0 <= k < |order| ==> order[k] in files && order[k] in files'
    requires forall k :: 0 <= k < |order| ==>
      Consulted(existing, order[k]) && ExtractDateFromFilename(order[k]).Some? ==> files[order[k]] == files'[order[k]]
    ensures NewRows(existing, files, order) == NewRows(existing, files', order)
  {
    if order != [] {
      SkippedFilesAreNotRead(existing, files, files', order[..|order| - 1]);
    }
  }

  /**
   * Once the dates of the rows a run appended are in the table, a second run over the same
   * files appends nothing.
   */
  lemma {:induction false} NothingLeftToAdd(existing: set<Date>, later: set<Date>, files: map<string, Snapshot>, order: seq<string>)
    requires forall k :: 0 <= k < |order| ==> order[k] in files
    requires existing <= later
    requires DatesOf(NewRows(existing, files, order)) <= later
    ensures NewRows(later, files, order) == []
  {
    if order != [] {
      var init, name := order[..|order| - 1], order[|order| - 1];
      var first, last := NewRows(existing, files, init), FileContribution(existing, files, name);
      DatesOfAppend(first, last);
      NothingLeftToAdd(existing, later, files, init);
      ContributionDates(existing, files, name);
      if last != [] {
        assert last[0] in last;
      }
    }
  }

  /** Running the aggregation a second time over the same directory changes nothing. */
  lemma AggregationIdempotent(csv: Option<seq<Row>>, files: map<string, Snapshot>)
    ensures Aggregated(Aggregated(csv, files), files) == Aggregated(csv, files)
  {
    var table := if csv.Some? then csv.value else [];
    var order := SortedListing(files.Keys);
    var added := NewRows(DatesOf(table), files, order);
    if added != [] {
      DatesOfAppend(table, added);
      NothingLeftToAdd(DatesOf(table), DatesOf(table + added), files, order);
    }
  }

  /** The table only grows: what was there stays, in place, and every appended row has a new date. */
  lemma AggregationExtends(csv: Option<seq<Row>>, files: map<string, Snapshot>)
    ensures var table := if csv.Some? then csv.value else [];
      var after := Aggregated(csv, files);
      && (after.Some? ==> table <= after.value)
      && (after.None? <==> csv.None? && NewRows(DatesOf(table), files, SortedListing(files.Keys)) == [])
      && (after.Some? ==> forall k :: |table| <= k < |after.value| ==> after.value[k].date !in DatesOf(table))
  {
    var table := if csv.Some? then csv.value else [];
    NewRowsAreFresh(DatesOf(table), files, SortedListing(files.Keys));
  }

  /** A name made by appending the extension ends with it. */
  lemma WithExtension(stem: string)
    ensures IsGeojsonName(stem + SnapshotSuffix)
  {
    var name := stem + SnapshotSuffix;
    assert name[|name| - |SnapshotSuffix|..] == SnapshotSuffix;
  }

  /**
   * The table's dates are read once, before the directory is walked: two files of one run
   * whose names give the same new date are both appended, one after the other in name order.
   */
  lemma SameDateTwiceInOneRun(t: string, d: Date, table: seq<Row>, first: Snapshot, second: Snapshot)
    requires AllDigits(t) && ParseYmd(t) == Some(d) && d !in DatesOf(table)
    ensures var name := SnapshotPrefix + t + SnapshotSuffix;
      var files := map[name := first, name + SnapshotSuffix := second];
      Aggregated(Some(table), files) == Some(table + SnapshotRows(d, first) + SnapshotRows(d, second))
  {
    var name := SnapshotPrefix + t + SnapshotSuffix;
    var other := name + SnapshotSuffix;
    var files := map[name := first, other := second];
    SnapshotNamesDated(t, d);
    ProperPrefixFirst(name, SnapshotSuffix);
    ContributionOfDated(DatesOf(table), files, name, d);
    ContributionOfDated(DatesOf(table), files, other, d);
    TwoFilesAppended(table, files, name, other);
  }

  /** A run over a directory of two entries appends what the first contributes, then what the second does. */
  lemma TwoFilesAppended(table: seq<Row>, files: map<string, Snapshot>, x: string, y: string)
    requires files.Keys == {x, y} && LexLt(x, y)
    ensures Aggregated(Some(table), files) ==
      Some(table + FileContribution(DatesOf(table), files, x) + FileContribution(DatesOf(table), files, y))
  {
    var existing := DatesOf(table);
    var a, b := FileContribution(existing, files, x), FileContribution(existing, files, y);
    TwoNamesListing(x, y);
    NewRowsOfTwo(existing, files, x, y);
    AggregatedOfTable(table, files, a + b);
    SeqAssoc(table, a, b);
  }

  /** Whatever the run adds is appended to an existing table. */
  lemma AggregatedOfTable(table: seq<Row>, files: map<string, Snapshot>, added: seq<Row>)
    requires NewRows(DatesOf(table), files, SortedListing(files.Keys)) == added
    ensures Aggregated(Some(table), files) == Some(table + added)
  {
    if added == [] {
      assert table + added == table;
    }
  }

  /** A snapshot name and the same name with the extension doubled are both `.geojson` files dated by their digits. */
  lemma SnapshotNamesDated(t: string, d: Date)
    requires AllDigits(t) && ParseYmd(t) == Some(d)
    ensures var name := SnapshotPrefix + t + SnapshotSuffix;
      IsGeojsonName(name) && IsGeojsonName(name + SnapshotSuffix) &&
      ExtractDateFromFilename(name) == Some(d) && ExtractDateFromFilename(name + SnapshotSuffix) == Some(d)
  {
    SnapshotNameDateText(t);
    WithExtension(SnapshotPrefix + t);
    WithExtension(SnapshotPrefix + t + SnapshotSuffix);
  }

  /** Two names are listed in their order. */
  lemma TwoNamesListing(x: string, y: string)
    requires LexLt(x, y)
    ensures SortedListing({x, y}) == [x, y]
  {
    StrictlySortedUnique([x, y], SortedListing({x, y}));
  }

  /** A `.geojson` entry whose date is not in the table contributes all its rows. */
  lemma ContributionOfDated(existing: set<Date>, files: map<string, Snapshot>, name: string, d: Date)
    requires name in files && IsGeojsonName(name)
    requires ExtractDateFromFilename(name) == Some(d) && d !in existing
    ensures FileContribution(existing, files, name) == SnapshotRows(d, files[name])
  {
  }

  /** Visiting two entries appends the contribution of the first, then that of the second. */
  lemma NewRowsOfTwo(existing: set<Date>, files: map<string, Snapshot>, x: string, y: string)
    requires x in files && y in files
    ensures NewRows(existing, files, [x, y]) == FileContribution(existing, files, x) + FileContribution(existing, files, y)
  {
    var order := [x, y];
    var fx, fy := FileContribution(existing, files, x), FileContribution(existing, files, y);
    NewRowsStep(existing, files, order, 0);
    NewRowsStep(existing, files, order, 1);
    assert order[..0] == [] && order[..2] == order;
    assert NewRows(existing, files, order[..1]) == [] + fx;
    assert [] + fx == fx;
  }

  /** How the run ended, as it reports it. */
  datatype Outcome = Updated | NoNewData | NoInitialData

  /** `os.listdir`: the names in the directory, each once, in no particular order. */
  method ListDir(files: map<string, Snapshot>) returns (names: seq<string>)
    ensures Distinct(names)
    ensures forall n :: n in names <==> n in files
  {
    names := [];
    var rest := files.Keys;
    while rest != {}
      invariant rest <= files.Keys
      invariant forall n :: n in names ==> n in files && n !in rest
      invariant forall n :: n in files ==> n in names || n in rest
      invariant Distinct(names)
      decreases |rest|
    {
      var n :| n in rest;
      names := names + [n];
      rest := rest - {n};
    }
  }

  /** Concatenation of the per-file frames. */
  function Concat(batches: seq<seq<Row>>): seq<Row>
  {
    if batches == [] then [] else Concat(batches[..|batches| - 1]) + batches[|batches| - 1]
  }

  lemma ConcatSnoc(batches: seq<seq<Row>>, df: seq<Row>)
    ensures Concat(batches + [df]) == Concat(batches) + df
  {
    assert (batches + [df])[..|batches|] == batches;
  }

  /** Frames that are all non-empty concatenate to nothing only when there are none. */
  lemma ConcatEmpty(batches: seq<seq<Row>>)
    requires [] !in batches
    ensures Concat(batches) == [] <==> batches == []
  {
  }

  /** Visiting one more directory entry appends that entry's rows. */
  lemma NewRowsStep(existing: set<Date>, files: map<string, Snapshot>, order: seq<string>, i: nat)
    requires i < |order|
    requires forall k :: 0 <= k < |order| ==> order[k] in files
    ensures NewRows(existing, files, order[..i + 1]) == NewRows(existing, files, order[..i]) + FileContribution(existing, files, order[i])
  {
    assert order[..i + 1][..i] == order[..i];
  }

  /** `sorted(os.listdir(...))`. */
  method SortedDir(files: map<string, Snapshot>) returns (names: seq<string>)
    ensures names == SortedListing(files.Keys)
  {
    var listing := ListDir(files);
    names := Sort(listing);
    SortIsSortedListing(listing, files.Keys);
  }

  /**
   * One turn of the loop of `update_aggregated_csv`: an entry that is not `.geojson` or whose
   * date the table holds is skipped; any other is handed to `process_geojson`.
   */
  method VisitEntry(existingDates: set<Date>, files: map<string, Snapshot>, file: string) returns (df: seq<Row>)
    requires file in files && '/' !in file
    ensures df == FileContribution(existingDates, files, file)
  {
    df := [];
    if IsGeojsonName(file) {
      var fullPath := JoinPath(OutputDir, file);
      var fileDate := ExtractDateFromFilename(file);
      if fileDate.Some? && fileDate.value in existingDates {
        return;
      }
      var loaded;
      df, loaded := ProcessGeojson(fullPath, files[file]);
      DateDependsOnlyOnBasename(OutputDir, file);
    }
  }

  /**
   * The loop of `update_aggregated_csv` over the sorted directory: the non-empty frames of the
   * visited entries, in order.
   */
  method CollectNewRows(existingDates: set<Date>, files: map<string, Snapshot>, names: seq<string>) returns (newDataframes: seq<seq<Row>>)
    requires forall k :: 0 <= k < |names| ==> names[k] in files && '/' !in names[k]
    ensures Concat(newDataframes) == NewRows(existingDates, files, names)
    ensures [] !in newDataframes
  {
    newDataframes := [];
    for i := 0 to |names|
      invariant Concat(newDataframes) == NewRows(existingDates, files, names[..i])
      invariant [] !in newDataframes
    {
      NewRowsStep(existingDates, files, names, i);
      var df := VisitEntry(existingDates, files, names[i]);
      if df != [] {
        ConcatSnoc(newDataframes, df);
        newDataframes := newDataframes + [df];
      } else {
        assert Concat(newDataframes) + df == Concat(newDataframes);
      }
    }
    assert names[..|names|] == names;
  }

  /**
   * `update_aggregated_csv`: the dates in the table are taken once; the sorted directory is
   * walked and every `.geojson` file whose date the table does not hold is processed; the
   * table is written back only when some file produced rows.
   */
  method UpdateAggregatedCsv(csv: Option<seq<Row>>, files: map<string, Snapshot>) returns (newCsv: Option<seq<Row>>, outcome: Outcome)
    requires PlainNames(files)
    ensures newCsv == Aggregated(csv, files)
    ensures outcome == Updated <==> newCsv != csv
    ensures outcome == NoInitialData <==> csv.None? && newCsv.None?
    ensures csv.Some? ==> newCsv.Some? && csv.value <= newCsv.value
  {
    var existing: seq<Row>;
    var existingDates: set<Date>;
    if csv.Some? {
      existing := csv.value;
      existingDates := DatesOf(existing);
    } else {
      existing := [];
      existingDates := {};
    }
    assert existingDates == DatesOf(existing);
    var names := SortedDir(files);
    var newDataframes := CollectNewRows(existingDates, files, names);
    ConcatEmpty(newDataframes);
    if newDataframes != [] {
      var newDf := Concat(newDataframes);
      if existing == [] {
        assert existing + newDf == newDf;
        newCsv := Some(newDf);
      } else {
        newCsv := Some(existing + newDf);
      }
      outcome := Updated;
    } else {
      newCsv := csv;
      outcome := if csv.None? then NoInitialData else NoNewData;
    }
  }
}
