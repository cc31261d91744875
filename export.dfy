/**
 * The current version's exports (src/index.ts): after the median run is
 * flagged, the results are written as a comma-separated table, a
 * tab-separated table and a JSON document, each carrying an `isMedian` column.
 */
module Export {
  import opened Wrappers
  import opened Metrics
  import opened Median
  import opened Columns
  import opened Delimited
  import ExportV1

  /** The header lines, without the line break that ends them. */
  const CsvHeaderLine: string := "Run,FCP,LCP,TBT,CLS,SI,Score,isMedian"
  const TxtHeaderLine: string := "Run\tFCP\tLCP\tTBT\tCLS\tSI\tScore\tisMedian"

  /** `tableHeader` and `txtHeader`: a header line and a line break. */
  const CsvHeader: string := CsvHeaderLine + "\n"
  const TxtHeader: string := TxtHeaderLine + "\n"

  /** The eight column names: the seven shared ones, then `isMedian`. */
  const ColumnNames: seq<string> := MetricColumns + ["isMedian"]

  /** The eight values of one annotated run, in column order. */
  function Fields(a: Annotated, show: real -> string): (fields: seq<string>)
    ensures |fields| == |ColumnNames|
    ensures fields[..|MetricColumns|] == MetricFields(a.rec, show)
    ensures fields[|MetricColumns|] == (if a.isMedian then "true" else "false")
  {
    MetricFields(a.rec, show) + [BoolText(a.isMedian)]
  }

  /** One CSV row, written as the source's template literal. */
  function CsvRow(a: Annotated, show: real -> string): string {
    var f := Fields(a, show);
    f[0] + "," + f[1] + "," + f[2] + "," + f[3] + "," + f[4] + "," + f[5] + "," + f[6] + "," + f[7]
  }

  /** One TXT row, written as the source's template literal. */
  function TxtRow(a: Annotated, show: real -> string): string {
    var f := Fields(a, show);
    f[0] + "\t" + f[1] + "\t" + f[2] + "\t" + f[3] + "\t" + f[4] + "\t" + f[5] + "\t" + f[6] + "\t" + f[7]
  }

  function CsvRows(annotated: seq<Annotated>, show: real -> string): (rows: seq<string>)
    ensures |rows| == |annotated|
    ensures forall k :: 0 <= k < |annotated| ==> rows[k] == CsvRow(annotated[k], show)
  {
    seq(|annotated|, k requires 0 <= k < |annotated| => CsvRow(annotated[k], show))
  }

  function TxtRows(annotated: seq<Annotated>, show: real -> string): (rows: seq<string>)
    ensures |rows| == |annotated|
    ensures forall k :: 0 <= k < |annotated| ==> rows[k] == TxtRow(annotated[k], show)
  {
    seq(|annotated|, k requires 0 <= k < |annotated| => TxtRow(annotated[k], show))
  }

  /** `tableHeader + tableRows`. */
  function CsvTable(annotated: seq<Annotated>, show: real -> string): string {
    CsvHeader + Join(CsvRows(annotated, show), Newline)
  }

  /** `txtHeader + txtRows`. */
  function TxtTable(annotated: seq<Annotated>, show: real -> string): string {
    TxtHeader + Join(TxtRows(annotated, show), Newline)
  }

  /** What one session writes: the CSV text, the TXT text and the records the JSON document serialises. */
  datatype Reports = Reports(csv: string, txt: string, json: seq<Annotated>)

  /** The three exports of a finished session, all made from the same flagged results. */
  function SessionReports(results: seq<Metrics>, show: real -> string): (r: Reports)
    ensures r.json == AddMedianProperty(results)
    ensures |r.json| == |results|
    ensures forall k :: 0 <= k < |results| ==> r.json[k].rec == results[k]
  {
    var annotated := AddMedianProperty(results);
    Reports(CsvTable(annotated, show), TxtTable(annotated, show), annotated)
  }

  /** An eight-field template is the seven-field one followed by one more separator and field. */
  lemma EightFieldsJoined(f: seq<string>, sep: char)
    requires |f| == 8
    ensures Join(f, sep) == f[0] + [sep] + f[1] + [sep] + f[2] + [sep] + f[3] + [sep] + f[4] + [sep] + f[5] + [sep] + f[6] + [sep] + f[7]
  {
    ExportV1.SevenFieldsJoined(f[..7], sep);
    JoinSnoc(f[..7], f[7], sep);
    assert f[..7] + [f[7]] == f;
  }

  /** The rows hold the run's eight values in column order, each split at its own separator. */
  lemma RowFields(a: Annotated, show: real -> string)
    requires PlainText(show)
    ensures Split(CsvRow(a, show), Comma) == Fields(a, show)
    ensures Split(TxtRow(a, show), Tab) == Fields(a, show)
  {
    var f := Fields(a, show);
    EightFieldsJoined(f, Comma);
    EightFieldsJoined(f, Tab);
    assert CsvRow(a, show) == Join(f, Comma);
    assert TxtRow(a, show) == Join(f, Tab);
    MetricFieldsPlain(a.rec, show);
    assert forall k :: 0 <= k < 7 ==> f[k] == MetricFields(a.rec, show)[k];
    SplitJoin(f, Comma);
    SplitJoin(f, Tab);
  }

  /** The current rows are the earlier version's rows with the `isMedian` value appended. */
  lemma RowExtendsV1(a: Annotated, show: real -> string)
    ensures CsvRow(a, show) == ExportV1.CsvRowV1(a.rec, show) + "," + BoolText(a.isMedian)
    ensures TxtRow(a, show) == ExportV1.TxtRowV1(a.rec, show) + "\t" + BoolText(a.isMedian)
  {
    var f := Fields(a, show);
    assert forall k :: 0 <= k < 7 ==> f[k] == MetricFields(a.rec, show)[k];
  }

  /** The CSV header line names the seven shared columns and then `isMedian`. */
  lemma CsvHeaderColumns()
    ensures CsvHeaderLine == Join(ColumnNames, Comma)
  {
    ExportV1.CsvHeaderV1Columns();
    JoinSnoc(MetricColumns, "isMedian", Comma);
  }

  /** The TXT header line names the seven shared columns and then `isMedian`. */
  lemma TxtHeaderColumns()
    ensures TxtHeaderLine == Join(ColumnNames, Tab)
  {
    ExportV1.TxtHeaderV1Columns();
    JoinSnoc(MetricColumns, "isMedian", Tab);
  }

  lemma HeaderPlain()
    ensures Newline !in CsvHeaderLine && Newline !in TxtHeaderLine
  {
  }

  lemma RowPlain(a: Annotated, show: real -> string)
    requires PlainText(show)
    ensures Newline !in CsvRow(a, show) && Newline !in TxtRow(a, show)
  {
    var f := Fields(a, show);
    MetricFieldsPlain(a.rec, show);
    assert forall k :: 0 <= k < 7 ==> f[k] == MetricFields(a.rec, show)[k];
    EightFieldsJoined(f, Comma);
    EightFieldsJoined(f, Tab);
    JoinPlain(f, Comma, Newline);
    JoinPlain(f, Tab, Newline);
  }

  /** The CSV table, line by line: the eight-column header, then one row per run in run order. */
  lemma CsvTableLines(annotated: seq<Annotated>, show: real -> string)
    requires PlainText(show)
    ensures Split(CsvTable(annotated, show), Newline)
            == [CsvHeaderLine] + (if annotated == [] then [""] else CsvRows(annotated, show))
  {
    var rows := CsvRows(annotated, show);
    forall k | 0 <= k < |rows| ensures Newline !in rows[k] {
      RowPlain(annotated[k], show);
    }
    HeaderPlain();
    assert CsvTable(annotated, show) == CsvHeaderLine + "\n" + Join(rows, Newline);
    TableLines(CsvHeaderLine, rows);
  }

  /** The TXT table, line by line: the eight-column header, then one row per run in run order. */
  lemma TxtTableLines(annotated: seq<Annotated>, show: real -> string)
    requires PlainText(show)
    ensures Split(TxtTable(annotated, show), Newline)
            == [TxtHeaderLine] + (if annotated == [] then [""] else TxtRows(annotated, show))
  {
    var rows := TxtRows(annotated, show);
    forall k | 0 <= k < |rows| ensures Newline !in rows[k] {
      RowPlain(annotated[k], show);
    }
    HeaderPlain();
    assert TxtTable(annotated, show) == TxtHeaderLine + "\n" + Join(rows, Newline);
    TableLines(TxtHeaderLine, rows);
  }

  /** Read back at its commas, the CSV header line gives the eight column names. */
  lemma CsvHeaderSplit()
    ensures Split(CsvHeaderLine, Comma) == ColumnNames
  {
    CsvHeaderColumns();
    SplitJoin(ColumnNames, Comma);
  }

  /** Read back at its tabs, the TXT header line gives the eight column names. */
  lemma TxtHeaderSplit()
    ensures Split(TxtHeaderLine, Tab) == ColumnNames
  {
    TxtHeaderColumns();
    SplitJoin(ColumnNames, Tab);
  }

  /** The TXT table carries, line for line, the same values as the CSV table, split at tabs instead of commas. */
  lemma TxtTableMatchesCsv(annotated: seq<Annotated>, show: real -> string)
    requires PlainText(show)
    ensures var csv, txt := Split(CsvTable(annotated, show), Newline), Split(TxtTable(annotated, show), Newline);
            && |csv| == |txt|
            && forall k :: 0 <= k < |csv| ==> SameFields(csv[k], txt[k])
  {
    CsvTableLines(annotated, show);
    TxtTableLines(annotated, show);
    CsvHeaderSplit();
    TxtHeaderSplit();
    var csvRows, txtRows := CsvRows(annotated, show), TxtRows(annotated, show);
    forall k | 0 <= k < |csvRows| ensures SameFields(csvRows[k], txtRows[k]) {
      RowFields(annotated[k], show);
    }
    LinesAgree(CsvHeaderLine, TxtHeaderLine, csvRows, txtRows);
  }

  /** The last field of a line, split at sep. */
  function LastField(line: string, sep: char): string {
    var f := Split(line, sep);
    f[|f| - 1]
  }

  /** Reading a table back: the last field of every line after the header. */
  function LastColumn(table: string, sep: char): seq<string> {
    var lines := Split(table, Newline);
    seq(|lines| - 1, k requires 0 <= k < |lines| - 1 => LastField(lines[k + 1], sep))
  }

  /** The last field of a row is its `isMedian` value. */
  lemma RowLastField(a: Annotated, show: real -> string)
    requires PlainText(show)
    ensures LastField(CsvRow(a, show), Comma) == BoolText(a.isMedian)
    ensures LastField(TxtRow(a, show), Tab) == BoolText(a.isMedian)
  {
    RowFields(a, show);
  }

  /** The last column of a table whose lines are a header and rows is the rows' last fields. */
  lemma ColumnOfRows(table: string, sep: char, header: string, rows: seq<string>)
    requires Split(table, Newline) == [header] + rows
    ensures |LastColumn(table, sep)| == |rows|
    ensures forall k :: 0 <= k < |rows| ==> LastColumn(table, sep)[k] == LastField(rows[k], sep)
  {
    var lines := Split(table, Newline);
    forall k | 0 <= k < |rows| ensures LastColumn(table, sep)[k] == LastField(rows[k], sep) {
      assert lines[k + 1] == rows[k];
    }
  }

  /** The `isMedian` column of the CSV table reads back, run by run, the flag of that run. */
  lemma CsvFlagColumn(annotated: seq<Annotated>, show: real -> string)
    requires PlainText(show)
    requires annotated != []
    ensures |LastColumn(CsvTable(annotated, show), Comma)| == |annotated|
    ensures forall k :: 0 <= k < |annotated| ==>
              LastColumn(CsvTable(annotated, show), Comma)[k] == BoolText(annotated[k].isMedian)
  {
    CsvTableLines(annotated, show);
    var rows := CsvRows(annotated, show);
    ColumnOfRows(CsvTable(annotated, show), Comma, CsvHeaderLine, rows);
    forall k | 0 <= k < |annotated| ensures LastField(rows[k], Comma) == BoolText(annotated[k].isMedian) {
      RowLastField(annotated[k], show);
    }
  }

  /** The `isMedian` column of the TXT table reads back, run by run, the flag of that run. */
  lemma TxtFlagColumn(annotated: seq<Annotated>, show: real -> string)
    requires PlainText(show)
    requires annotated != []
    ensures |LastColumn(TxtTable(annotated, show), Tab)| == |annotated|
    ensures forall k :: 0 <= k < |annotated| ==>
              LastColumn(TxtTable(annotated, show), Tab)[k] == BoolText(annotated[k].isMedian)
  {
    TxtTableLines(annotated, show);
    var rows := TxtRows(annotated, show);
    ColumnOfRows(TxtTable(annotated, show), Tab, TxtHeaderLine, rows);
    forall k | 0 <= k < |annotated| ensures LastField(rows[k], Tab) == BoolText(annotated[k].isMedian) {
      RowLastField(annotated[k], show);
    }
  }

  /**
   * In the CSV and TXT exports of a session, the `isMedian` column says "true"
   * on exactly the first run whose score is the median score, and "false" on
   * every other run.
   */
  lemma ReportsMarkMedian(results: seq<Metrics>, show: real -> string)
    requires PlainText(show)
    requires results != []
    ensures var r := SessionReports(results, show);
            var csv, txt := LastColumn(r.csv, Comma), LastColumn(r.txt, Tab);
            && |csv| == |results| && |txt| == |results|
            && forall k :: 0 <= k < |results| ==>
                 && csv[k] == txt[k]
                 && (csv[k] == "true" || csv[k] == "false")
                 && (csv[k] == "true" <==>
                       && MedianScore(Scores(results)) == Some(results[k].score)
                       && forall j :: 0 <= j < k ==> results[j].score != results[k].score)
  {
    var annotated := AddMedianProperty(results);
    var r := SessionReports(results, show);
    assert r.csv == CsvTable(annotated, show) && r.txt == TxtTable(annotated, show);
    CsvFlagColumn(annotated, show);
    TxtFlagColumn(annotated, show);
    var csv, txt := LastColumn(r.csv, Comma), LastColumn(r.txt, Tab);
    forall k | 0 <= k < |results|
      ensures && csv[k] == txt[k]
              && (csv[k] == "true" || csv[k] == "false")
              && (csv[k] == "true" <==>
                    && MedianScore(Scores(results)) == Some(results[k].score)
                    && forall j :: 0 <= j < k ==> results[j].score != results[k].score)
    {
      assert csv[k] == txt[k] == BoolText(annotated[k].isMedian);
      FlaggedIff(results, k);
    }
  }

  /** Flags written from records of which exactly one is flagged read "true" once and "false" everywhere else. */
  lemma OneTrueFlag(flags: seq<string>, annotated: seq<Annotated>, k: nat)
    requires |flags| == |annotated| && k < |annotated|
    requires forall j :: 0 <= j < |flags| ==> flags[j] == BoolText(annotated[j].isMedian)
    requires annotated[k].isMedian
    requires forall j :: 0 <= j < |annotated| && j != k ==> !annotated[j].isMedian
    ensures exists i :: 0 <= i < |flags| && flags[i] == "true" &&
              forall j :: 0 <= j < |flags| && j != i ==> flags[j] == "false"
  {
    assert flags[k] == "true";
  }

  /** With an odd number of runs, exactly one run of the CSV export is marked as the median. */
  lemma OddSessionMarksOneRun(results: seq<Metrics>, show: real -> string)
    requires PlainText(show)
    requires |results| % 2 == 1
    ensures var flags := LastColumn(SessionReports(results, show).csv, Comma);
            exists k :: 0 <= k < |flags| && flags[k] == "true" &&
              forall j :: 0 <= j < |flags| && j != k ==> flags[j] == "false"
  {
    var annotated := AddMedianProperty(results);
    OddCountFlagsOne(results);
    var k :| 0 <= k < |annotated| && annotated[k].isMedian;
    CsvMarksOne(annotated, show, k);
    assert SessionReports(results, show).csv == CsvTable(annotated, show);
  }

  /** A CSV table of records of which exactly one is flagged marks exactly one line. */
  lemma CsvMarksOne(annotated: seq<Annotated>, show: real -> string, k: nat)
    requires PlainText(show)
    requires k < |annotated| && annotated[k].isMedian
    requires forall j :: 0 <= j < |annotated| && j != k ==> !annotated[j].isMedian
    ensures var flags := LastColumn(CsvTable(annotated, show), Comma);
            exists i :: 0 <= i < |flags| && flags[i] == "true" &&
              forall j :: 0 <= j < |flags| && j != i ==> flags[j] == "false"
  {
    CsvFlagColumn(annotated, show);
    OneTrueFlag(LastColumn(CsvTable(annotated, show), Comma), annotated, k);
  }
}
