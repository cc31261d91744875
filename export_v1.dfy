/**
 * The earlier version's tables (src/versions/index-v1.ts): a comma-separated
 * and a tab-separated table of seven columns, with no median column.
 */
module ExportV1 {
  import opened Metrics
  import opened Columns
  import opened Delimited

  /** The header lines, without the line break that ends them. */
  const CsvHeaderLineV1: string := "Run,FCP,LCP,TBT,CLS,SI,Score"
  const TxtHeaderLineV1: string := "Run\tFCP\tLCP\tTBT\tCLS\tSI\tScore"

  /** `tableHeader` and `txtHeader`: a header line and a line break. */
  const CsvHeaderV1: string := CsvHeaderLineV1 + "\n"
  const TxtHeaderV1: string := TxtHeaderLineV1 + "\n"

  /** One CSV row, written as the source's template literal. */
  function CsvRowV1(m: Metrics, show: real -> string): string {
    var f := MetricFields(m, show);
    f[0] + "," + f[1] + "," + f[2] + "," + f[3] + "," + f[4] + "," + f[5] + "," + f[6]
  }

  /** One TXT row, written as the source's template literal. */
  function TxtRowV1(m: Metrics, show: real -> string): string {
    var f := MetricFields(m, show);
    f[0] + "\t" + f[1] + "\t" + f[2] + "\t" + f[3] + "\t" + f[4] + "\t" + f[5] + "\t" + f[6]
  }

  function CsvRowsV1(results: seq<Metrics>, show: real -> string): (rows: seq<string>)
    ensures |rows| == |results|
    ensures forall k :: 0 <= k < |results| ==> rows[k] == CsvRowV1(results[k], show)
  {
    seq(|results|, k requires 0 <= k < |results| => CsvRowV1(results[k], show))
  }

  function TxtRowsV1(results: seq<Metrics>, show: real -> string): (rows: seq<string>)
    ensures |rows| == |results|
    ensures forall k :: 0 <= k < |results| ==> rows[k] == TxtRowV1(results[k], show)
  {
    seq(|results|, k requires 0 <= k < |results| => TxtRowV1(results[k], show))
  }

  /** `tableHeader + tableRows`: the header line, then the rows joined by line breaks. */
  function CsvTableV1(results: seq<Metrics>, show: real -> string): string {
    CsvHeaderV1 + Join(CsvRowsV1(results, show), Newline)
  }

  function TxtTableV1(results: seq<Metrics>, show: real -> string): string {
    TxtHeaderV1 + Join(TxtRowsV1(results, show), Newline)
  }

  /** A seven-field template is the seven fields joined by its separator. */
  lemma SevenFieldsJoined(f: seq<string>, sep: char)
    requires |f| == 7
    ensures Join(f, sep) == f[0] + [sep] + f[1] + [sep] + f[2] + [sep] + f[3] + [sep] + f[4] + [sep] + f[5] + [sep] + f[6]
  {
    assert f[..1] == [f[0]];
    JoinSnoc(f[..1], f[1], sep);
    assert f[..1] + [f[1]] == f[..2];
    JoinSnoc(f[..2], f[2], sep);
    assert f[..2] + [f[2]] == f[..3];
    JoinSnoc(f[..3], f[3], sep);
    assert f[..3] + [f[3]] == f[..4];
    JoinSnoc(f[..4], f[4], sep);
    assert f[..4] + [f[4]] == f[..5];
    JoinSnoc(f[..5], f[5], sep);
    assert f[..5] + [f[5]] == f[..6];
    JoinSnoc(f[..6], f[6], sep);
    assert f[..6] + [f[6]] == f;
  }

  /** The CSV and TXT rows hold the run's seven values in column order, each split at its own separator. */
  lemma RowV1Fields(m: Metrics, show: real -> string)
    requires PlainText(show)
    ensures Split(CsvRowV1(m, show), Comma) == MetricFields(m, show)
    ensures Split(TxtRowV1(m, show), Tab) == MetricFields(m, show)
  {
    var f := MetricFields(m, show);
    SevenFieldsJoined(f, Comma);
    SevenFieldsJoined(f, Tab);
    assert CsvRowV1(m, show) == Join(f, Comma);
    assert TxtRowV1(m, show) == Join(f, Tab);
    MetricFieldsPlain(m, show);
    SplitJoin(f, Comma);
    SplitJoin(f, Tab);
  }

  /** The CSV header line names exactly the seven columns Run, FCP, LCP, TBT, CLS, SI, Score, comma-separated. */
  lemma CsvHeaderV1Columns()
    ensures CsvHeaderLineV1 == Join(MetricColumns, Comma)
  {
  }

  /** The TXT header line names the same seven columns, tab-separated. */
  lemma TxtHeaderV1Columns()
    ensures TxtHeaderLineV1 == Join(MetricColumns, Tab)
  {
  }

  /** Read back at its commas, the CSV header line gives the seven column names. */
  lemma HeaderV1Split()
    ensures Split(CsvHeaderLineV1, Comma) == MetricColumns
  {
    CsvHeaderV1Columns();
    SplitJoin(MetricColumns, Comma);
  }

  /** Read back at its tabs, the TXT header line gives the seven column names. */
  lemma TxtHeaderV1Split()
    ensures Split(TxtHeaderLineV1, Tab) == MetricColumns
  {
    TxtHeaderV1Columns();
    SplitJoin(MetricColumns, Tab);
  }

  lemma HeaderV1Plain()
    ensures Newline !in CsvHeaderLineV1 && Newline !in TxtHeaderLineV1
  {
  }

  lemma RowV1Plain(m: Metrics, show: real -> string)
    requires PlainText(show)
    ensures Newline !in CsvRowV1(m, show) && Newline !in TxtRowV1(m, show)
  {
    var f := MetricFields(m, show);
    MetricFieldsPlain(m, show);
    SevenFieldsJoined(f, Comma);
    SevenFieldsJoined(f, Tab);
    JoinPlain(f, Comma, Newline);
    JoinPlain(f, Tab, Newline);
  }

  /** The CSV table, line by line: the seven-column header, then one row per result in result order. */
  lemma CsvTableV1Lines(results: seq<Metrics>, show: real -> string)
    requires PlainText(show)
    ensures Split(CsvTableV1(results, show), Newline)
            == [CsvHeaderLineV1] + (if results == [] then [""] else CsvRowsV1(results, show))
  {
    HeaderV1Plain();
    var rows := CsvRowsV1(results, show);
    forall k | 0 <= k < |rows| ensures Newline !in rows[k] {
      RowV1Plain(results[k], show);
    }
    assert CsvTableV1(results, show) == CsvHeaderLineV1 + "\n" + Join(rows, Newline);
    TableLines(CsvHeaderLineV1, rows);
  }

  /** The TXT table, line by line: the seven-column header, then one row per result in result order. */
  lemma TxtTableV1Lines(results: seq<Metrics>, show: real -> string)
    requires PlainText(show)
    ensures Split(TxtTableV1(results, show), Newline)
            == [TxtHeaderLineV1] + (if results == [] then [""] else TxtRowsV1(results, show))
  {
    HeaderV1Plain();
    var rows := TxtRowsV1(results, show);
    forall k | 0 <= k < |rows| ensures Newline !in rows[k] {
      RowV1Plain(results[k], show);
    }
    assert TxtTableV1(results, show) == TxtHeaderLineV1 + "\n" + Join(rows, Newline);
    TableLines(TxtHeaderLineV1, rows);
  }

  /** Both header lines split back into the same column names. */
  lemma HeaderLinesAgree()
    ensures SameFields(CsvHeaderLineV1, TxtHeaderLineV1)
  {
    HeaderV1Split();
    TxtHeaderV1Split();
  }

  /** The TXT table carries, line for line, the same values as the CSV table, split at tabs instead of commas. */
  lemma TxtTableV1MatchesCsv(results: seq<Metrics>, show: real -> string)
    requires PlainText(show)
    ensures var csv, txt := Split(CsvTableV1(results, show), Newline), Split(TxtTableV1(results, show), Newline);
            && |csv| == |txt|
            && forall k :: 0 <= k < |csv| ==> SameFields(csv[k], txt[k])
  {
    CsvTableV1Lines(results, show);
    TxtTableV1Lines(results, show);
    HeaderLinesAgree();
    var csvRows, txtRows := CsvRowsV1(results, show), TxtRowsV1(results, show);
    forall k | 0 <= k < |csvRows| ensures SameFields(csvRows[k], txtRows[k]) {
      RowV1Fields(results[k], show);
    }
    LinesAgree(CsvHeaderLineV1, TxtHeaderLineV1, csvRows, txtRows);
  }
}
