/**
 * The columns both versions of the tool export for a run: the run number, the
 * five timings and layout shift rounded as the tables show them, and the score.
 * Turning a number into text is left abstract: `show` stands for JavaScript's
 * number-to-string conversion inside a template literal.
 */
module Columns {
  import opened Metrics
  import opened JsNumber
  import Delimited

  /** Milliseconds per second; FCP, LCP and SI are exported in seconds. */
  const Ms: real := 1000.0

  const Comma: char := ','
  const Tab: char := '\t'
  const Newline: char := '\n'

  /** Number-to-text never yields a comma, a tab or a line break. */
  ghost predicate PlainText(show: real -> string) {
    forall x :: Comma !in show(x) && Tab !in show(x) && Newline !in show(x)
  }

  /** A CSV line and a TXT line carry the same fields, split at their own separators. */
  predicate SameFields(csvLine: string, txtLine: string) {
    Delimited.Split(csvLine, Comma) == Delimited.Split(txtLine, Tab)
  }

  /** The seven column names shared by both versions' headers. */
  const MetricColumns: seq<string> := ["Run", "FCP", "LCP", "TBT", "CLS", "SI", "Score"]

  /** The seven values of one run, in column order, as the row templates write them. */
  function MetricFields(m: Metrics, show: real -> string): (fields: seq<string>)
    ensures |fields| == |MetricColumns|
  {
    [ show(m.run as real),
      show(FormatValue(m.fcp / Ms, 1)),
      show(FormatValue(m.lcp / Ms, 1)),
      show(FormatValue(m.tbt, 0)),
      show(FormatValue(m.cls, 3)),
      show(FormatValue(m.si / Ms, 1)),
      show(m.score) ]
  }

  /** What the columns mean: FCP, LCP and SI in seconds to one decimal, TBT to none, CLS to three, Score as measured. */
  lemma MetricFieldsMeaning(m: Metrics, show: real -> string)
    ensures MetricFields(m, show) ==
              [ show(m.run as real),
                show(ToFixed(m.fcp / 1000.0, 1)),
                show(ToFixed(m.lcp / 1000.0, 1)),
                show(ToFixed(m.tbt, 0)),
                show(ToFixed(m.cls, 3)),
                show(ToFixed(m.si / 1000.0, 1)),
                show(m.score) ]
  {
    FormatValueIsToFixed(m.fcp / Ms, 1);
    FormatValueIsToFixed(m.lcp / Ms, 1);
    FormatValueIsToFixed(m.tbt, 0);
    FormatValueIsToFixed(m.cls, 3);
    FormatValueIsToFixed(m.si / Ms, 1);
  }

  /** `${isMedian}` for a boolean. */
  function BoolText(b: bool): (s: string)
    ensures s == "true" || s == "false"
    ensures s == "true" <==> b
    ensures Comma !in s && Tab !in s && Newline !in s
  {
    if b then "true" else "false"
  }

  lemma MetricFieldsPlain(m: Metrics, show: real -> string)
    requires PlainText(show)
    ensures forall k :: 0 <= k < |MetricFields(m, show)| ==>
              Comma !in MetricFields(m, show)[k] && Tab !in MetricFields(m, show)[k] && Newline !in MetricFields(m, show)[k]
  {
  }

  /**
   * Read line by line, a table is its header line followed by its rows in
   * order; with no rows the header is followed by one empty line.
   */
  lemma TableLines(header: string, rows: seq<string>)
    requires Newline !in header
    requires forall k :: 0 <= k < |rows| ==> Newline !in rows[k]
    ensures Delimited.Split(header + "\n" + Delimited.Join(rows, Newline), Newline) == [header] + (if rows == [] then [""] else rows)
  {
    assert header + "\n" + Delimited.Join(rows, Newline) == header + [Newline] + Delimited.Join(rows, Newline);
    Delimited.SplitAtSeparator(header, Delimited.Join(rows, Newline), Newline);
    if rows == [] {
    } else {
      Delimited.SplitJoin(rows, Newline);
    }
  }

  /** Two tables agree line for line when their headers and their rows do. */
  lemma LinesAgree(csvHeader: string, txtHeader: string, csvRows: seq<string>, txtRows: seq<string>)
    requires SameFields(csvHeader, txtHeader)
    requires |csvRows| == |txtRows|
    requires forall k :: 0 <= k < |csvRows| ==> SameFields(csvRows[k], txtRows[k])
    ensures var csv, txt := [csvHeader] + (if csvRows == [] then [""] else csvRows), [txtHeader] + (if txtRows == [] then [""] else txtRows);
            && |csv| == |txt|
            && forall k :: 0 <= k < |csv| ==> SameFields(csv[k], txt[k])
  {
    var csv, txt := [csvHeader] + (if csvRows == [] then [""] else csvRows), [txtHeader] + (if txtRows == [] then [""] else txtRows);
    forall k | 0 <= k < |csv| ensures SameFields(csv[k], txt[k]) {
      if k == 0 {
        assert csv[k] == csvHeader && txt[k] == txtHeader;
      } else if csvRows == [] {
        assert csv[k] == "" && txt[k] == "";
      } else {
        assert csv[k] == csvRows[k - 1] && txt[k] == txtRows[k - 1];
      }
    }
  }
}
