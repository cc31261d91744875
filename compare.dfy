/**
 * The comparison tool (src/compare-medians.ts): it finds the median record in
 * two sessions' JSON exports and tabulates, metric by metric, the value before,
 * the value after, the percentage change and a colour saying whether the
 * change is an improvement.
 */
module CompareMedians {
  import opened Wrappers
  import opened Metrics
  import opened JsNumber
  import Median
  import Export

  /** The six compared metrics. */
  datatype MetricName = Fcp | Lcp | Tbt | Cls | Si | Score

  /** The table's rows, in this order. */
  const Compared: seq<MetricName> := [Fcp, Lcp, Tbt, Cls, Si, Score]

  /** The record key of each metric. */
  function Key(m: MetricName): string {
    match m
    case Fcp => "fcp"
    case Lcp => "lcp"
    case Tbt => "tbt"
    case Cls => "cls"
    case Si => "si"
    case Score => "score"
  }

  /** `toUpperCase` on ASCII letters; every other character is kept. */
  function UpperCase(s: string): (u: string)
    ensures |u| == |s|
    ensures forall k :: 0 <= k < |s| ==>
              u[k] == (if 'a' <= s[k] <= 'z' then (s[k] as int - 'a' as int + 'A' as int) as char else s[k])
  {
    if s == [] then []
    else [if 'a' <= s[0] <= 'z' then (s[0] as int - 'a' as int + 'A' as int) as char else s[0]] + UpperCase(s[1..])
  }

  /** The row label: the upper-cased key. */
  function Label(m: MetricName): string {
    UpperCase(Key(m))
  }

  /** `preMedian[metric]`. */
  function Value(rec: Metrics, m: MetricName): real {
    match m
    case Fcp => rec.fcp
    case Lcp => rec.lcp
    case Tbt => rec.tbt
    case Cls => rec.cls
    case Si => rec.si
    case Score => rec.score
  }

  /**
   * percentDiff: the change from pre to post in percent of pre; a change from
   * zero counts as 100 percent, no change from zero as 0.
   */
  function PercentDiff(pre: real, post: real): (r: real)
    ensures r == 0.0 <==> post == pre
    ensures pre == 0.0 && post != 0.0 ==> r == 100.0
    ensures pre != 0.0 ==> post == pre + pre * r / 100.0
    ensures pre > 0.0 ==> (r > 0.0 <==> post > pre) && (r < 0.0 <==> post < pre)
  {
    if pre == 0.0 then (if post == 0.0 then 0.0 else 100.0)
    else (post - pre) / pre * 100.0
  }

  /** The colours a change is shown in. */
  datatype Color = Black | Green | Red

  /** Only the score improves by going up; every timing and the layout shift improve by going down. */
  predicate HigherIsBetter(m: MetricName) {
    m == Score
  }

  /** Going from pre to post improves metric m. */
  predicate Improves(m: MetricName, pre: real, post: real) {
    if HigherIsBetter(m) then post > pre else post < pre
  }

  /** The colour of a change: black when there is none, green or red by direction and metric. */
  function ColorFor(m: MetricName, diff: real): (c: Color)
    ensures c == Black <==> diff == 0.0
    ensures c != Black ==> (c == Green <==> (diff > 0.0 <==> HigherIsBetter(m)))
  {
    if diff == 0.0 then Black
    else if m == Score then (if diff > 0.0 then Green else Red)
    else (if diff < 0.0 then Green else Red)
  }

  /** From a positive baseline, green means the metric improved, red that it got worse, black that it did not move. */
  lemma ColorMeansImprovement(m: MetricName, pre: real, post: real)
    requires pre > 0.0
    ensures ColorFor(m, PercentDiff(pre, post)) == Green <==> Improves(m, pre, post)
    ensures ColorFor(m, PercentDiff(pre, post)) == Red <==> Improves(m, post, pre)
    ensures ColorFor(m, PercentDiff(pre, post)) == Black <==> pre == post
  {
  }

  /** From a zero baseline any change counts as +100%: green for the score, red for every other metric. */
  lemma ZeroBaselineColor(m: MetricName, post: real)
    requires post != 0.0
    ensures PercentDiff(0.0, post) == 100.0
    ensures ColorFor(m, PercentDiff(0.0, post)) == (if HigherIsBetter(m) then Green else Red)
  {
  }

  /** `toFixed(2)` is off by at most half a hundredth. */
  lemma HundredthBound(x: real)
    ensures Abs(ToFixed(x, 2) - x) <= 0.005
  {
    assert Pow10(2) == 100.0;
  }

  /** Going from 70 to 85 is a change of 150/7 percent (about +21.43); from 2000 to 1500 one of -25 percent. */
  lemma PercentDiffExamples()
    ensures PercentDiff(70.0, 85.0) == 150.0 / 7.0
    ensures PercentDiff(2000.0, 1500.0) == -25.0
  {
  }

  /** One table row: label, before, after and change as `toFixed(2)` shows them, and the change's colour. */
  datatype Row = Row(name: string, before: real, after: real, change: real, color: Color)

  function CompareRow(pre: Metrics, post: Metrics, m: MetricName): (row: Row)
    ensures row.name == Label(m)
    ensures Abs(row.before - Value(pre, m)) <= 0.005 && Abs(row.after - Value(post, m)) <= 0.005
    ensures Abs(row.change - PercentDiff(Value(pre, m), Value(post, m))) <= 0.005
    ensures row.color == ColorFor(m, PercentDiff(Value(pre, m), Value(post, m)))
    ensures (row.color == Black) <==> (Value(pre, m) == Value(post, m))
  {
    var preVal, postVal := Value(pre, m), Value(post, m);
    var diff := PercentDiff(preVal, postVal);
    HundredthBound(preVal);
    HundredthBound(postVal);
    HundredthBound(diff);
    Row(Label(m), ToFixed(preVal, 2), ToFixed(postVal, 2), ToFixed(diff, 2), ColorFor(m, diff))
  }

  /** The table body: one row per compared metric, in the fixed order. */
  function ComparisonRows(pre: Metrics, post: Metrics): (rows: seq<Row>)
    ensures |rows| == |Compared|
    ensures forall k :: 0 <= k < |rows| ==> rows[k] == CompareRow(pre, post, Compared[k])
  {
    seq(|Compared|, k requires 0 <= k < |Compared| => CompareRow(pre, post, Compared[k]))
  }

  /**
   * A change too small to show at two decimals is still coloured: 100000 to
   * 100001 on a lower-is-better metric reads as a 0.00% change in red.
   */
  lemma InvisibleChangeIsColoured(pre: Metrics, post: Metrics, m: MetricName)
    requires m != Score
    requires Value(pre, m) == 100000.0 && Value(post, m) == 100001.0
    ensures CompareRow(pre, post, m).change == 0.0
    ensures CompareRow(pre, post, m).color == Red
  {
    var diff := PercentDiff(100000.0, 100001.0);
    assert diff == 0.001;
    assert Pow10(2) == 100.0;
    var n := Digits(diff, Pow10(2));
    assert n == 0;
  }

  /** The table has six rows labelled FCP, LCP, TBT, CLS, SI and SCORE, in that order. */
  lemma RowLabels(pre: Metrics, post: Metrics)
    ensures var rows := ComparisonRows(pre, post);
            && |rows| == 6
            && rows[0].name == "FCP" && rows[1].name == "LCP" && rows[2].name == "TBT"
            && rows[3].name == "CLS" && rows[4].name == "SI" && rows[5].name == "SCORE"
  {
    var rows := ComparisonRows(pre, post);
    assert Compared == [Fcp, Lcp, Tbt, Cls, Si, Score];
    assert rows[0].name == Label(Fcp) && rows[1].name == Label(Lcp) && rows[2].name == Label(Tbt);
    assert rows[3].name == Label(Cls) && rows[4].name == Label(Si) && rows[5].name == Label(Score);
    LabelsSpelled();
  }

  lemma LabelsSpelled()
    ensures Label(Fcp) == "FCP" && Label(Lcp) == "LCP" && Label(Tbt) == "TBT"
    ensures Label(Cls) == "CLS" && Label(Si) == "SI" && Label(Score) == "SCORE"
  {
    var fcp, lcp, tbt, cls, si, score := Label(Fcp), Label(Lcp), Label(Tbt), Label(Cls), Label(Si), Label(Score);
    assert fcp[0] == 'F' && fcp[1] == 'C' && fcp[2] == 'P';
    assert lcp[0] == 'L' && lcp[1] == 'C' && lcp[2] == 'P';
    assert tbt[0] == 'T' && tbt[1] == 'B' && tbt[2] == 'T';
    assert cls[0] == 'C' && cls[1] == 'L' && cls[2] == 'S';
    assert si[0] == 'S' && si[1] == 'I';
    assert score[0] == 'S' && score[1] == 'C' && score[2] == 'O' && score[3] == 'R' && score[4] == 'E';
  }

  /**
   * getMedianMetrics: the first record flagged as the median, or nothing when
   * no record is flagged.
   */
  function GetMedianMetrics(data: seq<Annotated>): (r: Option<Annotated>)
    ensures r.None? <==> forall k :: 0 <= k < |data| ==> !data[k].isMedian
    ensures r.Some? ==> exists i :: 0 <= i < |data| && data[i] == r.value && data[i].isMedian &&
                          forall j :: 0 <= j < i ==> !data[j].isMedian
  {
    if data == [] then None
    else if data[0].isMedian then Some(data[0])
    else
      var rest := GetMedianMetrics(data[1..]);
      assert rest.Some? ==> exists i :: 0 <= i < |data| && data[i] == rest.value && data[i].isMedian &&
                              forall j :: 0 <= j < i ==> !data[j].isMedian
        by {
          if rest.Some? {
            var i :| 0 <= i < |data[1..]| && data[1..][i] == rest.value && data[1..][i].isMedian &&
                     forall j :: 0 <= j < i ==> !data[1..][j].isMedian;
            assert forall j :: 1 <= j < i + 1 ==> !data[j].isMedian by {
              forall j | 1 <= j < i + 1 ensures !data[j].isMedian {
                assert data[j] == data[1..][j - 1];
              }
            }
          }
        }
      assert rest.None? ==> forall k :: 0 <= k < |data| ==> !data[k].isMedian by {
        if rest.None? {
          forall k | 1 <= k < |data| ensures !data[k].isMedian {
            assert data[k] == data[1..][k - 1];
          }
        }
      }
      rest
  }

  datatype CompareError = MissingMedian

  /** What the tool renders: the description and the table rows. */
  datatype Comparison = Comparison(description: string, rows: seq<Row>)

  /**
   * The comparison step of `main`: both medians must be found, otherwise the
   * tool stops with an error; then the rows compare the two median records.
   */
  function CompareMain(preData: seq<Annotated>, postData: seq<Annotated>, description: string): (r: Result<Comparison, CompareError>)
    ensures r.Success? <==>
              (exists k :: 0 <= k < |preData| && preData[k].isMedian) &&
              (exists k :: 0 <= k < |postData| && postData[k].isMedian)
    ensures r.Success? ==>
              && r.value.description == description
              && r.value.rows == ComparisonRows(GetMedianMetrics(preData).value.rec, GetMedianMetrics(postData).value.rec)
  {
    match (GetMedianMetrics(preData), GetMedianMetrics(postData))
    case (Some(preMedian), Some(postMedian)) =>
      Success(Comparison(description, ComparisonRows(preMedian.rec, postMedian.rec)))
    case _ => Failure(MissingMedian)
  }

  /** When exactly one record is flagged, getMedianMetrics finds that one. */
  lemma FindsOnlyFlagged(data: seq<Annotated>, i: nat)
    requires i < |data| && data[i].isMedian
    requires forall j :: 0 <= j < |data| && data[j].isMedian ==> j == i
    ensures GetMedianMetrics(data) == Some(data[i])
  {
    var found := GetMedianMetrics(data);
    var i' :| 0 <= i' < |data| && data[i'] == found.value && data[i'].isMedian && forall j :: 0 <= j < i' ==> !data[j].isMedian;
  }

  /** In a session's JSON export, the flagged record is the one getMedianMetrics finds. */
  lemma FindsFlagged(results: seq<Metrics>, show: real -> string, i: nat)
    requires i < |results| && Export.SessionReports(results, show).json[i].isMedian
    ensures GetMedianMetrics(Export.SessionReports(results, show).json) == Some(Export.SessionReports(results, show).json[i])
  {
    var a := Export.SessionReports(results, show).json;
    assert a == Median.AddMedianProperty(results);
    FindsOnlyFlagged(a, i);
  }

  /**
   * Comparing the JSON exports of two sessions with an odd number of runs each
   * always succeeds, and compares the runs whose scores are the middle sorted
   * scores of their sessions.
   */
  lemma OddSessionsCompare(pre: seq<Metrics>, post: seq<Metrics>, show: real -> string, description: string)
    requires |pre| % 2 == 1 && |post| % 2 == 1
    ensures var r := CompareMain(Export.SessionReports(pre, show).json, Export.SessionReports(post, show).json, description);
            && r.Success?
            && r.value.description == description
            && r.value.rows == ComparisonRows(pre[MedianRun(pre)], post[MedianRun(post)])
            && pre[MedianRun(pre)].score == Median.SortAscending(Median.Scores(pre))[|pre| / 2]
            && post[MedianRun(post)].score == Median.SortAscending(Median.Scores(post))[|post| / 2]
  {
    var i, j := MedianRun(pre), MedianRun(post);
    var a, b := Export.SessionReports(pre, show).json, Export.SessionReports(post, show).json;
    assert a == Median.AddMedianProperty(pre) && b == Median.AddMedianProperty(post);
    FindsFlagged(pre, show, i);
    FindsFlagged(post, show, j);
    assert GetMedianMetrics(a).value.rec == pre[i] && GetMedianMetrics(b).value.rec == post[j];
  }

  /** For an odd number of runs, the index of the run flagged as the median. */
  function MedianRun(results: seq<Metrics>): (i: nat)
    requires |results| % 2 == 1
    ensures i < |results| && Median.AddMedianProperty(results)[i].isMedian
    ensures results[i].score == Median.SortAscending(Median.Scores(results))[|results| / 2]
  {
    Median.OddCountFlagsExactlyOne(results);
    var a := Median.AddMedianProperty(results);
    var i :| 0 <= i < |a| && a[i].isMedian && results[i].score == Median.SortAscending(Median.Scores(results))[|results| / 2];
    i
  }

  /** A session of four runs scoring 70, 80, 90 and 100 flags no median, so comparing against it fails. */
  lemma UnflaggedSessionFails(pre: seq<Metrics>, show: real -> string, post: seq<Annotated>, description: string)
    requires |pre| == 4
    requires pre[0].score == 70.0 && pre[1].score == 80.0 && pre[2].score == 90.0 && pre[3].score == 100.0
    ensures CompareMain(Export.SessionReports(pre, show).json, post, description) == Failure(MissingMedian)
  {
    assert Export.SessionReports(pre, show).json == Median.AddMedianProperty(pre);
    Median.FourRunExample(pre);
  }
}
