# lighthouse-automation, modelled in Dafny

lighthouse-automation is a command-line tool. It audits one URL several times
with Lighthouse and collects a record of metrics for every run: FCP, LCP, TBT,
CLS, SI and the performance score. It then flags the run whose score is the
median. The records are exported as CSV, as tab-separated text and (in the
current version) as JSON. A second tool reads two such JSON exports and builds
a before/after comparison of their median runs, with a percentage change and a
colour per metric.

This project models the deterministic logic between the tool's I/O calls and
proves what that logic promises:

- `Metrics`: the record read off a Lighthouse result, with its defaults
  (`src/index.ts`, `src/versions/index-v1.ts`).
- `JsNumber`: `Math.round`, `toFixed` followed by `parseFloat`, and
  `formatValue`, on exact reals.
- `Median`: `addMedianProperty`. It sorts a copy of the scores, takes the
  middle one (or the mean of the two middle ones) and flags the first run with
  that score.
- `Orchestrator`: the measurement loop of `main`, as the method `RunSession`.
  Lighthouse is the parameter `lighthouse`, a function from the run number to
  either a failure or a runner result. The two versions' loops behave the same,
  so one method models both.
- `Delimited`: `Array.prototype.join` on one separator character. The tool
  itself never splits text. `Split` is the inverse used to read rows and
  tables back: fields that do not contain the separator come back unchanged
  from the line they are joined into (`SplitJoin`).
- `Columns`: the seven metric values as both versions write them in a row,
  and the facts about reading any table back line by line that both
  versions' tables share.
- `Export`: the current version's CSV and TXT tables with the `isMedian`
  column, plus the JSON document, which is modelled as the annotated records
  (flagged or not) themselves.
- `ExportV1`: the earlier version's seven-column CSV and TXT tables.
- `CompareMedians`: `percentDiff`, the colour rule, the six-row table,
  `getMedianMetrics` and the missing-median check in `main`.

Numbers are Dafny `real`s, so all arithmetic is exact. Turning a number into
text is the parameter `show`. The table lemmas require only that `show` never
produces a comma, a tab or a line break (`Columns.PlainText`).

## Model

| member | source | states |
|---|---|---|
| Metrics.NumericOrZero | src/index.ts:64-68 | `numericValue \|\| 0`: an absent value reads as 0; a present one is kept |
| Metrics.ScorePercent | src/index.ts:69-71 | `score ? score * 100 : 0`; its values are stated by ScorePercentInRange |
| Metrics.ScorePercentInRange | src/index.ts:69-71 | for every score: a missing score becomes 0 and a present one is multiplied by 100 (a zero score, which the source treats as falsy, gives 0 either way); a score in [0, 1] becomes a percentage in [0, 100] |
| Metrics.ExtractMetrics | src/index.ts:59-72 | the record is built exactly when a runner result exists, it has all five audits and it has the performance category (otherwise the property read throws); on success the run number is kept, each timing is its audit's value or 0, and the score is the category score times 100 or 0; a missing-audit error names one of the five audits, and that audit is absent |
| Metrics.ExtractMetricsWellFormed | src/versions/index-v1.ts:45-56 | a result with non-negative audit values and a score in [0, 1] yields a record with non-negative timings and a score in [0, 100] |
| JsNumber.NearestInt | src/index.ts:148 | the result n satisfies n - 0.5 <= y < n + 0.5 |
| JsNumber.NearestIntIsNearest | src/index.ts:148 | no integer is nearer to y than `Math.round(y)`; of two equally near integers the larger is chosen (section 21.3.2.28 of ECMA-262) |
| JsNumber.NearestIntMonotone | src/versions/index-v1.ts:104 | rounding never decreases as its argument grows |
| JsNumber.Round | src/versions/index-v1.ts:104 | `Math.round(x)` is within 0.5 of x and never lies exactly 0.5 below it |
| JsNumber.ToFixed | src/index.ts:84 | `parseFloat(x.toFixed(f))` is within half a unit of the f-th decimal of x and keeps the sign of x |
| JsNumber.ToFixedKeepsDigits | src/index.ts:84 | below 10^21, toFixed keeps the integer nearest to x * 10^f, ties going up, scaled back by 10^f (section 21.1.3.3 of ECMA-262) |
| JsNumber.ToFixedIsSymmetric | src/index.ts:84 | a negated number is rounded as its magnitude, then given back its sign |
| JsNumber.FormatValue | src/index.ts:83-85 | `formatValue`: zero passes through and any other value goes through toFixed and parseFloat; FormatValueIsToFixed and FormatValueBound state what it gives |
| JsNumber.FormatValueIsToFixed | src/index.ts:83-85 | formatValue's zero passthrough gives the same value as rounding: formatValue is toFixed followed by parseFloat for every value, and formatValue(0, f) == 0 |
| JsNumber.FormatValueBound | src/versions/index-v1.ts:67-69 | a formatted value is within half a unit of its last kept decimal |
| Median.Insert | src/index.ts:90 | inserting into a sorted sequence keeps it sorted and adds exactly that element |
| Median.SortAscending | src/index.ts:90 | the sorted copy of the scores is ascending and is a permutation of them |
| Median.SortedUnique | src/index.ts:90 | two ascending permutations of the same scores are equal, so the sorted copy does not depend on the order of its input |
| Median.Scores | src/index.ts:90 | the mapped copy holds every run's score, in run order |
| Median.MedianScore | src/index.ts:90-97 | a median exists exactly when there is at least one score |
| Median.Middle | src/index.ts:92-97 | a middle value exists exactly for a non-empty sorted sequence |
| Median.FirstWithScore | src/index.ts:102 | `findIndex`: the index found has the score, no earlier run has it, and nothing is found only when no run has it |
| Median.MedianIndex | src/index.ts:102 | the index found, if any, is of a run that scored the median with no earlier run scoring the same; nothing is found exactly when no run scored the median |
| Median.AddMedianProperty | src/index.ts:87-108 | the output has the same length; record k is input record k; at most one record is flagged; a flagged record scored the median and no earlier run scored the same; some record is flagged exactly when some run scored the median |
| Median.FlaggedCountOne | src/index.ts:104-107 | one flagged record and no other gives a flag count of 1 |
| Median.FlaggedCountZero | src/index.ts:104-107 | no flagged record gives a flag count of 0 |
| Median.OddCountFlagsOne | src/index.ts:92-93 | with an odd number of runs, some record is flagged |
| Median.OddCountFlagsExactlyOne | src/index.ts:92-93 | with an odd number of runs exactly one record is flagged, and its score is the middle sorted score |
| Median.EvenCountMedianIsMean | src/index.ts:94-97 | with an even, non-zero number of runs, the median is the mean of the two middle scores of the sorted copy |
| Median.NoMatchFlagsNone | src/index.ts:102-106 | when no run scored the median exactly, no record is flagged |
| Median.MedianIgnoresOrder | src/index.ts:90-97 | the median depends only on the multiset of scores, not on run order |
| Median.CountsOfInsert | src/index.ts:90 | inserting a score changes the counts of scores below and above m by that score alone |
| Median.CountsOfSort | src/index.ts:90 | sorting keeps the counts of scores below and above any value |
| Median.SortedCounts | src/index.ts:93 | in an ascending sequence, at most k scores lie below the one at index k, and at most the number after k lie above it |
| Median.NoneBelow | src/index.ts:90 | when no score is below m, the count below m is 0 |
| Median.CountAboveBound | src/index.ts:90 | the count above m is at most the number of scores |
| Median.FlaggedScoreSplitsRuns | src/index.ts:92-93 | with an odd number of runs, at most half the runs (rounded down) scored below the flagged run, and at most half scored above it |
| Median.MedianFiveExample | src/index.ts:90-93 | the scores 80, 85, 90, 85, 95 have median 85 |
| Median.MedianFourExample | src/index.ts:94-97 | the scores 70, 80, 90, 100 have median 85 |
| Median.FlaggedRunIs | src/index.ts:102-107 | when run i is the first to score the median, run i is flagged and no other run is |
| Median.FlaggedIff | src/index.ts:99-107 | run k is flagged exactly when it scored the median and no earlier run scored the same |
| Median.FirstMatchFiveExample | src/index.ts:102 | of five runs whose first two scored 80 and 85, the first with 85 is run index 1 |
| Median.FiveRunExample | src/index.ts:99-107 | runs scoring 80, 85, 90, 85, 95: the median is 85 and only the second run is flagged, not the fourth |
| Median.FourRunExample | src/index.ts:94-102 | runs scoring 70, 80, 90, 100: the median is 85, which no run scored, so nothing is flagged |
| Orchestrator.Progress | src/index.ts:148 | `Math.round(((i - 1) / runs) * 100)`; its values are stated by ProgressAtFirstRun, ProgressMonotone, ProgressInRange and LastRunShowsCompleteIff |
| Orchestrator.ProgressAtFirstRun | src/versions/index-v1.ts:104 | the figure shown before run 1 is 0 |
| Orchestrator.ProgressMonotone | src/versions/index-v1.ts:104 | the figure never decreases from one run to a later one |
| Orchestrator.ProgressInRange | src/versions/index-v1.ts:104 | every figure shown before a run lies in [0, 100] |
| Orchestrator.LastRunShowsCompleteIff | src/index.ts:148 | the figure before the last run is 100 exactly when there are at least 200 runs |
| Orchestrator.Attempt | src/index.ts:152 | a run's record carries that run's number and is the record read off Lighthouse's result for that run; the run succeeds exactly when Lighthouse returns and its result can be read |
| Orchestrator.RunSession | src/index.ts:142-160 | the session succeeds exactly when every run 1..runs succeeds; then there are `runs` records (none for runs <= 0), record k is run k + 1's record, the figures shown are the progress values before each run, and 100 comes last; otherwise the first failing run ends the session with that run's error: every earlier run succeeded, and the figures shown are those for the runs so far |
| Delimited.Join | src/index.ts:180 | joining no fields gives the empty string; joining one field gives that field |
| Delimited.Split | src/index.ts:180 | splitting always gives at least one piece, and no piece holds the separator |
| Delimited.SplitPlain | src/index.ts:180 | text without the separator splits to itself |
| Delimited.SplitAtSeparator | src/index.ts:180 | splitting at the first separator gives the piece before it, then the pieces of the rest |
| Delimited.SplitJoin | src/index.ts:180 | fields without the separator come back unchanged from the line they are joined into |
| Delimited.JoinSnoc | src/index.ts:180 | one more field at the end adds one separator and that field |
| Delimited.JoinPlain | src/index.ts:180 | a character that is neither the separator nor in any field is not in the joined line |
| Columns.MetricFields | src/versions/index-v1.ts:128 | a row holds seven values, one per column |
| Columns.MetricFieldsMeaning | src/versions/index-v1.ts:128 | FCP, LCP and SI are divided by 1000 and rounded to 1 decimal, TBT to 0 and CLS to 3; the run number and the score are written unformatted |
| Columns.BoolText | src/index.ts:178 | `${isMedian}` is `true` exactly for a flagged record and `false` otherwise, and holds no comma, tab or line break |
| Columns.MetricFieldsPlain | src/versions/index-v1.ts:128 | no value in a row holds a comma, a tab or a line break |
| ExportV1.CsvRowV1 | src/versions/index-v1.ts:128 | one CSV row as the template literal writes it; RowV1Fields states that it splits back into the seven values |
| ExportV1.TxtRowV1 | src/versions/index-v1.ts:139 | one TXT row as the template literal writes it; RowV1Fields states that it splits back into the seven values |
| ExportV1.CsvTableV1 | src/versions/index-v1.ts:126-130 | the header, then the rows joined by line breaks; CsvTableV1Lines states how it reads back |
| ExportV1.TxtTableV1 | src/versions/index-v1.ts:137-141 | the header, then the rows joined by line breaks; TxtTableV1Lines and TxtTableV1MatchesCsv state how it reads back |
| ExportV1.CsvRowsV1 | src/versions/index-v1.ts:127-129 | one CSV row per result, in result order |
| ExportV1.TxtRowsV1 | src/versions/index-v1.ts:138-140 | one TXT row per result, in result order |
| ExportV1.SevenFieldsJoined | src/versions/index-v1.ts:128 | the seven-value row template is the seven values joined by its separator |
| ExportV1.RowV1Fields | src/versions/index-v1.ts:127-140 | a CSV row split at commas, and a TXT row split at tabs, give back the seven values of that run in column order |
| ExportV1.CsvHeaderV1Columns | src/versions/index-v1.ts:126 | the CSV header line is the seven column names Run, FCP, LCP, TBT, CLS, SI and Score joined by commas, with no isMedian column |
| ExportV1.TxtHeaderV1Columns | src/versions/index-v1.ts:137 | the TXT header line is the same seven column names joined by tabs |
| ExportV1.HeaderV1Split | src/versions/index-v1.ts:126 | the CSV header line splits back at its commas into the seven column names |
| ExportV1.TxtHeaderV1Split | src/versions/index-v1.ts:137 | the TXT header line splits back at its tabs into the seven column names |
| ExportV1.HeaderV1Plain | src/versions/index-v1.ts:126-137 | neither header line holds a line break of its own; the break after it ends the header |
| Columns.TableLines | src/versions/index-v1.ts:130 | a header line, a line break and rows joined by line breaks read back as the header, then the rows, or one empty line when there are none |
| ExportV1.RowV1Plain | src/versions/index-v1.ts:127-140 | a row holds no line break |
| ExportV1.CsvTableV1Lines | src/versions/index-v1.ts:126-130 | the CSV table, line by line, is the seven-column header and then one row per result in result order |
| ExportV1.TxtTableV1Lines | src/versions/index-v1.ts:137-141 | the TXT table, line by line, is the seven-column header and then one row per result in result order |
| ExportV1.HeaderLinesAgree | src/versions/index-v1.ts:126-137 | the CSV header line split at commas and the TXT header line split at tabs give the same column names |
| Columns.LinesAgree | src/versions/index-v1.ts:126-141 | two tables whose headers and rows split alike agree line for line |
| ExportV1.TxtTableV1MatchesCsv | src/versions/index-v1.ts:126-141 | the TXT table has as many lines as the CSV table, and each line holds the same values, split at tabs instead of commas |
| Export.Fields | src/index.ts:174-178 | a row holds eight values: the seven metric values, then `true` or `false` for isMedian |
| Export.CsvRow | src/index.ts:174-178 | one CSV row as the template literal writes it; RowFields and RowExtendsV1 state its values |
| Export.TxtRow | src/index.ts:190-196 | one TXT row as the template literal writes it; RowFields states its values |
| Export.CsvTable | src/index.ts:171-181 | the header, then the rows joined by line breaks; CsvTableLines and CsvFlagColumn state how it reads back |
| Export.TxtTable | src/index.ts:187-198 | the header, then the rows joined by line breaks; TxtTableLines, TxtTableMatchesCsv and TxtFlagColumn state how it reads back |
| Export.CsvRows | src/index.ts:172-180 | one CSV row per annotated record (flagged or not), in run order |
| Export.TxtRows | src/index.ts:188-197 | one TXT row per annotated record (flagged or not), in run order |
| Export.SessionReports | src/index.ts:168-205 | the JSON document is the output of addMedianProperty: one record per run, in run order, with every run's values unchanged and the isMedian flag of that run |
| Export.EightFieldsJoined | src/index.ts:175-178 | the eight-value row template is the eight values joined by its separator |
| Export.RowFields | src/index.ts:172-197 | a CSV row split at commas, and a TXT row split at tabs, give back the same eight values in column order |
| Export.RowExtendsV1 | src/index.ts:175-178 | each current row is the earlier version's row for that run followed by a separator and the isMedian value |
| Export.CsvHeaderColumns | src/index.ts:171 | the CSV header line is the seven shared column names and then isMedian, joined by commas |
| Export.TxtHeaderColumns | src/index.ts:187 | the TXT header line is the same eight column names joined by tabs |
| Export.HeaderPlain | src/index.ts:171-187 | the header lines hold no line break |
| Export.RowPlain | src/index.ts:172-197 | a row holds no line break |
| Export.CsvTableLines | src/index.ts:171-181 | the CSV table, line by line, is the eight-column header and then one row per record in run order |
| Export.TxtTableLines | src/index.ts:187-198 | the TXT table, line by line, is the eight-column header and then one row per record in run order |
| Export.CsvHeaderSplit | src/index.ts:171 | the CSV header line splits back at its commas into the eight column names |
| Export.TxtHeaderSplit | src/index.ts:187 | the TXT header line splits back at its tabs into the eight column names |
| Export.TxtTableMatchesCsv | src/index.ts:171-198 | the TXT table carries the CSV table's values line for line, differing only in the separator |
| Export.RowLastField | src/index.ts:178-195 | the last value of a CSV or TXT row is the `true` or `false` of that record's flag |
| Export.ColumnOfRows | src/index.ts:171-181 | read back after its header line, a table's last column holds one value per row: that row's last value |
| Export.CsvFlagColumn | src/index.ts:171-181 | the CSV table's last column holds one value per record, in run order, and it is the `true` or `false` of that record's flag |
| Export.TxtFlagColumn | src/index.ts:187-198 | the TXT table's last column holds one value per record, in run order, and it is the `true` or `false` of that record's flag |
| Export.OneTrueFlag | src/index.ts:178 | flags written from records of which exactly one is flagged read `true` once and `false` on every other line |
| Export.ReportsMarkMedian | src/index.ts:168-198 | in a session's CSV and TXT exports, the isMedian column reads `true` exactly on the first run that scored the median, and `false` on every other run |
| Export.CsvMarksOne | src/index.ts:171-181 | a CSV table of records of which exactly one is flagged marks exactly one line `true` and every other line `false` |
| Export.OddSessionMarksOneRun | src/index.ts:168-181 | with an odd number of runs, exactly one line of the CSV export is marked as the median |
| CompareMedians.UpperCase | src/compare-medians.ts:33 | `toUpperCase` keeps the length and maps each ASCII lower-case letter to its capital |
| CompareMedians.Key | src/compare-medians.ts:16 | the metric's key as the `metrics` list spells it; LabelsSpelled states the labels made from it |
| CompareMedians.Label | src/compare-medians.ts:33 | `metric.toUpperCase()`; LabelsSpelled states the six labels |
| CompareMedians.Value | src/compare-medians.ts:22-23 | `preMedian[metric]`: the record's field named by the key; CompareRow states that the row shows it |
| CompareMedians.PercentDiff | src/compare-medians.ts:10-13 | the change is 0 exactly when post equals pre; from a zero baseline any other value gives 100; from a non-zero baseline, pre plus that percentage of pre gives back post; from a positive baseline the change has the sign of post - pre |
| CompareMedians.PercentDiffExamples | src/compare-medians.ts:12 | 70 to 85 is a change of 150/7 percent; 2000 to 1500 is one of -25 percent |
| CompareMedians.ColorFor | src/compare-medians.ts:25-32 | black exactly for a zero change; otherwise green exactly when the change goes the metric's better way (up for the score, down for every other metric) |
| CompareMedians.ColorMeansImprovement | src/compare-medians.ts:24-32 | from a positive baseline, green means the metric improved, red that it got worse, black that it did not change |
| CompareMedians.ZeroBaselineColor | src/compare-medians.ts:11-32 | from a zero baseline any change counts as +100%, so it is green for the score and red for every other metric |
| CompareMedians.HundredthBound | src/compare-medians.ts:17-19 | `toFixed(2)` is within half a hundredth of the value |
| CompareMedians.CompareRow | src/compare-medians.ts:21-33 | a row carries the metric's label, the before and after values and the percentage change, each to within half a hundredth, and the colour the colour rule gives for that change; it is black exactly when the two values are equal |
| CompareMedians.ComparisonRows | src/compare-medians.ts:16-34 | the table has one row per compared metric, in the fixed order |
| CompareMedians.InvisibleChangeIsColoured | src/compare-medians.ts:24-33 | 100000 to 100001 on a lower-is-better metric shows a change of 0.00% and is still coloured red |
| CompareMedians.RowLabels | src/compare-medians.ts:16-33 | there are six rows, labelled FCP, LCP, TBT, CLS, SI and SCORE in that order |
| CompareMedians.LabelsSpelled | src/compare-medians.ts:16-33 | each metric's label is its key upper-cased |
| CompareMedians.GetMedianMetrics | src/compare-medians.ts:5-8 | `find`: nothing is found exactly when no record is flagged; otherwise the record found is flagged and no earlier record is |
| CompareMedians.CompareMain | src/compare-medians.ts:94-102 | the comparison is made exactly when both files have a flagged record; it then compares the first flagged records of each and keeps the description |
| CompareMedians.FindsOnlyFlagged | src/compare-medians.ts:7 | when exactly one record is flagged, `find` returns that record |
| CompareMedians.FindsFlagged | src/compare-medians.ts:5-8 | in a session's JSON export, the lookup finds the one flagged record |
| CompareMedians.MedianRun | src/index.ts:92-93 | with an odd number of runs, there is a flagged run, and its score is the middle sorted score |
| CompareMedians.OddSessionsCompare | src/compare-medians.ts:94-102 | comparing the JSON exports of two sessions with an odd number of runs each always succeeds, keeps the description, and its rows compare the runs whose scores are the middle sorted scores |
| CompareMedians.UnflaggedSessionFails | src/compare-medians.ts:97-100 | the JSON export of a four-run session scoring 70, 80, 90 and 100 has no flagged record, so comparing against it fails |

## Left out

- Chrome launching, the `lighthouse(...)` call and `chrome.kill()` are calls into code outside the tool. They become the parameter `lighthouse` of `Orchestrator.RunSession`. The URL and cookie that `runLighthouse` passes on are folded into that parameter, and so are the Chrome flags and the `extraHeaders` option.
- The one-second delay after each run in the earlier version (src/versions/index-v1.ts:62) is timing only.
- The HTML report returned with each record and its `writeFileSync` are I/O. So is all other file-system work: creating and removing the report directories, writing the CSV, TXT, JSON and comparison files, and reading the JSON exports. Because of this, the two versions' directory layouts (one flat `reports` directory against a sub-directory per report name) are not modelled.
- Argument parsing (`minimist`, `parseInt` of `--runs`, the default file names and the default description), the usage messages and `process.exit` are command-line handling. The check for a missing median is modelled as the `Failure` of `CompareMedians.CompareMain`.
- Console output (`console.clear`, `console.table`, the progress lines) is left out. The progress figures are the `progress` out-parameter of `RunSession` instead.
- `JSON.stringify` and `JSON.parse` are library serialisers. The JSON export is modelled as the annotated records (flagged or not) themselves (`Export.Reports.json`), and the comparison reads them back unchanged.
- The HTML and CSS text of the comparison page is presentation. Only the description and the rows (label, before, after, change, colour) are modelled; the page title, the column headings and the percent sign are not.
- Number-to-text conversion (`${...}` of a number, and the text `toFixed(2)` produces) is the parameter `show`. The comparison rows hold the rounded numbers rather than their text.
- IEEE-754 doubles are not modelled: NaN, infinities, -0, binary rounding of `/` and of the mean of two scores, and the exact `===` on doubles. All numbers are exact reals. A missing or NaN `numericValue` reads as 0, as in the source, but only the missing case is modelled. The same holds for a NaN score.
- JsNumber.ToFixed: from 10^21 on, `toFixed` prints the number in exponent form, and `parseFloat` then reads it back. The model returns the number unchanged, which is the value `parseFloat` gives back.
- CompareMedians.UpperCase: handles ASCII letters only. The keys it is applied to are ASCII.
- Median.AddMedianProperty: with no runs, the source's median is NaN, which no score equals. The model gives no median (`None`), and nothing is flagged either way.
- Sorting the scores works on a copy (`results.map(...)`), so the input records stay as they were. In the model every value is immutable, and `AddMedianProperty` states that record k of its output is input record k.
