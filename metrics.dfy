/**
 * The per-run measurement record and how it is read off a Lighthouse result.
 * The audit engine itself is not modelled; its result is a value of type Lhr.
 */
module Metrics {
  import opened Wrappers

  /** One completed run: the run number and the six measured values. */
  datatype Metrics = Metrics(run: int, fcp: real, lcp: real, tbt: real, cls: real, si: real, score: real)

  /** A record of a finished session with the median flag added beside it. */
  datatype Annotated = Annotated(rec: Metrics, isMedian: bool)

  /** An audit entry; numericValue may be absent. */
  datatype Audit = Audit(numericValue: Option<real>)

  /** A category entry; its score (between 0 and 1) may be absent. */
  datatype Category = Category(score: Option<real>)

  /** The part of a Lighthouse result the tool reads: audits and categories by id. */
  datatype Lhr = Lhr(audits: map<string, Audit>, categories: map<string, Category>)

  /** Reading a property of an entry that is not there throws a TypeError. */
  datatype ExtractError = MissingAudit(id: string) | MissingCategory(id: string)

  const FcpId: string := "first-contentful-paint"
  const LcpId: string := "largest-contentful-paint"
  const TbtId: string := "total-blocking-time"
  const ClsId: string := "cumulative-layout-shift"
  const SiId: string := "speed-index"
  const PerformanceId: string := "performance"

  /** The audits read, in the order the record's fields are evaluated. */
  const AuditIds: seq<string> := [FcpId, LcpId, TbtId, ClsId, SiId]

  /** `numericValue || 0`: an absent value (or a zero) reads as 0. */
  function NumericOrZero(a: Audit): (v: real)
    ensures a.numericValue.None? ==> v == 0.0
    ensures a.numericValue.Some? ==> v == a.numericValue.value
  {
    a.numericValue.GetOr(0.0)
  }

  /** `score ? score * 100 : 0`: a falsy score gives 0, any other is scaled to percent. */
  function ScorePercent(c: Category): (v: real)
  {
    match c.score
    case None => 0.0
    case Some(s) => if s == 0.0 then 0.0 else s * 100.0
  }

  /** A score in [0, 1] becomes a percent in [0, 100]; a missing one becomes 0. */
  lemma ScorePercentInRange(c: Category)
    ensures c.score.Some? && 0.0 <= c.score.value <= 1.0 ==> 0.0 <= ScorePercent(c) <= 100.0
    ensures c.score.None? ==> ScorePercent(c) == 0.0
    ensures c.score.Some? ==> ScorePercent(c) == c.score.value * 100.0
  {
  }

  /**
   * The record built inside runLighthouse. `runnerResult` may be undefined (None),
   * in which case the audits and categories read as empty and the first access fails.
   */
  function ExtractMetrics(run: int, runnerResult: Option<Lhr>): (r: Result<Metrics, ExtractError>)
    ensures r.Success? <==>
              runnerResult.Some?
              && (forall id :: id in AuditIds ==> id in runnerResult.value.audits)
              && PerformanceId in runnerResult.value.categories
    ensures r.Success? ==>
              var lhr := runnerResult.value;
              && r.value.run == run
              && r.value.fcp == lhr.audits[FcpId].numericValue.GetOr(0.0)
              && r.value.lcp == lhr.audits[LcpId].numericValue.GetOr(0.0)
              && r.value.tbt == lhr.audits[TbtId].numericValue.GetOr(0.0)
              && r.value.cls == lhr.audits[ClsId].numericValue.GetOr(0.0)
              && r.value.si == lhr.audits[SiId].numericValue.GetOr(0.0)
              && r.value.score == lhr.categories[PerformanceId].score.GetOr(0.0) * 100.0
    ensures r.Failure? && r.error.MissingAudit? ==>
              r.error.id in AuditIds
              && (runnerResult.Some? ==> r.error.id !in runnerResult.value.audits)
  {
    var lhr := if runnerResult.Some? then runnerResult.value else Lhr(map[], map[]);
    if FcpId !in lhr.audits then Failure(MissingAudit(FcpId))
    else if LcpId !in lhr.audits then Failure(MissingAudit(LcpId))
    else if TbtId !in lhr.audits then Failure(MissingAudit(TbtId))
    else if ClsId !in lhr.audits then Failure(MissingAudit(ClsId))
    else if SiId !in lhr.audits then Failure(MissingAudit(SiId))
    else if PerformanceId !in lhr.categories then Failure(MissingCategory(PerformanceId))
    else
      Success(Metrics(
        run,
        NumericOrZero(lhr.audits[FcpId]),
        NumericOrZero(lhr.audits[LcpId]),
        NumericOrZero(lhr.audits[TbtId]),
        NumericOrZero(lhr.audits[ClsId]),
        NumericOrZero(lhr.audits[SiId]),
        ScorePercent(lhr.categories[PerformanceId])))
  }

  /** Values a well-formed audit reports (non-negative durations, a score in [0, 1]) give a well-formed record. */
  ghost predicate WellFormedLhr(lhr: Lhr) {
    && (forall id :: id in lhr.audits && lhr.audits[id].numericValue.Some? ==> lhr.audits[id].numericValue.value >= 0.0)
    && (PerformanceId in lhr.categories && lhr.categories[PerformanceId].score.Some? ==>
          0.0 <= lhr.categories[PerformanceId].score.value <= 1.0)
  }

  ghost predicate WellFormed(m: Metrics) {
    m.fcp >= 0.0 && m.lcp >= 0.0 && m.tbt >= 0.0 && m.cls >= 0.0 && m.si >= 0.0
    && 0.0 <= m.score <= 100.0
  }

  lemma ExtractMetricsWellFormed(run: int, lhr: Lhr)
    requires WellFormedLhr(lhr)
    ensures var r := ExtractMetrics(run, Some(lhr));
            r.Success? ==> WellFormed(r.value)
  {
    var r := ExtractMetrics(run, Some(lhr));
    if r.Success? {
      ScorePercentInRange(lhr.categories[PerformanceId]);
    }
  }
}
