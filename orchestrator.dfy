/**
 * The measurement loop of the tool's main function: runs 1..runs one after the
 * other, the progress percentage shown before each run, and the records
 * accumulated in run order. The audit engine (Chrome and Lighthouse) is the
 * parameter `lighthouse`, which gives for a run number either a failure or the
 * runner result (None when Lighthouse returned nothing).
 */
module Orchestrator {
  import opened Wrappers
  import opened Metrics
  import opened JsNumber

  /** Why a session stopped: the audit engine threw, or reading its result threw. */
  datatype RunError = ProviderFailed(run: int, reason: string) | ExtractFailed(run: int, error: ExtractError)

  /** The figure shown once every run is done. */
  const Complete: int := 100

  /** `Math.round(((i - 1) / runs) * 100)`: the percentage shown before run i starts. */
  function Progress(i: int, runs: int): int
    requires runs > 0
  {
    Round((i - 1) as real / runs as real * 100.0)
  }

  /** Before the first run the figure is 0. */
  lemma ProgressAtFirstRun(runs: int)
    requires runs > 0
    ensures Progress(1, runs) == 0
  {
  }

  /** The figure never decreases from one run to a later one. */
  lemma ProgressMonotone(i: int, j: int, runs: int)
    requires runs > 0 && i <= j
    ensures Progress(i, runs) <= Progress(j, runs)
  {
    DivideMonotone((i - 1) as real, (j - 1) as real, runs as real);
    NearestIntMonotone((i - 1) as real / runs as real * 100.0, (j - 1) as real / runs as real * 100.0);
  }

  /** Every figure shown before a run lies in [0, 100]. */
  lemma ProgressInRange(i: int, runs: int)
    requires 1 <= i <= runs
    ensures 0 <= Progress(i, runs) <= 100
  {
    var x := (i - 1) as real / runs as real;
    DivideMonotone(0.0, (i - 1) as real, runs as real);
    DivideMonotone((i - 1) as real, runs as real, runs as real);
    assert 0.0 <= x <= 1.0;
  }

  /**
   * The figure shown before the last run reaches 100 only from 200 runs on;
   * with fewer runs the last figure is below 100.
   */
  lemma LastRunShowsCompleteIff(runs: int)
    requires runs > 0
    ensures Progress(runs, runs) == 100 <==> runs >= 200
  {
    var x := (runs - 1) as real / runs as real * 100.0;
    assert x == 100.0 - 100.0 / runs as real;
    if runs >= 200 {
      DivideMonotone(200.0, runs as real, runs as real);
      assert 100.0 / runs as real <= 0.5 by {
        assert 100.0 / runs as real * runs as real == 100.0;
      }
    } else {
      assert 100.0 / runs as real > 0.5 by {
        assert 100.0 / runs as real * runs as real == 100.0;
      }
    }
  }

  /** runLighthouse for run i: the engine's outcome, then the record read off its result. */
  function Attempt(lighthouse: int -> Result<Option<Lhr>, string>, i: int): (r: Result<Metrics, RunError>)
    ensures r.Success? ==> r.value.run == i
    ensures r.Success? ==> lighthouse(i).Success? && ExtractMetrics(i, lighthouse(i).value) == Success(r.value)
    ensures r.Success? <==> lighthouse(i).Success? && ExtractMetrics(i, lighthouse(i).value).Success?
  {
    match lighthouse(i)
    case Failure(reason) => Failure(ProviderFailed(i, reason))
    case Success(runnerResult) =>
      match ExtractMetrics(i, runnerResult)
      case Failure(e) => Failure(ExtractFailed(i, e))
      case Success(m) => Success(m)
  }

  /**
   * The loop: before run i the progress figure is recorded, then run i is
   * attempted; the first failure ends the session with that failure, otherwise
   * the record is appended. After the last run the figure 100 is recorded.
   */
  method RunSession(runs: int, lighthouse: int -> Result<Option<Lhr>, string>)
    returns (progress: seq<int>, outcome: Result<seq<Metrics>, RunError>)
    ensures outcome.Success? <==> forall i :: 1 <= i <= runs ==> Attempt(lighthouse, i).Success?
    ensures outcome.Success? ==>
              var results := outcome.value;
              && |results| == (if runs > 0 then runs else 0)
              && (forall k :: 0 <= k < |results| ==> results[k].run == k + 1)
              && (forall k :: 0 <= k < |results| ==> Attempt(lighthouse, k + 1) == Success(results[k]))
              && |progress| == |results| + 1
              && (forall k :: 0 <= k < |results| ==> progress[k] == Progress(k + 1, runs))
              && progress[|results|] == Complete
    ensures outcome.Failure? ==>
              var failed := |progress|;
              && 1 <= failed <= runs
              && Attempt(lighthouse, failed) == Failure(outcome.error)
              && (forall j :: 1 <= j < failed ==> Attempt(lighthouse, j).Success?)
              && (forall k :: 0 <= k < failed ==> progress[k] == Progress(k + 1, runs))
  {
    progress := [];
    var results: seq<Metrics> := [];
    var i := 1;
    while i <= runs
      invariant 1 <= i && (runs > 0 ==> i <= runs + 1) && (runs <= 0 ==> i == 1)
      invariant |results| == i - 1 && |progress| == i - 1
      invariant forall k :: 0 <= k < i - 1 ==> Attempt(lighthouse, k + 1) == Success(results[k])
      invariant forall k :: 0 <= k < i - 1 ==> progress[k] == Progress(k + 1, runs)
    {
      progress := progress + [Progress(i, runs)];
      var attempt := Attempt(lighthouse, i);
      if attempt.Failure? {
        forall j | 1 <= j < i
          ensures Attempt(lighthouse, j).Success?
        {
          assert Attempt(lighthouse, (j - 1) + 1) == Success(results[j - 1]);
        }
        return progress, Failure(attempt.error);
      }
      results := results + [attempt.value];
      i := i + 1;
    }
    progress := progress + [Complete];
    outcome := Success(results);
    forall j | 1 <= j <= runs
      ensures Attempt(lighthouse, j).Success?
    {
      assert Attempt(lighthouse, (j - 1) + 1) == Success(results[j - 1]);
    }
  }
}
