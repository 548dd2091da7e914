/**
 * The step gating of the two analysis drivers' `main`, as a state machine
 * whose transitions read the outcomes of the steps already run. Browser,
 * subprocess and sleep effects are not modelled; their outcomes are inputs.
 */
module Workflow {

  import opened Wrappers
  import opened Text
  import opened Charts
  import opened AnalyzeTicker

  /** `analyze_ticker.py` (interactive) or `analyze_ticker_gui.py`. */
  datatype Variant = Cli | Gui

  datatype Step =
    | Usage
    | CheckPrerequisites
    | CheckExistingData
    | OpenDownloadPage
    | WaitForUser
    | RunDownloadMonitor
    | RecheckData
    | WarnNoData
    | RunAnalysis
    | RunVisualization
    | WarnVisualization
    | OpenResults
    | Summary

  /** What the steps report back: each is decided outside the driver. */
  datatype Outcomes = Outcomes(
    prerequisitesOk: bool,
    hadData: bool,
    hasDataNow: bool,
    analysisOk: bool,
    visualizationOk: bool)

  /** Position of a step in the drivers' source order. */
  function Rank(s: Step): nat {
    match s
    case Usage => 0
    case CheckPrerequisites => 1
    case CheckExistingData => 2
    case OpenDownloadPage => 3
    case WaitForUser => 4
    case RunDownloadMonitor => 5
    case RecheckData => 6
    case WarnNoData => 7
    case RunAnalysis => 8
    case RunVisualization => 9
    case WarnVisualization => 10
    case OpenResults => 11
    case Summary => 12
  }

  /** The step `main` runs after `s`, or None where `main` returns. */
  function Next(v: Variant, s: Step, o: Outcomes): (n: Option<Step>)
    ensures n.Some? ==> Rank(s) < Rank(n.value)
  {
    match s
    case Usage => None
    case CheckPrerequisites =>
      if !o.prerequisitesOk then None
      else if v == Gui then Some(CheckExistingData)
      else Some(OpenDownloadPage)
    case CheckExistingData => Some(OpenDownloadPage)
    case OpenDownloadPage => if v == Cli then Some(WaitForUser) else Some(RunDownloadMonitor)
    case WaitForUser => Some(RunDownloadMonitor)
    case RunDownloadMonitor => if v == Gui then Some(RecheckData) else Some(RunAnalysis)
    case RecheckData => if !o.hasDataNow && !o.hadData then Some(WarnNoData) else Some(RunAnalysis)
    case WarnNoData => Some(RunAnalysis)
    case RunAnalysis => if o.analysisOk then Some(RunVisualization) else None
    case RunVisualization => if o.visualizationOk then Some(OpenResults) else Some(WarnVisualization)
    case WarnVisualization => Some(OpenResults)
    case OpenResults => Some(Summary)
    case Summary => None
  }

  /** The steps run from `s` on, `s` included. */
  function Run(v: Variant, s: Step, o: Outcomes): (t: seq<Step>)
    ensures |t| > 0 && t[0] == s
    decreases 12 - Rank(s)
  {
    match Next(v, s, o)
    case None => [s]
    case Some(n) => [s] + Run(v, n, o)
  }

  /** Every step `main` runs, for a command line of `argc` words. */
  function Trace(v: Variant, argc: int, o: Outcomes): seq<Step> {
    if argc != 2 then [Usage] else Run(v, CheckPrerequisites, o)
  }

  /** Steps run in source order, so none runs twice. */
  lemma {:induction false} RunOrdered(v: Variant, s: Step, o: Outcomes)
    ensures Ascending(Run(v, s, o))
    decreases 12 - Rank(s)
  {
    match Next(v, s, o)
    case None =>
    case Some(n) =>
      RunOrdered(v, n, o);
      RunStartsAbove(v, n, o, Rank(s));
      ConsAscending(s, Run(v, n, o));
  }

  /** Each step ranks strictly above the ones before it. */
  predicate Ascending(t: seq<Step>) {
    forall i, j :: 0 <= i < j < |t| ==> Rank(t[i]) < Rank(t[j])
  }

  predicate AllAbove(t: seq<Step>, r: nat) {
    forall i :: 0 <= i < |t| ==> r < Rank(t[i])
  }

  lemma ConsAscending(s: Step, t: seq<Step>)
    requires Ascending(t) && AllAbove(t, Rank(s))
    ensures Ascending([s] + t)
  {
    var u := [s] + t;
    assert forall i :: 1 <= i < |u| ==> u[i] == t[i - 1];
  }

  lemma ConsAbove(s: Step, t: seq<Step>, r: nat)
    requires r < Rank(s) && AllAbove(t, r)
    ensures AllAbove([s] + t, r)
  {
    var u := [s] + t;
    assert forall i :: 1 <= i < |u| ==> u[i] == t[i - 1];
  }

  lemma {:induction false} RunStartsAbove(v: Variant, s: Step, o: Outcomes, r: nat)
    requires r < Rank(s)
    ensures AllAbove(Run(v, s, o), r)
    decreases 12 - Rank(s)
  {
    match Next(v, s, o)
    case None =>
    case Some(n) =>
      RunStartsAbove(v, n, o, r);
      ConsAbove(s, Run(v, n, o), r);
  }

  /** Any argument count other than one prints usage and runs no step. */
  lemma UsageRunsNoStep(v: Variant, argc: int, o: Outcomes)
    requires argc != 2
    ensures Trace(v, argc, o) == [Usage]
  {
  }

  /** A failed prerequisite check ends the run before the browser step. */
  lemma PrerequisiteFailureStops(v: Variant, o: Outcomes)
    requires !o.prerequisitesOk
    ensures Trace(v, 2, o) == [CheckPrerequisites]
    ensures OpenDownloadPage !in Trace(v, 2, o)
  {
  }

  /** The part of a run from the analysis step on. */
  lemma {:induction false} AnalysisTail(v: Variant, o: Outcomes)
    ensures !o.analysisOk ==> Run(v, RunAnalysis, o) == [RunAnalysis]
    ensures o.analysisOk && o.visualizationOk ==>
      Run(v, RunAnalysis, o) == [RunAnalysis, RunVisualization, OpenResults, Summary]
    ensures o.analysisOk && !o.visualizationOk ==>
      Run(v, RunAnalysis, o) == [RunAnalysis, RunVisualization, WarnVisualization, OpenResults, Summary]
  {
    if o.analysisOk {
      assert Run(v, OpenResults, o) == [OpenResults, Summary];
      if !o.visualizationOk {
        assert Run(v, WarnVisualization, o) == [WarnVisualization, OpenResults, Summary];
      }
    }
  }

  /**
   * Once the prerequisites hold, the analysis step is reached, whatever the
   * data checks found: missing data only adds a warning.
   */
  lemma PrerequisitesReachAnalysis(v: Variant, o: Outcomes)
    requires o.prerequisitesOk
    ensures Trace(v, 2, o) == Preamble(v, o) + Run(v, RunAnalysis, o)
  {
    if v == Cli {
      CliReachesAnalysis(o);
    } else {
      GuiReachesAnalysis(o);
    }
  }

  /** One transition: the run from `s` is `s` followed by the run from its successor. */
  lemma RunStep(v: Variant, s: Step, o: Outcomes, n: Step)
    requires Next(v, s, o) == Some(n)
    ensures Run(v, s, o) == [s] + Run(v, n, o)
  {
  }

  lemma CliReachesAnalysis(o: Outcomes)
    requires o.prerequisitesOk
    ensures Run(Cli, CheckPrerequisites, o) == Preamble(Cli, o) + Run(Cli, RunAnalysis, o)
  {
    var t := Run(Cli, RunAnalysis, o);
    RunStep(Cli, CheckPrerequisites, o, OpenDownloadPage);
    RunStep(Cli, OpenDownloadPage, o, WaitForUser);
    RunStep(Cli, WaitForUser, o, RunDownloadMonitor);
    RunStep(Cli, RunDownloadMonitor, o, RunAnalysis);
    assert [CheckPrerequisites] + ([OpenDownloadPage] + ([WaitForUser] + ([RunDownloadMonitor] + t)))
      == [CheckPrerequisites, OpenDownloadPage, WaitForUser, RunDownloadMonitor] + t;
  }

  lemma GuiReachesAnalysis(o: Outcomes)
    requires o.prerequisitesOk
    ensures Run(Gui, CheckPrerequisites, o) == Preamble(Gui, o) + Run(Gui, RunAnalysis, o)
  {
    var t := Run(Gui, RunAnalysis, o);
    var w := RecheckTail(o);
    RunStep(Gui, CheckPrerequisites, o, CheckExistingData);
    RunStep(Gui, CheckExistingData, o, OpenDownloadPage);
    RunStep(Gui, OpenDownloadPage, o, RunDownloadMonitor);
    RunStep(Gui, RunDownloadMonitor, o, RecheckData);
    assert [CheckPrerequisites] + ([CheckExistingData] + ([OpenDownloadPage] + ([RunDownloadMonitor] + ([RecheckData] + w + t))))
      == [CheckPrerequisites, CheckExistingData, OpenDownloadPage, RunDownloadMonitor, RecheckData] + w + t;
  }

  /** After the GUI's data recheck: the warning, if no data turned up, then the analysis. */
  lemma RecheckTail(o: Outcomes) returns (w: seq<Step>)
    ensures w == if !o.hasDataNow && !o.hadData then [WarnNoData] else []
    ensures Run(Gui, RecheckData, o) == [RecheckData] + w + Run(Gui, RunAnalysis, o)
  {
    if !o.hasDataNow && !o.hadData {
      w := [WarnNoData];
      RunStep(Gui, RecheckData, o, WarnNoData);
      RunStep(Gui, WarnNoData, o, RunAnalysis);
    } else {
      w := [];
      RunStep(Gui, RecheckData, o, RunAnalysis);
    }
  }

  /** The steps before the analysis in a run whose prerequisites hold. */
  function Preamble(v: Variant, o: Outcomes): seq<Step> {
    match v
    case Cli => [CheckPrerequisites, OpenDownloadPage, WaitForUser, RunDownloadMonitor]
    case Gui =>
      [CheckPrerequisites, CheckExistingData, OpenDownloadPage, RunDownloadMonitor, RecheckData]
      + (if !o.hasDataNow && !o.hadData then [WarnNoData] else [])
  }

  /** The analysis runs iff the command line is well formed and the prerequisites hold. */
  lemma AnalysisRunsIff(v: Variant, argc: int, o: Outcomes)
    ensures RunAnalysis in Trace(v, argc, o) <==> argc == 2 && o.prerequisitesOk
  {
    if argc == 2 && o.prerequisitesOk {
      PrerequisitesReachAnalysis(v, o);
      assert Trace(v, argc, o)[|Preamble(v, o)|] == RunAnalysis;
    }
  }

  /**
   * A failed analysis means no charts and no results; a failed
   * visualisation only warns, and the results are still opened.
   */
  lemma OpenResultsIff(v: Variant, argc: int, o: Outcomes)
    ensures OpenResults in Trace(v, argc, o) <==> argc == 2 && o.prerequisitesOk && o.analysisOk
    ensures RunVisualization in Trace(v, argc, o) <==> argc == 2 && o.prerequisitesOk && o.analysisOk
    ensures WarnVisualization in Trace(v, argc, o) <==> argc == 2 && o.prerequisitesOk && o.analysisOk && !o.visualizationOk
  {
    if argc == 2 && o.prerequisitesOk {
      AnalysisTail(v, o);
      TailMembership(v, o, OpenResults);
      TailMembership(v, o, RunVisualization);
      TailMembership(v, o, WarnVisualization);
    }
  }

  /** A step from the analysis on runs iff it is in the run from the analysis. */
  lemma TailMembership(v: Variant, o: Outcomes, s: Step)
    requires o.prerequisitesOk && Rank(s) >= Rank(RunAnalysis)
    ensures s in Trace(v, 2, o) <==> s in Run(v, RunAnalysis, o)
  {
    PrerequisitesReachAnalysis(v, o);
    var p := Preamble(v, o);
    assert forall i :: 0 <= i < |p| ==> Rank(p[i]) < Rank(RunAnalysis);
  }

  /** Steps of a run that lie outside both the preamble and the analysis tail. */
  lemma NotInRun(v: Variant, argc: int, o: Outcomes, s: Step)
    requires s !in Preamble(v, o)
    requires s !in [RunAnalysis, RunVisualization, WarnVisualization, OpenResults, Summary]
    requires s != Usage
    ensures s !in Trace(v, argc, o)
  {
    if argc == 2 && o.prerequisitesOk {
      PrerequisitesReachAnalysis(v, o);
      AnalysisTail(v, o);
    }
  }

  /** Only the interactive driver waits for the user; only the other one looks at existing data. */
  lemma VariantSteps(argc: int, o: Outcomes)
    ensures CheckExistingData !in Trace(Cli, argc, o) && RecheckData !in Trace(Cli, argc, o)
    ensures WarnNoData !in Trace(Cli, argc, o)
    ensures WaitForUser !in Trace(Gui, argc, o)
  {
    NotInRun(Cli, argc, o, CheckExistingData);
    NotInRun(Cli, argc, o, RecheckData);
    NotInRun(Cli, argc, o, WarnNoData);
    NotInRun(Gui, argc, o, WaitForUser);
  }

  /** The missing-data warning is given iff neither data check found a workbook; the run goes on either way. */
  lemma WarnNoDataIff(argc: int, o: Outcomes)
    ensures WarnNoData in Trace(Gui, argc, o) <==> argc == 2 && o.prerequisitesOk && !o.hadData && !o.hasDataNow
  {
    if argc == 2 && o.prerequisitesOk {
      PrerequisitesReachAnalysis(Gui, o);
      AnalysisTail(Gui, o);
      if !o.hadData && !o.hasDataNow {
        assert Trace(Gui, argc, o)[5] == WarnNoData;
      }
    }
  }

  /**
   * The ticker `open_results` hands to `open_charts.py`: none from the
   * interactive driver, the cleaned ticker from the non-interactive one.
   */
  function OpenResultsArgumentAsWritten(v: Variant, arg: string): (r: Option<string>)
    ensures v == Cli <==> r.None?
    ensures r.Some? ==> r.value == CleanTicker(arg)
  {
    CleanTickerOfUpper(arg);
    if v == Cli then None else Some(CleanTicker(Upper(arg)))
  }

  /** Both drivers hand over the cleaned ticker, as the non-interactive one does. */
  function OpenResultsArgument(v: Variant, arg: string): (r: string)
    ensures r == CleanTicker(arg) && '.' !in r
    ensures v == Gui ==> Some(r) == OpenResultsArgumentAsWritten(v, arg)
  {
    CleanTickerOfUpper(arg);
    CleanTicker(Upper(arg))
  }

  /** The chart names the final summary lists: only after a successful visualisation. */
  function SummaryCharts(arg: string, visualizationOk: bool): (names: seq<string>)
    ensures visualizationOk ==> names == ChartNames(Lower(CleanTicker(arg)))
    ensures !visualizationOk ==> names == []
  {
    CleanTickerOfUpper(arg);
    if visualizationOk then ChartNames(Lower(CleanTicker(Upper(arg)))) else []
  }
}
