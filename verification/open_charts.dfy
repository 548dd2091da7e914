/**
 * `open_charts.py`: look for the three chart files of a ticker, open the
 * ones present, report the count and, when none opened, list what was
 * expected. Which files exist and which viewer launches raise are inputs.
 */
module OpenCharts {

  import opened Wrappers
  import opened Text
  import opened Charts
  import opened AnalyzeTicker
  import opened CheckTicker
  import opened Workflow

  /** The chart files the script looks for: the ticker lower-cased, '.' kept. */
  function ChartFiles(ticker: string): seq<string> {
    ChartNames(Lower(ticker))
  }

  predicate Distinct(names: seq<string>) {
    forall i, j :: 0 <= i < j < |names| ==> names[i] != names[j]
  }

  /** The names that exist and whose viewer launch does not raise. */
  function Openable(names: seq<string>, present: set<string>, failing: set<string>): set<string> {
    set n | n in names && n in present && n !in failing
  }

  /** The `charts_opened` counter after the loop over `names`. */
  function CountOpened(names: seq<string>, present: set<string>, failing: set<string>): (n: nat)
    requires Distinct(names)
    ensures n == |Openable(names, present, failing)|
    ensures n <= |names|
    ensures n == 0 <==> NoneOpens(names, present, failing)
  {
    if |names| == 0 then 0
    else
      var rest := names[1..];
      var n := CountOpened(rest, present, failing);
      OpenableCons(names, present, failing);
      if names[0] in present && names[0] !in failing then n + 1 else n
  }

  /** No name both exists and opens without raising. */
  predicate NoneOpens(names: seq<string>, present: set<string>, failing: set<string>) {
    forall i :: 0 <= i < |names| ==> names[i] !in present || names[i] in failing
  }

  /** The first name adds itself to the openable set of the rest, which cannot hold it already. */
  lemma OpenableCons(names: seq<string>, present: set<string>, failing: set<string>)
    requires |names| > 0 && Distinct(names)
    ensures Distinct(names[1..])
    ensures var hit := names[0] in present && names[0] !in failing;
      && Openable(names, present, failing) == Openable(names[1..], present, failing) + (if hit then {names[0]} else {})
      && names[0] !in Openable(names[1..], present, failing)
      && (NoneOpens(names, present, failing) <==> !hit && NoneOpens(names[1..], present, failing))
  {
    var rest := names[1..];
    assert forall i :: 1 <= i < |names| ==> names[i] == rest[i - 1];
    assert names[0] !in rest;
  }

  /** `open_charts`: how many charts opened, and whether the help listing is printed. */
  function OpenChartsFor(ticker: string, present: set<string>, failing: set<string>): (r: (nat, bool))
    ensures r.0 <= 3
    ensures r.0 == |Openable(ChartFiles(ticker), present, failing)|
    ensures r.1 <==> r.0 == 0
    ensures r.1 <==> NoneOpens(ChartFiles(ticker), present, failing)
  {
    var n := CountOpened(ChartFiles(ticker), present, failing);
    (n, n == 0)
  }

  /** How the script ends. */
  datatype Outcome = UsageExit(status: int) | Ran(count: nat, help: bool)

  /** The script's entry point: exactly one argument, else usage and exit status 1. */
  function RunScript(argv: seq<string>, present: set<string>, failing: set<string>): (r: Outcome)
    ensures r.UsageExit? <==> |argv| != 2
    ensures r.UsageExit? ==> r.status == 1
    ensures r.Ran? ==> (r.count, r.help) == OpenChartsFor(argv[1], present, failing)
  {
    if |argv| != 2 then UsageExit(1)
    else
      var (n, help) := OpenChartsFor(argv[1], present, failing);
      Ran(n, help)
  }

  /** The command line `open_results` builds. */
  function ScriptArgv(ticker: Option<string>): seq<string> {
    ["open_charts.py"] + (if ticker.Some? then [ticker.value] else [])
  }

  /**
   * As written, the interactive driver starts the script with no ticker,
   * so the script stops at its usage check and no chart is ever opened.
   */
  lemma InteractiveDriverOpensNothing(arg: string, present: set<string>, failing: set<string>)
    ensures RunScript(ScriptArgv(OpenResultsArgumentAsWritten(Cli, arg)), present, failing) == UsageExit(1)
  {
  }

  /**
   * With the cleaned ticker handed over, the script looks for exactly the
   * files the summary announces, whichever driver runs.
   */
  lemma ResultsOpenSummaryCharts(v: Variant, arg: string, present: set<string>, failing: set<string>)
    ensures ChartFiles(OpenResultsArgument(v, arg)) == SummaryCharts(arg, true)
    ensures RunScript(ScriptArgv(Some(OpenResultsArgument(v, arg))), present, failing).Ran?
  {
    LowerOfLowerCase(Lower(CleanTicker(arg)));
  }

  /**
   * Unlike `check_ticker.py`, whose chart prefix turns '.' into '_' before
   * lower-casing, this script keeps the '.': for a dotted ticker it looks
   * for a comparison chart under a name `check_ticker.py` never expects.
   */
  lemma DotIsKept(ticker: string)
    requires '.' in ticker
    ensures ChartFiles(ticker)[0] != ExpectedCharts(ticker)[1]
  {
    var i :| 0 <= i < |ticker| && ticker[i] == '.';
    var p, q := Lower(ticker), ChartPrefix(ticker);
    assert p[i] == '.';
    assert ChartFiles(ticker)[0][i] == p[i];
    assert ExpectedCharts(ticker)[1][i] == q[i];
  }

  /**
   * The prefix `check_ticker.py` expects is the lowered cleaned ticker the
   * analysis drivers name their charts after.
   */
  lemma ChartPrefixIsLoweredCleanTicker(ticker: string)
    ensures ChartPrefix(ticker) == Lower(CleanTicker(ticker))
  {
    var p, q := ChartPrefix(ticker), Lower(CleanTicker(ticker));
    forall i | 0 <= i < |p| ensures p[i] == q[i] {
      var c := ticker[i];
      if c != '.' {
        assert q[i] == LowerChar(UpperChar(c));
      }
    }
  }
}
