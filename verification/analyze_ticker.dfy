/**
 * The helpers of the two analysis drivers, `analyze_ticker.py` (interactive)
 * and `analyze_ticker_gui.py` (non-interactive): ticker cleaning, the
 * download address, the prerequisite check, the existing-data check and the
 * reading of a child process's outcome.
 */
module AnalyzeTicker {

  import opened Wrappers
  import opened Text
  import opened Files
  import opened StockRow

  /** `clean_ticker_for_filename`: every '.' becomes '_', then upper case. */
  function CleanTicker(ticker: string): (r: string)
    ensures |r| == |ticker|
    ensures '.' !in r && IsUpperCase(r)
    ensures forall i :: 0 <= i < |r| ==> r[i] == (if ticker[i] == '.' then '_' else UpperChar(ticker[i]))
  {
    Upper(ReplaceChar(ticker, '.', '_'))
  }

  /** Cleaning twice is cleaning once. */
  lemma CleanTickerIdempotent(ticker: string)
    ensures CleanTicker(CleanTicker(ticker)) == CleanTicker(ticker)
  {
  }

  /** `main` cleans the upper-cased argument; upper-casing first changes nothing. */
  lemma CleanTickerOfUpper(ticker: string)
    ensures CleanTicker(Upper(ticker)) == CleanTicker(ticker)
  {
  }

  /** `open_stockrow_download`: the ticker is upper-cased before it is spliced in. */
  function DownloadUrl(ticker: string): (url: string)
    ensures UrlTicker(url) == Some(Upper(ticker))
    ensures IsUpperCase(UrlTicker(url).value)
  {
    UrlRoundTrip(Upper(ticker));
    UpperIsUpperCase(ticker);
    ExportUrl(Upper(ticker))
  }

  const CliRequiredFiles: seq<string> :=
    ["monitor_downloads.py", "owner_earnings.py", "visualize_owner_earnings.py", "open_charts.py"]

  const GuiRequiredFiles: seq<string> :=
    ["monitor_downloads.py", "owner_earnings_fixed.py", "visualize_owner_earnings.py", "open_charts.py"]

  /**
   * `check_prerequisites`: `existing` is the set of names `os.path.exists`
   * accepts. Returns the verdict and the missing names in required order.
   */
  function CheckPrerequisites(required: seq<string>, existing: set<string>): (r: (bool, seq<string>))
    ensures r.0 <==> forall f :: f in required ==> f in existing
    ensures r.0 <==> r.1 == []
    ensures forall f :: f in r.1 <==> f in required && f !in existing
    ensures IsSubsequence(r.1, required)
  {
    var missing := Filter(required, f => f !in existing);
    FilterIsSubsequence(required, f => f !in existing);
    assert missing != [] ==> missing[0] in missing;
    (missing == [], missing)
  }

  /**
   * `check_for_existing_data`: `downloads` lists `./downloaded_files` (None
   * when it does not exist). Returns the verdict and the names it lists,
   * the last three workbooks.
   */
  function CheckForExistingData(downloads: Option<seq<FileEntry>>): (r: (bool, seq<string>))
    ensures r.0 <==> downloads.Some? && exists j :: 0 <= j < |downloads.value| && PathGlobXlsx(downloads.value[j].name)
    ensures |r.1| <= 3
    ensures r.0 <==> |r.1| > 0
    ensures forall n :: n in r.1 ==> PathGlobXlsx(n)
    ensures downloads.Some? ==>
      var workbooks := Filter(Names(downloads.value), PathGlobXlsx);
      && |r.1| == (if |workbooks| < 3 then |workbooks| else 3)
      && r.1 == workbooks[|workbooks| - |r.1|..]
  {
    match downloads
    case None => (false, [])
    case Some(files) =>
      var names := Filter(Names(files), PathGlobXlsx);
      assert forall j :: 0 <= j < |files| ==> files[j].name in Names(files);
      if names == [] then (false, [])
      else
        assert names[0] in Names(files) && PathGlobXlsx(names[0]);
        (true, if |names| > 3 then names[|names| - 3..] else names)
  }

  function Names(files: seq<FileEntry>): (r: seq<string>)
    ensures |r| == |files| && forall j :: 0 <= j < |files| ==> r[j] == files[j].name
  {
    seq(|files|, j requires 0 <= j < |files| => files[j].name)
  }

  /** How a child process run by `subprocess.run` ended. */
  datatype ProcessOutcome = Exited(code: int) | TimedOut | Raised

  /**
   * `run_owner_earnings_analysis` in `analyze_ticker.py`: success is an exit
   * with status 0; a non-zero status, a timeout or an exception is failure.
   */
  function AnalysisSucceeded(outcome: ProcessOutcome): (ok: bool)
    ensures ok <==> outcome == Exited(0)
  {
    match outcome
    case Exited(code) => code == 0
    case TimedOut => false
    case Raised => false
  }

  /**
   * The same step in `analyze_ticker_gui.py`, which reaches its `return True`
   * by falling out of the `try` block.
   */
  function GuiAnalysisSucceeded(outcome: ProcessOutcome): bool {
    var returnedEarly: Option<bool> :=
      match outcome
      case Exited(code) => if code == 0 then None else Some(false)
      case TimedOut => Some(false)
      case Raised => Some(false);
    if returnedEarly.Some? then returnedEarly.value else true
  }

  /** Both drivers read a child's outcome the same way. */
  lemma AnalysisVariantsAgree(outcome: ProcessOutcome)
    ensures GuiAnalysisSucceeded(outcome) == AnalysisSucceeded(outcome)
  {
  }

  /** `run_visualization`: the chart step reads its child as the analysis step does. */
  function VisualizationSucceeded(outcome: ProcessOutcome): (ok: bool)
    ensures ok == AnalysisSucceeded(outcome)
    ensures ok == GuiAnalysisSucceeded(outcome)
  {
    AnalysisVariantsAgree(outcome);
    match outcome
    case Exited(code) => if code == 0 then true else false
    case TimedOut => false
    case Raised => false
  }
}
