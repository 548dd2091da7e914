/**
 * `get_xlsx.py`: open the export page for a ticker taken from the command
 * line or a prompt, and tell the user where to save the workbook.
 */
module GetXlsx {

  import opened Wrappers
  import opened Text
  import opened StockRow
  import opened TickerArgs
  import opened AnalyzeTicker

  const DefaultOutputDir: string := "./downloads"

  /**
   * `open_stockrow_download`: the address for the ticker exactly as given,
   * and the output folder handed back unchanged.
   */
  function OpenStockrowDownload(ticker: string, outputDir: string): (r: (string, string))
    ensures UrlTicker(r.0) == Some(ticker)
    ensures r.1 == outputDir
  {
    UrlRoundTrip(ticker);
    (ExportUrl(ticker), outputDir)
  }

  /**
   * `main`: the address opened and the folder reported, or None while the
   * prompt still waits for a ticker.
   */
  function Run(args: seq<string>, answers: seq<string>): (r: Option<(string, string)>)
    ensures r.None? <==> ResolveTicker(args, answers).None?
    ensures r.Some? ==> r.value.1 == DefaultOutputDir
    ensures r.Some? ==> UrlTicker(r.value.0) == ResolveTicker(args, answers)
  {
    match ResolveTicker(args, answers)
    case None => None
    case Some(t) => Some(OpenStockrowDownload(t, DefaultOutputDir))
  }

  /**
   * The helper itself splices the ticker in as given, unlike the analysis
   * driver, which upper-cases it first; through `main` the two agree,
   * because `main` has already upper-cased the ticker.
   */
  lemma RawTickerInAddress(ticker: string, args: seq<string>, answers: seq<string>)
    ensures OpenStockrowDownload(ticker, DefaultOutputDir).0 == DownloadUrl(ticker) <==> IsUpperCase(ticker)
    ensures Run(args, answers).Some? ==> Run(args, answers).value.0 == DownloadUrl(ResolveTicker(args, answers).value)
  {
    var u := OpenStockrowDownload(ticker, DefaultOutputDir).0;
    if u == DownloadUrl(ticker) {
      ExportUrlInjective(ticker, Upper(ticker));
      UpperIsUpperCase(ticker);
    } else if IsUpperCase(ticker) {
      UpperOfUpperCase(ticker);
    }
    if Run(args, answers).Some? {
      UpperOfUpperCase(ResolveTicker(args, answers).value);
    }
  }
}
