/** The StockRow export address every download helper opens. */
module StockRow {

  import opened Wrappers
  import opened Text

  const UrlPrefix: string := "https://stockrow.com/vector/exports/financials/"
  const UrlSuffix: string := "?direction=desc"

  /** The export address for `ticker`, spliced in as given. */
  function ExportUrl(ticker: string): (url: string)
    ensures StartsWith(url, UrlPrefix) && EndsWith(url, UrlSuffix)
    ensures |url| == |UrlPrefix| + |ticker| + |UrlSuffix|
  {
    UrlPrefix + ticker + UrlSuffix
  }

  /** The ticker an export address names, if it has the export shape. */
  function UrlTicker(url: string): Option<string> {
    if |url| >= |UrlPrefix| + |UrlSuffix| && StartsWith(url, UrlPrefix) && EndsWith(url, UrlSuffix)
    then Some(url[|UrlPrefix|..|url| - |UrlSuffix|])
    else None
  }

  /** The ticker can be read back from the address. */
  lemma UrlRoundTrip(ticker: string)
    ensures UrlTicker(ExportUrl(ticker)) == Some(ticker)
  {
    var url := ExportUrl(ticker);
    assert url[|UrlPrefix|..|url| - |UrlSuffix|] == ticker;
  }

  /** Different tickers give different addresses. */
  lemma ExportUrlInjective(a: string, b: string)
    requires ExportUrl(a) == ExportUrl(b)
    ensures a == b
  {
    UrlRoundTrip(a);
    UrlRoundTrip(b);
  }
}
