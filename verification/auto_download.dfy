/**
 * `auto_download.py`: open the export page, then poll the Downloads
 * folder and copy the first recent workbook that copies successfully; and
 * the parsing of its command line. Polling times, the browser and the copy
 * outcomes are inputs.
 */
module AutoDownload {

  import opened Wrappers
  import opened Text
  import opened StockRow
  import opened Downloads
  import opened TickerArgs

  /**
   * `int(s)` for base 10: surrounding whitespace, an optional sign, then
   * one or more ASCII digits. None where Python raises ValueError.
   */
  function ParseInt(s: string): (r: Option<int>)
    ensures AllSpace(s) ==> r.None?
  {
    ParseNumeral(Strip(s))
  }

  /** An optional sign, then one or more ASCII digits, with nothing around them. */
  function ParseNumeral(t: string): (r: Option<int>)
    ensures |t| == 0 ==> r.None?
  {
    if |t| > 0 && (t[0] == '-' || t[0] == '+') then
      var d := t[1..];
      if |d| > 0 && AllDigits(d) then
        var v: int := DigitsValue(d);
        Some(if t[0] == '-' then -v else v)
      else None
    else if |t| > 0 && AllDigits(t) then Some(DigitsValue(t))
    else None
  }

  /** `str(n)` for an integer. */
  function IntToString(n: int): string {
    if n < 0 then "-" + NatToString(-n) else NatToString(n)
  }

  /** `int` reads back what `str` writes. */
  lemma ParseIntRoundTrip(n: int)
    ensures ParseInt(IntToString(n)) == Some(n)
  {
    if n < 0 {
      ParseNegative(n);
    } else {
      ParseNatural(n);
    }
  }

  lemma ParseNatural(n: int)
    requires n >= 0
    ensures ParseInt(IntToString(n)) == Some(n)
  {
    var d := NatToString(n);
    NatToStringDigits(n);
    assert IntToString(n) == d;
    assert IsAsciiDigit(d[0]) && IsAsciiDigit(d[|d| - 1]);
    StripUnchanged(d);
  }

  lemma ParseNegative(n: int)
    requires n < 0
    ensures ParseInt(IntToString(n)) == Some(n)
  {
    NatToStringDigits(-n);
    ParseMinusDigits(NatToString(-n), -n);
  }

  /** A minus sign before a numeral negates its value. */
  lemma ParseMinusDigits(d: string, v: int)
    requires |d| > 0 && AllDigits(d) && DigitsValue(d) == v
    ensures ParseInt("-" + d) == Some(-v)
  {
    MinusNumeralStrips(d);
    MinusNumeral(d, v);
  }

  lemma MinusNumeral(d: string, v: int)
    requires |d| > 0 && AllDigits(d) && DigitsValue(d) == v
    ensures ParseNumeral("-" + d) == Some(-v)
  {
    var s := "-" + d;
    assert s[0] == '-' && s[1..] == d;
  }

  lemma MinusNumeralStrips(d: string)
    requires |d| > 0 && AllDigits(d)
    ensures Strip("-" + d) == "-" + d
  {
    var s := "-" + d;
    assert IsAsciiDigit(d[|d| - 1]) && s[|s| - 1] == d[|d| - 1];
    StripUnchanged(s);
  }

  /** The index of the first `x` in `xs` (`xs.index(x)`), None where it raises. */
  function IndexOf(xs: seq<string>, x: string): (r: Option<nat>)
    ensures r.None? <==> x !in xs
    ensures r.Some? ==> r.value < |xs| && xs[r.value] == x && x !in xs[..r.value]
  {
    if |xs| == 0 then None
    else if xs[0] == x then Some(0)
    else
      match IndexOf(xs[1..], x)
      case None => None
      case Some(i) =>
        assert xs[..i + 1] == [xs[0]] + xs[1..][..i];
        Some(i + 1)
  }

  const DefaultDuration := 60

  /**
   * The monitoring time `main` reads from the full `sys.argv`: the number
   * after the first "--duration", or 60 when there is none or it is not
   * a number.
   */
  function ParseDuration(argv: seq<string>): (d: int)
    ensures "--duration" !in argv ==> d == DefaultDuration
  {
    match IndexOf(argv, "--duration")
    case None => DefaultDuration
    case Some(i) =>
      if i + 1 < |argv| then
        match ParseInt(argv[i + 1])
        case Some(v) => v
        case None => DefaultDuration
      else DefaultDuration
  }

  /** A number written after the first "--duration" is the duration. */
  lemma DurationRoundTrip(before: seq<string>, n: int, after: seq<string>)
    requires "--duration" !in before
    ensures ParseDuration(before + ["--duration", IntToString(n)] + after) == n
  {
    var argv := before + ["--duration", IntToString(n)] + after;
    assert argv[|before|] == "--duration" && argv[|before| + 1] == IntToString(n);
    assert argv[..|before|] == before;
    IndexOfFirst(argv, "--duration", |before|);
    ParseIntRoundTrip(n);
  }

  /** An occurrence with none before it is the one `index` finds. */
  lemma {:induction false} IndexOfFirst(xs: seq<string>, x: string, i: nat)
    requires i < |xs| && xs[i] == x && x !in xs[..i]
    ensures IndexOf(xs, x) == Some(i)
    decreases i
  {
    if i > 0 {
      assert xs[..i][0] == xs[0];
      assert xs[1..][..i - 1] == xs[..i][1..];
      IndexOfFirst(xs[1..], x, i - 1);
    }
  }

  /** A trailing "--duration", or one followed by a non-number, keeps the default. */
  lemma DurationDefaults(before: seq<string>, value: string)
    requires "--duration" !in before
    requires ParseInt(value).None?
    ensures ParseDuration(before + ["--duration"]) == DefaultDuration
    ensures ParseDuration(before + ["--duration", value]) == DefaultDuration
  {
    assert (before + ["--duration"])[..|before|] == before;
    assert (before + ["--duration", value])[..|before|] == before;
    IndexOfFirst(before + ["--duration"], "--duration", |before|);
    IndexOfFirst(before + ["--duration", value], "--duration", |before|);
  }

  /**
   * The ticker scan does not skip the value of "--duration": with
   * `auto_download.py --duration 120` the ticker is "120", and the duration
   * is 120 as well.
   */
  lemma DurationValueIsTicker(answers: seq<string>)
    ensures ResolveTicker(["--duration", "120"], answers) == Some("120")
    ensures ParseDuration(["auto_download.py", "--duration", "120"]) == 120
  {
    DurationValueScan();
    DurationValueParse();
  }

  lemma DurationValueScan()
    ensures TickerFromArgs(["--duration", "120"]) == Some("120")
  {
    OptionsAreSkipped(["--duration"], "120", []);
    assert ["--duration"] + ["120"] + [] == ["--duration", "120"];
    assert Upper("120") == "120";
  }

  lemma TwelveString()
    ensures IntToString(120) == "120"
  {
    assert NatToString(1) == "1";
    assert NatToString(12) == NatToString(1) + [Digit(2)] == "12";
    assert NatToString(120) == NatToString(12) + [Digit(0)];
  }

  lemma DurationValueParse()
    ensures ParseDuration(["auto_download.py", "--duration", "120"]) == 120
  {
    DurationOf(["auto_download.py", "--duration", "120"]);
  }

  lemma DurationOf(argv: seq<string>)
    requires argv == ["auto_download.py", "--duration", "120"]
    ensures ParseDuration(argv) == 120
  {
    TwelveString();
    assert argv == ["auto_download.py"] + ["--duration", IntToString(120)] + [];
    DurationRoundTrip(["auto_download.py"], 120, []);
  }

  /** The recent workbooks one check sees (a one-minute window). */
  function RecentOf(p: Poll): seq<DirEntry> {
    FindRecentXlsx(Some(p.listing), p.now, 1)
  }

  /** The message-only test of `open_stockrow_and_monitor`. */
  predicate LooksLikeTickerFile(ticker: string, name: string) {
    Contains(Upper(name), Upper(ticker)) || Contains(Lower(Upper(name)), "financials")
  }

  /** Every file the checks before check `q` saw is one whose copy fails. */
  predicate AllFailBefore(polls: seq<Poll>, failing: set<string>, q: int)
    requires 0 <= q <= |polls|
  {
    forall p, e :: 0 <= p < q && e in RecentOf(polls[p]) ==> e.name in failing
  }

  /** ... and so does every file check `q` saw before its `i`-th. */
  predicate FailsBefore(polls: seq<Poll>, failing: set<string>, q: int, i: int)
    requires 0 <= q < |polls|
  {
    AllFailBefore(polls, failing, q) &&
    forall j :: 0 <= j < i && j < |RecentOf(polls[q])| ==> RecentOf(polls[q])[j].name in failing
  }

  /**
   * The `i`-th recent file of check `q` is the first whose copy succeeds,
   * and `dest` is its free destination.
   */
  ghost predicate FirstCopy(polls: seq<Poll>, existing: set<string>, failing: set<string>, q: int, i: int, dest: string) {
    0 <= q < |polls| && 0 <= i < |RecentOf(polls[q])| &&
    FailsBefore(polls, failing, q, i) && RecentOf(polls[q])[i].name !in failing &&
    IsFreeDestination(RecentOf(polls[q])[i].name, existing, dest)
  }

  lemma NextPoll(polls: seq<Poll>, failing: set<string>, q: int)
    requires 0 <= q < |polls| && FailsBefore(polls, failing, q, |RecentOf(polls[q])|)
    ensures AllFailBefore(polls, failing, q + 1)
  {
    var recent := RecentOf(polls[q]);
    forall p, e | 0 <= p < q + 1 && e in RecentOf(polls[p]) ensures e.name in failing {
      if p == q {
        var j :| 0 <= j < |recent| && recent[j] == e;
      }
    }
  }

  /**
   * `open_stockrow_and_monitor`. Both branches of the ticker test copy the
   * file, so the result does not depend on the ticker: it is the free
   * destination of the first recent file whose copy succeeds. The copied
   * list only grows right before a return, so it is empty whenever the
   * monitoring time runs out, and the function then returns None.
   */
  method OpenStockrowAndMonitor(ticker: string, folderExists: bool, polls: seq<Poll>,
                                existing: set<string>, failing: set<string>)
    returns (url: string, r: Option<string>, copiedFiles: seq<string>)
    ensures UrlTicker(url) == Some(ticker)
    ensures !folderExists ==> r.None?
    ensures r.None? <==> (!folderExists || AllFailBefore(polls, failing, |polls|))
    ensures r.Some? ==> exists q, i :: (FirstCopy(polls, existing, failing, q, i, r.value) &&
      copiedFiles == [RecentOf(polls[q])[i].name])
    ensures r.None? ==> copiedFiles == []
  {
    url := ExportUrl(ticker);
    UrlRoundTrip(ticker);
    copiedFiles := [];
    if !folderExists {
      return url, None, copiedFiles;
    }
    for q := 0 to |polls|
      invariant copiedFiles == []
      invariant AllFailBefore(polls, failing, q)
    {
      var dest, i := ScanPoll(ticker, polls, q, existing, failing, copiedFiles);
      if dest.Some? {
        var f := RecentOf(polls[q])[i];
        copiedFiles := copiedFiles + [f.name];
        assert f in RecentOf(polls[q]);
        return url, dest, copiedFiles;
      }
      NextPoll(polls, failing, q);
    }
    r := None;
  }

  /** One check of the monitoring loop: the files it saw, in order, until a copy succeeds. */
  method ScanPoll(ticker: string, polls: seq<Poll>, q: nat, existing: set<string>, failing: set<string>,
                  copiedFiles: seq<string>)
    returns (dest: Option<string>, i: nat)
    requires q < |polls| && AllFailBefore(polls, failing, q)
    requires copiedFiles == []
    ensures dest.None? ==> FailsBefore(polls, failing, q, |RecentOf(polls[q])|)
    ensures dest.Some? ==> FirstCopy(polls, existing, failing, q, i, dest.value)
  {
    var recent := RecentOf(polls[q]);
    i := 0;
    while i < |recent|
      invariant i <= |recent|
      invariant FailsBefore(polls, failing, q, i)
    {
      var f := recent[i];
      if f.name !in copiedFiles {
        var after;
        if LooksLikeTickerFile(ticker, f.name) {
          dest, after := CopyFileToLocal(f, existing, failing);
        } else {
          dest, after := CopyFileToLocal(f, existing, failing);
        }
        if dest.Some? {
          return;
        }
      }
      i := i + 1;
    }
    dest := None;
  }
}
