# MarketSwimmer helper scripts in Dafny

MarketSwimmer is a stock-analysis tool. The tool downloads a company's
financial statements as an Excel workbook from StockRow. It computes
"owner earnings" and fair values from that workbook, draws charts, and opens
them. Around that engine sit many small Python scripts:

- drivers that run the workflow step by step;
- download monitors that copy fresh workbooks out of the Downloads folder;
- ticker detection from export file names;
- chart openers;
- a mojibake-emoji fixer, a blank-line cleanup, and an ASCII checker for source files;
- a log monitor and the logging helpers it reads;
- two report scripts that average and compare valuation figures.

This project models the deterministic logic inside those scripts as pure
Dafny functions, methods and lemmas. The filesystem, the clock, child
processes and the browser enter as data: directory listings of
`(name, mtime)`, sets of existing names, `now`, process outcomes, and the
lines a user types. Monetary amounts are exact reals.

Modules follow the scripts:

| module | script |
|---|---|
| `Wrappers`, `Text`, `Stats`, `Files` | Python built-ins the scripts rely on: `Option`, `str` methods (ASCII case mapping, the `isspace` set, `split`, `strip`, `find`), sums, means, extremes, newest-file pick, `splitext`, `Path.stem` |
| `StockRow`, `Charts` | the export address and the three chart file names shared by several scripts |
| `CheckTicker` | `check_ticker.py` |
| `AnalyzeTicker`, `Workflow` | `analyze_ticker.py` and `analyze_ticker_gui.py` (helpers, and `main` as a step machine) |
| `Downloads` | `monitor_downloads.py` (and the identical helpers of `auto_download.py`) |
| `TickerArgs`, `GetXlsx`, `AutoDownload` | the ticker scan and prompt, `get_xlsx.py`, `auto_download.py` |
| `OpenCharts` | `open_charts.py` |
| `FixUnicode`, `CleanupDebug`, `VerifyUnicode` | `fix_unicode.py`, `cleanup_debug.py`, `verify_unicode_fixes.py` |
| `LogMonitor`, `LoggerConfig` | `log_monitor.py`, `logger_config.py` |
| `FairValues`, `DebugZion` | `show_fair_values.py`, `debug_zion.py` |

## Model

| member | source | states |
|---|---|---|
| CheckTicker.TickerFromStem | check_ticker.py:31-40 | A ticker is found exactly when the lowered stem contains "financials_export_". The ticker is then upper case and holds no '_'. |
| CheckTicker.MarkerGivesThreeFields | check_ticker.py:32-34 | Once the marker is present, splitting on '_' always yields at least three parts, so the length guard never fails. |
| CheckTicker.TickerIsThirdField | check_ticker.py:31-35 | The result is the third '_'-field of the whole lowered stem, upper-cased, wherever the marker sits. |
| CheckTicker.ExportNameGivesTicker | test_download_fix.py:9 | The export name "financials_export_zion_2025_08_07_134246" yields "ZION". |
| CheckTicker.PrefixShiftsTicker | check_ticker.py:33-35 | Text before the marker shifts the fields: "x_financials_export_zion" yields "EXPORT", not "ZION". |
| CheckTicker.NewestWorkbookUnique | check_ticker.py:24-25 | The stable reverse sort by mtime picks exactly one file: the newest, and the first in listing order among ties. |
| CheckTicker.DetectTicker | check_ticker.py:10-40 | Returns None when the folder is missing or holds no workbook. Otherwise the result is exactly the stem ticker of the newest workbook, the first among equally new ones; any ticker returned is upper case and free of '_'. |
| CheckTicker.NewestWorkbookExists | check_ticker.py:20-25 | A listing that holds a workbook has a newest one, so the detection always reads some workbook's name. |
| CheckTicker.ChartPrefix | check_ticker.py:51 | Character by character, '.' becomes '_' and every other character is lower-cased; so the prefix has the ticker's length, holds no '.', and is lower case. |
| CheckTicker.ExpectedCharts | check_ticker.py:51-54 | Three distinct names, each the chart prefix followed by one of the three chart suffixes. |
| Charts.ChartNames | open_charts.py:12-16 | Exactly three distinct names, each the prefix followed by a chart suffix ending in ".png". |
| AnalyzeTicker.CleanTicker | analyze_ticker.py:14-16 | Same length as the input. Every '.' becomes '_', every other character is upper-cased, and no '.' remains. |
| AnalyzeTicker.CleanTickerIdempotent | analyze_ticker_gui.py:19-21 | Cleaning a cleaned ticker changes nothing. |
| AnalyzeTicker.CleanTickerOfUpper | analyze_ticker.py:161-162 | Upper-casing the argument before cleaning, as `main` does, gives the same result as cleaning alone. |
| AnalyzeTicker.DownloadUrl | analyze_ticker.py:18-21 | The address reads back to the upper-cased ticker. |
| StockRow.UrlRoundTrip | auto_download.py:73 | The ticker spliced into the export address can be read back from it. |
| StockRow.ExportUrlInjective | get_xlsx.py:17 | Different tickers give different export addresses. |
| AnalyzeTicker.CheckPrerequisites | analyze_ticker.py:126-146 | Passes iff every required file exists, iff nothing is missing. The missing list holds exactly the absent required files, in required-list order. |
| AnalyzeTicker.CheckForExistingData | analyze_ticker_gui.py:168-178 | True iff the folder exists and holds a workbook. The names listed are the last three workbook names in listing order, or all of them when there are fewer; the list is non-empty exactly when the result is true. |
| AnalyzeTicker.AnalysisSucceeded | analyze_ticker.py:54-77 | Success iff the child exited with status 0. A non-zero status, a timeout and an exception are all failures. |
| AnalyzeTicker.AnalysisVariantsAgree | analyze_ticker_gui.py:23-50 | The other driver, which falls through to `return True` after the success branch, reads every outcome the same way. |
| AnalyzeTicker.VisualizationSucceeded | analyze_ticker.py:79-105 | The chart step reads its child's outcome exactly as the analysis step of either driver does: success iff the child exited with status 0. |
| Workflow.Next | analyze_ticker.py:148-232 | Every step `main` takes ranks strictly later in source order than the current one. |
| Workflow.RunOrdered | analyze_ticker.py:148-232 | The steps of a run are in strictly ascending source order, so no step runs twice. |
| Workflow.UsageRunsNoStep | analyze_ticker.py:150-159 | Any argument count other than exactly one prints usage and runs no other step. |
| Workflow.PrerequisiteFailureStops | analyze_ticker.py:171-172 | A failed prerequisite check ends the run, and the browser step never happens. |
| Workflow.AnalysisTail | analyze_ticker.py:194-213 | If the analysis fails, nothing runs after it. If the visualisation fails, a warning is given and the results are still opened. |
| Workflow.AnalysisRunsIff | analyze_ticker.py:161-194 | The analysis runs iff the command line has one argument and the prerequisites hold. |
| Workflow.OpenResultsIff | analyze_ticker_gui.py:246-266 | Visualisation and result opening run iff the analysis ran and succeeded. The visualisation warning appears iff, in addition, the visualisation failed. |
| Workflow.CliReachesAnalysis | analyze_ticker.py:171-194 | With prerequisites met, the interactive driver opens the page, waits for the user and runs the monitor before reaching the analysis. |
| Workflow.GuiReachesAnalysis | analyze_ticker_gui.py:211-246 | With prerequisites met, the other driver checks data, opens the page, monitors, rechecks and possibly warns, then reaches the analysis. |
| Workflow.RecheckTail | analyze_ticker_gui.py:235-246 | After the recheck comes the missing-data warning, only when neither check found data, and then the analysis in either case. |
| Workflow.WarnNoDataIff | analyze_ticker_gui.py:237-240 | The warning is given iff both data checks came back empty, and it never stops the run. |
| Workflow.VariantSteps | analyze_ticker_gui.py:216-235 | Only the interactive driver waits for the user. Only the other driver looks for existing data. |
| Workflow.OpenResultsArgumentAsWritten | analyze_ticker.py:107-124 | As written, the interactive driver passes no ticker to the chart opener. The other driver passes the cleaned ticker. |
| Workflow.OpenResultsArgument | analyze_ticker_gui.py:266 | Corrected: both drivers pass the cleaned ticker, which contains no '.'. This agrees with the non-interactive driver as written. |
| Workflow.SummaryCharts | analyze_ticker.py:224-228 | The final summary lists the chart names of `clean_ticker.lower()`, and only after a successful visualisation. |
| Downloads.FindRecentXlsx | monitor_downloads.py:50-71 | Returns [] for a missing folder. Otherwise it returns exactly the non-hidden workbooks whose mtime is readable and strictly after the cutoff, in listing order. `auto_download.py:18-38` is the same rule. |
| Downloads.CutoffIsExcluded | monitor_downloads.py:54-65 | A file modified exactly at `now - 60*minutes` is not recent. One modified any later is. |
| Downloads.CandidateInjective | monitor_downloads.py:93-98 | Distinct counters name distinct files, so the search for a free name ends. |
| Downloads.FreeDestination | monitor_downloads.py:89-98 | The result is candidate k, the first candidate (the plain name, then `base_k.ext`) not already present. k is at most the number of existing names. |
| Downloads.FreeDestinationUnique | auto_download.py:48-54 | The free destination is determined by the file name and the folder contents alone. |
| Downloads.CopyFileToLocal | monitor_downloads.py:73-108 | A failing copy returns None and changes nothing. A successful copy returns the free destination, which was not present before and is now added. |
| Downloads.CopyAll | monitor_downloads.py:180-185 | Copies in sequence never reuse a destination, and never overwrite a file that existed before. |
| Downloads.CheckRecentDownloads | monitor_downloads.py:163-189 | Uses a 10-minute window and copies every recent file without deduplication. Each copy succeeds iff that file's copy does not fail, into pairwise distinct fresh names. |
| Downloads.NewFiles | monitor_downloads.py:138-143 | One check keeps, in order, exactly the files whose (path, mtime) id was not seen before, each once, and records all their ids. |
| Downloads.Session | monitor_downloads.py:132-143 | Over a session, every (path, mtime) id is handed to the copier at most once, and every unseen id exactly once. |
| Downloads.MonitorDownloads | monitor_downloads.py:110-161 | Nothing happens without a Downloads folder. Otherwise each check reports only workbooks of its listing modified in the last two minutes; over the run each (path, mtime) id is reported once, and the reported ids are exactly those recent at some check. |
| Downloads.RecentWorkbookReported | monitor_downloads.py:134-143 | A workbook modified within two minutes of some check is handed to the copier. |
| Downloads.StaleFileIgnored | monitor_downloads.py:136 | A file older than two minutes at every check is never handed to the copier. |
| Downloads.ModifiedFileIsNew | monitor_downloads.py:140 | A file seen again with a new mtime is a new id and is copied again. |
| Downloads.SelectMode | monitor_downloads.py:198-212 | Check mode runs iff argv[1] is "--check" or "-c", or the stripped answer is "2". Otherwise monitoring is continuous. |
| Downloads.DefaultIsContinuous | monitor_downloads.py:203-212 | Without a flag, an empty answer or "1" selects continuous monitoring. |
| TickerArgs.TickerFromArgs | get_xlsx.py:56-60 | None iff every argument starts with '-'. Otherwise the result is the first non-option argument, upper-cased. |
| TickerArgs.OptionsAreSkipped | auto_download.py:165-169 | Options before the ticker are skipped, whatever follows it. |
| TickerArgs.PromptTicker | get_xlsx.py:41-46 | The prompt returns only a non-empty, upper-case answer without outer whitespace, from the first non-blank answer. It never returns while every answer is blank. |
| TickerArgs.ResolveTicker | get_xlsx.py:56-65 | The result is always non-empty and upper case. A non-empty first non-option argument wins over the prompt; without one, the result is exactly the prompt's. |
| TickerArgs.EmptyArgumentPrompts | get_xlsx.py:56-65 | An empty first argument is chosen by the scan, found falsy, and sends `main` to the prompt. |
| GetXlsx.OpenStockrowDownload | get_xlsx.py:5-32 | The address names the ticker exactly as passed, and the output folder is returned unchanged. |
| GetXlsx.Run | get_xlsx.py:48-71 | The address names the resolved ticker, and the folder is "./downloads". |
| GetXlsx.RawTickerInAddress | get_xlsx.py:17 | This address equals the drivers' upper-cased address iff the ticker is already upper case. |
| AutoDownload.ParseIntRoundTrip | auto_download.py:182 | `int` reads back every integer `str` writes. |
| AutoDownload.ParseDuration | auto_download.py:177-184 | Without "--duration" the duration is 60. |
| AutoDownload.DurationRoundTrip | auto_download.py:177-182 | A number written after the first "--duration" becomes the duration. |
| AutoDownload.DurationDefaults | auto_download.py:181-184 | A trailing "--duration", or one followed by a non-number, keeps the default. |
| AutoDownload.DurationValueIsTicker | auto_download.py:165-169 | The ticker scan does not skip the duration value: `--duration 120` makes "120" the ticker and 120 the duration. |
| AutoDownload.OpenStockrowAndMonitor | auto_download.py:64-148 | Returns None iff the folder is missing or every recent file seen fails to copy. Otherwise the result is the free destination of the first file, over all checks, whose copy succeeds; both branches of the ticker test copy. The copied list is empty whenever None is returned. |
| AutoDownload.ScanPoll | auto_download.py:108-126 | One check tries its recent files in order and stops at the first successful copy. |
| OpenCharts.CountOpened | open_charts.py:21-40 | The counter equals the number of listed files that exist and open without raising. It is zero iff none does. |
| OpenCharts.OpenChartsFor | open_charts.py:43-53 | At most three charts open, and the help listing appears iff none opened. |
| OpenCharts.RunScript | open_charts.py:61-68 | Any argument count other than one exits with status 1. Otherwise the script opens the charts of argv[1]. |
| OpenCharts.InteractiveDriverOpensNothing | analyze_ticker.py:112-114 | As written, the interactive driver's call of the chart opener always ends in the usage exit. |
| OpenCharts.ResultsOpenSummaryCharts | analyze_ticker_gui.py:266 | Corrected call: the opener runs and looks for exactly the charts the summary lists. |
| OpenCharts.ChartPrefixIsLoweredCleanTicker | check_ticker.py:51 | The prefix the check expects is `clean_ticker.lower()`, the name the GUI driver's summary lists (analyze_ticker_gui.py:19-21 and 277-280). |
| OpenCharts.DotIsKept | open_charts.py:10 | The opener keeps '.' where the ticker check turns it into '_', so for a dotted ticker the names differ. |
| FixUnicode.ReplaceAllAbsent | fix_unicode.py:43-44 | `replace` leaves text without the key unchanged. |
| FixUnicode.NoKeyLeft | fix_unicode.py:16-44 | After the loop, no key occurs in the text, for any table whose tags share no character with its keys. |
| FixUnicode.ReportIsEmpty | fix_unicode.py:52-54 | Hence the report loop prints nothing. |
| FixUnicode.ApplyAllNoKey | fix_unicode.py:43-44 | Text holding no key passes through unchanged. |
| FixUnicode.Idempotent | fix_unicode.py:43-44 | Running the fix on its own output changes nothing. |
| FixUnicode.TablesWellFormed | fix_unicode.py:16-40 | Every key of the script's table, in either order, is non-empty and free of the characters tags are written in ('[', ']' and capitals other than 'U'); every tag is made only of those. |
| FixUnicode.ChartKeyShadowed | fix_unicode.py:21-24 | As written, the folder key is a prefix of the chart key and is applied first. The chart emoji becomes "[FILE]" plus a stray character, and the report still prints nothing. |
| FixUnicode.CorrectedIsReordering | fix_unicode.py:16-40 | The corrected table holds exactly the script's entries, reordered. |
| FixUnicode.CorrectedOwnTags | fix_unicode.py:16-44 | With the corrected order, each emoji and each escape becomes its own tag; the chart emoji becomes "[CHART]". |
| FixUnicode.FixUnicodeIssues | fix_unicode.py:16-54 | With the table in the script's dictionary order, no key is left in the fixed content, and the report is empty. |
| FixUnicode.FixUnicodeIssuesIdempotent | fix_unicode.py:43-44 | Fixing fixed content again changes nothing. |
| FixUnicode.FixUnicodeIssuesShadowsChart | fix_unicode.py:21-24 | The script turns the chart emoji into "[FILE]" plus a stray character, and reports nothing. |
| FixUnicode.FixUnicodeIssuesCorrected | fix_unicode.py:16-54 | With the corrected order, no key is left in the fixed content, and the report is empty. |
| FixUnicode.FixUnicodeIssuesCorrectedOwnTags | fix_unicode.py:16-44 | The corrected fix turns each key into its own tag; the chart emoji becomes "[CHART]". |
| FixUnicode.FixUnicodeIssuesCorrectedIdempotent | fix_unicode.py:43-44 | Fixing content fixed by the corrected order changes nothing. |
| CleanupDebug.CollapseProperties | cleanup_debug.py:30 | The collapsed text has no three consecutive newlines and keeps every other character in order. |
| CleanupDebug.CollapseShape | cleanup_debug.py:30 | The collapse never lengthens the text, and keeps whether it starts with a newline and what its last character is. |
| CleanupDebug.CollapseOfNoTriple | cleanup_debug.py:30 | Runs of one or two newlines are untouched: text without a triple newline is unchanged. |
| CleanupDebug.CollapseFixedIff | cleanup_debug.py:30 | The collapse leaves a text alone exactly when it holds no triple newline. |
| CleanupDebug.CollapseRun | cleanup_debug.py:30 | A maximal run of three or more newlines becomes exactly "\n\n", and the text after it is collapsed on its own. |
| CleanupDebug.ShortRunKept | cleanup_debug.py:30 | A maximal run of one or two newlines is kept as it is. |
| CleanupDebug.CollapseIdempotent | cleanup_debug.py:30 | Collapsing twice is collapsing once. |
| CleanupDebug.NoTripleIsNotContains | cleanup_debug.py:30 | "No three consecutive newlines" is the same as `'\n\n\n' not in s`. |
| CleanupDebug.CollapseLineCount | cleanup_debug.py:15-36 | `len(splitlines())` drops by exactly the number of newlines removed. |
| CleanupDebug.CleanupDebugStatements | cleanup_debug.py:8-37 | The written text has no triple newline and keeps the non-newline text of the deletions' result. The reported figure is the original minus the new line count, and equals the number of newlines removed when nothing was deleted. |
| VerifyUnicode.HitsProperties | verify_unicode_fixes.py:29-33 | There is one hit per character above 127, in position order, with its own code. Line numbers start at 1 and never decrease. |
| VerifyUnicode.ScanNonAscii | verify_unicode_fixes.py:29-33 | The single-pass scan with a running newline count finds exactly those hits. It finds none iff the content is ASCII. |
| VerifyUnicode.CheckUnicodeCharacters | verify_unicode_fixes.py:23-47 | A read error fails. Otherwise the file is clean iff it is ASCII. At most the first five hits are shown, and "N more" appears iff there are more than five, with the right N. |
| VerifyUnicode.VerifyUnicodeFixes | verify_unicode_fixes.py:49-78 | All good iff every present file compiles and is ASCII. Missing files are skipped and never clear the verdict. |
| LogMonitor.GetLatestLog | log_monitor.py:12-22 | None iff the logs folder is missing or holds no "marketswimmer_*.log". Otherwise the result is a log with the greatest mtime. |
| LogMonitor.TailLog | log_monitor.py:24-31 | Always a suffix of the content. Its length is the line count, capped at `lines` when `lines` > 0. For `lines` = 0 it is the whole content. A read error gives one error line. |
| LogMonitor.SliceFrom | log_monitor.py:29 | Python's `s[k:]` for any integer k: a suffix of length `len - k`, or `-k` for negative k. |
| LogMonitor.HighlightIgnoresCase | log_monitor.py:73 | The highlight test on the upper-cased line does not depend on the line's letter case. |
| LogMonitor.RenderAll | log_monitor.py:70-76 | Every line is printed, as itself or after ">>> ", and it gets the prefix exactly when it is highlighted. |
| LogMonitor.NonBlankLinesSnoc | log_monitor.py:70-71 | The kept lines grow by a part exactly when that part is not blank, so the non-blank parts are kept in order, each once. |
| LogMonitor.MonitorChunk | log_monitor.py:70-76 | The printed lines are the non-blank '\n'-parts of the chunk, in order, each printed as itself or after ">>> ", with the prefix exactly on highlighted lines; at most one more than the number of newlines. |
| LogMonitor.PidField | log_monitor.py:104 | Present iff the line contains "PID:". The field starts right after the first "PID:" and runs to the end of the line or to the next "PID:", which it does not contain. |
| LogMonitor.PidFieldUnique | log_monitor.py:104 | Only one text meets that description, because "PID:" cannot overlap itself. |
| LogMonitor.ExtractPid | log_monitor.py:101-107 | The PID is the first whitespace-separated token of the field after the first tag: non-empty, whitespace-free and inside the line. It is None iff there is no tag or the field after it is blank. |
| LogMonitor.ExtractPidExample | log_monitor.py:104 | "PID: 42" yields "42". |
| LogMonitor.SecondTagEndsField | log_monitor.py:104-107 | "PID: PID: 7" yields nothing, because the field stops at the second tag. |
| LogMonitor.Pids | log_monitor.py:95-107 | The PID set holds exactly the PIDs extracted from some line. |
| LogMonitor.Matching | log_monitor.py:109-113 | Every listed entry is the strip of a line containing the key, and every such strip is listed. |
| LogMonitor.MatchingSnoc | log_monitor.py:109-113 | A further line appends its strip exactly when it contains the key, so the list keeps line order and one entry per matching line. |
| LogMonitor.ShowSummary | log_monitor.py:85-129 | None iff there is no log. The counts are those of all matching lines, and only the last five of each are listed. The warning fires iff at least two distinct PIDs were found. |
| LogMonitor.TwoPidsWarn | log_monitor.py:127-129 | Two lines with different PIDs trigger the warning. |
| LogMonitor.OnePidNoWarning | log_monitor.py:95-129 | Lines that all name the same PID never trigger it. |
| LogMonitor.SelectModeIgnoresRest | log_monitor.py:134 | Only the first argument decides the mode; arguments after it are ignored. |
| LogMonitor.SummaryFlagIsExact | log_monitor.py:134-137 | The flag must be exactly "--summary" in first-argument position: "--SUMMARY", "-s" or the flag as the program name monitor instead. |
| LoggerConfig.LogFileName | logger_config.py:30-31 | The log path lies under "logs/" and its name matches the monitor's pattern. |
| LoggerConfig.LogFileNameRoundTrip | log_monitor.py:18 | The monitor's pattern finds the log, and the name gives back its timestamp. |
| LoggerConfig.LogFileNameInjective | logger_config.py:30-31 | Different timestamps give different log files. |
| LoggerConfig.EntryMessage | logger_config.py:84-91 | "ENTER: name()" comes first, then " args=…" right after it only for truthy args, then " kwargs=…" at the end only for truthy kwargs, and nothing else. |
| LoggerConfig.ExitMessage | logger_config.py:93-98 | The message is "EXIT:  name()" alone for None, and otherwise that head with exactly " -> result" appended. |
| LoggerConfig.FalsyResultShown | logger_config.py:96 | A falsy result such as 0 or False is still shown. |
| LoggerConfig.GuiSpawnIff | logger_config.py:80 | A spawn is flagged iff the lower-cased command contains "gui". The two longer keywords add nothing. |
| LoggerConfig.SubprocessCallRecords | logger_config.py:73-82 | Three warnings, plus two errors exactly when the command looks like a GUI spawn. The first record names the subprocess call and the third the PID. |
| LoggerConfig.GuiEventMessage | logger_config.py:100-102 | The event message carries the "GUI EVENT" marker the summary counts. |
| LoggerConfig.PidRecordReadBack | logger_config.py:77 | The PID record, behind a formatter prefix without "PID:", is read back by the log summary as the process id. |
| LoggerConfig.GetLogger | logger_config.py:116-121 | Setup runs iff there is no global logger yet. The returned logger becomes, or already is, the global one. |
| LoggerConfig.GetLoggerSingleton | logger_config.py:113-121 | Over any sequence of calls, setup runs at most once, never if a logger exists, and every call returns the same logger. |
| Stats.Average | show_fair_values.py:54-55 | None iff there are no values. Otherwise the mean lies between the minimum and the maximum and times the count gives the sum. |
| Stats.SumBounds | show_fair_values.py:55 | The sum lies between n times the minimum and n times the maximum. |
| Stats.MaxAbove | debug_zion.py:61 | The maximum exceeds a threshold iff some value does. |
| Stats.MinBelow | debug_zion.py:63 | The minimum is below a threshold iff some value is. |
| Stats.ExtremesAttained | debug_zion.py:53-54 | The maximum and the minimum are each one of the values. |
| FairValues.MethodValues | show_fair_values.py:49-52 | Only years that have the method contribute. There are no values iff no year has the method. |
| FairValues.AbsentYearIgnored | show_fair_values.py:61-63 | A year without the method changes neither the values nor their average. |
| FairValues.PresentYearCounted | show_fair_values.py:61-66 | A year with the method adds its value to the sum and one to the count. |
| FairValues.PercentDiff | show_fair_values.py:70-74 | None iff the traditional average is None or 0. Otherwise the sign follows `avg - trad` and the figure recovers `avg` from `trad`. |
| FairValues.PercentDiffExample | show_fair_values.py:71 | trad 50 and alt 55 give +10. A negative traditional average is divided by its absolute value. |
| FairValues.PercentageSection | show_fair_values.py:42-74 | The traditional average is the mean over years that have it. At most the two named methods follow, in fixed order, each with its own average and its difference, and each exactly once when it has a value. |
| FairValues.Compare | show_fair_values.py:59-74 | A line is printed for a method iff some year has it, with its average and the guarded difference. |
| FairValues.ShownValuations | show_fair_values.py:31-35 | Exactly the valuations with a present, non-zero fair value are shown. |
| DebugZion.CalculatedOE | debug_zion.py:21-29 | The sum of the four terms in millions equals the raw sum divided by one million. |
| DebugZion.CheckRow | debug_zion.py:39-43 | A row is an error iff calculated and stated figures differ by more than 1 (million). The error is that gap. |
| DebugZion.MismatchIffRawGap | debug_zion.py:21-40 | In dollars: a row is flagged iff the raw sum and the stated figure differ by more than 1e6. |
| DebugZion.CheckRows | debug_zion.py:19 | Only the first five rows are checked, each with its period and verdict. |
| DebugZion.CheckRowsIgnoresTail | debug_zion.py:19 | Rows past the fifth never affect the verdicts. |
| DebugZion.ScaleWarnings | debug_zion.py:53-71 | High warning iff some value exceeds 5000 (millions). Low warning iff some value is below -5000, or all exceed 5000 (`abs(min)` as written). Working-capital warning iff some magnitude exceeds 2000. An empty table warns about nothing. |
| DebugZion.AnalyzeZion | debug_zion.py:19-71 | Prints the row checks, the largest and smallest owner earnings (attained values, in millions), the average net income in millions, and the warnings. Each figure is absent for an empty table. |

## Left out

- The owner-earnings and fair-value engine (`marketswimmer.core.*`, `owner_earnings*.py`, `visualize_owner_earnings.py`) is not part of this model. Its results enter `FairValues` and `DebugZion` as data.
- The GUI scripts (`market_swimmer_gui*.py`), their threads, and the test scripts are not modelled: they hold no stateable logic beyond what is modelled here. `option_price.py` (a network price fetch) and `cleanup.py` (file deletion) are left out too.
- Child processes, the browser, `time.sleep`, and the polling and watching loops are left out. Their outcomes are inputs: a `ProcessOutcome`, a sequence of `Poll`s, the appended log chunk.
- Filesystem effects are modelled only as data. Path joining, `abspath`, `makedirs`, the copy itself and file sizes are not modelled, and a destination is named by its file name alone.
- Filesystem matching is simplified. Glob matching is case-sensitive, as on POSIX; the Windows case-insensitive match is not modelled. The download-folder fallbacks of `get_default_download_folder` are not modelled either: the folder is present or not.
- Python semantics are modelled only in part:
  - Case mapping is ASCII only; `upper`/`lower` of other letters is not modelled.
  - `int()` accepts ASCII digits only; underscores and other Unicode digits are not modelled.
  - Floats are exact reals. `f"{x:.0f}"` rounding and other number formatting are not modelled.
- `Downloads.FindRecentXlsx`: an entry whose mtime cannot be read (`mtime` None) is skipped, as in the source. In `monitor_downloads`, a second `getmtime` raising at monitor_downloads.py:140 would end the loop; that is not modelled.
- `Downloads.NewFiles`: the id is the pair (path, mtime) rather than the formatted string `f"{path}_{mtime}"`. Two different pairs could in principle format to the same string; that is not modelled.
- `Downloads.MonitorDownloads`: the checks are a given sequence of polls, so `max_checks`, `check_interval` and a stop by Ctrl+C only fix how many polls there are and when. The status lines are not modelled.
- `AutoDownload.OpenStockrowAndMonitor`: which copies fail is one fixed set for the whole run, and each check's listing and clock are given. The 3-second pacing and the timing of checks are not modelled.
- `OpenCharts.OpenChartsFor`: the "[HINT]" probe for differently-cased files (open_charts.py:39-40) and the PNG listing of the help text only print; they are not modelled.
- `CleanupDebug.CleanupDebugStatements`: the regex deletions of debug prints (cleanup_debug.py:18-27) are not modelled. Their result is an input, `afterDeletions`, and only the newline collapse and the line count are modelled.
- `VerifyUnicode.VerifyUnicodeFixes`: Python's `compile()` is not modelled; whether each file compiles is an input.
- `LogMonitor.ShowSummary`: `sorted(pids)` only orders the printed list, so the PIDs are a set. The titles and formats of printed lines are not modelled.
- `LoggerConfig`: handlers, formatters, levels, the clock behind the timestamp, and `get_process_info` are left to the `logging` library and are not modelled. `setup_logger` is a given logger value.
- `FairValues`: `.title()` display names, dictionary order beyond the given year order, and number formatting are not modelled.
- `DebugZion.AnalyzeZion`: pandas `NaN` handling is not modelled. An empty table yields no extremes and no warnings, which matches NaN comparisons being false. `int(row['Period'])` is taken as given.
- `Workflow`: the step machine abstracts what each step prints. The browser step and the monitor step always succeed, as the drivers ignore their outcome. The wait step always completes: `input()` raising EOFError on a closed stdin (analyze_ticker.py:182) would abort the interactive run, and that is not modelled.

## Findings

| source | as written | input that shows it | evidently intended | confidence | as-written member | corrected member |
|---|---|---|---|---|---|---|
| fix_unicode.py:21-30 | The folder key 'ðŸ“' comes before the chart, info and decline keys, which all start with it, so it replaces their first part | content "ðŸ“ˆ" becomes "[FILE]ˆ", and the report still lists nothing | each mojibake emoji becomes its own tag ("[CHART]"), i.e. longer keys applied before their prefixes | high (not executed) | FixUnicode.FixUnicodeIssuesShadowsChart | FixUnicode.FixUnicodeIssuesCorrectedOwnTags |
| analyze_ticker.py:107-124 | `open_results()` runs `open_charts.py` with no ticker argument, and open_charts.py:62-65 exits with status 1 when the argument count is not one | any successful run of `python analyze_ticker.py AAPL`: the chart opener prints its usage and opens nothing | pass the cleaned ticker, as analyze_ticker_gui.py:126-134,266 does | high (not executed) | Workflow.OpenResultsArgumentAsWritten | Workflow.OpenResultsArgument |
