/**
 * `log_monitor.py`: pick the newest MarketSwimmer log, show its tail,
 * highlight process-related lines, and summarise the PIDs, subprocess
 * calls and GUI events it records.
 */
module LogMonitor {

  import opened Wrappers
  import opened Text
  import opened Files

  const LogPrefix: string := "marketswimmer_"
  const LogSuffix: string := ".log"

  /** What `glob("marketswimmer_*.log")` matches: the `*` may be empty but prefix and suffix may not overlap. */
  predicate IsLogName(name: string) {
    |name| >= |LogPrefix| + |LogSuffix| && StartsWith(name, LogPrefix) && EndsWith(name, LogSuffix)
  }

  /**
   * `get_latest_log`: `None` when the logs folder is missing or holds no
   * log, otherwise the log with the greatest mtime (the first such one).
   */
  function GetLatestLog(logsDir: Option<seq<FileEntry>>): (r: Option<string>)
    ensures r.None? <==> logsDir.None? || forall j :: 0 <= j < |logsDir.value| ==> !IsLogName(logsDir.value[j].name)
    ensures r.Some? ==> exists k :: 0 <= k < |logsDir.value| && IsNewestLog(logsDir.value, k) && r.value == logsDir.value[k].name
  {
    match logsDir
    case None => None
    case Some(files) =>
      match NewestWhere(files, IsLogName)
      case None => None
      case Some(k) => assert IsNewestLog(files, k); Some(files[k].name)
  }

  predicate IsNewestLog(files: seq<FileEntry>, k: nat)
    requires k < |files|
  {
    IsLogName(files[k].name) &&
    forall j :: 0 <= j < |files| && IsLogName(files[j].name) ==> files[j].mtime <= files[k].mtime
  }

  /** Python's `s[k:]` for any integer `k`. */
  function SliceFrom<T>(s: seq<T>, k: int): (r: seq<T>)
    ensures |r| <= |s| && r == s[|s| - |r|..]
    ensures 0 <= k <= |s| ==> |r| == |s| - k
    ensures -|s| <= k < 0 ==> |r| == -k
  {
    if k < 0 then (if -k >= |s| then s else s[|s| + k..])
    else if k >= |s| then []
    else s[k..]
  }

  /**
   * `tail_log`: the lines of the file, or of its last `lines` when there
   * are more; `None` content stands for a read error, reported as one line.
   */
  function TailLog(content: Option<seq<string>>, lines: int, error: string): (r: seq<string>)
    ensures content.None? ==> r == ["Error reading log: " + error + "\n"]
    ensures content.Some? ==> |r| <= |content.value| && r == content.value[|content.value| - |r|..]
    ensures content.Some? && lines > 0 ==> |r| == if |content.value| < lines then |content.value| else lines
    ensures content.Some? && lines == 0 ==> r == content.value
  {
    match content
    case None => ["Error reading log: " + error + "\n"]
    case Some(c) => if |c| > lines then SliceFrom(c, -lines) else c
  }

  /** The monitor's highlight test: a keyword occurs in the upper-cased line. */
  predicate Highlight(line: string) {
    var u := Upper(line);
    Contains(u, "GUI") || Contains(u, "SUBPROCESS") || Contains(u, "SPAWN") || Contains(u, "PID")
  }

  lemma UpperOfLower(s: string)
    ensures Upper(Lower(s)) == Upper(s)
  {
    assert forall i :: 0 <= i < |s| ==> Upper(Lower(s))[i] == Upper(s)[i];
  }

  /** The highlight ignores letter case. */
  lemma HighlightIgnoresCase(line: string)
    ensures Highlight(Lower(line)) == Highlight(line)
    ensures Highlight(Upper(line)) == Highlight(line)
  {
    UpperOfLower(line);
    UpperIdempotent(line);
  }

  /** The non-blank parts of `chunk.split('\n')`, in order. */
  function NonBlankLines(parts: seq<string>): (r: seq<string>)
    ensures |r| <= |parts|
    ensures forall k :: 0 <= k < |r| ==> !AllSpace(r[k])
  {
    if |parts| == 0 then []
    else (if AllSpace(parts[0]) then [] else [parts[0]]) + NonBlankLines(parts[1..])
  }

  /** Appending a part appends it to the kept lines exactly when it is not blank. */
  lemma {:induction false} NonBlankLinesSnoc(parts: seq<string>, x: string)
    ensures NonBlankLines(parts + [x]) == NonBlankLines(parts) + (if AllSpace(x) then [] else [x])
  {
    if |parts| == 0 {
      assert parts + [x] == [x];
      assert [x][1..] == [];
    } else {
      assert (parts + [x])[1..] == parts[1..] + [x];
      NonBlankLinesSnoc(parts[1..], x);
    }
  }

  /**
   * How the monitor loop prints newly appended lines: each line kept, and
   * prefixed with ">>> " exactly when it is highlighted.
   */
  function RenderAll(lines: seq<string>): (r: seq<string>)
    ensures |r| == |lines|
    ensures forall k :: 0 <= k < |r| ==> EndsWith(r[k], lines[k])
    ensures forall k :: 0 <= k < |r| ==> (|r[k]| > |lines[k]| <==> Highlight(lines[k]))
    ensures forall k :: 0 <= k < |r| ==> r[k] == lines[k] || r[k] == ">>> " + lines[k]
  {
    seq(|lines|, k requires 0 <= k < |lines| => Render(lines[k]))
  }

  /** One printed line: the line itself, after ">>> " when highlighted. */
  function Render(l: string): (r: string)
    ensures EndsWith(r, l)
    ensures |r| > |l| <==> Highlight(l)
    ensures r == l || r == ">>> " + l
  {
    var r := if Highlight(l) then ">>> " + l else l;
    assert r[|r| - |l|..] == l;
    r
  }

  /** The monitor's output for a chunk of new log text: its non-blank lines, rendered. */
  function MonitorChunk(chunk: string): (out: seq<string>)
    ensures |out| <= CountChar(chunk, '\n') + 1
    ensures |out| == |NonBlankLines(Split(chunk, '\n'))|
    ensures var L := NonBlankLines(Split(chunk, '\n'));
      forall k :: 0 <= k < |out| ==> EndsWith(out[k], L[k]) && (|out[k]| > |L[k]| <==> Highlight(L[k]))
    ensures var L := NonBlankLines(Split(chunk, '\n'));
      forall k :: 0 <= k < |out| ==> out[k] == L[k] || out[k] == ">>> " + L[k]
  {
    RenderAll(NonBlankLines(Split(chunk, '\n')))
  }

  const PidTag: string := "PID:"

  /**
   * `f` starts right after the first "PID:" of `line` and runs to the end
   * of the line or to the next "PID:".
   */
  predicate IsPidField(line: string, f: string) {
    match Find(line, PidTag)
    case None => false
    case Some(i) =>
      var rest := line[i + |PidTag|..];
      && StartsWith(rest, f)
      && !Contains(f, PidTag)
      && (|f| == |rest| || StartsWith(rest[|f|..], PidTag))
  }

  /** `line.split('PID:')[1]`: the text between the first "PID:" of a line and the next one (or the end). */
  function PidField(line: string): (f: Option<string>)
    ensures f.None? <==> !Contains(line, PidTag)
    ensures f.Some? ==> IsPidField(line, f.value)
    ensures f.Some? ==> Contains(line, f.value) && !Contains(f.value, PidTag)
  {
    match Find(line, PidTag)
    case None => None
    case Some(i) =>
      var rest := line[i + |PidTag|..];
      ContainsAt(line, rest, i + |PidTag|);
      match Find(rest, PidTag)
      case None =>
        assert rest[..|rest|] == rest;
        Some(rest)
      case Some(j) =>
        var seg := rest[..j];
        ContainsAt(rest, seg, 0);
        ContainsTrans(line, rest, seg);
        NoTagBefore(rest, j);
        assert rest[j..][..|PidTag|] == rest[j..j + |PidTag|];
        Some(seg)
  }

  /** The field is determined by the line: a tag cannot start inside another. */
  lemma PidFieldUnique(line: string, f1: string, f2: string)
    requires IsPidField(line, f1) && IsPidField(line, f2)
    ensures f1 == f2
  {
    var i := Find(line, PidTag).value;
    var rest := line[i + |PidTag|..];
    if |f1| < |f2| {
      LongerFieldStops(rest, f1, f2);
    } else if |f2| < |f1| {
      LongerFieldStops(rest, f2, f1);
    }
    assert f1 == rest[..|f1|] && f2 == rest[..|f2|];
  }

  /**
   * Past a field that ends at a tag, a longer prefix either holds that tag
   * or ends where no tag starts.
   */
  lemma LongerFieldStops(rest: string, a: string, b: string)
    requires StartsWith(rest, a) && StartsWith(rest, b) && |a| < |b|
    requires |a| == |rest| || StartsWith(rest[|a|..], PidTag)
    ensures Contains(b, PidTag) || (|b| < |rest| && !StartsWith(rest[|b|..], PidTag))
  {
    var n := |a|;
    assert rest[n..n + |PidTag|] == PidTag by { assert rest[n..][..|PidTag|] == rest[n..n + |PidTag|]; }
    if n + |PidTag| <= |b| {
      assert b[n..n + |PidTag|] == rest[n..n + |PidTag|];
      ContainsAt(b, PidTag, n);
    } else {
      TagsDoNotOverlap(rest, n, |b|);
    }
  }

  /** "PID:" does not overlap itself. */
  lemma TagsDoNotOverlap(s: string, n: nat, m: nat)
    requires n < m < n + |PidTag| && m < |s|
    ensures !(StartsWith(s[n..], PidTag) && StartsWith(s[m..], PidTag))
  {
    if StartsWith(s[n..], PidTag) {
      assert s[n..][..|PidTag|][m - n] == s[m];
      assert s[m..][0] == s[m];
    }
  }

  lemma NoTagBefore(rest: string, j: nat)
    requires j <= |rest|
    requires forall m :: 0 <= m < j ==> !StartsWith(rest[m..], PidTag)
    ensures !Contains(rest[..j], PidTag)
  {
    if Contains(rest[..j], PidTag) {
      var m := ContainsWitness(rest[..j], PidTag);
      TagAt(rest, j, m);
    }
  }

  lemma TagAt(rest: string, j: nat, m: nat)
    requires j <= |rest| && m + |PidTag| <= j && rest[..j][m..m + |PidTag|] == PidTag
    ensures StartsWith(rest[m..], PidTag)
  {
    assert rest[m..][..|PidTag|] == rest[..j][m..m + |PidTag|];
  }

  /**
   * `line.split('PID:')[1].strip().split()[0]`: `None` when the line has no
   * "PID:" or the field after it is blank (the `IndexError` the summary
   * swallows).
   */
  function ExtractPid(line: string): (r: Option<string>)
    ensures r.Some? ==> Contains(line, PidTag) && Contains(line, r.value) && !Contains(r.value, PidTag)
    ensures r.Some? ==> |r.value| > 0 && forall i :: 0 <= i < |r.value| ==> !IsSpace(r.value[i])
    ensures r.None? <==> !Contains(line, PidTag) || AllSpace(PidField(line).value)
    ensures r.Some? ==> exists k :: WordAt(PidField(line).value, r.value, k)
  {
    match PidField(line)
    case None => None
    case Some(f) =>
      var w := FirstWord(f);
      if w.Some? then
        WordOfField(line, f, w.value);
        w
      else w
  }

  lemma WordOfField(line: string, f: string, w: string)
    requires Contains(line, f) && !Contains(f, PidTag)
    requires FirstWord(f) == Some(w)
    ensures Contains(line, w) && !Contains(w, PidTag)
  {
    var k :| WordAt(f, w, k);
    ContainsAt(f, w, k);
    ContainsTrans(line, f, w);
    if Contains(w, PidTag) {
      ContainsTrans(f, w, PidTag);
    }
  }

  /** A line with one tag yields the token after it. */
  lemma ExtractPidExample()
    ensures ExtractPid("PID: 42") == Some("42")
  {
    FieldOfExample();
    WordOfExample();
  }

  lemma WordOfExample()
    ensures FirstWord(" 42") == Some("42")
  {
    TrimExample();
    TakeExample();
  }

  lemma TrimExample()
    ensures TrimStart(" 42") == "42"
  {
    var s := " 42";
    var t := s[1..];
    assert t == "42" && !IsSpace(t[0]);
  }

  lemma TakeExample()
    ensures TakeWord("42") == "42"
  {
    var s := "42";
    assert s[1..] == "2";
    assert "2"[1..] == "";
  }

  lemma FieldOfExample()
    ensures PidField("PID: 42") == Some(" 42")
  {
    var line := "PID: 42";
    FindAt(line, PidTag, 0);
    var rest := line[0 + |PidTag|..];
    assert rest == " 42";
    NotInside(rest, PidTag, 'P');
  }

  /** The field ends at a second tag, so "PID: PID: 7" yields nothing. */
  lemma SecondTagEndsField()
    ensures ExtractPid("PID: PID: 7") == None
  {
    FieldBeforeSecondTag();
    assert AllSpace(" ");
  }

  lemma FieldBeforeSecondTag()
    ensures PidField("PID: PID: 7") == Some(" ")
  {
    var line := "PID: PID: 7";
    FindAt(line, PidTag, 0);
    var rest := line[0 + |PidTag|..];
    assert rest == " PID: 7";
    assert rest[0..][0] == ' ';
    FindAt(rest, PidTag, 1);
    assert rest[..1] == " ";
  }

  /** The PIDs the summary collects: a set, so a PID seen twice counts once. */
  function Pids(lines: seq<string>): (r: set<string>)
    ensures forall p :: p in r <==> exists k :: 0 <= k < |lines| && ExtractPid(lines[k]) == Some(p)
  {
    set k | 0 <= k < |lines| && ExtractPid(lines[k]).Some? :: ExtractPid(lines[k]).value
  }

  /** The stripped lines that contain `key`, in order. */
  function Matching(lines: seq<string>, key: string): (r: seq<string>)
    ensures |r| <= |lines|
    ensures forall x :: x in r <==> MatchesSome(lines, key, x)
  {
    if |lines| == 0 then []
    else
      var rest := Matching(lines[1..], key);
      var head := if Contains(lines[0], key) then [Strip(lines[0])] else [];
      MatchesSomeCons(lines, key);
      assert forall x :: x in head <==> Contains(lines[0], key) && Strip(lines[0]) == x;
      assert forall x :: x in head + rest <==> x in head || x in rest;
      head + rest
  }

  /** Appending a line appends its strip exactly when it contains the key. */
  lemma {:induction false} MatchingSnoc(lines: seq<string>, key: string, x: string)
    ensures Matching(lines + [x], key) == Matching(lines, key) + (if Contains(x, key) then [Strip(x)] else [])
  {
    if |lines| == 0 {
      assert lines + [x] == [x];
      assert [x][1..] == [];
    } else {
      var tail := lines[1..];
      var l := lines + [x];
      assert l[1..] == tail + [x] && l[0] == lines[0];
      MatchingSnoc(tail, key, x);
      MatchingCons(l, key);
      MatchingCons(lines, key);
    }
  }

  lemma MatchingCons(lines: seq<string>, key: string)
    requires |lines| > 0
    ensures Matching(lines, key) == (if Contains(lines[0], key) then [Strip(lines[0])] else []) + Matching(lines[1..], key)
  {
  }

  /** Some line contains `key` and strips to `x`. */
  predicate MatchesSome(lines: seq<string>, key: string, x: string) {
    exists k :: 0 <= k < |lines| && Contains(lines[k], key) && Strip(lines[k]) == x
  }

  lemma MatchesSomeCons(lines: seq<string>, key: string)
    requires |lines| > 0
    ensures forall x :: MatchesSome(lines, key, x) <==>
      (Contains(lines[0], key) && Strip(lines[0]) == x) || MatchesSome(lines[1..], key, x)
  {
    forall x | MatchesSome(lines[1..], key, x)
      ensures MatchesSome(lines, key, x)
    {
      var k :| 0 <= k < |lines[1..]| && Contains(lines[1..][k], key) && Strip(lines[1..][k]) == x;
      assert lines[k + 1] == lines[1..][k];
    }
    forall x | MatchesSome(lines, key, x) && !(Contains(lines[0], key) && Strip(lines[0]) == x)
      ensures MatchesSome(lines[1..], key, x)
    {
      var k :| 0 <= k < |lines| && Contains(lines[k], key) && Strip(lines[k]) == x;
      assert lines[1..][k - 1] == lines[k];
    }
  }

  /** What `show_summary` prints. */
  datatype Summary = Summary(
    pids: set<string>,
    callCount: nat, shownCalls: seq<string>,
    eventCount: nat, shownEvents: seq<string>,
    multiplePids: bool)

  /**
   * `show_summary` over the lines of the newest log; `None` when there is
   * no log to read.
   */
  function ShowSummary(log: Option<seq<string>>): (r: Option<Summary>)
    ensures r.None? <==> log.None?
    ensures r.Some? ==> r.value.pids == Pids(log.value)
    ensures r.Some? ==> (r.value.multiplePids <==> |r.value.pids| >= 2)
    ensures r.Some? ==> r.value.callCount == |Matching(log.value, "SUBPROCESS CALL")|
    ensures r.Some? ==> r.value.eventCount == |Matching(log.value, "GUI EVENT")|
    ensures r.Some? ==> |r.value.shownCalls| == (if r.value.callCount < 5 then r.value.callCount else 5)
    ensures r.Some? ==> |r.value.shownEvents| == (if r.value.eventCount < 5 then r.value.eventCount else 5)
    ensures r.Some? ==> r.value.shownCalls == Matching(log.value, "SUBPROCESS CALL")[r.value.callCount - |r.value.shownCalls|..]
    ensures r.Some? ==> r.value.shownEvents == Matching(log.value, "GUI EVENT")[r.value.eventCount - |r.value.shownEvents|..]
  {
    match log
    case None => None
    case Some(lines) =>
      var pids := Pids(lines);
      var calls := Matching(lines, "SUBPROCESS CALL");
      var events := Matching(lines, "GUI EVENT");
      Some(Summary(pids, |calls|, SliceFrom(calls, -5), |events|, SliceFrom(events, -5), |pids| > 1))
  }

  /** Two lines naming different PIDs trigger the warning. */
  lemma TwoPidsWarn(lines: seq<string>, a: nat, b: nat)
    requires a < |lines| && b < |lines|
    requires ExtractPid(lines[a]).Some? && ExtractPid(lines[b]).Some?
    requires ExtractPid(lines[a]) != ExtractPid(lines[b])
    ensures ShowSummary(Some(lines)).value.multiplePids
  {
    PidOfLine(lines, a);
    PidOfLine(lines, b);
    TwoMembers(Pids(lines), ExtractPid(lines[a]).value, ExtractPid(lines[b]).value);
  }

  lemma PidOfLine(lines: seq<string>, k: nat)
    requires k < |lines| && ExtractPid(lines[k]).Some?
    ensures ExtractPid(lines[k]).value in Pids(lines)
  {
  }

  lemma TwoMembers<T>(s: set<T>, p: T, q: T)
    requires p in s && q in s && p != q
    ensures |s| >= 2
  {
    assert |{p, q}| == 2;
    SubsetCard({p, q}, s);
  }

  /** Lines that all name the same PID never trigger it. */
  lemma OnePidNoWarning(lines: seq<string>, p: string)
    requires forall k :: 0 <= k < |lines| ==> ExtractPid(lines[k]) == None || ExtractPid(lines[k]) == Some(p)
    ensures !ShowSummary(Some(lines)).value.multiplePids
  {
    var pids := Pids(lines);
    assert pids <= {p};
    SubsetCard(pids, {p});
  }

  /** The script's two modes: `--summary` as first argument, otherwise live monitoring. */
  datatype Mode = SummaryMode | MonitorMode

  function SelectMode(argv: seq<string>): (m: Mode)
    ensures m == SummaryMode <==> |argv| > 1 && argv[1] == "--summary"
  {
    if |argv| > 1 && argv[1] == "--summary" then SummaryMode else MonitorMode
  }

  /** Only the first argument decides: whatever follows it is ignored. */
  lemma SelectModeIgnoresRest(argv: seq<string>, rest: seq<string>)
    requires |argv| >= 2
    ensures SelectMode(argv + rest) == SelectMode(argv)
  {
    assert (argv + rest)[1] == argv[1];
  }

  /**
   * The flag is matched exactly: other spellings monitor, and so does the
   * flag in the program-name position.
   */
  lemma SummaryFlagIsExact()
    ensures SelectMode(["log_monitor.py", "--SUMMARY"]) == MonitorMode
    ensures SelectMode(["log_monitor.py", "-s"]) == MonitorMode
    ensures SelectMode(["--summary"]) == MonitorMode
    ensures SelectMode(["log_monitor.py", "--summary", "extra"]) == SummaryMode
  {
    assert "--SUMMARY" != "--summary" by { assert "--SUMMARY"[2] != "--summary"[2]; }
  }
}
