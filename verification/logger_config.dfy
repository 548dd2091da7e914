/**
 * `logger_config.py`: the log file name, the messages the helper functions
 * log, the GUI-spawn test on subprocess commands, and the lazily created
 * global logger. Handlers, formatters and the clock are left to the
 * `logging` library and are not modelled.
 */
module LoggerConfig {

  import opened Wrappers
  import opened Text
  import opened LogMonitor

  /** `logs / f"marketswimmer_{timestamp}.log"` */
  function LogFileName(timestamp: string): (path: string)
    ensures StartsWith(path, "logs/") && IsLogName(path[5..])
  {
    var name := LogPrefix + timestamp + LogSuffix;
    assert name[..|LogPrefix|] == LogPrefix;
    assert name[|name| - |LogSuffix|..] == LogSuffix;
    assert ("logs/" + name)[5..] == name;
    "logs/" + name
  }

  /** The timestamp a log name carries: the text between prefix and suffix. */
  function TimestampOf(name: string): string
    requires IsLogName(name)
  {
    name[|LogPrefix|..|name| - |LogSuffix|]
  }

  /** The monitor's pattern finds the log, and its name gives back the timestamp. */
  lemma LogFileNameRoundTrip(timestamp: string)
    ensures IsLogName(LogFileName(timestamp)[5..])
    ensures TimestampOf(LogFileName(timestamp)[5..]) == timestamp
  {
    var name := LogPrefix + timestamp + LogSuffix;
    assert LogFileName(timestamp)[5..] == name;
    assert name[|LogPrefix|..|name| - |LogSuffix|] == timestamp;
  }

  /** Different timestamps give different log files. */
  lemma LogFileNameInjective(a: string, b: string)
    requires LogFileName(a) == LogFileName(b)
    ensures a == b
  {
    LogFileNameRoundTrip(a);
    LogFileNameRoundTrip(b);
  }

  /** The subset of Python values the helpers format: `None`, or an object with its `str` and truth value. */
  datatype PyValue = PyNone | PyObj(text: string, truthy: bool)

  predicate Truthy(v: PyValue) { v.PyObj? && v.truthy }

  function Str(v: PyValue): string {
    match v
    case PyNone => "None"
    case PyObj(text, _) => text
  }

  /** `log_function_entry`'s message. */
  function EntryMessage(funcName: string, args: PyValue, kwargs: PyValue): (msg: string)
    ensures StartsWith(msg, "ENTER: " + funcName + "()")
    ensures |msg| == |"ENTER: " + funcName + "()"|
      + (if Truthy(args) then |" args="| + |Str(args)| else 0)
      + (if Truthy(kwargs) then |" kwargs="| + |Str(kwargs)| else 0)
    ensures Truthy(kwargs) ==> EndsWith(msg, " kwargs=" + Str(kwargs))
    ensures Truthy(args) && !Truthy(kwargs) ==> EndsWith(msg, " args=" + Str(args))
    ensures var head := "ENTER: " + funcName + "()";
      Truthy(args) ==> msg[|head|..|head| + |" args=" + Str(args)|] == " args=" + Str(args)
  {
    var head := "ENTER: " + funcName + "()";
    var a := if Truthy(args) then " args=" + Str(args) else "";
    var k := if Truthy(kwargs) then " kwargs=" + Str(kwargs) else "";
    assert (head + a + k)[..|head|] == head;
    assert (head + a + k)[|head + a + k| - |k|..] == k;
    assert (head + a)[|head + a| - |a|..] == a;
    assert (head + a + k)[|head|..|head| + |a|] == a;
    head + a + k
  }

  /** `log_function_exit`'s message (two spaces after the colon, as written). */
  function ExitMessage(funcName: string, result: PyValue): (msg: string)
    ensures StartsWith(msg, "EXIT:  " + funcName + "()")
    ensures msg == "EXIT:  " + funcName + "()" <==> result.PyNone?
    ensures result.PyObj? ==> EndsWith(msg, " -> " + result.text)
    ensures result.PyObj? ==> |msg| == |"EXIT:  " + funcName + "()"| + |" -> " + result.text|
  {
    var head := "EXIT:  " + funcName + "()";
    var tail := if result.PyNone? then "" else " -> " + Str(result);
    assert (head + tail)[..|head|] == head;
    assert (head + tail)[|head + tail| - |tail|..] == tail;
    head + tail
  }

  /** A falsy result such as `0` or `False` is still shown. */
  lemma FalsyResultShown(funcName: string, text: string)
    ensures ExitMessage(funcName, PyObj(text, false)) != "EXIT:  " + funcName + "()"
  {
  }

  /** The keywords `log_subprocess_call` looks for in the lower-cased command. */
  const GuiKeywords: seq<string> := ["gui", "start_gui", "market_swimmer_gui"]

  predicate IsGuiSpawn(command: string) {
    exists k :: 0 <= k < |GuiKeywords| && Contains(Lower(command), GuiKeywords[k])
  }

  /** The two longer keywords contain the first, so only "gui" matters. */
  lemma GuiSpawnIff(command: string)
    ensures IsGuiSpawn(command) <==> Contains(Lower(command), "gui")
  {
    var l := Lower(command);
    if Contains(l, GuiKeywords[1]) {
      ContainsAt(GuiKeywords[1], "gui", 6);
      ContainsTrans(l, GuiKeywords[1], "gui");
    }
    if Contains(l, GuiKeywords[2]) {
      ContainsAt(GuiKeywords[2], "gui", 15);
      ContainsTrans(l, GuiKeywords[2], "gui");
    }
    if Contains(l, "gui") {
      assert Contains(l, GuiKeywords[0]);
    }
  }

  datatype Level = Debug | Info | Warning | Error

  datatype Record = Record(level: Level, message: string)

  /** The records `log_subprocess_call` emits; `pid` is `os.getpid()`. */
  function SubprocessCallRecords(command: string, scriptName: string, pid: nat): (r: seq<Record>)
    ensures |r| == (if IsGuiSpawn(command) then 5 else 3)
    ensures forall i :: 0 <= i < 3 ==> r[i].level == Warning
    ensures forall i :: 3 <= i < |r| ==> r[i].level == Error
    ensures Contains(r[0].message, "SUBPROCESS CALL")
    ensures r[2].message == PidMessage(pid)
  {
    var head := "SUBPROCESS CALL from " + scriptName + ":";
    ContainsAt(head, "SUBPROCESS CALL", 0);
    var base := [
      Record(Warning, head),
      Record(Warning, "  Command: " + command),
      Record(Warning, PidMessage(pid))];
    if IsGuiSpawn(command) then
      base + [
        Record(Error, "POTENTIAL GUI SPAWN DETECTED in " + scriptName + "!"),
        Record(Error, "  Command: " + command)]
    else base
  }

  function PidMessage(pid: nat): string {
    "  PID: " + NatToString(pid)
  }

  /** `log_gui_event`'s message. */
  function GuiEventMessage(eventType: string, details: string): (msg: string)
    ensures Contains(msg, "GUI EVENT")
  {
    var msg := "GUI EVENT: " + eventType + " | " + details;
    ContainsAt(msg, "GUI EVENT", 0);
    msg
  }

  /**
   * The PID record, as a line of the log file behind a formatter prefix
   * that holds no "PID:", is read back by the monitor's summary.
   */
  lemma PidRecordReadBack(prefix: string, pid: nat)
    requires !Contains(prefix, PidTag)
    ensures ExtractPid(prefix + PidMessage(pid) + "\n") == Some(NatToString(pid))
  {
    var digits := NatToString(pid);
    NatToStringDigits(pid);
    var tail := PidMessage(pid) + "\n";
    assert prefix + PidMessage(pid) + "\n" == prefix + tail;
    TailShape(digits);
    RecordField(prefix, tail, " " + digits + "\n");
    DigitsWord(digits);
  }

  /** The record after the formatter prefix: two spaces, the tag, then the number. */
  lemma TailShape(digits: string)
    requires AllDigits(digits)
    ensures |"  PID: " + digits + "\n"| >= 2 + |PidTag|
    ensures ("  PID: " + digits + "\n")[0] == ' ' && ("  PID: " + digits + "\n")[1] == ' '
    ensures ("  PID: " + digits + "\n")[2..2 + |PidTag|] == PidTag
    ensures ("  PID: " + digits + "\n")[2 + |PidTag|..] == " " + digits + "\n"
    ensures 'P' !in " " + digits + "\n"
  {
  }

  lemma RecordField(prefix: string, tail: string, rest: string)
    requires !Contains(prefix, PidTag)
    requires |tail| >= 2 + |PidTag| && tail[0] == ' ' && tail[1] == ' '
    requires tail[2..2 + |PidTag|] == PidTag && tail[2 + |PidTag|..] == rest
    requires 'P' !in rest
    ensures PidField(prefix + tail) == Some(rest)
  {
    var line := prefix + tail;
    var at := |prefix| + 2;
    RecordTagFound(prefix, tail);
    assert line[at + |PidTag|..] == tail[2 + |PidTag|..];
    NotInside(rest, PidTag, 'P');
  }

  /** The first "PID:" of the line is the record's own, two places after the prefix. */
  lemma RecordTagFound(prefix: string, tail: string)
    requires !Contains(prefix, PidTag)
    requires |tail| >= 2 + |PidTag| && tail[0] == ' ' && tail[1] == ' '
    requires tail[2..2 + |PidTag|] == PidTag
    ensures Find(prefix + tail, PidTag) == Some(|prefix| + 2)
  {
    var line := prefix + tail;
    var at := |prefix| + 2;
    assert line[at..at + |PidTag|] == tail[2..2 + |PidTag|];
    forall j | 0 <= j < at ensures !StartsWith(line[j..], PidTag) {
      NoTagBeforeRecord(prefix, tail, j);
    }
    FindAt(line, PidTag, at);
  }

  lemma NoTagBeforeRecord(prefix: string, tail: string, j: nat)
    requires !Contains(prefix, PidTag)
    requires |tail| >= 2 && tail[0] == ' ' && tail[1] == ' '
    requires j < |prefix| + 2
    ensures !StartsWith((prefix + tail)[j..], PidTag)
  {
    if j + |PidTag| <= |prefix| {
      NoTagInPrefix(prefix, tail, j);
    } else {
      NoTagAcrossSpaces(prefix, tail, j);
    }
  }

  lemma NoTagInPrefix(prefix: string, tail: string, j: nat)
    requires !Contains(prefix, PidTag) && j + |PidTag| <= |prefix|
    ensures !StartsWith((prefix + tail)[j..], PidTag)
  {
    assert (prefix + tail)[j..][..|PidTag|] == prefix[j..j + |PidTag|];
    if prefix[j..j + |PidTag|] == PidTag {
      ContainsAt(prefix, PidTag, j);
    }
  }

  lemma NoTagAcrossSpaces(prefix: string, tail: string, j: nat)
    requires |tail| >= 2 && tail[0] == ' ' && tail[1] == ' '
    requires |prefix| < j + |PidTag| && j < |prefix| + 2
    ensures !StartsWith((prefix + tail)[j..], PidTag)
  {
    var line := prefix + tail;
    var m := if j <= |prefix| then |prefix| - j else |prefix| + 1 - j;
    if j + |PidTag| <= |line| {
      assert line[j..][m] == tail[j + m - |prefix|] == ' ';
    }
  }

  lemma DigitsWord(digits: string)
    requires |digits| > 0 && AllDigits(digits)
    ensures FirstWord(" " + digits + "\n") == Some(digits)
  {
    var s := " " + digits + "\n";
    assert s[1..] == digits + "\n";
    assert TrimStart(s) == digits + "\n";
    TakeDigits(digits);
  }

  lemma {:induction false} TakeDigits(digits: string)
    requires AllDigits(digits)
    ensures TakeWord(digits + "\n") == digits
    decreases |digits|
  {
    if |digits| == 0 {
      assert digits + "\n" == "\n";
    } else {
      assert (digits + "\n")[1..] == digits[1..] + "\n";
      TakeDigits(digits[1..]);
      assert digits == [digits[0]] + digits[1..];
    }
  }

  /**
   * `get_logger`: the global is set up on first use; `created` is the logger
   * `setup_logger` would return. The result is the logger, the new global,
   * and whether `setup_logger` ran.
   */
  function GetLogger<L>(global: Option<L>, created: L): (r: (L, Option<L>, bool))
    ensures r.1 == Some(r.0)
    ensures r.2 <==> global.None?
    ensures global.Some? ==> r.0 == global.value
  {
    match global
    case None => (created, Some(created), true)
    case Some(l) => (l, global, false)
  }

  /** A run of `get_logger` calls: the loggers returned and how often setup ran. */
  function GetLoggerCalls<L>(global: Option<L>, created: seq<L>): (r: (seq<L>, nat))
    decreases |created|
  {
    if |created| == 0 then ([], 0)
    else
      var (l, g, setup) := GetLogger(global, created[0]);
      var (rest, n) := GetLoggerCalls(g, created[1..]);
      ([l] + rest, n + if setup then 1 else 0)
  }

  /** Every call returns the same logger, and `setup_logger` runs at most once. */
  lemma {:induction false} GetLoggerSingleton<L>(global: Option<L>, created: seq<L>)
    ensures |GetLoggerCalls(global, created).0| == |created|
    ensures GetLoggerCalls(global, created).1 <= 1
    ensures global.Some? ==> GetLoggerCalls(global, created).1 == 0
    ensures forall i, j :: 0 <= i < j < |created| ==> GetLoggerCalls(global, created).0[i] == GetLoggerCalls(global, created).0[j]
    ensures global.Some? ==> forall i :: 0 <= i < |created| ==> GetLoggerCalls(global, created).0[i] == global.value
    decreases |created|
  {
    if |created| > 0 {
      var (l, g, setup) := GetLogger(global, created[0]);
      GetLoggerSingleton(g, created[1..]);
    }
  }
}
