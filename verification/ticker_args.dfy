/**
 * How `get_xlsx.py` and `auto_download.py` obtain the ticker: the first
 * command-line argument that does not start with '-', else the answers
 * typed at a prompt that repeats until one is not blank. Both scripts
 * carry identical copies of this code.
 */
module TickerArgs {

  import opened Wrappers
  import opened Text

  /** `arg.startswith('-')` */
  predicate IsOption(arg: string) {
    |arg| > 0 && arg[0] == '-'
  }

  lemma UpperCharSpace(c: char)
    ensures IsSpace(UpperChar(c)) <==> IsSpace(c)
  {
  }

  /** Argument `i` is the first that is not an option. */
  predicate FirstNonOptionAt(args: seq<string>, i: int) {
    0 <= i < |args| && !IsOption(args[i]) && forall j :: 0 <= j < i ==> IsOption(args[j])
  }

  /** The scan over `sys.argv[1:]`: the first non-option argument, upper-cased. */
  function TickerFromArgs(args: seq<string>): (r: Option<string>)
    ensures r.None? <==> forall i :: 0 <= i < |args| ==> IsOption(args[i])
    ensures r.Some? ==> exists i :: FirstNonOptionAt(args, i) && r.value == Upper(args[i])
  {
    if |args| == 0 then None
    else if !IsOption(args[0]) then
      assert FirstNonOptionAt(args, 0);
      Some(Upper(args[0]))
    else
      var r := TickerFromArgs(args[1..]);
      assert forall j :: 1 <= j < |args| ==> args[j] == args[1..][j - 1];
      assert r.Some? ==> exists i :: FirstNonOptionAt(args, i) && r.value == Upper(args[i]) by {
        if r.Some? {
          var i :| FirstNonOptionAt(args[1..], i) && r.value == Upper(args[1..][i]);
          assert FirstNonOptionAt(args, i + 1);
        }
      }
      r
  }

  /**
   * `get_ticker_from_user` over the lines typed in turn: the first one
   * that is not blank, stripped and upper-cased. None stands for a user
   * who never answers with a ticker.
   */
  function PromptTicker(answers: seq<string>): (r: Option<string>)
    ensures r.None? <==> AllBlank(answers)
    ensures r.Some? ==> exists i :: PromptedAt(answers, i, r.value)
    ensures r.Some? ==> |r.value| > 0 && IsUpperCase(r.value)
    ensures r.Some? ==> HasNoOuterSpace(r.value)
  {
    if |answers| == 0 then None
    else
      var t := Upper(Strip(answers[0]));
      if |t| > 0 then
        UpperOfStripped(answers[0]);
        assert PromptedAt(answers, 0, t);
        Some(t)
      else
        var r := PromptTicker(answers[1..]);
        PromptSkipsBlank(answers, r);
        r
  }

  /** Neither end of `s` is whitespace, as after `strip`. */
  predicate HasNoOuterSpace(s: string) {
    |s| == 0 || (!IsSpace(s[0]) && !IsSpace(s[|s| - 1]))
  }

  /** Every answer is blank. */
  predicate AllBlank(answers: seq<string>) {
    forall i :: 0 <= i < |answers| ==> AllSpace(answers[i])
  }

  /** Answer `i` is the first that is not blank, and `t` the ticker it gives. */
  predicate PromptedAt(answers: seq<string>, i: int, t: string) {
    FirstNonBlankAt(answers, i) && t == Upper(Strip(answers[i]))
  }

  /** Answer `i` is the first that is not blank. */
  predicate FirstNonBlankAt(answers: seq<string>, i: int) {
    0 <= i < |answers| && !AllSpace(answers[i]) && forall j :: 0 <= j < i ==> AllSpace(answers[j])
  }

  /** A non-blank answer gives a ticker with the promised shape. */
  lemma UpperOfStripped(a: string)
    requires |Upper(Strip(a))| > 0
    ensures !AllSpace(a)
    ensures IsUpperCase(Upper(Strip(a)))
    ensures HasNoOuterSpace(Upper(Strip(a)))
  {
    var s := Strip(a);
    UpperIsUpperCase(s);
    UpperCharSpace(s[0]);
    UpperCharSpace(s[|s| - 1]);
  }

  lemma PromptSkipsBlank(answers: seq<string>, r: Option<string>)
    requires |answers| > 0 && |Upper(Strip(answers[0]))| == 0
    requires r.None? <==> AllBlank(answers[1..])
    requires r.Some? ==> exists i :: PromptedAt(answers[1..], i, r.value)
    ensures r.None? <==> AllBlank(answers)
    ensures r.Some? ==> exists i :: PromptedAt(answers, i, r.value)
  {
    BlankAnswer(answers[0]);
    AllBlankShift(answers);
    if r.Some? {
      var i :| PromptedAt(answers[1..], i, r.value);
      FirstNonBlankShift(answers, i);
      assert PromptedAt(answers, i + 1, r.value);
    }
  }

  lemma BlankAnswer(a: string)
    requires |Upper(Strip(a))| == 0
    ensures AllSpace(a)
  {
    assert Strip(a) == [];
  }

  lemma AllBlankShift(answers: seq<string>)
    requires |answers| > 0 && AllSpace(answers[0])
    ensures AllBlank(answers[1..]) <==> AllBlank(answers)
  {
    var tail := answers[1..];
    assert forall j :: 1 <= j < |answers| ==> answers[j] == tail[j - 1];
  }

  lemma FirstNonBlankShift(answers: seq<string>, i: nat)
    requires |answers| > 0 && AllSpace(answers[0])
    requires FirstNonBlankAt(answers[1..], i)
    ensures FirstNonBlankAt(answers, i + 1) && answers[i + 1] == answers[1..][i]
  {
    var tail := answers[1..];
    assert forall j :: 1 <= j < |answers| ==> answers[j] == tail[j - 1];
  }

  /**
   * The ticker `main` works with: the command-line one unless it is
   * missing or empty, in which case the prompt runs.
   */
  function ResolveTicker(args: seq<string>, answers: seq<string>): (r: Option<string>)
    ensures r.Some? ==> |r.value| > 0 && IsUpperCase(r.value)
    ensures (exists i :: FirstNonOptionAt(args, i) && |args[i]| > 0) ==> r == TickerFromArgs(args)
    ensures !(exists i :: FirstNonOptionAt(args, i) && |args[i]| > 0) ==> r == PromptTicker(answers)
  {
    match TickerFromArgs(args)
    case Some(t) =>
      if |t| > 0 then
        UpperIsUpperCase(t);
        assert t == Upper(t) by {
          var i :| FirstNonOptionAt(args, i) && t == Upper(args[i]);
          UpperIdempotent(args[i]);
        }
        Some(t)
      else PromptTicker(answers)
    case None => PromptTicker(answers)
  }

  /** An empty first argument is chosen by the scan, found blank, and sends `main` to the prompt. */
  lemma EmptyArgumentPrompts(args: seq<string>, answers: seq<string>)
    requires |args| > 0 && args[0] == ""
    ensures TickerFromArgs(args) == Some("")
    ensures ResolveTicker(args, answers) == PromptTicker(answers)
  {
    assert !IsOption(args[0]);
  }

  /** Options are skipped, whatever follows them. */
  lemma OptionsAreSkipped(opts: seq<string>, ticker: string, rest: seq<string>)
    requires forall i :: 0 <= i < |opts| ==> IsOption(opts[i])
    requires !IsOption(ticker)
    ensures TickerFromArgs(opts + [ticker] + rest) == Some(Upper(ticker))
  {
    var args := opts + [ticker] + rest;
    assert args[|opts|] == ticker;
    assert forall j :: 0 <= j < |opts| ==> args[j] == opts[j];
    var r := TickerFromArgs(args);
    var i :| FirstNonOptionAt(args, i) && r.value == Upper(args[i]);
  }
}
