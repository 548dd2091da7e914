/**
 * `cleanup_debug.py`: after the debug prints are deleted, every run of three
 * or more newlines is collapsed to a blank line, and the script reports the
 * line counts before and after.
 */
module CleanupDebug {

  import opened Text

  /** Length of the run of '\n' that `s` starts with. */
  function LeadingNewlines(s: string): (n: nat)
    ensures n <= |s|
    ensures forall i :: 0 <= i < n ==> s[i] == '\n'
    ensures n == |s| || s[n] != '\n'
    decreases |s|
  {
    if |s| == 0 || s[0] != '\n' then 0 else 1 + LeadingNewlines(s[1..])
  }

  /**
   * `re.sub(r'\n\n\n+', '\n\n', s)`: scanning left to right, a run of three
   * or more newlines is matched whole (the `+` is greedy) and replaced;
   * shorter runs are left as they are.
   */
  function Collapse(s: string): string
    decreases |s|
  {
    if |s| == 0 then []
    else if s[0] != '\n' then [s[0]] + Collapse(s[1..])
    else
      var n := LeadingNewlines(s);
      (if n >= 3 then "\n\n" else s[..n]) + Collapse(s[n..])
  }

  /** No three consecutive newlines. */
  predicate NoTriple(s: string) {
    forall i :: 0 <= i && i + 2 < |s| ==> !(s[i] == '\n' && s[i + 1] == '\n' && s[i + 2] == '\n')
  }

  /** The characters of `s` other than '\n', in order. */
  function NonNewlines(s: string): (r: string)
    ensures forall i :: 0 <= i < |r| ==> r[i] != '\n'
  {
    if |s| == 0 then []
    else (if s[0] == '\n' then [] else [s[0]]) + NonNewlines(s[1..])
  }

  predicate AllNewlines(s: string) {
    forall i :: 0 <= i < |s| ==> s[i] == '\n'
  }

  lemma NonNewlinesOfNewlines(k: string, x: string)
    requires AllNewlines(k)
    ensures NonNewlines(k + x) == NonNewlines(x)
    decreases |k|
  {
    if |k| > 0 {
      assert (k + x)[1..] == k[1..] + x;
      NonNewlinesOfNewlines(k[1..], x);
    } else {
      assert k + x == x;
    }
  }

  /**
   * The shape of the collapsed text: it starts with a newline exactly when
   * the input does, and is never longer.
   */
  lemma {:induction false} CollapseShape(s: string)
    ensures |Collapse(s)| <= |s|
    ensures (|Collapse(s)| > 0 && Collapse(s)[0] == '\n') <==> (|s| > 0 && s[0] == '\n')
    ensures |s| > 0 ==> |Collapse(s)| > 0 && Collapse(s)[|Collapse(s)| - 1] == s[|s| - 1]
    decreases |s|
  {
    if |s| > 0 {
      if s[0] != '\n' {
        CollapseShape(s[1..]);
      } else {
        var n := LeadingNewlines(s);
        CollapseShape(s[n..]);
        if n == |s| {
          assert s[|s| - 1] == '\n';
        }
      }
    }
  }

  lemma NoTripleNewlinesThen(k: string, x: string)
    requires AllNewlines(k) && |k| <= 2
    requires NoTriple(x) && (|x| == 0 || x[0] != '\n')
    ensures NoTriple(k + x)
  {
    var s := k + x;
    forall i | 0 <= i && i + 2 < |s|
      ensures !(s[i] == '\n' && s[i + 1] == '\n' && s[i + 2] == '\n')
    {
      if i >= |k| {
        assert s[i] == x[i - |k|] && s[i + 1] == x[i - |k| + 1] && s[i + 2] == x[i - |k| + 2];
      } else if i + 2 >= |k| && |x| > 0 {
        assert s[|k|] == x[0];
      }
    }
  }

  lemma NoTripleCharThen(c: char, x: string)
    requires c != '\n' && NoTriple(x)
    ensures NoTriple([c] + x)
  {
    var s := [c] + x;
    forall i | 1 <= i && i + 2 < |s|
      ensures !(s[i] == '\n' && s[i + 1] == '\n' && s[i + 2] == '\n')
    {
      assert s[i] == x[i - 1] && s[i + 1] == x[i] && s[i + 2] == x[i + 1];
    }
  }

  /**
   * The collapsed text has no three consecutive newlines, and keeps every
   * other character in order.
   */
  lemma CollapseProperties(s: string)
    ensures NoTriple(Collapse(s))
    ensures NonNewlines(Collapse(s)) == NonNewlines(s)
  {
    CollapseNoTriple(s);
    CollapseKeepsText(s);
  }

  lemma {:induction false} CollapseNoTriple(s: string)
    ensures NoTriple(Collapse(s))
    decreases |s|
  {
    if |s| > 0 {
      if s[0] != '\n' {
        CollapseNoTriple(s[1..]);
        NoTripleCharThen(s[0], Collapse(s[1..]));
      } else {
        var n := LeadingNewlines(s);
        var k := if n >= 3 then "\n\n" else s[..n];
        CollapseNoTriple(s[n..]);
        CollapseShape(s[n..]);
        NoTripleNewlinesThen(k, Collapse(s[n..]));
      }
    }
  }

  lemma {:induction false} CollapseKeepsText(s: string)
    ensures NonNewlines(Collapse(s)) == NonNewlines(s)
    decreases |s|
  {
    if |s| > 0 {
      if s[0] != '\n' {
        CollapseKeepsText(s[1..]);
        assert ([s[0]] + Collapse(s[1..]))[1..] == Collapse(s[1..]);
      } else {
        var n := LeadingNewlines(s);
        var k := if n >= 3 then "\n\n" else s[..n];
        CollapseKeepsText(s[n..]);
        NonNewlinesOfNewlines(k, Collapse(s[n..]));
        assert s == s[..n] + s[n..];
        NonNewlinesOfNewlines(s[..n], s[n..]);
      }
    }
  }

  /** A text without three consecutive newlines passes through unchanged. */
  lemma {:induction false} CollapseOfNoTriple(s: string)
    requires NoTriple(s)
    ensures Collapse(s) == s
    decreases |s|
  {
    if |s| > 0 {
      if s[0] != '\n' {
        CollapseOfNoTriple(s[1..]);
        assert s == [s[0]] + s[1..];
      } else {
        var n := LeadingNewlines(s);
        RunBelowThree(s);
        assert NoTriple(s[n..]) by {
          forall i | 0 <= i && i + 2 < |s[n..]|
            ensures !(s[n..][i] == '\n' && s[n..][i + 1] == '\n' && s[n..][i + 2] == '\n')
          {
            assert s[n..][i] == s[n + i] && s[n..][i + 1] == s[n + i + 1] && s[n..][i + 2] == s[n + i + 2];
          }
        }
        CollapseOfNoTriple(s[n..]);
        assert s == s[..n] + s[n..];
      }
    }
  }

  lemma RunBelowThree(s: string)
    requires NoTriple(s)
    ensures LeadingNewlines(s) < 3
  {
    if |s| >= 3 {
      assert !(s[0] == '\n' && s[1] == '\n' && s[2] == '\n');
    }
  }

  /** The collapse leaves a text alone exactly when it has no triple newline. */
  lemma CollapseFixedIff(s: string)
    ensures Collapse(s) == s <==> NoTriple(s)
  {
    CollapseProperties(s);
    if NoTriple(s) {
      CollapseOfNoTriple(s);
    }
  }

  /** A maximal run of newlines is read whole: its length is the leading run. */
  lemma LeadingRun(k: string, y: string)
    requires AllNewlines(k) && (|y| == 0 || y[0] != '\n')
    ensures LeadingNewlines(k + y) == |k|
  {
    var s := k + y;
    assert forall i :: 0 <= i < |k| ==> s[i] == '\n';
    assert |y| > 0 ==> s[|k|] == y[0];
  }

  /** Every maximal run of three or more newlines becomes exactly one blank line. */
  lemma CollapseRun(k: string, y: string)
    requires AllNewlines(k) && |k| >= 3
    requires |y| == 0 || y[0] != '\n'
    ensures Collapse(k + y) == "\n\n" + Collapse(y)
  {
    LeadingRun(k, y);
    var s := k + y;
    assert s[0] == '\n' && s[|k|..] == y;
  }

  /** A maximal run of one or two newlines is kept as it is. */
  lemma ShortRunKept(k: string, y: string)
    requires AllNewlines(k) && 1 <= |k| <= 2
    requires |y| == 0 || y[0] != '\n'
    ensures Collapse(k + y) == k + Collapse(y)
  {
    LeadingRun(k, y);
    var s := k + y;
    assert s[0] == '\n' && s[|k|..] == y && s[..|k|] == k;
  }

  lemma CollapseIdempotent(s: string)
    ensures Collapse(Collapse(s)) == Collapse(s)
  {
    CollapseProperties(s);
    CollapseOfNoTriple(Collapse(s));
  }

  /** The index form of "no triple newline" is Python's `'\n\n\n' not in s`. */
  lemma NoTripleIsNotContains(s: string)
    ensures NoTriple(s) <==> !Contains(s, "\n\n\n")
  {
    if Contains(s, "\n\n\n") {
      var i := ContainsWitness(s, "\n\n\n");
      assert s[i..i + 3][0] == s[i] && s[i..i + 3][1] == s[i + 1] && s[i..i + 3][2] == s[i + 2];
    }
    if !NoTriple(s) {
      var i :| 0 <= i && i + 2 < |s| && s[i] == '\n' && s[i + 1] == '\n' && s[i + 2] == '\n';
      assert s[i..i + 3] == "\n\n\n";
      ContainsAt(s, "\n\n\n", i);
    }
  }

  /** The line boundaries `str.splitlines` recognises. */
  predicate IsLineBreak(c: char) {
    c == '\n' || c == '\r' || c == '\U{b}' || c == '\U{c}' || c == '\U{1c}' || c == '\U{1d}' ||
    c == '\U{1e}' || c == '\U{85}' || c == '\U{2028}' || c == '\U{2029}'
  }

  /** The number of line boundaries in `s`, "\r\n" counting once. */
  function Breaks(s: string): nat
    decreases |s|
  {
    if |s| == 0 then 0
    else (if IsLineBreak(s[0]) && !(s[0] == '\r' && |s| > 1 && s[1] == '\n') then 1 else 0) + Breaks(s[1..])
  }

  /** `len(s.splitlines())`: a final line without a boundary counts too. */
  function LineCount(s: string): nat {
    Breaks(s) + (if |s| > 0 && !IsLineBreak(s[|s| - 1]) then 1 else 0)
  }

  lemma {:induction false} BreaksOfNewlines(k: string, x: string)
    requires AllNewlines(k)
    ensures Breaks(k + x) == |k| + Breaks(x)
    decreases |k|
  {
    if |k| > 0 {
      assert (k + x)[0] == '\n' && (k + x)[1..] == k[1..] + x;
      BreaksOfNewlines(k[1..], x);
    } else {
      assert k + x == x;
    }
  }

  /** Every newline the collapse removes is one line fewer. */
  lemma {:induction false} CollapseBreaks(s: string)
    ensures Breaks(Collapse(s)) + |s| == Breaks(s) + |Collapse(s)|
    decreases |s|
  {
    if |s| > 0 {
      if s[0] != '\n' {
        CollapseBreaks(s[1..]);
        CollapseShape(s[1..]);
        assert ([s[0]] + Collapse(s[1..]))[1..] == Collapse(s[1..]);
      } else {
        var n := LeadingNewlines(s);
        var k := if n >= 3 then "\n\n" else s[..n];
        CollapseBreaks(s[n..]);
        BreaksOfNewlines(k, Collapse(s[n..]));
        assert s == s[..n] + s[n..];
        BreaksOfNewlines(s[..n], s[n..]);
      }
    }
  }

  /** The line count drops by exactly the number of newlines removed. */
  lemma CollapseLineCount(s: string)
    ensures LineCount(s) - LineCount(Collapse(s)) == |s| - |Collapse(s)| >= 0
  {
    CollapseBreaks(s);
    CollapseShape(s);
  }

  /** What `cleanup_debug_statements` writes and prints. */
  datatype Report = Report(text: string, originalLines: nat, newLines: nat, removed: int)

  /**
   * `afterDeletions` stands for the content once the debug-print regexes
   * have run.
   */
  function CleanupDebugStatements(content: string, afterDeletions: string): (r: Report)
    ensures NoTriple(r.text) && !Contains(r.text, "\n\n\n")
    ensures NonNewlines(r.text) == NonNewlines(afterDeletions)
    ensures r.originalLines == LineCount(content) && r.newLines == LineCount(r.text)
    ensures r.removed == r.originalLines - r.newLines
    ensures afterDeletions == content ==> r.removed == |content| - |r.text| >= 0
    ensures NoTriple(afterDeletions) ==> r.text == afterDeletions
  {
    var text := Collapse(afterDeletions);
    CollapseProperties(afterDeletions);
    NoTripleIsNotContains(text);
    CollapseLineCount(afterDeletions);
    CollapseFixedIff(afterDeletions);
    Report(text, LineCount(content), LineCount(text), LineCount(content) - LineCount(text))
  }
}
