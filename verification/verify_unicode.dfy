/**
 * `verify_unicode_fixes.py`: find every non-ASCII character of a source
 * file with its line number, show the first five, and combine the
 * per-file compilation and ASCII checks into one verdict.
 */
module VerifyUnicode {

  import opened Wrappers
  import opened Text

  predicate IsNonAscii(c: char) { c as int > 127 }

  predicate AllAscii(s: string) {
    forall i :: 0 <= i < |s| ==> !IsNonAscii(s[i])
  }

  /** One recorded character: its line, the character and its code point. */
  datatype Hit = Hit(line: nat, ch: char, code: int)

  /** `content[:i].count('\n') + 1` */
  function LineAt(content: string, i: nat): nat
    requires i <= |content|
  {
    CountChar(content[..i], '\n') + 1
  }

  /** The hits among the first `n` characters, in position order. */
  function Hits(content: string, n: nat): seq<Hit>
    requires n <= |content|
  {
    if n == 0 then []
    else
      var c := content[n - 1];
      Hits(content, n - 1) + (if IsNonAscii(c) then [Hit(LineAt(content, n - 1), c, c as int)] else [])
  }

  predicate LinesOrdered(hits: seq<Hit>) {
    forall k, l :: 0 <= k <= l < |hits| ==> 1 <= hits[k].line <= hits[l].line
  }

  lemma LineAtGrows(content: string, i: nat)
    requires i < |content|
    ensures LineAt(content, i) <= LineAt(content, i + 1)
  {
    assert content[..i + 1] == content[..i] + [content[i]];
    CountCharAppend(content[..i], [content[i]], '\n');
  }

  /**
   * The hits are exactly the non-ASCII characters: there are none iff the
   * prefix is ASCII, each is a non-ASCII character with its own code, and
   * line numbers start at 1 and never decrease.
   */
  lemma {:induction false} HitsProperties(content: string, n: nat)
    requires n <= |content|
    ensures Hits(content, n) == [] <==> AllAscii(content[..n])
    ensures forall k :: 0 <= k < |Hits(content, n)| ==>
      IsNonAscii(Hits(content, n)[k].ch) && Hits(content, n)[k].code == Hits(content, n)[k].ch as int
    ensures LinesOrdered(Hits(content, n))
    ensures forall k :: 0 <= k < |Hits(content, n)| ==> Hits(content, n)[k].line <= LineAt(content, n)
    decreases n
  {
    if n > 0 {
      HitsProperties(content, n - 1);
      LineAtGrows(content, n - 1);
      assert content[..n] == content[..n - 1] + [content[n - 1]];
      assert content[..n][n - 1] == content[n - 1];
      if !AllAscii(content[..n - 1]) {
        var j :| 0 <= j < n - 1 && IsNonAscii(content[..n - 1][j]);
        assert content[..n][j] == content[..n - 1][j];
      }
    }
  }

  /** The scan loop of `check_unicode_characters`, keeping a running newline count. */
  method ScanNonAscii(content: string) returns (hits: seq<Hit>)
    ensures hits == Hits(content, |content|)
    ensures hits == [] <==> AllAscii(content)
    ensures LinesOrdered(hits)
    ensures forall k :: 0 <= k < |hits| ==> IsNonAscii(hits[k].ch) && hits[k].line <= CountChar(content, '\n') + 1
  {
    hits := [];
    var newlines := 0;
    var i := 0;
    while i < |content|
      invariant i <= |content|
      invariant newlines == CountChar(content[..i], '\n')
      invariant hits == Hits(content, i)
    {
      if IsNonAscii(content[i]) {
        hits := hits + [Hit(newlines + 1, content[i], content[i] as int)];
      }
      assert content[..i + 1] == content[..i] + [content[i]];
      CountCharAppend(content[..i], [content[i]], '\n');
      if content[i] == '\n' {
        newlines := newlines + 1;
      }
      i := i + 1;
    }
    HitsProperties(content, |content|);
    assert content[..|content|] == content;
  }

  /** The verdict for one file and what is printed about it. */
  datatype Check =
    | Clean
    | NonAscii(shown: seq<Hit>, more: Option<nat>)
    | ReadError

  /**
   * `check_unicode_characters`; `None` content stands for a file that
   * could not be read.
   */
  function CheckUnicodeCharacters(content: Option<string>): (r: Check)
    ensures content.None? ==> r.ReadError?
    ensures content.Some? ==> (r.Clean? <==> AllAscii(content.value))
    ensures r.NonAscii? ==> content.Some? && 0 < |r.shown| <= 5
    ensures r.NonAscii? ==>
      |r.shown| <= |Hits(content.value, |content.value|)| && r.shown == Hits(content.value, |content.value|)[..|r.shown|]
    ensures r.NonAscii? ==> (r.more.Some? <==> |Hits(content.value, |content.value|)| > 5)
    ensures r.NonAscii? && r.more.Some? ==> |r.shown| + r.more.value == |Hits(content.value, |content.value|)|
    ensures r.NonAscii? && r.more.None? ==> r.shown == Hits(content.value, |content.value|)
  {
    match content
    case None => ReadError
    case Some(s) =>
      var hits := Hits(s, |s|);
      HitsProperties(s, |s|);
      assert s[..|s|] == s;
      if hits == [] then Clean
      else if |hits| > 5 then NonAscii(hits[..5], Some(|hits| - 5))
      else NonAscii(hits, None)
  }

  /** What the script knows of one file: whether `compile` accepts it, and its text. */
  datatype Source = Source(compiles: bool, content: Option<string>)

  const FilesToCheck: seq<string> := [
    "visualize_owner_earnings.py", "monitor_downloads.py", "owner_earnings.py",
    "open_charts.py", "analyze_ticker.py"]

  /** A file that exists passes both checks. */
  predicate Passes(s: Source) {
    s.compiles && CheckUnicodeCharacters(s.content).Clean?
  }

  /**
   * `main`: the compilation pass, then the ASCII pass, each skipping files
   * that do not exist; `present` maps the existing files to their state.
   */
  method VerifyUnicodeFixes(files: seq<string>, present: map<string, Source>) returns (allGood: bool, skipped: seq<string>)
    ensures allGood <==> forall f :: f in files && f in present ==> Passes(present[f])
    ensures forall f :: f in skipped <==> f in files && f !in present
  {
    allGood := true;
    skipped := [];
    for i := 0 to |files|
      invariant allGood <==> forall j :: 0 <= j < i && files[j] in present ==> present[files[j]].compiles
      invariant forall f :: f in skipped <==> f in files[..i] && f !in present
    {
      if files[i] in present {
        if !present[files[i]].compiles {
          allGood := false;
        }
      } else {
        skipped := skipped + [files[i]];
      }
      assert files[..i + 1] == files[..i] + [files[i]];
    }
    ghost var compiled := allGood;
    for i := 0 to |files|
      invariant allGood <==> compiled && forall j :: 0 <= j < i && files[j] in present ==> CheckUnicodeCharacters(present[files[j]].content).Clean?
    {
      if files[i] in present {
        var check := CheckUnicodeCharacters(present[files[i]].content);
        if !check.Clean? {
          allGood := false;
        }
      }
    }
    assert files[..|files|] == files;
  }
}
