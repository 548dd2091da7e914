/**
 * `fix_unicode.py`: replace mis-decoded emoji (UTF-8 bytes read as
 * Windows-1252) and escaped emoji by bracketed ASCII tags, one table entry
 * after another, then report the keys still present.
 */
module FixUnicode {

  import opened Text

  /** `s.replace(k, t)`: every non-overlapping occurrence, scanning left to right. */
  function ReplaceAll(s: string, k: string, t: string): string
    requires |k| > 0
    decreases |s|
  {
    if |s| == 0 then []
    else if StartsWith(s, k) then t + ReplaceAll(s[|k|..], k, t)
    else [s[0]] + ReplaceAll(s[1..], k, t)
  }

  /** Text without the key is left alone. */
  lemma {:induction false} ReplaceAllAbsent(s: string, k: string, t: string)
    requires |k| > 0 && !Contains(s, k)
    ensures ReplaceAll(s, k, t) == s
    decreases |s|
  {
    if |s| > 0 {
      ReplaceAllAbsent(s[1..], k, t);
    }
  }

  /** A key on its own becomes its tag. */
  lemma ReplaceAllSelf(k: string, t: string)
    requires |k| > 0
    ensures ReplaceAll(k, k, t) == t
  {
    assert k[|k|..] == [];
  }

  predicate Disjoint(a: string, b: string) {
    forall i, j :: 0 <= i < |a| && 0 <= j < |b| ==> a[i] != b[j]
  }

  /**
   * A prefix of the replaced text made of characters foreign to the tag
   * was already a prefix of the original.
   */
  lemma {:induction false} PrefixSurvives(u: string, k: string, t: string, p: string)
    requires |k| > 0 && |t| > 0 && Disjoint(p, t)
    requires StartsWith(ReplaceAll(u, k, t), p)
    ensures StartsWith(u, p)
    decreases |u|
  {
    if |p| > 0 && |u| > 0 {
      var r := ReplaceAll(u, k, t);
      if StartsWith(u, k) {
        SharedHead(r, p, t);
      } else {
        var x := ReplaceAll(u[1..], k, t);
        assert r == [u[0]] + x;
        assert StartsWith(x, p[1..]) by { assert x[..|p| - 1] == r[1..|p|]; }
        PrefixSurvives(u[1..], k, t, p[1..]);
        assert u[..|p|] == [u[0]] + u[1..][..|p| - 1];
      }
    }
  }

  /** Two non-empty prefixes of one text share their first character. */
  lemma SharedHead(r: string, p: string, t: string)
    requires |p| > 0 && |t| > 0 && StartsWith(r, p) && StartsWith(r, t)
    ensures !Disjoint(p, t)
  {
    assert p[0] == r[0] == t[0];
  }

  /** An occurrence of `w` cannot start inside a tag `w` shares no character with. */
  lemma {:induction false} ContainsPastTag(t: string, x: string, w: string)
    requires |w| > 0 && Disjoint(w, t) && Contains(t + x, w)
    ensures Contains(x, w)
    decreases |t|
  {
    if |t| > 0 {
      assert !StartsWith(t + x, w) by { assert (t + x)[0] == t[0]; }
      assert (t + x)[1..] == t[1..] + x;
      ContainsPastTag(t[1..], x, w);
    } else {
      assert t + x == x;
    }
  }

  lemma ContainsSuffix(u: string, j: nat, w: string)
    requires j <= |u| && Contains(u[j..], w)
    ensures Contains(u, w)
  {
    var i := ContainsWitness(u[j..], w);
    assert u[j + i..j + i + |w|] == u[j..][i..i + |w|];
    ContainsAt(u, w, j + i);
  }

  /**
   * After replacing `k`, neither `k` nor any text absent before (and
   * foreign to the tag) occurs.
   */
  lemma {:induction false} AbsentAfterReplace(u: string, k: string, t: string, w: string)
    requires |k| > 0 && |t| > 0 && |w| > 0 && Disjoint(w, t)
    requires w == k || !Contains(u, w)
    ensures !Contains(ReplaceAll(u, k, t), w)
    decreases |u|
  {
    var r := ReplaceAll(u, k, t);
    if |u| == 0 {
    } else if StartsWith(u, k) {
      var v := u[|k|..];
      if w != k && Contains(v, w) {
        ContainsSuffix(u, |k|, w);
      }
      AbsentAfterReplace(v, k, t, w);
      if Contains(r, w) {
        ContainsPastTag(t, ReplaceAll(v, k, t), w);
      }
    } else {
      var x := ReplaceAll(u[1..], k, t);
      assert r == [u[0]] + x && r[1..] == x;
      AbsentAfterReplace(u[1..], k, t, w);
      if StartsWith(r, w) {
        PrefixSurvives(u, k, t, w);
      }
    }
  }

  /** The characters the tags are written in. */
  predicate IsTagChar(c: char) {
    c == '[' || c == ']' || ('A' <= c <= 'Z' && c != 'U')
  }

  /** A table entry: a non-empty key free of tag characters, and a non-empty tag made of them. */
  predicate WellFormedEntry(e: (string, string)) {
    |e.0| > 0 && |e.1| > 0 &&
    (forall i :: 0 <= i < |e.0| ==> !IsTagChar(e.0[i])) &&
    (forall i :: 0 <= i < |e.1| ==> IsTagChar(e.1[i]))
  }

  predicate WellFormed(table: seq<(string, string)>) {
    forall e :: e in table ==> WellFormedEntry(e)
  }

  predicate NoTagChar(w: string) {
    forall i :: 0 <= i < |w| ==> !IsTagChar(w[i])
  }

  lemma TagDisjoint(w: string, e: (string, string))
    requires NoTagChar(w) && WellFormedEntry(e)
    ensures Disjoint(w, e.1)
  {
  }

  /** The replacement loop of `fix_unicode_issues`, entries applied in table order. */
  function ApplyAll(s: string, table: seq<(string, string)>): string
    requires WellFormed(table)
    decreases |table|
  {
    if |table| == 0 then s
    else
      assert table[0] in table;
      ApplyAll(ReplaceAll(s, table[0].0, table[0].1), table[1..])
  }

  /** The entries the report loop prints: those whose key is still present. */
  function Reported(content: string, table: seq<(string, string)>): (r: seq<(string, string)>)
    ensures forall e :: e in r <==> e in table && Contains(content, e.0)
    ensures r == [] <==> forall e :: e in table ==> !Contains(content, e.0)
  {
    if |table| == 0 then []
    else (if Contains(content, table[0].0) then [table[0]] else []) + Reported(content, table[1..])
  }

  /** Text absent before the loop, and foreign to the tags, is absent after it. */
  lemma {:induction false} ApplyAllKeepsAbsent(s: string, table: seq<(string, string)>, w: string)
    requires WellFormed(table) && |w| > 0 && NoTagChar(w) && !Contains(s, w)
    ensures !Contains(ApplyAll(s, table), w)
    decreases |table|
  {
    if |table| > 0 {
      assert table[0] in table;
      TagDisjoint(w, table[0]);
      AbsentAfterReplace(s, table[0].0, table[0].1, w);
      ApplyAllKeepsAbsent(ReplaceAll(s, table[0].0, table[0].1), table[1..], w);
    }
  }

  /** After the loop no key of the table occurs in the text. */
  lemma {:induction false} NoKeyLeft(s: string, table: seq<(string, string)>)
    requires WellFormed(table)
    ensures forall e :: e in table ==> !Contains(ApplyAll(s, table), e.0)
    decreases |table|
  {
    if |table| > 0 {
      var e0 := table[0];
      assert e0 in table;
      var s' := ReplaceAll(s, e0.0, e0.1);
      AbsentAfterReplace(s, e0.0, e0.1, e0.0);
      ApplyAllKeepsAbsent(s', table[1..], e0.0);
      NoKeyLeft(s', table[1..]);
      forall e | e in table ensures !Contains(ApplyAll(s, table), e.0) {
        if e != e0 {
          var i :| 0 <= i < |table| && table[i] == e;
          assert e in table[1..];
        }
      }
    }
  }

  /** Hence the report loop prints nothing. */
  lemma ReportIsEmpty(s: string, table: seq<(string, string)>)
    requires WellFormed(table)
    ensures Reported(ApplyAll(s, table), table) == []
  {
    NoKeyLeft(s, table);
  }

  /** Text holding no key passes through unchanged. */
  lemma {:induction false} ApplyAllNoKey(s: string, table: seq<(string, string)>)
    requires WellFormed(table)
    requires forall e :: e in table ==> !Contains(s, e.0)
    ensures ApplyAll(s, table) == s
    decreases |table|
  {
    if |table| > 0 {
      assert table[0] in table;
      ReplaceAllAbsent(s, table[0].0, table[0].1);
      ApplyAllNoKey(s, table[1..]);
    }
  }

  /** Running the fix on its own output changes nothing. */
  lemma Idempotent(s: string, table: seq<(string, string)>)
    requires WellFormed(table)
    ensures ApplyAll(ApplyAll(s, table), table) == ApplyAll(s, table)
  {
    NoKeyLeft(s, table);
    ApplyAllNoKey(ApplyAll(s, table), table);
  }

  /** The loop over a table is the loop over its first `i` entries, then over the rest. */
  lemma {:induction false} ApplyAllSplit(s: string, table: seq<(string, string)>, i: nat)
    requires WellFormed(table) && i <= |table|
    ensures ApplyAll(s, table) == ApplyAll(ApplyAll(s, table[..i]), table[i..])
    decreases i
  {
    if i > 0 {
      assert table[0] in table;
      var s' := ReplaceAll(s, table[0].0, table[0].1);
      ApplyAllSplit(s', table[1..], i - 1);
      assert table[..i][1..] == table[1..][..i - 1];
      assert table[1..][i - 1..] == table[i..];
    }
  }

  /**
   * A key that holds none of the keys listed before it is turned into
   * its own tag.
   */
  lemma OwnTag(table: seq<(string, string)>, i: nat)
    requires WellFormed(table) && i < |table|
    requires forall j :: 0 <= j < i ==> !Contains(table[i].0, table[j].0)
    ensures ApplyAll(table[i].0, table) == table[i].1
  {
    var k, t := table[i].0, table[i].1;
    assert table[i] in table;
    ApplyAllSplit(k, table, i);
    forall e | e in table[..i] ensures !Contains(k, e.0) {
      var j :| 0 <= j < i && table[..i][j] == e;
    }
    ApplyAllNoKey(k, table[..i]);
    assert table[i..][0] == table[i] && table[i..][1..] == table[i + 1..];
    ReplaceAllSelf(k, t);
    forall e | e in table[i + 1..] ensures !Contains(t, e.0) {
      assert e in table;
      NotInside(t, e.0, e.0[0]);
    }
    ApplyAllNoKey(t, table[i + 1..]);
  }

  // The keys as the script spells them: UTF-8 emoji bytes decoded as
  // Windows-1252, then the escaped forms of six emoji.
  const DataKey: string := "\U{f0}\U{178}\U{201c}\U{160}"
  const OkKey: string := "\U{e2}\U{153}\U{2026}"
  const ErrorKey: string := "\U{e2}\U{152}"
  const TipKey: string := "\U{f0}\U{178}\U{2019}\U{a1}"
  const FileKey: string := "\U{f0}\U{178}\U{201c}"
  const SaveKey: string := "\U{f0}\U{178}\U{2019}\U{be}"
  const TargetKey: string := "\U{f0}\U{178}\U{17d}\U{af}"
  const ChartKey: string := "\U{f0}\U{178}\U{201c}\U{2c6}"
  const SearchKey: string := "\U{f0}\U{178}\U{201d}"
  const WarningKey: string := "\U{e2}\U{161}\U{a0}\U{ef}\U{b8}"
  const InfoKey: string := "\U{f0}\U{178}\U{201c}\U{2039}"
  const MoneyKey: string := "\U{f0}\U{178}\U{2019}\U{b0}"
  const CompanyKey: string := "\U{f0}\U{178}\U{ad}"
  const DeclineKey: string := "\U{f0}\U{178}\U{201c}\U{2030}"
  const DateKey: string := "\U{ef}\U{bf}\U{bd}"
  const CreditKey: string := "\U{f0}\U{178}\U{2019}\U{b3}"
  const FileEscape: string := "\\U0001f4c1"
  const DataEscape: string := "\\U0001f4ca"
  const OkEscape: string := "\\U00002705"
  const ErrorEscape: string := "\\U0000274c"
  const TipEscape: string := "\\U0001f4a1"
  const SaveEscape: string := "\\U0001f4be"

  /** The first four entries, which both orders share. */
  const LeadingEntries: seq<(string, string)> := [
    (DataKey, "[DATA]"), (OkKey, "[OK]"), (ErrorKey, "[ERROR]"), (TipKey, "[TIP]")]

  /** The folder entry, whose key is a prefix of three later keys. */
  const FolderEntry: (string, string) := (FileKey, "[FILE]")

  /** The nine entries the script lists between the folder entry and the date entry. */
  const MiddleEntries: seq<(string, string)> := [
    (SaveKey, "[SAVE]"), (TargetKey, "[TARGET]"), (ChartKey, "[CHART]"),
    (SearchKey, "[SEARCH]"), (WarningKey, "[WARNING]"), (InfoKey, "[INFO]"), (MoneyKey, "[MONEY]"),
    (CompanyKey, "[COMPANY]"), (DeclineKey, "[DECLINE]")]

  /** The last two emoji entries and the six escapes. */
  const TrailingEntries: seq<(string, string)> := [
    (DateKey, "[DATE]"), (CreditKey, "[CREDIT]"),
    (FileEscape, "[FILE]"), (DataEscape, "[DATA]"), (OkEscape, "[OK]"), (ErrorEscape, "[ERROR]"),
    (TipEscape, "[TIP]"), (SaveEscape, "[SAVE]")]

  /** The replacement table in the script's order. */
  const AsWrittenTable: seq<(string, string)> :=
    LeadingEntries + [FolderEntry] + MiddleEntries + TrailingEntries

  /**
   * The same entries with the folder key moved after the three longer keys
   * it is a prefix of, so that each of those is replaced first.
   */
  const CorrectedTable: seq<(string, string)> :=
    LeadingEntries + MiddleEntries + [FolderEntry] + TrailingEntries

  lemma DataOkErrorWellFormed()
    ensures WellFormedEntry((DataKey, "[DATA]"))
    ensures WellFormedEntry((OkKey, "[OK]"))
    ensures WellFormedEntry((ErrorKey, "[ERROR]"))
  {
  }

  lemma TipFileWellFormed()
    ensures WellFormedEntry((TipKey, "[TIP]"))
    ensures WellFormedEntry((FileKey, "[FILE]"))
  {
  }

  lemma SaveTargetChartWellFormed()
    ensures WellFormedEntry((SaveKey, "[SAVE]"))
    ensures WellFormedEntry((TargetKey, "[TARGET]"))
    ensures WellFormedEntry((ChartKey, "[CHART]"))
  {
  }

  lemma SearchWarningInfoWellFormed()
    ensures WellFormedEntry((SearchKey, "[SEARCH]"))
    ensures WellFormedEntry((WarningKey, "[WARNING]"))
    ensures WellFormedEntry((InfoKey, "[INFO]"))
  {
  }

  lemma MoneyCompanyDeclineWellFormed()
    ensures WellFormedEntry((MoneyKey, "[MONEY]"))
    ensures WellFormedEntry((CompanyKey, "[COMPANY]"))
    ensures WellFormedEntry((DeclineKey, "[DECLINE]"))
  {
  }

  lemma DateCreditWellFormed()
    ensures WellFormedEntry((DateKey, "[DATE]"))
    ensures WellFormedEntry((CreditKey, "[CREDIT]"))
  {
  }

  lemma FileDataOkEscapesWellFormed()
    ensures WellFormedEntry((FileEscape, "[FILE]"))
    ensures WellFormedEntry((DataEscape, "[DATA]"))
    ensures WellFormedEntry((OkEscape, "[OK]"))
  {
  }

  lemma ErrorTipSaveEscapesWellFormed()
    ensures WellFormedEntry((ErrorEscape, "[ERROR]"))
    ensures WellFormedEntry((TipEscape, "[TIP]"))
    ensures WellFormedEntry((SaveEscape, "[SAVE]"))
  {
  }

  lemma LeadingWellFormed()
    ensures WellFormed(LeadingEntries) && WellFormedEntry(FolderEntry)
  {
    DataOkErrorWellFormed();
    TipFileWellFormed();
  }

  lemma MiddleWellFormed()
    ensures WellFormed(MiddleEntries)
  {
    SaveTargetChartWellFormed();
    SearchWarningInfoWellFormed();
    MoneyCompanyDeclineWellFormed();
  }

  lemma TrailingWellFormed()
    ensures WellFormed(TrailingEntries)
  {
    DateCreditWellFormed();
    FileDataOkEscapesWellFormed();
    ErrorTipSaveEscapesWellFormed();
  }

  lemma TablesWellFormed()
    ensures WellFormed(AsWrittenTable)
    ensures WellFormed(CorrectedTable)
  {
    LeadingWellFormed();
    MiddleWellFormed();
    TrailingWellFormed();
  }

  /** Every key starts with one of four characters, none of them in a tag. */
  predicate LeadsWithEmojiByte(k: string) {
    |k| > 0 && k[0] in {'\U{f0}', '\U{e2}', '\U{ef}', '\\'}
  }

  lemma KeyLeads()
    ensures forall e :: e in AsWrittenTable ==> LeadsWithEmojiByte(e.0)
    ensures forall e :: e in CorrectedTable ==> LeadsWithEmojiByte(e.0)
  {
    EachKeyLeads();
    forall e | e in AsWrittenTable ensures LeadsWithEmojiByte(e.0) {
    }
    forall e | e in CorrectedTable ensures LeadsWithEmojiByte(e.0) {
    }
  }

  lemma EachKeyLeads()
    ensures LeadsWithEmojiByte(DataKey)
    ensures LeadsWithEmojiByte(OkKey)
    ensures LeadsWithEmojiByte(ErrorKey)
    ensures LeadsWithEmojiByte(TipKey)
    ensures LeadsWithEmojiByte(FileKey)
    ensures LeadsWithEmojiByte(SaveKey)
    ensures LeadsWithEmojiByte(TargetKey)
    ensures LeadsWithEmojiByte(ChartKey)
    ensures LeadsWithEmojiByte(SearchKey)
    ensures LeadsWithEmojiByte(WarningKey)
    ensures LeadsWithEmojiByte(InfoKey)
    ensures LeadsWithEmojiByte(MoneyKey)
    ensures LeadsWithEmojiByte(CompanyKey)
    ensures LeadsWithEmojiByte(DeclineKey)
    ensures LeadsWithEmojiByte(DateKey)
    ensures LeadsWithEmojiByte(CreditKey)
    ensures LeadsWithEmojiByte(FileEscape)
    ensures LeadsWithEmojiByte(DataEscape)
    ensures LeadsWithEmojiByte(OkEscape)
    ensures LeadsWithEmojiByte(ErrorEscape)
    ensures LeadsWithEmojiByte(TipEscape)
    ensures LeadsWithEmojiByte(SaveEscape)
  {
  }

  /** No key can occur in the shadowed chart text. */
  lemma NoKeyInShadowed(k: string)
    requires LeadsWithEmojiByte(k)
    ensures !Contains("[FILE]\U{2c6}", k)
  {
    NotInside("[FILE]\U{2c6}", k, k[0]);
  }

  lemma AsWrittenShape()
    ensures |AsWrittenTable| == 22
    ensures AsWrittenTable[..4] == LeadingEntries
    ensures AsWrittenTable[4] == FolderEntry
    ensures AsWrittenTable[5..] == MiddleEntries + TrailingEntries
  {
    var a := AsWrittenTable;
    assert a == LeadingEntries + ([FolderEntry] + (MiddleEntries + TrailingEntries));
  }

  /** The folder tag followed by the last character of the chart emoji. */
  lemma ReplaceChartByFile()
    ensures StartsWith(ChartKey, FileKey) && FileKey != ChartKey
    ensures ReplaceAll(ChartKey, FileKey, "[FILE]") == "[FILE]\U{2c6}"
  {
    assert ChartKey[|FileKey|..] == "\U{2c6}";
    assert ReplaceAll("\U{2c6}", FileKey, "[FILE]") == "\U{2c6}";
  }

  /**
   * Under the script's order the chart emoji loses to the folder emoji, a
   * prefix of it listed earlier: the text becomes the folder tag followed
   * by a stray non-ASCII character, and the report still prints nothing.
   */
  lemma ChartKeyShadowed()
    ensures WellFormed(AsWrittenTable)
    ensures StartsWith(ChartKey, FileKey) && FileKey != ChartKey
    ensures ApplyAll(ChartKey, AsWrittenTable) == "[FILE]\U{2c6}"
    ensures Reported(ApplyAll(ChartKey, AsWrittenTable), AsWrittenTable) == []
  {
    var table := AsWrittenTable;
    TablesWellFormed();
    AsWrittenShape();
    ApplyAllSplit(ChartKey, table, 4);
    ChartPassesEarlierKeys();
    ReplaceChartByFile();
    assert table[4..] == [table[4]] + table[5..];
    ShadowedPassesLaterKeys();
    ReportIsEmpty(ChartKey, table);
  }

  /** The four entries before the folder key leave the chart emoji alone. */
  lemma ChartPassesEarlierKeys()
    ensures WellFormed(AsWrittenTable[..4])
    ensures ApplyAll(ChartKey, AsWrittenTable[..4]) == ChartKey
  {
    LeadingWellFormed();
    AsWrittenShape();
    ChartHoldsNoLeadingKey();
    ApplyAllNoKey(ChartKey, LeadingEntries);
  }

  lemma ChartHoldsNoLeadingKey()
    ensures forall e :: e in LeadingEntries ==> !Contains(ChartKey, e.0)
  {
    NotInside(ChartKey, DataKey, '\U{160}');
    NotInside(ChartKey, OkKey, '\U{e2}');
    NotInside(ChartKey, ErrorKey, '\U{e2}');
    NotInside(ChartKey, TipKey, '\U{2019}');
  }

  /** The entries after the folder key leave the shadowed text alone. */
  lemma ShadowedPassesLaterKeys()
    ensures WellFormed(AsWrittenTable[5..])
    ensures ApplyAll("[FILE]\U{2c6}", AsWrittenTable[5..]) == "[FILE]\U{2c6}"
  {
    var table := AsWrittenTable;
    TablesWellFormed();
    AsWrittenShape();
    KeyLeads();
    forall e | e in table[5..] ensures !Contains("[FILE]\U{2c6}", e.0) {
      assert e in table;
      NoKeyInShadowed(e.0);
    }
    ApplyAllNoKey("[FILE]\U{2c6}", table[5..]);
  }

  /** A cheap sufficient reason for `p` not to occur in `s`. */
  predicate Separated(s: string, p: string) {
    |p| > |s| || (|p| == |s| && p != s) || (|p| > 0 && (p[0] !in s || p[|p| - 1] !in s))
  }

  lemma SeparatedNotInside(s: string, p: string)
    ensures Separated(s, p) ==> !Contains(s, p)
  {
    if Contains(s, p) {
      var i := ContainsWitness(s, p);
      if |p| == |s| {
        assert s[i..i + |p|] == s;
      } else if |p| > 0 {
        assert s[i] == p[0] && s[i + |p| - 1] == p[|p| - 1];
      }
    }
  }

  /** No key occurs inside a key listed after it. */
  predicate ShadowFree(table: seq<(string, string)>) {
    forall i, j :: 0 <= j < i < |table| ==> !Contains(table[i].0, table[j].0)
  }

  /** In a shadow-free table every key is turned into its own tag. */
  lemma ShadowFreeOwnTags(table: seq<(string, string)>)
    requires WellFormed(table) && ShadowFree(table)
    ensures forall i :: 0 <= i < |table| ==> ApplyAll(table[i].0, table) == table[i].1
  {
    forall i | 0 <= i < |table| ensures ApplyAll(table[i].0, table) == table[i].1 {
      OwnTag(table, i);
    }
  }

  lemma CorrectedShadowFree()
    ensures ShadowFree(CorrectedTable)
  {
    var t := CorrectedTable;
    CorrectedRowsSeparated0();
    CorrectedRowsSeparated1();
    CorrectedRowsSeparated2();
    CorrectedRowsSeparated2b();
    CorrectedRowsSeparated3();
    EscapesPassEmoji();
    forall i, j | 0 <= j < i < |t| ensures !Contains(t[i].0, t[j].0) {
      SeparatedNotInside(t[i].0, t[j].0);
    }
  }

  /** Escapes are ASCII and every emoji key starts with a non-ASCII character. */
  lemma EscapesPassEmoji()
    ensures forall i, j :: 16 <= i < 22 && 0 <= j < 16 ==> Separated(CorrectedTable[i].0, CorrectedTable[j].0)
  {
    var t := CorrectedTable;
    forall i, j | 16 <= i < 22 && 0 <= j < 16 ensures Separated(t[i].0, t[j].0) {
      assert forall n :: 0 <= n < |t[i].0| ==> t[i].0[n] < '\U{80}';
      assert t[j].0[0] >= '\U{80}';
    }
  }

  lemma CorrectedRowsSeparated0()
    ensures forall i, j :: 1 <= i < 8 && 0 <= j < i ==> Separated(CorrectedTable[i].0, CorrectedTable[j].0)
  {
  }

  lemma CorrectedRowsSeparated1()
    ensures forall i, j :: 8 <= i < 13 && 0 <= j < i ==> Separated(CorrectedTable[i].0, CorrectedTable[j].0)
  {
  }

  lemma CorrectedRowsSeparated2()
    ensures forall i, j :: 13 <= i < 15 && 0 <= j < i ==> Separated(CorrectedTable[i].0, CorrectedTable[j].0)
  {
  }

  lemma CorrectedRowsSeparated2b()
    ensures forall i, j :: 15 <= i < 16 && 0 <= j < i ==> Separated(CorrectedTable[i].0, CorrectedTable[j].0)
  {
  }

  lemma CorrectedRowsSeparated3()
    ensures forall i, j :: 17 <= i < 22 && 16 <= j < i ==> Separated(CorrectedTable[i].0, CorrectedTable[j].0)
  {
  }

  /** The corrected table holds exactly the script's entries, reordered. */
  lemma CorrectedIsReordering()
    ensures multiset(CorrectedTable) == multiset(AsWrittenTable)
  {
  }

  /** With the corrected order each emoji and each escape becomes its own tag. */
  lemma CorrectedOwnTags()
    ensures WellFormed(CorrectedTable)
    ensures forall i :: 0 <= i < |CorrectedTable| ==> ApplyAll(CorrectedTable[i].0, CorrectedTable) == CorrectedTable[i].1
    ensures ApplyAll(ChartKey, CorrectedTable) == "[CHART]"
  {
    TablesWellFormed();
    CorrectedShadowFree();
    ShadowFreeOwnTags(CorrectedTable);
    assert CorrectedTable[6] == (ChartKey, "[CHART]");
  }

  /**
   * `fix_unicode_issues`: the fixed content and the entries its report
   * lists, with the table in the script's dictionary order.
   */
  function FixUnicodeIssues(content: string): (r: (string, seq<(string, string)>))
    ensures forall e :: e in AsWrittenTable ==> !Contains(r.0, e.0)
    ensures r.1 == []
  {
    TablesWellFormed();
    var fixed := ApplyAll(content, AsWrittenTable);
    ReportIsEmpty(content, AsWrittenTable);
    NoKeyLeft(content, AsWrittenTable);
    (fixed, Reported(fixed, AsWrittenTable))
  }

  /** Fixing the fixed content changes nothing. */
  lemma FixUnicodeIssuesIdempotent(content: string)
    ensures FixUnicodeIssues(FixUnicodeIssues(content).0).0 == FixUnicodeIssues(content).0
  {
    TablesWellFormed();
    Idempotent(content, AsWrittenTable);
  }

  /** As written, the chart emoji comes out as the folder tag and a stray character. */
  lemma FixUnicodeIssuesShadowsChart()
    ensures FixUnicodeIssues(ChartKey) == ("[FILE]\U{2c6}", [])
  {
    ChartKeyShadowed();
  }

  /** `fix_unicode_issues` with the corrected table order. */
  function FixUnicodeIssuesCorrected(content: string): (r: (string, seq<(string, string)>))
    ensures forall e :: e in CorrectedTable ==> !Contains(r.0, e.0)
    ensures r.1 == []
  {
    TablesWellFormed();
    var fixed := ApplyAll(content, CorrectedTable);
    ReportIsEmpty(content, CorrectedTable);
    NoKeyLeft(content, CorrectedTable);
    (fixed, Reported(fixed, CorrectedTable))
  }

  /** The corrected fix turns each key into its own tag, and the chart emoji into "[CHART]". */
  lemma FixUnicodeIssuesCorrectedOwnTags()
    ensures forall i :: 0 <= i < |CorrectedTable| ==> FixUnicodeIssuesCorrected(CorrectedTable[i].0).0 == CorrectedTable[i].1
    ensures FixUnicodeIssuesCorrected(ChartKey) == ("[CHART]", [])
  {
    CorrectedOwnTags();
  }

  /** Fixing content fixed by the corrected order changes nothing. */
  lemma FixUnicodeIssuesCorrectedIdempotent(content: string)
    ensures FixUnicodeIssuesCorrected(FixUnicodeIssuesCorrected(content).0).0 == FixUnicodeIssuesCorrected(content).0
  {
    TablesWellFormed();
    Idempotent(content, CorrectedTable);
  }
}
