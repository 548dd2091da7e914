/**
 * Which ticker the next analysis will process: the newest workbook in
 * `./downloaded_files` and the ticker its file name carries.
 */
module CheckTicker {

  import opened Wrappers
  import opened Text
  import opened Files
  import opened Charts

  const ExportMarker: string := "financials_export_"

  /**
   * The ticker in a workbook stem: the third '_' field of the lowered stem,
   * upper-cased, provided the stem mentions the export marker.
   */
  function TickerFromStem(stem: string): (r: Option<string>)
    ensures r.Some? <==> Contains(Lower(stem), ExportMarker)
    ensures r.Some? ==> IsUpperCase(r.value) && '_' !in r.value && r.value == Upper(r.value)
  {
    var lowered := Lower(stem);
    if Contains(lowered, ExportMarker) then
      var parts := Split(lowered, '_');
      MarkerGivesThreeFields(lowered);
      if |parts| >= 3 then
        UpperIsUpperCase(parts[2]);
        UpperIdempotent(parts[2]);
        Some(Upper(parts[2]))
      else None
    else None
  }

  /** The `len(parts) >= 3` guard never fails once the marker is present. */
  lemma MarkerGivesThreeFields(lowered: string)
    requires Contains(lowered, ExportMarker)
    ensures |Split(lowered, '_')| >= 3
  {
    ContainsCount(lowered, ExportMarker, '_');
    MarkerUnderscores();
  }

  lemma MarkerUnderscores()
    ensures CountChar(ExportMarker, '_') == 2
  {
    MarkerPieces();
    TwoSeparators("financials", "export", '_');
  }

  lemma MarkerPieces()
    ensures ExportMarker == "financials" + ['_'] + "export" + ['_']
    ensures '_' !in "financials" && '_' !in "export"
  {
  }

  lemma TwoSeparators(a: string, b: string, c: char)
    requires c !in a && c !in b
    ensures CountChar(a + [c] + b + [c], c) == 2
  {
    CountCharAbsent(a, c);
    CountCharAbsent(b, c);
    CountCharAppend(a + [c], b + [c], c);
    CountCharAppend(a, [c], c);
    CountCharAppend(b, [c], c);
    assert a + [c] + b + [c] == (a + [c]) + (b + [c]);
  }

  /** The ticker is the third '_'-separated field of the whole lowered stem. */
  lemma TickerIsThirdField(stem: string, f0: string, f1: string, field: string, rest: string)
    requires Lower(stem) == f0 + "_" + f1 + "_" + field + rest
    requires '_' !in f0 && '_' !in f1 && '_' !in field
    requires rest == [] || rest[0] == '_'
    requires Contains(Lower(stem), ExportMarker)
    ensures TickerFromStem(stem) == Some(Upper(field))
  {
    ThirdField(Lower(stem), f0, f1, field, rest);
    MarkerGivesThreeFields(Lower(stem));
  }

  lemma ThirdField(s: string, f0: string, f1: string, field: string, rest: string)
    requires s == f0 + "_" + f1 + "_" + field + rest
    requires '_' !in f0 && '_' !in f1 && '_' !in field
    requires rest == [] || rest[0] == '_'
    ensures |Split(s, '_')| >= 3 && Split(s, '_')[2] == field
  {
    var tail := f1 + ['_'] + (field + rest);
    assert s == f0 + ['_'] + tail;
    SplitField(f0, '_', tail);
    SplitField(f1, '_', field + rest);
    SplitFirstField(field, '_', rest);
    assert Split(s, '_') == [f0] + ([f1] + Split(field + rest, '_'));
  }

  /** The file name the download tests use yields ZION. */
  lemma ExportNameGivesTicker(s: string)
    requires s == "financials_export_zion_2025_08_07_134246"
    ensures TickerFromStem(s) == Some("ZION")
  {
    ExportNameFields(s);
    LowerOfLowerCase(s);
    TickerIsThirdField(s, "financials", "export", "zion", "_2025_08_07_134246");
    UpperLiteral("zion", "ZION");
  }

  lemma ExportNameFields(s: string)
    requires s == "financials_export_zion_2025_08_07_134246"
    ensures IsLowerCase(s) && Contains(s, ExportMarker)
    ensures s == "financials" + "_" + "export" + "_" + "zion" + "_2025_08_07_134246"
  {
    ExportNameStartsWithMarker(s);
    ContainsAt(s, ExportMarker, 0);
    ExportNameLower(s);
    ExportNamePieces(s);
  }

  lemma ExportNameStartsWithMarker(s: string)
    requires s == "financials_export_zion_2025_08_07_134246"
    ensures |ExportMarker| <= |s| && s[0..|ExportMarker|] == ExportMarker
  {
    assert s == ExportMarker + "zion_2025_08_07_134246";
  }

  lemma ExportNameLower(s: string)
    requires s == "financials_export_zion_2025_08_07_134246"
    ensures IsLowerCase(s)
  {
  }

  lemma ExportNamePieces(s: string)
    requires s == "financials_export_zion_2025_08_07_134246"
    ensures s == "financials" + "_" + "export" + "_" + "zion" + "_2025_08_07_134246"
  {
  }

  /** Text before the marker shifts the fields: the result is then "EXPORT". */
  lemma PrefixShiftsTicker(s: string)
    requires s == "x_financials_export_zion"
    ensures TickerFromStem(s) == Some("EXPORT")
  {
    ShiftedNameFields(s);
    LowerOfLowerCase(s);
    TickerIsThirdField(s, "x", "financials", "export", "_zion");
    UpperLiteral("export", "EXPORT");
  }

  lemma ShiftedNameFields(s: string)
    requires s == "x_financials_export_zion"
    ensures IsLowerCase(s) && Contains(s, ExportMarker)
    ensures s == "x" + "_" + "financials" + "_" + "export" + "_zion"
  {
    ShiftedNameMarker(s);
    ContainsAt(s, ExportMarker, 2);
  }

  lemma ShiftedNameMarker(s: string)
    requires s == "x_financials_export_zion"
    ensures |s| >= 2 + |ExportMarker| && s[2..2 + |ExportMarker|] == ExportMarker
  {
    assert s == "x_" + ExportMarker + "zion";
  }

  lemma UpperLiteral(a: string, b: string)
    requires |a| == |b| && forall i :: 0 <= i < |a| ==> UpperChar(a[i]) == b[i]
    ensures Upper(a) == b
  {
  }

  /** Entry `k` is the newest workbook of the listing, the first one among equally new ones. */
  predicate IsNewestWorkbook(files: seq<FileEntry>, k: nat) {
    && k < |files|
    && PathGlobXlsx(files[k].name)
    && (forall j :: 0 <= j < |files| && PathGlobXlsx(files[j].name) ==> files[j].mtime <= files[k].mtime)
    && (forall j :: 0 <= j < k && PathGlobXlsx(files[j].name) ==> files[j].mtime < files[k].mtime)
  }

  /** The tie-break makes the newest workbook unique. */
  lemma NewestWorkbookUnique(files: seq<FileEntry>, k1: nat, k2: nat)
    requires IsNewestWorkbook(files, k1) && IsNewestWorkbook(files, k2)
    ensures k1 == k2
  {
  }

  /**
   * `detect_ticker_symbol`: `downloads` lists `./downloaded_files` and is
   * None when that folder does not exist.
   */
  function DetectTicker(downloads: Option<seq<FileEntry>>): (r: Option<string>)
    ensures downloads.None? ==> r.None?
    ensures downloads.Some? && (forall j :: 0 <= j < |downloads.value| ==> !PathGlobXlsx(downloads.value[j].name)) ==> r.None?
    ensures r.Some? ==> IsUpperCase(r.value) && '_' !in r.value
    ensures r.Some? ==> exists k: nat :: IsNewestWorkbook(downloads.value, k) && r == TickerFromStem(Stem(downloads.value[k].name))
    ensures forall k: nat :: downloads.Some? && IsNewestWorkbook(downloads.value, k) ==> r == TickerFromStem(Stem(downloads.value[k].name))
  {
    match downloads
    case None => None
    case Some(files) =>
      match NewestWhere(files, PathGlobXlsx)
      case None => None
      case Some(k) =>
        assert IsNewestWorkbook(files, k);
        forall k2: nat | IsNewestWorkbook(files, k2) ensures k2 == k {
          NewestWorkbookUnique(files, k, k2);
        }
        TickerFromStem(Stem(files[k].name))
  }

  /** A listing holding a workbook has a newest one, so the detection reads its name. */
  lemma NewestWorkbookExists(files: seq<FileEntry>)
    requires exists j :: 0 <= j < |files| && PathGlobXlsx(files[j].name)
    ensures exists k: nat :: IsNewestWorkbook(files, k)
  {
    var k := NewestWhere(files, PathGlobXlsx);
    assert IsNewestWorkbook(files, k.value);
  }

  /** The chart-name prefix `main` derives: '.' becomes '_', then lower case. */
  function ChartPrefix(ticker: string): (p: string)
    ensures |p| == |ticker| && '.' !in p && IsLowerCase(p)
    ensures forall i :: 0 <= i < |p| ==> p[i] == (if ticker[i] == '.' then '_' else LowerChar(ticker[i]))
  {
    Lower(ReplaceChar(ticker, '.', '_'))
  }

  /** The three chart files `main` announces, in its order. */
  function ExpectedCharts(ticker: string): (names: seq<string>)
    ensures |names| == 3
    ensures forall i :: 0 <= i < 3 ==> IsChartFileOf(names[i], ChartPrefix(ticker))
    ensures names[0] != names[1] && names[1] != names[2] && names[0] != names[2]
  {
    var p := ChartPrefix(ticker);
    assert (p + BreakdownSuffix)[|p|..] == BreakdownSuffix;
    assert (p + ComparisonSuffix)[|p|..] == ComparisonSuffix;
    assert (p + VolatilitySuffix)[|p|..] == VolatilitySuffix;
    [p + BreakdownSuffix, p + ComparisonSuffix, p + VolatilitySuffix]
  }
}
