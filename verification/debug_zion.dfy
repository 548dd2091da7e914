/**
 * `debug_zion.py`: recompute owner earnings for the first rows of an annual
 * table, flag rows that disagree with the stated figure by more than one
 * million, and warn about implausible scales. Amounts are exact reals.
 */
module DebugZion {

  import opened Wrappers
  import opened Stats

  /** One row of the annual owner-earnings table, in dollars. */
  datatype Row = Row(
    period: int,
    netIncome: real,
    depreciation: real,
    capex: real,
    workingCapital: real,
    ownerEarnings: real)

  function Millions(x: real): real { x / 1000000.0 }

  /** NI + Dep + CapEx + WC, each term converted to millions first. */
  function CalculatedOE(row: Row): (r: real)
    ensures r == Millions(row.netIncome + row.depreciation + row.capex + row.workingCapital)
  {
    Millions(row.netIncome) + Millions(row.depreciation) + Millions(row.capex) + Millions(row.workingCapital)
  }

  /** A row either matches or is off by `error` millions. */
  datatype Verdict = Match | Mismatch(error: real)

  /** Off by more than one million is an error; anything up to it is a match. */
  function CheckRow(row: Row): (v: Verdict)
    ensures v.Mismatch? <==> Abs(CalculatedOE(row) - Millions(row.ownerEarnings)) > 1.0
    ensures v.Mismatch? ==> (v.error > 1.0 &&
      (v.error == CalculatedOE(row) - Millions(row.ownerEarnings) || v.error == Millions(row.ownerEarnings) - CalculatedOE(row)))
  {
    var error := Abs(CalculatedOE(row) - Millions(row.ownerEarnings));
    if error > 1.0 then Mismatch(error) else Match
  }

  /** In dollars: a row is flagged iff the raw sum and the stated figure differ by more than 1e6. */
  lemma MismatchIffRawGap(row: Row)
    ensures CheckRow(row).Mismatch? <==>
      Abs(row.netIncome + row.depreciation + row.capex + row.workingCapital - row.ownerEarnings) > 1000000.0
  {
    var raw := row.netIncome + row.depreciation + row.capex + row.workingCapital;
    assert CalculatedOE(row) - Millions(row.ownerEarnings) == (raw - row.ownerEarnings) / 1000000.0;
  }

  /** A row whose stated figure is the formula's own result always matches. */
  lemma ConsistentRowMatches(row: Row)
    requires row.ownerEarnings == row.netIncome + row.depreciation + row.capex + row.workingCapital
    ensures CheckRow(row) == Match
  {
  }

  /** `df.head(5)`: each of the first five rows with its period and verdict. */
  function CheckRows(rows: seq<Row>): (r: seq<(int, Verdict)>)
    ensures |r| == if |rows| < 5 then |rows| else 5
    ensures forall i :: 0 <= i < |r| ==> r[i] == (rows[i].period, CheckRow(rows[i]))
  {
    var n := if |rows| < 5 then |rows| else 5;
    seq(n, i requires 0 <= i < n => (rows[i].period, CheckRow(rows[i])))
  }

  /** Rows past the fifth never affect the verdicts. */
  lemma CheckRowsIgnoresTail(rows: seq<Row>, more: seq<Row>)
    requires |rows| >= 5
    ensures CheckRows(rows + more) == CheckRows(rows)
  {
    var a := CheckRows(rows + more);
    var b := CheckRows(rows);
    assert forall i :: 0 <= i < 5 ==> (rows + more)[i] == rows[i];
    assert |a| == |b|;
    assert forall i :: 0 <= i < |a| ==> a[i] == b[i];
  }

  /** The columns the scale analysis looks at. */
  function OwnerEarningsColumn(rows: seq<Row>): (c: seq<real>)
    ensures |c| == |rows| && forall i :: 0 <= i < |rows| ==> c[i] == rows[i].ownerEarnings
  {
    seq(|rows|, i requires 0 <= i < |rows| => rows[i].ownerEarnings)
  }

  function WorkingCapitalMagnitudes(rows: seq<Row>): (c: seq<real>)
    ensures |c| == |rows| && forall i :: 0 <= i < |rows| ==> c[i] == Abs(Millions(rows[i].workingCapital))
  {
    seq(|rows|, i requires 0 <= i < |rows| => Abs(Millions(rows[i].workingCapital)))
  }

  /** The three warnings of the scale analysis. */
  datatype Warnings = Warnings(tooHigh: bool, largeNegative: bool, largeWorkingCapital: bool)

  /**
   * `max_oe > 5000`, `abs(min_oe) > 5000` and `wc_values.abs().max() > 2000`,
   * in millions. On an empty table pandas yields NaN and every comparison
   * is false.
   */
  function ScaleWarnings(rows: seq<Row>): (w: Warnings)
    ensures |rows| == 0 ==> w == Warnings(false, false, false)
    ensures w.tooHigh <==> exists i :: 0 <= i < |rows| && Millions(rows[i].ownerEarnings) > 5000.0
    ensures w.largeNegative <==>
      (exists i :: 0 <= i < |rows| && Millions(rows[i].ownerEarnings) < -5000.0) ||
      (|rows| > 0 && forall i :: 0 <= i < |rows| ==> Millions(rows[i].ownerEarnings) > 5000.0)
    ensures w.largeWorkingCapital <==> exists i :: 0 <= i < |rows| && Abs(Millions(rows[i].workingCapital)) > 2000.0
  {
    if |rows| == 0 then Warnings(false, false, false)
    else
      var oe := OwnerEarningsColumn(rows);
      var wc := WorkingCapitalMagnitudes(rows);
      var maxOE := Millions(Max(oe));
      var minOE := Millions(Min(oe));
      ScaleFacts(rows);
      Warnings(maxOE > 5000.0, Abs(minOE) > 5000.0, Max(wc) > 2000.0)
  }

  /** The column extremes against the thresholds, in dollars. */
  lemma ScaleFacts(rows: seq<Row>)
    requires |rows| > 0
    ensures Millions(Max(OwnerEarningsColumn(rows))) > 5000.0 <==>
      exists i :: 0 <= i < |rows| && Millions(rows[i].ownerEarnings) > 5000.0
    ensures Millions(Min(OwnerEarningsColumn(rows))) < -5000.0 <==>
      exists i :: 0 <= i < |rows| && Millions(rows[i].ownerEarnings) < -5000.0
    ensures Millions(Min(OwnerEarningsColumn(rows))) > 5000.0 <==>
      forall i :: 0 <= i < |rows| ==> Millions(rows[i].ownerEarnings) > 5000.0
    ensures Max(WorkingCapitalMagnitudes(rows)) > 2000.0 <==>
      exists i :: 0 <= i < |rows| && Abs(Millions(rows[i].workingCapital)) > 2000.0
  {
    var oe := OwnerEarningsColumn(rows);
    MaxAbove(oe, 5000000000.0);
    MinBelow(oe, -5000000000.0);
    SumBounds(oe);
    ExtremesAttained(oe);
    MaxAbove(WorkingCapitalMagnitudes(rows), 2000.0);
  }

  /** What the analysis prints, besides the per-row lines. */
  datatype Analysis = Analysis(
    checked: seq<(int, Verdict)>,
    maxOE: Option<real>,
    minOE: Option<real>,
    averageNetIncome: Option<real>,
    warnings: Warnings)

  function AnalyzeZion(rows: seq<Row>): (r: Analysis)
    ensures r.checked == CheckRows(rows)
    ensures r.maxOE.None? <==> |rows| == 0
    ensures r.maxOE.Some? ==> IsLargest(rows, r.maxOE.value)
    ensures r.minOE.Some? ==> IsSmallest(rows, r.minOE.value)
    ensures r.minOE.None? <==> |rows| == 0
    ensures r.averageNetIncome.None? <==> |rows| == 0
    ensures r.averageNetIncome.Some? ==> Average(NetIncomeColumn(rows)) == Some(r.averageNetIncome.value * 1000000.0)
    ensures r.warnings == ScaleWarnings(rows)
  {
    var checked := CheckRows(rows);
    var warnings := ScaleWarnings(rows);
    if |rows| == 0 then Analysis(checked, None, None, None, warnings)
    else
      var oe := OwnerEarningsColumn(rows);
      var avg := Average(NetIncomeColumn(rows)).value;
      ColumnExtremes(rows);
      MillionsBack(avg);
      Analysis(checked, Some(Millions(Max(oe))), Some(Millions(Min(oe))), Some(Millions(avg)), warnings)
  }

  lemma MillionsBack(x: real)
    ensures Millions(x) * 1000000.0 == x
  {
  }

  /** `m` is the largest owner-earnings figure of the table, in millions. */
  predicate IsLargest(rows: seq<Row>, m: real) {
    (forall i :: 0 <= i < |rows| ==> Millions(rows[i].ownerEarnings) <= m) &&
    exists i :: 0 <= i < |rows| && Millions(rows[i].ownerEarnings) == m
  }

  /** `m` is the smallest owner-earnings figure of the table, in millions. */
  predicate IsSmallest(rows: seq<Row>, m: real) {
    (forall i :: 0 <= i < |rows| ==> m <= Millions(rows[i].ownerEarnings)) &&
    exists i :: 0 <= i < |rows| && Millions(rows[i].ownerEarnings) == m
  }

  /** Dividing the column's extremes by 1e6 gives the extremes in millions. */
  lemma ColumnExtremes(rows: seq<Row>)
    requires |rows| > 0
    ensures IsLargest(rows, Millions(Max(OwnerEarningsColumn(rows))))
    ensures IsSmallest(rows, Millions(Min(OwnerEarningsColumn(rows))))
  {
    var oe := OwnerEarningsColumn(rows);
    SumBounds(oe);
    ExtremesAttained(oe);
  }

  function NetIncomeColumn(rows: seq<Row>): (c: seq<real>)
    ensures |c| == |rows| && forall i :: 0 <= i < |rows| ==> c[i] == rows[i].netIncome
  {
    seq(|rows|, i requires 0 <= i < |rows| => rows[i].netIncome)
  }
}
