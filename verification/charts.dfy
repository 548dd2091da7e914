/** The three chart files the visualisation step writes for one ticker. */
module Charts {

  import opened Text

  const ComparisonSuffix: string := "_owner_earnings_comparison.png"
  const BreakdownSuffix: string := "_earnings_components_breakdown.png"
  const VolatilitySuffix: string := "_volatility_analysis.png"

  predicate IsChartSuffix(s: string) {
    s == ComparisonSuffix || s == BreakdownSuffix || s == VolatilitySuffix
  }

  /** `name` is `prefix` followed by one of the three chart suffixes. */
  predicate IsChartFileOf(name: string, prefix: string) {
    StartsWith(name, prefix) && IsChartSuffix(name[|prefix|..])
  }

  /** The chart files for `prefix`, in the order the analysis drivers and `open_charts.py` list them. */
  function ChartNames(prefix: string): (names: seq<string>)
    ensures |names| == 3
    ensures forall i :: 0 <= i < 3 ==> IsChartFileOf(names[i], prefix) && EndsWith(names[i], ".png")
    ensures names[0] != names[1] && names[1] != names[2] && names[0] != names[2]
  {
    var c, b, v := prefix + ComparisonSuffix, prefix + BreakdownSuffix, prefix + VolatilitySuffix;
    assert c[|prefix|..] == ComparisonSuffix && c[|c| - 4..] == ".png";
    assert b[|prefix|..] == BreakdownSuffix && b[|b| - 4..] == ".png";
    assert v[|prefix|..] == VolatilitySuffix && v[|v| - 4..] == ".png";
    [c, b, v]
  }
}
