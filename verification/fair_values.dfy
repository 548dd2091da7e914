/**
 * `show_fair_values.py`: the display side of the fair-value report. The
 * valuation engine that produces `results` is not part of this model; its
 * output is an input here, with amounts as exact reals.
 */
module FairValues {

  import opened Wrappers
  import opened Text
  import opened Stats

  /** One year of `results['alternative_methods']`: method name to its value. */
  type YearData = map<string, real>

  /** The values of `name` over the years that have it, in year order. */
  function MethodValues(years: seq<(string, YearData)>, name: string): (r: seq<real>)
    ensures |r| <= |years|
    ensures |r| == 0 <==> !Present(years, name)
    ensures forall i :: 0 <= i < |r| ==> exists k :: 0 <= k < |years| && HasValue(years[k].1, name, r[i])
    decreases |years|
  {
    if |years| == 0 then []
    else
      var rest := MethodValues(years[..|years| - 1], name);
      var last := years[|years| - 1].1;
      assert forall k :: 0 <= k < |years| - 1 ==> years[..|years| - 1][k] == years[k];
      if name in last then
        assert HasValue(last, name, last[name]);
        rest + [last[name]]
      else rest
  }

  predicate HasValue(year: YearData, name: string, value: real) {
    name in year && year[name] == value
  }

  /** A year without the method changes neither its sum nor its count. */
  lemma AbsentYearIgnored(years: seq<(string, YearData)>, year: (string, YearData), name: string)
    requires name !in year.1
    ensures MethodValues(years + [year], name) == MethodValues(years, name)
    ensures Average(MethodValues(years + [year], name)) == Average(MethodValues(years, name))
  {
    assert (years + [year])[..|years|] == years;
  }

  /** A year with the method adds its value to the sum and one to the count. */
  lemma PresentYearCounted(years: seq<(string, YearData)>, year: (string, YearData), name: string)
    requires name in year.1
    ensures |MethodValues(years + [year], name)| == |MethodValues(years, name)| + 1
    ensures Sum(MethodValues(years + [year], name)) == Sum(MethodValues(years, name)) + year.1[name]
  {
    assert (years + [year])[..|years|] == years;
    var v := MethodValues(years, name) + [year.1[name]];
    assert v[..|v| - 1] == MethodValues(years, name);
  }

  const TraditionalMethod: string := "traditional_method"

  /** The two alternatives the script compares, in this order. */
  const ComparedMethods: seq<string> := ["operating_cash_flow_method", "free_cash_flow_method"]

  /**
   * `((avg - trad) / abs(trad)) * 100`, printed only when `trad` is truthy:
   * neither `None` nor zero.
   */
  function PercentDiff(avg: real, trad: Option<real>): (r: Option<real>)
    ensures r.None? <==> trad.None? || trad.value == 0.0
    ensures r.Some? ==> (r.value > 0.0 <==> avg > trad.value)
    ensures r.Some? ==> (r.value == 0.0 <==> avg == trad.value)
    ensures r.Some? ==> (r.value < 0.0 <==> avg < trad.value)
    ensures r.Some? ==> trad.value + r.value * Abs(trad.value) / 100.0 == avg
  {
    match trad
    case None => None
    case Some(t) =>
      if t == 0.0 then None
      else
        var d := (avg - t) / Abs(t) * 100.0;
        assert d * Abs(t) / 100.0 == avg - t;
        Some(d)
  }

  lemma PercentDiffExample()
    ensures PercentDiff(55.0, Some(50.0)) == Some(10.0)
    ensures PercentDiff(45.0, Some(-50.0)) == Some(190.0)
  {
  }

  /** One line of the percentage section: the method, its average, and the difference if shown. */
  datatype Comparison = Comparison(name: string, average: real, percent: Option<real>)

  /**
   * The percentage section: the traditional average, then one line per
   * compared method that has at least one value.
   */
  function PercentageSection(years: seq<(string, YearData)>): (r: (Option<real>, seq<Comparison>))
    ensures r.0 == Average(MethodValues(years, TraditionalMethod))
    ensures |r.1| <= |ComparedMethods|
    ensures forall i :: 0 <= i < |r.1| ==> r.1[i].name in ComparedMethods && Reports(years, r.0, r.1[i])
    ensures Present(years, ComparedMethods[0]) ==> |r.1| > 0 && r.1[0].name == ComparedMethods[0]
    ensures Present(years, ComparedMethods[1]) ==> |r.1| > 0 && r.1[|r.1| - 1].name == ComparedMethods[1]
    ensures |r.1| == (if Present(years, ComparedMethods[0]) then 1 else 0) + (if Present(years, ComparedMethods[1]) then 1 else 0)
  {
    var trad := Average(MethodValues(years, TraditionalMethod));
    var first := Compare(years, ComparedMethods[0], trad);
    var second := Compare(years, ComparedMethods[1], trad);
    ConcatLines(years, trad, first, second);
    (trad, first + second)
  }

  lemma ConcatLines(years: seq<(string, YearData)>, trad: Option<real>, first: seq<Comparison>, second: seq<Comparison>)
    requires forall i :: 0 <= i < |first| ==> first[i].name == ComparedMethods[0] && Reports(years, trad, first[i])
    requires forall i :: 0 <= i < |second| ==> second[i].name == ComparedMethods[1] && Reports(years, trad, second[i])
    ensures forall i :: 0 <= i < |first + second| ==>
      (first + second)[i].name in ComparedMethods && Reports(years, trad, (first + second)[i])
  {
  }

  /**
   * A line that reports its method faithfully: the method has values, the
   * average is theirs, and the difference is taken against `trad`.
   */
  predicate Reports(years: seq<(string, YearData)>, trad: Option<real>, c: Comparison) {
    Present(years, c.name) && Some(c.average) == Average(MethodValues(years, c.name)) &&
    c.percent == PercentDiff(c.average, trad)
  }

  /** Some year has a value for `name`. */
  predicate Present(years: seq<(string, YearData)>, name: string) {
    exists k :: 0 <= k < |years| && name in years[k].1
  }

  function Compare(years: seq<(string, YearData)>, name: string, trad: Option<real>): (r: seq<Comparison>)
    ensures |r| <= 1
    ensures |r| == 1 <==> Present(years, name)
    ensures |r| == 1 ==> r[0].name == name && Reports(years, trad, r[0])
  {
    match Average(MethodValues(years, name))
    case None => []
    case Some(avg) => [Comparison(name, avg, PercentDiff(avg, trad))]
  }

  /**
   * One entry of `results['alternative_valuations']`: a falsy valuation
   * (None or empty), or one whose `fair_value_per_share` may be missing.
   */
  datatype Valuation = NoValuation | Valuation(fairValue: Option<real>)

  /** The fair values printed: entries with a present, non-zero value, in order. */
  function ShownValuations(vals: seq<(string, Valuation)>): (r: seq<(string, real)>)
    ensures |r| <= |vals|
    ensures forall i :: 0 <= i < |r| ==> r[i].1 != 0.0
    ensures forall m, x :: (m, x) in r <==> (m, Valuation(Some(x))) in vals && x != 0.0
  {
    if |vals| == 0 then []
    else
      var (m, v) := vals[0];
      var rest := ShownValuations(vals[1..]);
      assert forall e :: e in vals <==> e == vals[0] || e in vals[1..];
      if v.Valuation? && v.fairValue.Some? && v.fairValue.value != 0.0 then [(m, v.fairValue.value)] + rest
      else rest
  }
}
