/**
 * Column statistics shared by the report scripts: sum, minimum, maximum and
 * mean of a non-empty run of amounts, with amounts as exact reals.
 */
module Stats {

  import opened Wrappers

  function Sum(v: seq<real>): real {
    if |v| == 0 then 0.0 else Sum(v[..|v| - 1]) + v[|v| - 1]
  }

  function Min(v: seq<real>): real
    requires |v| > 0
  {
    if |v| == 1 then v[0] else var m := Min(v[..|v| - 1]); if v[|v| - 1] < m then v[|v| - 1] else m
  }

  function Max(v: seq<real>): real
    requires |v| > 0
  {
    if |v| == 1 then v[0] else var m := Max(v[..|v| - 1]); if v[|v| - 1] > m then v[|v| - 1] else m
  }

  /** Every value lies between the minimum and the maximum. */
  lemma {:induction false} Bounds(v: seq<real>)
    requires |v| > 0
    ensures forall i :: 0 <= i < |v| ==> Min(v) <= v[i] <= Max(v)
    decreases |v|
  {
    if |v| > 1 {
      var init := v[..|v| - 1];
      Bounds(init);
      assert forall i :: 0 <= i < |init| ==> v[i] == init[i];
    }
  }

  /** The sum lies between `n` times the minimum and `n` times the maximum. */
  lemma SumBounds(v: seq<real>)
    requires |v| > 0
    ensures |v| as real * Min(v) <= Sum(v) <= |v| as real * Max(v)
    ensures forall i :: 0 <= i < |v| ==> Min(v) <= v[i] <= Max(v)
  {
    Bounds(v);
    SumLower(v);
    SumUpper(v);
  }

  lemma {:induction false} SumLower(v: seq<real>)
    requires |v| > 0
    ensures |v| as real * Min(v) <= Sum(v)
    decreases |v|
  {
    if |v| > 1 {
      var init := v[..|v| - 1];
      SumLower(init);
      StepLower(|v| as real, |init| as real, Min(v), Min(init), Sum(init), v[|v| - 1]);
    }
  }

  lemma {:induction false} SumUpper(v: seq<real>)
    requires |v| > 0
    ensures Sum(v) <= |v| as real * Max(v)
    decreases |v|
  {
    if |v| > 1 {
      var init := v[..|v| - 1];
      SumUpper(init);
      StepUpper(|v| as real, |init| as real, Max(v), Max(init), Sum(init), v[|v| - 1]);
    }
  }

  /** One more value no smaller than `lo` keeps the sum at least `n * lo`. */
  lemma StepLower(n: real, k: real, lo: real, loInit: real, sumInit: real, x: real)
    requires n == k + 1.0 && k >= 0.0 && lo <= loInit && lo <= x && k * loInit <= sumInit
    ensures n * lo <= sumInit + x
  {
    ScaleMonotone(k, lo, loInit);
  }

  /** One more value no larger than `hi` keeps the sum at most `n * hi`. */
  lemma StepUpper(n: real, k: real, hi: real, hiInit: real, sumInit: real, x: real)
    requires n == k + 1.0 && k >= 0.0 && hiInit <= hi && x <= hi && sumInit <= k * hiInit
    ensures sumInit + x <= n * hi
  {
    ScaleMonotone(k, hiInit, hi);
  }

  lemma ScaleMonotone(k: real, a: real, b: real)
    requires k >= 0.0 && a <= b
    ensures k * a <= k * b
  {
    assert k * b - k * a == k * (b - a);
  }

  /** `sum(values) / len(values)`, or `None` for no values. */
  function Average(values: seq<real>): (r: Option<real>)
    ensures r.None? <==> |values| == 0
    ensures r.Some? ==> Min(values) <= r.value <= Max(values)
    ensures r.Some? ==> r.value * |values| as real == Sum(values)
  {
    if |values| == 0 then None
    else
      SumBounds(values);
      var n := |values| as real;
      Quotient(Sum(values), n, Min(values), Max(values));
      Some(Sum(values) / n)
  }

  /** A sum between `n * lo` and `n * hi` has its quotient by `n` between `lo` and `hi`. */
  lemma Quotient(sum: real, n: real, lo: real, hi: real)
    requires n > 0.0 && n * lo <= sum <= n * hi
    ensures lo <= sum / n <= hi && sum / n * n == sum
  {
    var q := sum / n;
    assert q * n == sum;
    assert n * lo <= n * q <= n * hi;
  }

  function Abs(x: real): real { if x < 0.0 then -x else x }

  /** The maximum is one of the values, so it exceeds `t` iff some value does. */
  lemma {:induction false} MaxAbove(v: seq<real>, t: real)
    requires |v| > 0
    ensures Max(v) > t <==> exists i :: 0 <= i < |v| && v[i] > t
    decreases |v|
  {
    SumBounds(v);
    if |v| > 1 {
      var init := v[..|v| - 1];
      MaxAbove(init, t);
      if Max(init) > t {
        var i :| 0 <= i < |init| && init[i] > t;
        assert v[i] == init[i];
      }
    }
  }

  /** The minimum is one of the values, so it is below `t` iff some value is. */
  lemma {:induction false} MinBelow(v: seq<real>, t: real)
    requires |v| > 0
    ensures Min(v) < t <==> exists i :: 0 <= i < |v| && v[i] < t
    decreases |v|
  {
    SumBounds(v);
    if |v| > 1 {
      var init := v[..|v| - 1];
      MinBelow(init, t);
      if Min(init) < t {
        var i :| 0 <= i < |init| && init[i] < t;
        assert v[i] == init[i];
      }
    }
  }

  /** The maximum and the minimum are each one of the values. */
  lemma {:induction false} ExtremesAttained(v: seq<real>)
    requires |v| > 0
    ensures exists i :: 0 <= i < |v| && v[i] == Max(v)
    ensures exists i :: 0 <= i < |v| && v[i] == Min(v)
    decreases |v|
  {
    if |v| > 1 {
      var init := v[..|v| - 1];
      ExtremesAttained(init);
      var i :| 0 <= i < |init| && init[i] == Max(init);
      var j :| 0 <= j < |init| && init[j] == Min(init);
      assert v[i] == init[i] && v[j] == init[j];
    } else {
      assert v[0] == Max(v) && v[0] == Min(v);
    }
  }
}
