/**
 * `MinMaxScaler` with its default range [0, 1], applied column by column:
 * fitted on the present values of a column (missing values are ignored) and
 * mapping each present value to its position between the column's minimum
 * and maximum; a missing value stays missing.
 */
module Scaler {
  import opened Wrappers

  /** `nanmin`: the least present value, `None` when every value is missing. */
  function Low(xs: seq<Option<real>>): (lo: Option<real>)
    ensures lo.None? <==> forall k :: 0 <= k < |xs| ==> xs[k].None?
    ensures lo.Some? ==> lo in xs && forall k :: 0 <= k < |xs| && xs[k].Some? ==> lo.value <= xs[k].value
  {
    if xs == [] then None
    else
      var rest := Low(xs[1..]);
      assert forall k :: 1 <= k < |xs| ==> xs[k] == xs[1..][k - 1];
      if xs[0].None? || (rest.Some? && rest.value < xs[0].value) then rest else xs[0]
  }

  /** `nanmax`: the greatest present value, `None` when every value is missing. */
  function High(xs: seq<Option<real>>): (hi: Option<real>)
    ensures hi.None? <==> forall k :: 0 <= k < |xs| ==> xs[k].None?
    ensures hi.Some? ==> hi in xs && forall k :: 0 <= k < |xs| && xs[k].Some? ==> xs[k].value <= hi.value
  {
    if xs == [] then None
    else
      var rest := High(xs[1..]);
      assert forall k :: 1 <= k < |xs| ==> xs[k] == xs[1..][k - 1];
      if xs[0].None? || (rest.Some? && rest.value > xs[0].value) then rest else xs[0]
  }

  /**
   * One value scaled: `(x - lo) / (hi - lo)`, where a zero range counts as
   * one, so a constant column scales to zero.
   */
  function Scaled(x: real, lo: real, hi: real): real
  {
    if hi == lo then x - lo else (x - lo) / (hi - lo)
  }

  lemma ScaledInUnit(x: real, lo: real, hi: real)
    requires lo <= x <= hi
    ensures 0.0 <= Scaled(x, lo, hi) <= 1.0
  {
    if hi != lo {
      var d := hi - lo;
      DivideMonotone(0.0, x - lo, d);
      DivideMonotone(x - lo, d, d);
      assert 0.0 / d == 0.0 && d / d == 1.0;
    }
  }

  /** `MinMaxScaler().fit_transform` on one column: fitted on the present values, missing values stay missing. */
  function ScaleColumn(xs: seq<Option<real>>): (ys: seq<Option<real>>)
    ensures |ys| == |xs|
    ensures forall k :: 0 <= k < |xs| ==> (ys[k].None? <==> xs[k].None?)
    ensures forall k :: 0 <= k < |xs| && ys[k].Some? ==> 0.0 <= ys[k].value <= 1.0
  {
    var lo, hi := Low(xs), High(xs);
    var ys := seq(|xs|, k requires 0 <= k < |xs| =>
      if xs[k].None? then None else Some(Scaled(xs[k].value, lo.value, hi.value)));
    forall k | 0 <= k < |xs| && ys[k].Some? ensures 0.0 <= ys[k].value <= 1.0 {
      ScaledInUnit(xs[k].value, lo.value, hi.value);
    }
    ys
  }

  lemma ScaledEnds(lo: real, hi: real)
    ensures Scaled(lo, lo, hi) == 0.0
    ensures lo != hi ==> Scaled(hi, lo, hi) == 1.0
  {
    if lo != hi {
      var d := hi - lo;
      assert d / d == 1.0;
    }
  }

  /** The least present value scales to 0. */
  lemma ScaleLowest(xs: seq<Option<real>>, k: nat)
    requires k < |xs| && xs[k].Some? && xs[k] == Low(xs)
    ensures ScaleColumn(xs)[k] == Some(0.0)
  {
    var lo, hi := Low(xs).value, High(xs).value;
    assert ScaleColumn(xs)[k] == Some(Scaled(lo, lo, hi));
    ScaledEnds(lo, hi);
  }

  /** The greatest present value scales to 1, unless all present values are equal. */
  lemma ScaleHighest(xs: seq<Option<real>>, k: nat)
    requires k < |xs| && xs[k].Some? && xs[k] == High(xs) && Low(xs) != High(xs)
    ensures ScaleColumn(xs)[k] == Some(1.0)
  {
    var lo, hi := Low(xs).value, High(xs).value;
    assert ScaleColumn(xs)[k] == Some(Scaled(hi, lo, hi));
    ScaledEnds(lo, hi);
  }

  /** A column whose present values are all equal scales to 0 wherever it is present. */
  lemma ScaleConstant(xs: seq<Option<real>>, k: nat)
    requires k < |xs| && xs[k].Some? && Low(xs) == High(xs)
    ensures ScaleColumn(xs)[k] == Some(0.0)
  {
    var lo := Low(xs).value;
    assert xs[k].value == lo;
    assert ScaleColumn(xs)[k] == Some(Scaled(lo, lo, lo));
  }


  lemma DivideMonotone(a: real, b: real, d: real)
    requires d > 0.0
    ensures a <= b <==> a / d <= b / d
  {
    assert a / d * d == a && b / d * d == b;
    if a / d <= b / d {
      assert a / d * d <= b / d * d;
    }
  }

  lemma ScaledOrder(x: real, y: real, lo: real, hi: real)
    requires lo <= hi
    ensures x <= y ==> Scaled(x, lo, hi) <= Scaled(y, lo, hi)
    ensures lo < hi ==> (Scaled(x, lo, hi) <= Scaled(y, lo, hi) <==> x <= y)
  {
    if lo < hi {
      DivideMonotone(x - lo, y - lo, hi - lo);
    }
  }

  /**
   * Scaling keeps the order of the present values, and when they are not
   * all equal it reflects it too.
   */
  lemma ScaleMonotone(xs: seq<Option<real>>, j: nat, k: nat)
    requires j < |xs| && k < |xs| && xs[j].Some? && xs[k].Some?
    ensures xs[j].value <= xs[k].value ==> ScaleColumn(xs)[j].value <= ScaleColumn(xs)[k].value
    ensures Low(xs) != High(xs) ==>
      (ScaleColumn(xs)[j].value <= ScaleColumn(xs)[k].value <==> xs[j].value <= xs[k].value)
  {
    var lo, hi := Low(xs).value, High(xs).value;
    assert lo <= xs[j].value <= hi;
    assert ScaleColumn(xs)[j] == Some(Scaled(xs[j].value, lo, hi));
    assert ScaleColumn(xs)[k] == Some(Scaled(xs[k].value, lo, hi));
    ScaledOrder(xs[j].value, xs[k].value, lo, hi);
  }

  /** One value in other units, `a * x + b`; a missing value stays missing. */
  function Convert(x: Option<real>, a: real, b: real): Option<real>
  {
    if x.None? then None else Some(a * x.value + b)
  }

  /** A change of units applied to every value of a column. */
  function Rescaled(xs: seq<Option<real>>, a: real, b: real): (zs: seq<Option<real>>)
    ensures |zs| == |xs| && forall k :: 0 <= k < |xs| ==> zs[k] == Convert(xs[k], a, b)
  {
    seq(|xs|, k requires 0 <= k < |xs| => Convert(xs[k], a, b))
  }

  /** A change of units with a positive factor keeps the order of present values. */
  lemma ConvertOrder(x: Option<real>, y: Option<real>, a: real, b: real)
    requires a > 0.0 && x.Some? && y.Some? && x.value <= y.value
    ensures Convert(x, a, b).Some? && Convert(y, a, b).Some?
    ensures Convert(x, a, b).value <= Convert(y, a, b).value
  {
    assert (a * y.value + b) - (a * x.value + b) == a * (y.value - x.value);
  }

  /** `Low` is pinned down by its contract: a present value no other present value undercuts. */
  lemma LowIs(xs: seq<Option<real>>, v: real)
    requires Some(v) in xs && forall k :: 0 <= k < |xs| && xs[k].Some? ==> v <= xs[k].value
    ensures Low(xs) == Some(v)
  {
    var lo := Low(xs);
    var j :| 0 <= j < |xs| && xs[j] == lo;
  }

  /** `High` is pinned down by its contract: a present value no other present value exceeds. */
  lemma HighIs(xs: seq<Option<real>>, v: real)
    requires Some(v) in xs && forall k :: 0 <= k < |xs| && xs[k].Some? ==> xs[k].value <= v
    ensures High(xs) == Some(v)
  {
    var hi := High(xs);
    var j :| 0 <= j < |xs| && xs[j] == hi;
  }

  lemma RescaledLow(xs: seq<Option<real>>, a: real, b: real)
    requires a > 0.0
    ensures Low(Rescaled(xs, a, b)) == Convert(Low(xs), a, b)
  {
    var zs, lo := Rescaled(xs, a, b), Low(xs);
    if lo.Some? {
      var j :| 0 <= j < |xs| && xs[j] == lo;
      assert zs[j] == Convert(lo, a, b);
      forall k | 0 <= k < |zs| && zs[k].Some? ensures Convert(lo, a, b).value <= zs[k].value {
        ConvertOrder(lo, xs[k], a, b);
      }
      LowIs(zs, Convert(lo, a, b).value);
    }
  }

  lemma RescaledHigh(xs: seq<Option<real>>, a: real, b: real)
    requires a > 0.0
    ensures High(Rescaled(xs, a, b)) == Convert(High(xs), a, b)
  {
    var zs, hi := Rescaled(xs, a, b), High(xs);
    if hi.Some? {
      var j :| 0 <= j < |xs| && xs[j] == hi;
      assert zs[j] == Convert(hi, a, b);
      forall k | 0 <= k < |zs| && zs[k].Some? ensures zs[k].value <= Convert(hi, a, b).value {
        ConvertOrder(xs[k], hi, a, b);
      }
      HighIs(zs, Convert(hi, a, b).value);
    }
  }

  lemma CancelFactor(u: real, d: real, a: real)
    requires a > 0.0 && d != 0.0
    ensures (a * u) / (a * d) == u / d
  {
    var q := u / d;
    assert q * d == u;
    assert q * (a * d) == a * u;
  }

  lemma ScaledAffine(x: real, lo: real, hi: real, a: real, b: real)
    requires a > 0.0 && lo <= x <= hi
    ensures Scaled(a * x + b, a * lo + b, a * hi + b) == Scaled(x, lo, hi)
  {
    if hi == lo {
      assert x == lo;
    } else {
      var u, l, d := a * x + b, a * lo + b, a * hi + b;
      assert u - l == a * (x - lo);
      assert d - l == a * (hi - lo);
      CancelFactor(x - lo, hi - lo, a);
    }
  }

  lemma ScaledIgnoresUnits(x: Option<real>, lo: Option<real>, hi: Option<real>, a: real, b: real)
    requires a > 0.0 && x.Some? && lo.Some? && hi.Some? && lo.value <= x.value <= hi.value
    ensures Convert(x, a, b).Some? && Convert(lo, a, b).Some? && Convert(hi, a, b).Some?
    ensures Scaled(Convert(x, a, b).value, Convert(lo, a, b).value, Convert(hi, a, b).value)
         == Scaled(x.value, lo.value, hi.value)
  {
    ScaledAffine(x.value, lo.value, hi.value, a, b);
  }

  lemma ScaleIgnoresUnitsAt(xs: seq<Option<real>>, a: real, b: real, k: nat)
    requires a > 0.0 && k < |xs|
    ensures ScaleColumn(Rescaled(xs, a, b))[k] == ScaleColumn(xs)[k]
  {
    var zs := Rescaled(xs, a, b);
    if xs[k].Some? {
      var lo, hi := Low(xs), High(xs);
      RescaledLow(xs, a, b);
      RescaledHigh(xs, a, b);
      assert zs[k] == Convert(xs[k], a, b);
      assert ScaleColumn(xs)[k] == Some(Scaled(xs[k].value, lo.value, hi.value));
      assert ScaleColumn(zs)[k] == Some(Scaled(zs[k].value, Low(zs).value, High(zs).value));
      ScaledIgnoresUnits(xs[k], lo, hi, a, b);
    }
  }

  /** Min-max scaling forgets units: a column measured in other units scales to the same values. */
  lemma ScaleIgnoresUnits(xs: seq<Option<real>>, a: real, b: real)
    requires a > 0.0
    ensures ScaleColumn(Rescaled(xs, a, b)) == ScaleColumn(xs)
  {
    forall k | 0 <= k < |xs| ensures ScaleColumn(Rescaled(xs, a, b))[k] == ScaleColumn(xs)[k] {
      ScaleIgnoresUnitsAt(xs, a, b, k);
    }
  }
}
