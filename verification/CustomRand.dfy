/**
 The piecewise linear distribution of flow sizes: quantiles, percentiles, the mean and partial
 integrals, over the real numbers.
 */
module CustomRand {
  import opened Basics

  /** A size and the percentage of flows up to that size. */
  datatype Point = Point(x: real, y: real)

  type Cdf = seq<Point>

  ghost predicate Increasing(cdf: Cdf) {
    forall i :: 0 <= i < |cdf| - 1 ==> cdf[i].x < cdf[i + 1].x && cdf[i].y < cdf[i + 1].y
  }

  /** What `testCdf` accepts. */
  ghost predicate Accepted(cdf: Cdf) {
    |cdf| > 0 && cdf[0].y == 0.0 && cdf[|cdf| - 1].y == 100.0 && Increasing(cdf)
  }

  method TestCdf(cdf: Cdf) returns (ok: bool)
    requires |cdf| > 0
    ensures ok <==> Accepted(cdf)
  {
    if cdf[0].y != 0.0 || cdf[|cdf| - 1].y != 100.0 {
      return false;
    }
    for i := 1 to |cdf|
      invariant forall k :: 0 <= k < i - 1 ==> cdf[k].x < cdf[k + 1].x && cdf[k].y < cdf[k + 1].y
    {
      if cdf[i].y <= cdf[i - 1].y || cdf[i].x <= cdf[i - 1].x {
        assert !(cdf[i - 1].x < cdf[i - 1 + 1].x && cdf[i - 1].y < cdf[i - 1 + 1].y);
        return false;
      }
    }
    return true;
  }

  // ---- One segment ----

  /** The value at t on the line through (t0, v0) and (t1, v1). */
  function Line(t0: real, v0: real, t1: real, v1: real, t: real): real
    requires t0 < t1
  {
    v0 + (v1 - v0) / (t1 - t0) * (t - t0)
  }

  lemma Slope(t0: real, v0: real, t1: real, v1: real)
    requires t0 < t1 && v0 < v1
    ensures (v1 - v0) / (t1 - t0) > 0.0 && (v1 - v0) / (t1 - t0) * (t1 - t0) == v1 - v0
  {
    var s := (v1 - v0) / (t1 - t0);
    assert s * (t1 - t0) == v1 - v0;
    if s <= 0.0 { NotPositive(s, t1 - t0); }
  }

  lemma NotPositive(s: real, d: real)
    requires s <= 0.0 && d > 0.0
    ensures s * d <= 0.0
  {}

  lemma ScaleUp(s: real, a: real, b: real)
    requires s > 0.0 && a < b
    ensures s * a < s * b
  {
    assert s * (b - a) > 0.0;
  }

  lemma LineEnds(t0: real, v0: real, t1: real, v1: real)
    requires t0 < t1 && v0 < v1
    ensures Line(t0, v0, t1, v1, t0) == v0 && Line(t0, v0, t1, v1, t1) == v1
  {
    Slope(t0, v0, t1, v1);
  }

  lemma LineGrows(t0: real, v0: real, t1: real, v1: real, t: real, u: real)
    requires t0 < t1 && v0 < v1 && t < u
    ensures Line(t0, v0, t1, v1, t) < Line(t0, v0, t1, v1, u)
  {
    var s := (v1 - v0) / (t1 - t0);
    Slope(t0, v0, t1, v1);
    ScaleUp(s, t - t0, u - t0);
    assert Line(t0, v0, t1, v1, t) == v0 + s * (t - t0);
    assert Line(t0, v0, t1, v1, u) == v0 + s * (u - t0);
  }

  lemma LineWithin(t0: real, v0: real, t1: real, v1: real, t: real)
    requires t0 < t1 && v0 < v1 && t0 <= t <= t1
    ensures v0 <= Line(t0, v0, t1, v1, t) <= v1
    ensures t0 < t ==> v0 < Line(t0, v0, t1, v1, t)
    ensures t < t1 ==> Line(t0, v0, t1, v1, t) < v1
  {
    LineEnds(t0, v0, t1, v1);
    if t0 < t { LineGrows(t0, v0, t1, v1, t0, t); }
    if t < t1 { LineGrows(t0, v0, t1, v1, t, t1); }
  }

  /** Reading the line backwards. */
  lemma LineBack(t0: real, v0: real, t1: real, v1: real, t: real)
    requires t0 < t1 && v0 < v1
    ensures Line(v0, t0, v1, t1, Line(t0, v0, t1, v1, t)) == t
  {
    var s, r := (v1 - v0) / (t1 - t0), (t1 - t0) / (v1 - v0);
    Slope(t0, v0, t1, v1);
    Slope(v0, t0, v1, t1);
    Reciprocal(s, r, t1 - t0, v1 - v0);
    var d := t - t0;
    assert Line(t0, v0, t1, v1, t) - v0 == s * d;
    Regroup(r, s, d);
  }

  lemma Regroup(a: real, b: real, c: real)
    ensures (a * b) * c == a * (b * c)
  {}

  lemma Reciprocal(s: real, r: real, a: real, b: real)
    requires a > 0.0 && b > 0.0 && s * a == b && r * b == a
    ensures r * s == 1.0
  {
    Regroup(r, s, a);
    var q := r * s;
    assert q * a == a;
    if q < 1.0 { ScaleUp(a, q, 1.0); }
    if q > 1.0 { ScaleUp(a, 1.0, q); }
  }

  // ---- The whole function ----

  /** The value at t, on the first segment from number i on that reaches t. */
  function ValueFrom(cdf: Cdf, i: nat, t: real): Option<real>
    requires Increasing(cdf) && 1 <= i
    decreases |cdf| - i
  {
    if i >= |cdf| then None
    else
      assert cdf[i - 1].y < cdf[i - 1 + 1].y;
      if t <= cdf[i].y then Some(Line(cdf[i - 1].y, cdf[i - 1].x, cdf[i].y, cdf[i].x, t))
      else ValueFrom(cdf, i + 1, t)
  }

  /** `getValueFromPercentile` */
  function Quantile(cdf: Cdf, y: real): Option<real>
    requires Increasing(cdf)
  {
    ValueFrom(cdf, 1, y)
  }

  function PercentFrom(cdf: Cdf, i: nat, x: real): Option<real>
    requires Increasing(cdf) && 1 <= i
    decreases |cdf| - i
  {
    if i >= |cdf| then None
    else
      assert cdf[i - 1].x < cdf[i - 1 + 1].x;
      if x <= cdf[i].x then Some(Line(cdf[i - 1].x, cdf[i - 1].y, cdf[i].x, cdf[i].y, x))
      else PercentFrom(cdf, i + 1, x)
  }

  /** `getPercentileFromValue`: -1 outside of the range. */
  function Percentile(cdf: Cdf, x: real): Option<real>
    requires |cdf| > 0 && Increasing(cdf)
  {
    if x < 0.0 || x > cdf[|cdf| - 1].x then Some(-1.0) else PercentFrom(cdf, 1, x)
  }

  lemma {:induction false} Order(cdf: Cdf, i: nat, j: nat)
    requires Increasing(cdf) && i <= j < |cdf|
    ensures cdf[i].x <= cdf[j].x && cdf[i].y <= cdf[j].y
    ensures i < j ==> cdf[i].x < cdf[j].x && cdf[i].y < cdf[j].y
  {
    if i < j {
      Order(cdf, i, j - 1);
      assert cdf[j - 1].x < cdf[j - 1 + 1].x;
    }
  }

  /** t lies on segment k, and on no earlier one. */
  ghost predicate OnSegment(cdf: Cdf, k: nat, t: real) {
    1 <= k < |cdf| && t <= cdf[k].y && (if k == 1 then cdf[0].y <= t else cdf[k - 1].y < t)
  }

  lemma {:induction false} SegmentFrom(cdf: Cdf, i: nat, t: real) returns (k: nat)
    requires Increasing(cdf) && 1 <= i < |cdf| && t <= cdf[|cdf| - 1].y
    requires if i == 1 then cdf[0].y <= t else cdf[i - 1].y < t
    ensures OnSegment(cdf, k, t)
    decreases |cdf| - i
  {
    if t <= cdf[i].y {
      k := i;
    } else {
      k := SegmentFrom(cdf, i + 1, t);
    }
  }

  lemma {:induction false} ValueOnSegment(cdf: Cdf, i: nat, k: nat, t: real)
    requires Increasing(cdf) && 1 <= i <= k && OnSegment(cdf, k, t)
    ensures cdf[k - 1].y < cdf[k].y && cdf[k - 1].x < cdf[k].x
    ensures ValueFrom(cdf, i, t) == Some(Line(cdf[k - 1].y, cdf[k - 1].x, cdf[k].y, cdf[k].x, t))
    decreases k - i
  {
    assert cdf[k - 1].y < cdf[k - 1 + 1].y;
    if i < k {
      Order(cdf, i, k - 1);
      ValueOnSegment(cdf, i + 1, k, t);
    }
  }

  lemma {:induction false} PercentOnSegment(cdf: Cdf, i: nat, k: nat, x: real)
    requires Increasing(cdf) && 1 <= i <= k < |cdf| && x <= cdf[k].x && (k > 1 ==> cdf[k - 1].x < x)
    ensures cdf[k - 1].x < cdf[k].x
    ensures PercentFrom(cdf, i, x) == Some(Line(cdf[k - 1].x, cdf[k - 1].y, cdf[k].x, cdf[k].y, x))
    decreases k - i
  {
    assert cdf[k - 1].x < cdf[k - 1 + 1].x;
    if i < k {
      Order(cdf, i, k - 1);
      PercentOnSegment(cdf, i + 1, k, x);
    }
  }

  ghost predicate Sizes(cdf: Cdf) {
    Accepted(cdf) && cdf[0].x >= 0.0
  }

  /** Every percentage has a size, and that size has that percentage. */
  lemma PercentileOfQuantile(cdf: Cdf, y: real)
    requires Sizes(cdf) && 0.0 <= y <= 100.0
    ensures Quantile(cdf, y).Some? && cdf[0].x <= Quantile(cdf, y).value <= cdf[|cdf| - 1].x
    ensures Percentile(cdf, Quantile(cdf, y).value) == Some(y)
  {
    var k := SegmentFrom(cdf, 1, y);
    ValueOnSegment(cdf, 1, k, y);
    var p, q := cdf[k - 1], cdf[k];
    LineWithin(p.y, p.x, q.y, q.x, y);
    Order(cdf, 0, k - 1);
    Order(cdf, k, |cdf| - 1);
    var x := Quantile(cdf, y).value;
    PercentOnSegment(cdf, 1, k, x);
    LineBack(p.y, p.x, q.y, q.x, y);
  }

  /** Every size in the range has a percentage, and that percentage has that size. */
  lemma QuantileOfPercentile(cdf: Cdf, x: real)
    requires Sizes(cdf) && cdf[0].x <= x <= cdf[|cdf| - 1].x
    ensures Percentile(cdf, x).Some? && 0.0 <= Percentile(cdf, x).value <= 100.0
    ensures Quantile(cdf, Percentile(cdf, x).value) == Some(x)
  {
    var k := SizeSegment(cdf, 1, x);
    PercentOnSegment(cdf, 1, k, x);
    var p, q := cdf[k - 1], cdf[k];
    assert cdf[k - 1].y < cdf[k - 1 + 1].y;
    LineWithin(p.x, p.y, q.x, q.y, x);
    Order(cdf, 0, k - 1);
    Order(cdf, k, |cdf| - 1);
    var y := Percentile(cdf, x).value;
    ValueOnSegment(cdf, 1, k, y);
    LineBack(p.x, p.y, q.x, q.y, x);
  }

  lemma {:induction false} SizeSegment(cdf: Cdf, i: nat, x: real) returns (k: nat)
    requires Increasing(cdf) && 1 <= i < |cdf| && x <= cdf[|cdf| - 1].x
    requires if i == 1 then cdf[0].x <= x else cdf[i - 1].x < x
    ensures i <= k < |cdf| && x <= cdf[k].x && if k == 1 then cdf[0].x <= x else cdf[k - 1].x < x
    decreases |cdf| - i
  {
    if x <= cdf[i].x {
      k := i;
    } else {
      k := SizeSegment(cdf, i + 1, x);
    }
  }

  /** Outside of the range: -1 for negative sizes and those above the last; what lies below the first gets
      the percentage, below 0, that the first line would have there; and nothing has more than 100 percent. */
  lemma OutsideRange(cdf: Cdf, x: real)
    requires Accepted(cdf)
    ensures x < 0.0 || x > cdf[|cdf| - 1].x ==> Percentile(cdf, x) == Some(-1.0)
    ensures 0.0 <= x < cdf[0].x ==> Percentile(cdf, x).Some? && Percentile(cdf, x).value < 0.0
    ensures x > 100.0 ==> Quantile(cdf, x).None?
  {
    if 0.0 <= x < cdf[0].x {
      assert cdf[0].x < cdf[0 + 1].x && cdf[0].y < cdf[0 + 1].y;
      Order(cdf, 0, |cdf| - 1);
      LineBelow(cdf[0].x, cdf[0].y, cdf[1].x, cdf[1].y, x);
    }
    if x > 100.0 { NothingFrom(cdf, 1, x); }
  }

  lemma LineBelow(a: real, b: real, c: real, d: real, t: real)
    requires a < c && b < d && t < a
    ensures Line(a, b, c, d, t) < b
  {
    var slope := (d - b) / (c - a);
    assert slope > 0.0;
    assert slope * (t - a) < 0.0;
  }

  lemma {:induction false} NothingFrom(cdf: Cdf, i: nat, t: real)
    requires Accepted(cdf) && 1 <= i && t > 100.0
    ensures ValueFrom(cdf, i, t).None?
    decreases |cdf| - i
  {
    if i < |cdf| {
      Order(cdf, i, |cdf| - 1);
      NothingFrom(cdf, i + 1, t);
    }
  }

  /** Quantiles grow strictly. */
  lemma QuantileGrows(cdf: Cdf, y: real, z: real)
    requires Accepted(cdf) && 0.0 <= y < z <= 100.0
    ensures Quantile(cdf, y).Some? && Quantile(cdf, z).Some? && Quantile(cdf, y).value < Quantile(cdf, z).value
  {
    var j := SegmentFrom(cdf, 1, y);
    var k := SegmentFrom(cdf, 1, z);
    ValueOnSegment(cdf, 1, j, y);
    ValueOnSegment(cdf, 1, k, z);
    if k < j { Order(cdf, k, j - 1); }
    if j == k {
      LineGrows(cdf[j - 1].y, cdf[j - 1].x, cdf[j].y, cdf[j].x, y, z);
    } else {
      LineWithin(cdf[j - 1].y, cdf[j - 1].x, cdf[j].y, cdf[j].x, y);
      LineWithin(cdf[k - 1].y, cdf[k - 1].x, cdf[k].y, cdf[k].x, z);
      Order(cdf, j, k - 1);
    }
  }

  /** And so do percentages. */
  lemma PercentileGrows(cdf: Cdf, x: real, z: real)
    requires Sizes(cdf) && cdf[0].x <= x < z <= cdf[|cdf| - 1].x
    ensures Percentile(cdf, x).Some? && Percentile(cdf, z).Some? && Percentile(cdf, x).value < Percentile(cdf, z).value
  {
    QuantileOfPercentile(cdf, x);
    QuantileOfPercentile(cdf, z);
    var p, q := Percentile(cdf, x).value, Percentile(cdf, z).value;
    if q < p { QuantileGrows(cdf, q, p); }
  }

  // ---- Integrals ----

  /** A hundredth of the area under one line. */
  function Trapezoid(v: real, w: real, width: real): real {
    0.5 * (v + w) * width / 100.0
  }

  /** The first n segments. */
  function Area(cdf: Cdf, n: nat): real
    requires n < |cdf|
  {
    if n == 0 then 0.0 else Area(cdf, n - 1) + Trapezoid(cdf[n - 1].x, cdf[n].x, cdf[n].y - cdf[n - 1].y)
  }

  /** From segment i on, up to percentage y. */
  function IntegralFrom(cdf: Cdf, i: nat, y: real): real
    requires Increasing(cdf) && 1 <= i
    decreases |cdf| - i
  {
    if i >= |cdf| then 0.0
    else
      assert cdf[i - 1].y < cdf[i - 1 + 1].y;
      if y <= cdf[i].y then
        Trapezoid(cdf[i - 1].x, Line(cdf[i - 1].y, cdf[i - 1].x, cdf[i].y, cdf[i].x, y), y - cdf[i - 1].y)
      else Trapezoid(cdf[i - 1].x, cdf[i].x, cdf[i].y - cdf[i - 1].y) + IntegralFrom(cdf, i + 1, y)
  }

  /** `getIntegralY`: the mean restricted to the flows up to percentage y. */
  function Integral(cdf: Cdf, y: real): real
    requires Increasing(cdf)
  {
    IntegralFrom(cdf, 1, y)
  }

  lemma {:induction false} IntegralOnSegment(cdf: Cdf, i: nat, k: nat, y: real)
    requires Increasing(cdf) && 1 <= i <= k && OnSegment(cdf, k, y) && Quantile(cdf, y).Some?
    ensures IntegralFrom(cdf, i, y) ==
            Area(cdf, k - 1) - Area(cdf, i - 1) + Trapezoid(cdf[k - 1].x, Quantile(cdf, y).value, y - cdf[k - 1].y)
    decreases k - i
  {
    ValueOnSegment(cdf, 1, k, y);
    if i < k {
      Order(cdf, i, k - 1);
      IntegralOnSegment(cdf, i + 1, k, y);
    }
  }

  /** The trapezoid of a piece of one segment lies between its two ends. */
  lemma Piece(v: real, w: real, width: real)
    requires v <= w && width >= 0.0
    ensures v * width / 100.0 <= Trapezoid(v, w, width) <= w * width / 100.0
  {
    var d := w - v;
    assert d * width >= 0.0;
    assert Trapezoid(v, w, width) == v * width / 100.0 + 0.5 * (d * width) / 100.0;
    assert w * width == v * width + d * width;
  }

  /** On one line a trapezoid can be cut in two. */
  lemma Cut(v: real, s: real, a: real, b: real)
    ensures Trapezoid(v, v + s * (a + b), a + b)
            == Trapezoid(v, v + s * a, a) + Trapezoid(v + s * a, v + s * (a + b), b)
  {
    var sa, sb := s * a, s * b;
    assert s * (a + b) == sa + sb;
    assert sa * b == sb * a by { Regroup(s, a, b); Regroup(s, b, a); }
    var x, y := sa * a, sb * b;
    assert (v + v + sa + sb) * (a + b) == 2.0 * v * a + 2.0 * v * b + x + sa * b + sb * a + y;
    assert (v + v + sa) * a == 2.0 * v * a + x;
    assert (v + sa + v + sa + sb) * b == 2.0 * v * b + 2.0 * (sa * b) + y;
  }

  lemma QuantileOnLine(cdf: Cdf, k: nat, y: real)
    requires Accepted(cdf) && OnSegment(cdf, k, y)
    ensures Quantile(cdf, y).Some? && cdf[k - 1].y < cdf[k].y
    ensures Quantile(cdf, y).value
            == cdf[k - 1].x + (cdf[k].x - cdf[k - 1].x) / (cdf[k].y - cdf[k - 1].y) * (y - cdf[k - 1].y)
    ensures Integral(cdf, y) == Area(cdf, k - 1) + Trapezoid(cdf[k - 1].x, Quantile(cdf, y).value, y - cdf[k - 1].y)
  {
    ValueOnSegment(cdf, 1, k, y);
    IntegralOnSegment(cdf, 1, k, y);
  }

  /** On one segment the integral grows by the trapezoid between the two quantiles. */
  lemma SameSegment(cdf: Cdf, k: nat, y: real, z: real)
    requires Accepted(cdf) && OnSegment(cdf, k, y) && OnSegment(cdf, k, z) && y <= z
    ensures Quantile(cdf, y).Some? && Quantile(cdf, z).Some?
    ensures Integral(cdf, z) - Integral(cdf, y) == Trapezoid(Quantile(cdf, y).value, Quantile(cdf, z).value, z - y)
  {
    hide Trapezoid, Quantile, Integral, Area, Increasing;
    QuantileOnLine(cdf, k, y);
    QuantileOnLine(cdf, k, z);
    var p, q := cdf[k - 1], cdf[k];
    CutAt(p.x, (q.x - p.x) / (q.y - p.y), y - p.y, z - p.y, Quantile(cdf, y).value, Quantile(cdf, z).value);
    assert z - p.y - (y - p.y) == z - y;
  }

  lemma CutAt(v: real, s: real, a: real, c: real, w: real, x: real)
    requires w == v + s * a && x == v + s * c
    ensures Trapezoid(v, x, c) - Trapezoid(v, w, a) == Trapezoid(w, x, c - a)
  {
    Cut(v, s, a, c - a);
    assert a + (c - a) == c;
  }

  /** The integral grows as on a step between the two quantiles. */
  ghost predicate Between(cdf: Cdf, y: real, z: real) {
    && Increasing(cdf) && Quantile(cdf, y).Some? && Quantile(cdf, z).Some?
    && Bounded(Quantile(cdf, y).value, Quantile(cdf, z).value, z - y, Integral(cdf, z) - Integral(cdf, y))
  }

  predicate Bounded(low: real, high: real, width: real, growth: real) {
    low * width / 100.0 <= growth <= high * width / 100.0
  }

  lemma BetweenOnSegment(cdf: Cdf, k: nat, y: real, z: real)
    requires Accepted(cdf) && OnSegment(cdf, k, y) && OnSegment(cdf, k, z) && y <= z && 0.0 <= y <= z <= 100.0
    ensures Between(cdf, y, z)
  {
    SameSegment(cdf, k, y, z);
    if y < z { QuantileGrows(cdf, y, z); }
    Piece(Quantile(cdf, y).value, Quantile(cdf, z).value, z - y);
  }

  lemma Product(a: real, b: real, width: real)
    requires a <= b && width >= 0.0
    ensures a * width <= b * width
  {
    assert (b - a) * width >= 0.0;
  }

  lemma BetweenTwice(cdf: Cdf, x: real, y: real, z: real)
    requires Accepted(cdf) && Between(cdf, x, y) && Between(cdf, y, z) && 0.0 <= x <= y <= z <= 100.0
    ensures Between(cdf, x, z)
  {
    if x < y { QuantileGrows(cdf, x, y); }
    if y < z { QuantileGrows(cdf, y, z); }
    hide Quantile, Integral, Increasing, Bounded;
    TwoSteps(Quantile(cdf, x).value, Quantile(cdf, y).value, Quantile(cdf, z).value, y - x, z - y,
             Integral(cdf, y) - Integral(cdf, x), Integral(cdf, z) - Integral(cdf, y));
    assert y - x + (z - y) == z - x;
  }

  lemma TwoSteps(a: real, b: real, c: real, u: real, w: real, first: real, second: real)
    requires a <= b <= c && u >= 0.0 && w >= 0.0
    requires Bounded(a, b, u, first) && Bounded(b, c, w, second)
    ensures Bounded(a, c, u + w, first + second)
  {
    Product(a, b, w);
    Product(b, c, u);
    assert a * (u + w) == a * u + a * w;
    assert c * (u + w) == c * u + c * w;
  }

  /** From one percentage to a later one, over any number of segments. */
  lemma {:induction false} IntegralGrowth(cdf: Cdf, y: real, z: real)
    requires Accepted(cdf) && 0.0 <= y <= z <= 100.0
    ensures Between(cdf, y, z)
  {
    var j := SegmentFrom(cdf, 1, y);
    var k := SegmentFrom(cdf, 1, z);
    if k < j { Order(cdf, k, j - 1); }
    GrowthOver(cdf, j, k, y, z);
  }

  lemma {:induction false} GrowthOver(cdf: Cdf, j: nat, k: nat, y: real, z: real)
    requires Accepted(cdf) && 0.0 <= y <= z <= 100.0 && j <= k && OnSegment(cdf, j, y) && OnSegment(cdf, k, z)
    ensures Between(cdf, y, z)
    decreases k - j
  {
    if j == k {
      BetweenOnSegment(cdf, k, y, z);
    } else {
      var m := cdf[k - 1].y;
      Order(cdf, j, k - 1);
      Order(cdf, 0, k - 1);
      assert cdf[k - 2].y < cdf[k - 2 + 1].y;
      assert OnSegment(cdf, k - 1, m);
      GrowthOver(cdf, j, k - 1, y, m);
      AcrossCorner(cdf, k, m, z);
      BetweenTwice(cdf, y, m, z);
    }
  }

  /** From a corner, which belongs to the segment before it, along the next segment. */
  lemma AcrossCorner(cdf: Cdf, k: nat, m: real, z: real)
    requires Accepted(cdf) && 2 <= k < |cdf| && m == cdf[k - 1].y && OnSegment(cdf, k, z) && 0.0 <= m <= z <= 100.0
    requires OnSegment(cdf, k - 1, m)
    ensures Between(cdf, m, z)
  {
    hide Trapezoid, Quantile, Integral;
    var p := cdf[k - 1];
    QuantileOnLine(cdf, k - 1, m);
    QuantileOnLine(cdf, k, z);
    CornerValue(cdf, k - 1);
    if m < z { QuantileGrows(cdf, m, z); }
    Piece(p.x, Quantile(cdf, z).value, z - m);
    assert Area(cdf, k - 1) == Area(cdf, k - 2) + Trapezoid(cdf[k - 2].x, p.x, p.y - cdf[k - 2].y);
    hide Area;
  }

  lemma CornerValue(cdf: Cdf, k: nat)
    requires Accepted(cdf) && 1 <= k < |cdf| && OnSegment(cdf, k, cdf[k].y)
    ensures Quantile(cdf, cdf[k].y) == Some(cdf[k].x)
  {
    ValueOnSegment(cdf, 1, k, cdf[k].y);
    LineEnds(cdf[k - 1].y, cdf[k - 1].x, cdf[k].y, cdf[k].x);
  }

  /** The whole integral is the mean. */
  lemma {:induction false} IntegralIsMean(cdf: Cdf)
    requires Accepted(cdf)
    ensures Integral(cdf, 100.0) == Area(cdf, |cdf| - 1)
  {
    var n := |cdf| - 1;
    var k := SegmentFrom(cdf, 1, 100.0);
    if k < n { Order(cdf, k, n); }
    var p, q := cdf[n - 1], cdf[n];
    QuantileOnLine(cdf, n, 100.0);
    ValueOnSegment(cdf, 1, n, 100.0);
    LineEnds(p.y, p.x, q.y, q.x);
  }

  // ---- The loops ----

  /** `getAvg` */
  method GetAvg(cdf: Cdf) returns (avg: real)
    requires |cdf| > 0
    ensures avg == Area(cdf, |cdf| - 1)
  {
    var s := 0.0;
    for i := 1 to |cdf|
      invariant s / 100.0 == Area(cdf, i - 1)
    {
      var more := (cdf[i].x + cdf[i - 1].x) / 2.0 * (cdf[i].y - cdf[i - 1].y);
      Half(cdf[i - 1].x, cdf[i].x, cdf[i].y - cdf[i - 1].y);
      s := s + more;
    }
    return s / 100.0;
  }

  lemma Half(v: real, w: real, width: real)
    ensures (w + v) / 2.0 * width / 100.0 == Trapezoid(v, w, width)
  {
    assert (w + v) / 2.0 == 0.5 * (v + w);
  }

  /** `getIntegralY` */
  method GetIntegralY(cdf: Cdf, y: real) returns (s: real)
    requires Increasing(cdf)
    ensures s == Integral(cdf, y)
  {
    s := 0.0;
    var i := 1;
    while i < |cdf|
      invariant 1 <= i && s + IntegralFrom(cdf, i, y) == Integral(cdf, y)
      decreases |cdf| - i
    {
      var p, q := cdf[i - 1], cdf[i];
      assert cdf[i - 1].y < cdf[i - 1 + 1].y;
      if y <= q.y {
        return s + Trapezoid(p.x, Line(p.y, p.x, q.y, q.x, y), y - p.y);
      }
      s := s + Trapezoid(p.x, q.x, q.y - p.y);
      i := i + 1;
    }
  }
}
