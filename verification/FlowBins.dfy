/**
 The loop that cuts a distribution of flow sizes into bins: percent by percent from the top, but
 never below half of a large size.
 */
module FlowBins {
  import opened Basics
  import opened CustomRand

  /** The size at a percentage, for those a distribution has. */
  function Q(cdf: Cdf, p: real): real
    requires Increasing(cdf)
  {
    match Quantile(cdf, p)
    case Some(x) => x
    case None => 0.0
  }

  function Ceil(p: real): int {
    if p == p.Floor as real then p.Floor else p.Floor + 1
  }

  /** How often a size can be halved until it is at most 1000. */
  function Halvings(x: int): (h: nat)
    ensures x > 1000 ==> h > 0
    decreases x
  {
    if x <= 1000 then 0 else 1 + Halvings(x / 2)
  }

  function Pow2(n: nat): nat {
    if n == 0 then 1 else 2 * Pow2(n - 1)
  }

  /** They are the logarithm of the size. */
  lemma {:induction false} HalvingsIsLog(x: int)
    requires x > 1000
    ensures Pow2(Halvings(x) - 1) * 1001 <= x < Pow2(Halvings(x)) * 1001
    decreases x
  {
    if x / 2 > 1000 { HalvingsIsLog(x / 2); }
  }

  lemma {:induction false} HalvingsGrow(x: int, y: int)
    requires x <= y
    ensures Halvings(x) <= Halvings(y)
    decreases y
  {
    if x > 1000 { HalvingsGrow(x / 2, y / 2); }
  }

  lemma QGrows(cdf: Cdf, p: real, q: real)
    requires Sizes(cdf) && 0.0 <= p <= q <= 100.0
    ensures p < q ==> Q(cdf, p) < Q(cdf, q)
    ensures cdf[0].x <= Q(cdf, p) <= Q(cdf, q) <= cdf[|cdf| - 1].x
  {
    PercentileOfQuantile(cdf, p);
    PercentileOfQuantile(cdf, q);
    if p < q { QuantileGrows(cdf, p, q); }
  }

  function Percent(cdf: Cdf, x: real): real
    requires |cdf| > 0 && Increasing(cdf)
  {
    match Percentile(cdf, x)
    case Some(p) => p
    case None => 0.0
  }

  /** Half of the size, when the next percent would fall below it: its percentage lies strictly between. */
  lemma HalfwayBetween(cdf: Cdf, x: int, p: real, p1: real)
    requires Sizes(cdf) && 1.0 <= p1 < p <= 100.0 && x == Q(cdf, p).Floor && x > 1000 && Q(cdf, p1).Floor < x / 2
    ensures var half := Percent(cdf, (x / 2) as real);
            p1 < half < p && Q(cdf, half) == (x / 2) as real
  {
    var y := (x / 2) as real;
    QGrows(cdf, p1, p);
    QGrows(cdf, p, 100.0);
    assert Q(cdf, p1) < y && y < Q(cdf, p);
    QuantileOfPercentile(cdf, y);
    var half := Percent(cdf, y);
    if half <= p1 { QGrows(cdf, half, p1); }
    if half >= p { QGrows(cdf, p, half); }
  }

  // ---- The percentages that the loop comes by ----

  function Below(p: real): real {
    if p > 2.0 then p - 1.0 else 1.0
  }

  /** From p the loop goes on with q: the percentage below, or that of half the size if the size would
      fall below it. */
  ghost predicate StepDown(cdf: Cdf, p: real, q: real)
    requires Increasing(cdf)
  {
    var x := Q(cdf, p).Floor;
    && 1.0 <= q < p <= q + 1.0
    && (if x > 1000 && Q(cdf, Below(p)).Floor < x / 2 then Q(cdf, q) == (x / 2) as real else q == Below(p))
  }

  /** From 100 downwards, as long as sizes are positive. */
  ghost predicate Descent(cdf: Cdf, levels: seq<real>)
    requires Increasing(cdf)
  {
    && levels != [] && levels[0] == 100.0
    && forall i :: 0 <= i < |levels| - 1 ==> Q(cdf, levels[i]).Floor > 0 && StepDown(cdf, levels[i], levels[i + 1])
  }

  /** Down to one percent or to size 0. */
  ghost predicate Levels(cdf: Cdf, levels: seq<real>)
    requires Increasing(cdf)
  {
    Descent(cdf, levels) && (levels[|levels| - 1] == 1.0 || Q(cdf, levels[|levels| - 1]).Floor <= 0)
  }

  ghost predicate SizeOfLevel(cdf: Cdf, levels: seq<real>, x: int)
    requires Increasing(cdf)
  {
    exists k :: 0 <= k < |levels| && Q(cdf, levels[k]).Floor == x
  }

  /** The bins are the positive sizes at these percentages. */
  ghost predicate BinsOf(cdf: Cdf, levels: seq<real>, bins: seq<int>)
    requires Increasing(cdf)
  {
    forall x :: x in bins <==> x > 0 && SizeOfLevel(cdf, levels, x)
  }

  lemma BinsOfMore(cdf: Cdf, levels: seq<real>, bins: seq<int>, p: real)
    requires Increasing(cdf) && BinsOf(cdf, levels, bins)
    ensures var x := Q(cdf, p).Floor;
            BinsOf(cdf, levels + [p], if x > 0 then AddBin(bins, x) else bins)
  {
    var more, x := levels + [p], Q(cdf, p).Floor;
    hide Q;
    var bins' := if x > 0 then AddBin(bins, x) else bins;
    forall y ensures y in bins' <==> y > 0 && SizeOfLevel(cdf, more, y) {
      if SizeOfLevel(cdf, levels, y) {
        var k :| 0 <= k < |levels| && Q(cdf, levels[k]).Floor == y;
        assert more[k] == levels[k];
      }
      if y == x { assert more[|levels|] == p; }
    }
  }

  lemma BinsOfReversed(cdf: Cdf, levels: seq<real>, bins: seq<int>)
    requires Increasing(cdf) && BinsOf(cdf, levels, bins)
    ensures BinsOf(cdf, levels, Reversed(bins))
  {
    forall x ensures x in Reversed(bins) <==> x in bins {
      if x in bins {
        var k :| 0 <= k < |bins| && bins[k] == x;
        assert Reversed(bins)[|bins| - 1 - k] == x;
      }
    }
  }

  lemma {:induction false} DescentFalls(cdf: Cdf, levels: seq<real>)
    requires Increasing(cdf) && Descent(cdf, levels)
    ensures forall k :: 0 <= k < |levels| ==> 1.0 <= levels[|levels| - 1] <= levels[k] <= 100.0
    decreases |levels|
  {
    if |levels| > 1 {
      var front := levels[..|levels| - 1];
      forall i | 0 <= i < |front| - 1 ensures Q(cdf, front[i]).Floor > 0 && StepDown(cdf, front[i], front[i + 1]) {
        assert StepDown(cdf, levels[i], levels[i + 1]);
      }
      DescentFalls(cdf, front);
      assert StepDown(cdf, levels[|levels| - 2], levels[|levels| - 2 + 1]);
    }
  }

  /** When the size at one percent is positive it is the lowest bin. */
  lemma LowestBin(cdf: Cdf, levels: seq<real>, bins: seq<int>)
    requires Sizes(cdf) && Levels(cdf, levels) && BinsOf(cdf, levels, bins) && Q(cdf, 1.0).Floor > 0
    requires forall i, j :: 0 <= i < j < |bins| ==> bins[i] < bins[j]
    ensures bins != [] && bins[0] == Q(cdf, 1.0).Floor
  {
    var last, x := levels[|levels| - 1], Q(cdf, 1.0).Floor;
    DescentFalls(cdf, levels);
    forall k | 0 <= k < |levels| ensures Q(cdf, levels[k]).Floor >= x {
      QGrows(cdf, 1.0, levels[k]);
    }
    assert last == 1.0 && SizeOfLevel(cdf, levels, x);
    hide Q;
    assert x in bins && bins[0] in bins;
    assert SizeOfLevel(cdf, levels, bins[0]);
  }

  // ---- The bins ----

  ghost predicate Falling(bins: seq<int>) {
    forall i, j :: 0 <= i < j < |bins| ==> bins[i] > bins[j]
  }

  /** No bin above 1000 is followed by one below its half. */
  ghost predicate NoGap(bins: seq<int>) {
    forall i :: 0 <= i < |bins| - 1 && bins[i] > 1000 ==> bins[i + 1] >= bins[i] / 2
  }

  /** One turn of the loop: the next percentage and the next size, or none. */
  method Next(cdf: Cdf, x: int, p: real) returns (more: bool, x1: int, p1: real)
    requires Sizes(cdf) && 1.0 <= p <= 100.0 && x == Q(cdf, p).Floor && x > 0
    ensures more <==> p > 1.0
    ensures more ==> StepDown(cdf, p, p1)
    ensures more ==> 1.0 <= p1 < p && x1 == Q(cdf, p1).Floor && 0 <= x1 <= x && (x > 1000 ==> x1 >= x / 2)
    ensures more ==> Ceil(p1) + Halvings(x1) < Ceil(p) + Halvings(x) && Ceil(p1) <= Ceil(p)
    ensures more ==> Ceil(p1) + x1 < Ceil(p) + x
  {
    x1, p1 := x, p;
    if p > 2.0 {
      p1 := p - 1.0;
    } else if p > 1.0 {
      p1 := 1.0;
    } else {
      return false, x, p;
    }
    x1 := Q(cdf, p1).Floor;
    QGrows(cdf, p1, p);
    HalvingsGrow(x1, x);
    if x1 < x / 2 && x > 1000 {
      HalfwayBetween(cdf, x, p, p1);
      x1 := x / 2;
      p1 := Percent(cdf, x1 as real);
    }
    more := true;
  }

  /** The bins so far, from the top down, and the size that comes next. */
  ghost predicate BinsInv(falling: seq<int>, x0: int, x: int) {
    && Falling(falling) && NoGap(falling) && (forall i :: 0 <= i < |falling| ==> falling[i] > 0)
    && if falling == [] then x == x0
       else falling[0] == x0 && Follows(falling[|falling| - 1], x)
  }

  predicate Follows(last: int, x: int) {
    x <= last && (last > 1000 ==> x >= last / 2)
  }

  function AddBin(falling: seq<int>, x: int): seq<int> {
    if falling == [] || x != falling[|falling| - 1] then falling + [x] else falling
  }

  lemma AddBinKeeps(falling: seq<int>, x0: int, x: int, x1: int)
    requires BinsInv(falling, x0, x) && x > 0
    ensures AddBin(falling, x) != [] && BinsInv(AddBin(falling, x), x0, x)
    ensures Follows(x, x1) ==> BinsInv(AddBin(falling, x), x0, x1)
  {
    var bins := AddBin(falling, x);
    forall i, j | 0 <= i < j < |bins| ensures bins[i] > bins[j] {
      if j == |falling| && i < |falling| - 1 { assert falling[i] > falling[|falling| - 1]; }
    }
  }

  /** Rising, positive, from the given top, and without gaps above 1000. */
  ghost predicate GoodBins(bins: seq<int>, x0: int) {
    && (forall i, j :: 0 <= i < j < |bins| ==> bins[i] < bins[j])
    && (forall i :: 0 <= i < |bins| ==> bins[i] > 0)
    && (forall i :: 0 <= i < |bins| - 1 && bins[i + 1] > 1000 ==> bins[i] >= bins[i + 1] / 2)
    && (if x0 > 0 then bins != [] && bins[|bins| - 1] == x0 else bins == [])
  }

  lemma ReversedIsGood(falling: seq<int>, x0: int, x: int)
    requires BinsInv(falling, x0, x) && (falling == [] ==> x0 <= 0)
    ensures GoodBins(Reversed(falling), x0)
  {
    var bins := Reversed(falling);
    forall i | 0 <= i < |bins| - 1 && bins[i + 1] > 1000 ensures bins[i] >= bins[i + 1] / 2 {
      var j := |falling| - 2 - i;
      assert falling[j] == bins[i + 1] && falling[j + 1] == bins[i];
    }
  }

  /** The sizes in rising order. The error branch is not reached, and the loop turns at most as often as
      there are percents and halvings. */
  method Bins(cdf: Cdf) returns (bins: seq<int>, failed: bool, ghost levels: seq<real>)
    requires Sizes(cdf)
    ensures !failed && |levels| - 1 <= 100 + Halvings(cdf[|cdf| - 1].x.Floor)
    ensures Levels(cdf, levels) && BinsOf(cdf, levels, bins) && GoodBins(bins, cdf[|cdf| - 1].x.Floor)
    ensures Q(cdf, 1.0).Floor > 0 ==> bins != [] && bins[0] == Q(cdf, 1.0).Floor
  {
    TopQuantile(cdf);
    QGrows(cdf, 100.0, 100.0);
    hide Q, BinsInv, Sizes, BinsOf, Descent, StepDown;
    var x, p := Q(cdf, 100.0).Floor, 100.0;
    ghost var x0 := x;
    var falling: seq<int> := [];
    failed, levels := false, [100.0];
    NoBins(cdf, x0);
    while x > 0
      invariant 1.0 <= p <= 100.0 && x == Q(cdf, p).Floor && x >= 0
      invariant Descent(cdf, levels) && levels[|levels| - 1] == p && BinsOf(cdf, levels[..|levels| - 1], falling)
      invariant BinsInv(falling, x0, x) && (falling == [] ==> x == x0)
      invariant |levels| - 1 + Ceil(p) + Halvings(x) <= 100 + Halvings(x0)
      decreases Ceil(p) + x
    {
      var more, x1, p1 := Next(cdf, x, p);
      AddBinKeeps(falling, x0, x, x1);
      assert levels[..|levels| - 1] + [p] == levels;
      BinsOfMore(cdf, levels[..|levels| - 1], falling, p);
      falling := AddBin(falling, x);
      if !more {
        bins := Reversed(falling);
        BinsDone(cdf, levels, falling, x0, x);
        return;
      }
      if p1 < 0.0 {
        return Reversed(falling), true, levels;
      }
      OneMoreLevel(cdf, levels, p1);
      assert (levels + [p1])[..|levels|] == levels;
      x, p, levels := x1, p1, levels + [p1];
    }
    assert levels[..|levels| - 1] + [p] == levels;
    BinsOfMore(cdf, levels[..|levels| - 1], falling, p);
    bins := Reversed(falling);
    BinsDone(cdf, levels, falling, x0, x);
  }

  lemma OneMoreLevel(cdf: Cdf, levels: seq<real>, q: real)
    requires Increasing(cdf) && Descent(cdf, levels)
    requires Q(cdf, levels[|levels| - 1]).Floor > 0 && StepDown(cdf, levels[|levels| - 1], q)
    ensures Descent(cdf, levels + [q])
  {}

  lemma BinsDone(cdf: Cdf, levels: seq<real>, falling: seq<int>, x0: int, x: int)
    requires Sizes(cdf) && Levels(cdf, levels) && BinsOf(cdf, levels, falling)
    requires BinsInv(falling, x0, x) && (falling == [] ==> x0 <= 0)
    ensures BinsOf(cdf, levels, Reversed(falling)) && GoodBins(Reversed(falling), x0)
    ensures Q(cdf, 1.0).Floor > 0 ==> Reversed(falling) != [] && Reversed(falling)[0] == Q(cdf, 1.0).Floor
  {
    BinsOfReversed(cdf, levels, falling);
    ReversedIsGood(falling, x0, x);
    if Q(cdf, 1.0).Floor > 0 { LowestBin(cdf, levels, Reversed(falling)); }
  }

  lemma NoBins(cdf: Cdf, x0: int)
    requires Increasing(cdf)
    ensures BinsInv([], x0, x0) && BinsOf(cdf, [], []) && Descent(cdf, [100.0])
  {}

  lemma TopQuantile(cdf: Cdf)
    requires Sizes(cdf)
    ensures Q(cdf, 100.0) == cdf[|cdf| - 1].x
  {
    var n := |cdf| - 1;
    var k := SegmentFrom(cdf, 1, 100.0);
    if k < n { Order(cdf, k, n); }
    CornerValue(cdf, n);
  }
}
