/** The bar charts of `PlotKit.Layout`, over the reals: limits, scales, bars and their
    ticks on the x axis, in fractions of the chart's width and height. */
module BarLayout {
  import opened Basics

  datatype Point = Point(x: real, y: real)

  type Datasets = seq<seq<Point>>

  /** A tick asked for, by its value and possibly with a label of its own. */
  datatype XTick = XTick(v: real, text: Option<string>)

  /** `xAxis` and `yAxis` hold the two ends of an axis, if they are given. */
  datatype Options = Options(
    xAxis: Option<(real, real)>,
    yAxis: Option<(real, real)>,
    xTicks: Option<seq<XTick>>,
    xOriginIsZero: bool,
    yOriginIsZero: bool,
    barWidthFillFraction: real,
    xNumberOfTicks: nat)

  datatype Bar = Bar(x: real, y: real, w: real, h: real, xval: real, yval: real, dataset: nat)

  // ---- lists of numbers ----

  function Collapse(datasets: Datasets): seq<Point> {
    if datasets == [] then [] else Collapse(datasets[..|datasets| - 1]) + datasets[|datasets| - 1]
  }

  function Xs(points: seq<Point>): (xs: seq<real>)
    ensures |xs| == |points| && forall i :: 0 <= i < |xs| ==> xs[i] == points[i].x
  {
    seq(|points|, i requires 0 <= i < |points| => points[i].x)
  }

  function Ys(points: seq<Point>): (ys: seq<real>)
    ensures |ys| == |points| && forall i :: 0 <= i < |ys| ==> ys[i] == points[i].y
  {
    seq(|points|, i requires 0 <= i < |points| => points[i].y)
  }

  function Least(s: seq<real>): real
    requires s != []
  {
    var n := |s| - 1;
    if n == 0 then s[0] else if s[n] < Least(s[..n]) then s[n] else Least(s[..n])
  }

  function Greatest(s: seq<real>): real
    requires s != []
  {
    var n := |s| - 1;
    if n == 0 then s[0] else if s[n] > Greatest(s[..n]) then s[n] else Greatest(s[..n])
  }

  lemma {:induction false} Bounds(s: seq<real>, v: real)
    requires v in s
    ensures Least(s) <= v <= Greatest(s)
  {
    var n := |s| - 1;
    if n > 0 {
      if v in s[..n] {
        Bounds(s[..n], v);
      } else {
        Bounds(s[..n], s[0]);
      }
    }
  }

  lemma {:induction false} GreatestIn(s: seq<real>)
    requires s != []
    ensures Greatest(s) in s && Least(s) in s
  {
    var n := |s| - 1;
    if n > 0 {
      GreatestIn(s[..n]);
    }
  }

  predicate Sorted(s: seq<real>) {
    forall i, j :: 0 <= i < j < |s| ==> s[i] <= s[j]
  }

  predicate Increasing(s: seq<real>) {
    forall i, j :: 0 <= i < j < |s| ==> s[i] < s[j]
  }

  function Insert(s: seq<real>, v: real): seq<real> {
    var n := |s| - 1;
    if s == [] || s[n] <= v then s + [v] else Insert(s[..n], v) + [s[n]]
  }

  /** Stands for the library's sort by value. */
  function Sort(s: seq<real>): seq<real> {
    if s == [] then [] else Insert(Sort(s[..|s| - 1]), s[|s| - 1])
  }

  lemma {:induction false} InsertIn(s: seq<real>, v: real, w: real)
    ensures w in Insert(s, v) <==> w in s || w == v
  {
    var n := |s| - 1;
    if s != [] && s[n] > v {
      InsertIn(s[..n], v, w);
      assert s == s[..n] + [s[n]];
    }
  }

  lemma {:induction false} InsertSorts(s: seq<real>, v: real)
    requires Sorted(s)
    ensures Sorted(Insert(s, v))
  {
    var n := |s| - 1;
    if s != [] && s[n] > v {
      InsertSorts(s[..n], v);
      forall i | 0 <= i < |Insert(s[..n], v)|
        ensures Insert(s[..n], v)[i] <= s[n]
      {
        InsertIn(s[..n], v, Insert(s[..n], v)[i]);
      }
    }
  }

  lemma {:induction false} SortSorts(s: seq<real>)
    ensures Sorted(Sort(s))
  {
    if s != [] {
      SortSorts(s[..|s| - 1]);
      InsertSorts(Sort(s[..|s| - 1]), s[|s| - 1]);
    }
  }

  lemma {:induction false} SortIn(s: seq<real>, w: real)
    ensures w in Sort(s) <==> w in s
  {
    if s != [] {
      SortIn(s[..|s| - 1], w);
      InsertIn(Sort(s[..|s| - 1]), s[|s| - 1], w);
      assert s == s[..|s| - 1] + [s[|s| - 1]];
    }
  }

  function Uniq(s: seq<real>): seq<real> {
    if s == [] then []
    else
      var u := Uniq(s[..|s| - 1]);
      if u != [] && u[|u| - 1] == s[|s| - 1] then u else u + [s[|s| - 1]]
  }

  lemma {:induction false} UniqIncreases(s: seq<real>)
    requires Sorted(s)
    ensures Increasing(Uniq(s))
    ensures s != [] ==> Uniq(s) != [] && Uniq(s)[|Uniq(s)| - 1] == s[|s| - 1]
  {
    if s != [] {
      var init, last := s[..|s| - 1], s[|s| - 1];
      UniqIncreases(init);
      if init != [] {
        assert init[|init| - 1] <= last;
      }
      if Uniq(init) == [] || Uniq(init)[|Uniq(init)| - 1] != last {
        IncreasingAppend(Uniq(init), last);
      }
    }
  }

  lemma IncreasingAppend(s: seq<real>, v: real)
    requires Increasing(s) && (s != [] ==> s[|s| - 1] < v)
    ensures Increasing(s + [v])
  {
    forall i | 0 <= i < |s|
      ensures s[i] < v
    {
      assert i < |s| - 1 ==> s[i] < s[|s| - 1];
    }
  }

  lemma {:induction false} UniqIn(s: seq<real>, w: real)
    ensures w in Uniq(s) <==> w in s
  {
    if s != [] {
      UniqIn(s[..|s| - 1], w);
      assert s == s[..|s| - 1] + [s[|s| - 1]];
    }
  }

  /** The distinct x values in increasing order. */
  function XValues(datasets: Datasets): seq<real> {
    Uniq(Sort(Xs(Collapse(datasets))))
  }

  lemma XValuesIncrease(datasets: Datasets)
    ensures Increasing(XValues(datasets))
  {
    SortSorts(Xs(Collapse(datasets)));
    UniqIncreases(Sort(Xs(Collapse(datasets))));
  }

  lemma XValuesIn(datasets: Datasets, w: real)
    ensures w in XValues(datasets) <==> w in Xs(Collapse(datasets))
  {
    SortIn(Xs(Collapse(datasets)), w);
    UniqIn(Sort(Xs(Collapse(datasets))), w);
  }

  lemma {:induction false} CollapseIn(datasets: Datasets, i: nat, j: nat)
    requires i < |datasets| && j < |datasets[i]|
    ensures datasets[i][j] in Collapse(datasets)
  {
    var n := |datasets| - 1;
    if i < n {
      CollapseIn(datasets[..n], i, j);
    }
  }

  // ---- the smallest distance between x values ----

  const FAR := 10000000.0

  function Abs(x: real): real { if x < 0.0 then -x else x }

  function Xdelta(xs: seq<real>): real {
    var n := |xs| - 1;
    if n < 1 then FAR
    else if Abs(xs[n] - xs[n - 1]) < Xdelta(xs[..n]) then Abs(xs[n] - xs[n - 1]) else Xdelta(xs[..n])
  }

  lemma {:induction false} XdeltaRange(xs: seq<real>)
    requires Increasing(xs)
    ensures 0.0 < Xdelta(xs) <= FAR
  {
    if |xs| > 1 {
      XdeltaRange(xs[..|xs| - 1]);
    }
  }

  lemma {:induction false} XdeltaSeparates(xs: seq<real>, i: nat, j: nat)
    requires Increasing(xs) && i < j < |xs|
    ensures xs[j] - xs[i] >= Xdelta(xs)
  {
    if j < |xs| - 1 {
      XdeltaSeparates(xs[..|xs| - 1], i, j);
    } else {
      assert xs[i] <= xs[j - 1];
    }
  }

  // ---- scales and placement ----

  function Inverse(range: real): real {
    if range == 0.0 then 1.0 else 1.0 / range
  }

  /** What `_evaluateBarCharts` settles before it makes the bars. */
  datatype Placement = Placement(minxval: real, xscale: real, xdelta: real)

  function Rescale(xdelta: real, xrange: real): real
    requires xrange != 0.0
  {
    (1.0 - xdelta / xrange) / xrange
  }

  function Place(xs: seq<real>, minxval: real, xrange: real): Placement
    requires |xs| != 1 ==> xrange != 0.0
  {
    if |xs| == 1 then Placement(xs[0], 1.0, 1.0)
    else Placement(minxval, Rescale(Xdelta(xs), xrange), Xdelta(xs))
  }

  /** The left end of what a chart reserves for an x value, and how wide that is. */
  function GroupX(p: Placement, v: real): real { (v - p.minxval) * p.xscale }

  function GroupWidth(p: Placement): real { p.xdelta * p.xscale }

  /** The width of one dataset's bar, and the margin on either side of a group. */
  function BarWidth(group: real, sets: nat, fill: real): real
    requires sets > 0
  {
    group * fill / sets as real
  }

  function BarMargin(group: real, fill: real): real { group * (1.0 - fill) / 2.0 }

  ghost predicate Fraction(fill: real) { 0.0 < fill <= 1.0 }

  ghost predicate InUnit(left: real, width: real) {
    0.0 <= left && 0.0 <= width && left + width <= 1.0
  }

  /** r is the share of the range that one group takes, before and after rescaling. */
  lemma Rescaled(d: real, range: real, scale: real) returns (r: real)
    requires 0.0 < d <= range && scale == Rescale(d, range)
    ensures 0.0 < r <= 1.0 && range * scale == 1.0 - r && d * scale == r * (1.0 - r) && 0.0 <= scale
    ensures range * scale + d * scale <= 1.0
  {
    r := d / range;
    assert r * range == d;
    assert scale * range == 1.0 - r;
    assert d * scale == r * (range * scale);
    Scaled(r, range);
    Scaled(1.0 - r, range);
    assert r * r >= 0.0;
  }

  lemma Scaled(x: real, d: real)
    requires d > 0.0
    ensures x > 0.0 <==> x * d > 0.0
    ensures x >= 0.0 <==> x / d >= 0.0
  {
    assert (x / d) * d == x;
  }

  // ---- the whole chart ----

  /** Where an axis starts. */
  function Origin(axis: Option<(real, real)>, isZero: bool, values: seq<real>): real
    requires values != []
  {
    if axis.Some? then axis.value.0 else if isZero then 0.0 else Least(values)
  }

  function MinX(datasets: Datasets, o: Options): real
    requires Collapse(datasets) != []
  {
    Origin(o.xAxis, o.xOriginIsZero, Xs(Collapse(datasets)))
  }

  function RangeX(datasets: Datasets, o: Options): real
    requires Collapse(datasets) != []
  {
    Greatest(Xs(Collapse(datasets))) - MinX(datasets, o)
  }

  function MinY(datasets: Datasets, o: Options): real
    requires Collapse(datasets) != []
  {
    Origin(o.yAxis, o.yOriginIsZero, Ys(Collapse(datasets)))
  }

  function RangeY(datasets: Datasets, o: Options): real
    requires Collapse(datasets) != []
  {
    Greatest(Ys(Collapse(datasets))) - MinY(datasets, o)
  }

  /** No value is below an origin that the data does not decide. */
  ghost predicate NoneBelow(axis: Option<(real, real)>, isZero: bool, values: seq<real>)
    requires values != []
  {
    axis.Some? || isZero ==> forall v :: v in values ==> v >= Origin(axis, isZero, values)
  }

  /** A chart with something on it, and no value below a given origin. */
  ghost predicate Chart(datasets: Datasets, o: Options) {
    && Collapse(datasets) != [] && datasets != [] && Fraction(o.barWidthFillFraction)
    && NoneBelow(o.xAxis, o.xOriginIsZero, Xs(Collapse(datasets)))
    && NoneBelow(o.yAxis, o.yOriginIsZero, Ys(Collapse(datasets)))
  }

  lemma OriginIsLow(axis: Option<(real, real)>, isZero: bool, values: seq<real>, v: real)
    requires v in values && NoneBelow(axis, isZero, values)
    ensures Origin(axis, isZero, values) <= v <= Greatest(values)
  {
    Bounds(values, v);
  }

  /** The x values lie in the range, and are no closer than `xdelta`, which is at most the
      range. */
  lemma XValuesFit(datasets: Datasets, o: Options, i: nat)
    requires Chart(datasets, o)
    ensures i < |XValues(datasets)| ==>
      MinX(datasets, o) <= XValues(datasets)[i] <= MinX(datasets, o) + RangeX(datasets, o)
  {
    if i < |XValues(datasets)| {
      XValuesIn(datasets, XValues(datasets)[i]);
      OriginIsLow(o.xAxis, o.xOriginIsZero, Xs(Collapse(datasets)), XValues(datasets)[i]);
    }
  }

  lemma RangeIsWide(datasets: Datasets, o: Options)
    requires Chart(datasets, o)
    ensures XValues(datasets) != []
    ensures |XValues(datasets)| > 1 ==> 0.0 < Xdelta(XValues(datasets)) <= RangeX(datasets, o)
  {
    var xs := XValues(datasets);
    XValuesIn(datasets, Xs(Collapse(datasets))[0]);
    XValuesIncrease(datasets);
    if |xs| > 1 {
      XdeltaRange(xs);
      XdeltaSeparates(xs, 0, 1);
      XValuesFit(datasets, o, 0);
      XValuesFit(datasets, o, 1);
    }
  }

  ghost function Placed(datasets: Datasets, o: Options): Placement
    requires Chart(datasets, o)
  {
    RangeIsWide(datasets, o);
    Place(XValues(datasets), MinX(datasets, o), RangeX(datasets, o))
  }

  lemma Product(x: real, s: real, range: real)
    requires 0.0 <= x <= range && 0.0 <= s
    ensures 0.0 <= x * s <= range * s
  {
  }

  lemma GroupInRange(d: real, range: real, scale: real, x: real)
    requires 0.0 < d <= range && scale == Rescale(d, range) && 0.0 <= x <= range
    ensures 0.0 <= scale && InUnit(x * scale, d * scale)
  {
    var r := Rescaled(d, range, scale);
    Product(x, scale, range);
    Product(d, scale, range);
  }

  /** Two values at least d apart. */
  lemma GroupAfter(d: real, scale: real, x: real, y: real)
    requires 0.0 <= d <= y - x && 0.0 <= scale
    ensures x * scale + d * scale <= y * scale
  {
    Product(d, scale, y - x);
    assert (y - x) * scale == y * scale - x * scale;
  }

  ghost predicate Spans(p: Placement, range: real) {
    0.0 < p.xdelta <= range && p.xscale == Rescale(p.xdelta, range)
  }

  lemma GroupFits(p: Placement, range: real, v: real)
    requires Spans(p, range) && p.minxval <= v <= p.minxval + range
    ensures p.xscale >= 0.0 && InUnit(GroupX(p, v), GroupWidth(p))
  {
    GroupInRange(p.xdelta, range, p.xscale, v - p.minxval);
  }

  lemma GroupBefore(p: Placement, v: real, w: real)
    requires 0.0 <= p.xdelta <= w - v && 0.0 <= p.xscale
    ensures GroupX(p, v) + GroupWidth(p) <= GroupX(p, w)
  {
    GroupAfter(p.xdelta, p.xscale, v - p.minxval, w - p.minxval);
  }

  lemma PlacedSpans(datasets: Datasets, o: Options)
    requires Chart(datasets, o) && |XValues(datasets)| > 1
    ensures RangeX(datasets, o) > 0.0 && Spans(Placed(datasets, o), RangeX(datasets, o))
    ensures Placed(datasets, o).minxval == MinX(datasets, o) && Placed(datasets, o).xdelta == Xdelta(XValues(datasets))
  {
    RangeIsWide(datasets, o);
  }

  /** The groups of the x values lie in the chart's width, one after the other. */
  lemma GroupsFit(datasets: Datasets, o: Options, i: nat)
    requires Chart(datasets, o)
    ensures i < |XValues(datasets)| ==>
      var p := Placed(datasets, o);
      p.xscale >= 0.0 && InUnit(GroupX(p, XValues(datasets)[i]), GroupWidth(p))
  {
    RangeIsWide(datasets, o);
    if i < |XValues(datasets)| && |XValues(datasets)| > 1 {
      PlacedSpans(datasets, o);
      XValuesFit(datasets, o, i);
      GroupFits(Placed(datasets, o), RangeX(datasets, o), XValues(datasets)[i]);
    }
  }

  lemma GroupsApart(datasets: Datasets, o: Options, i: nat, j: nat)
    requires Chart(datasets, o) && i < j < |XValues(datasets)|
    ensures var p, xs := Placed(datasets, o), XValues(datasets);
      GroupX(p, xs[i]) + GroupWidth(p) <= GroupX(p, xs[j])
  {
    XValuesIncrease(datasets);
    PlacedSpans(datasets, o);
    GroupsFit(datasets, o, i);
    XdeltaSeparates(XValues(datasets), i, j);
    GroupBefore(Placed(datasets, o), XValues(datasets)[i], XValues(datasets)[j]);
  }

  // ---- bars ----

  function Slot(width: real, i: nat): real { i as real * width }

  function Height(y: real, minyval: real, yscale: real): real { (y - minyval) * yscale }

  function MakeBar(p: Placement, minyval: real, yscale: real, sets: nat, fill: real, i: nat, item: Point): Bar
    requires sets > 0
  {
    var width, margin := BarWidth(GroupWidth(p), sets, fill), BarMargin(GroupWidth(p), fill);
    Bar(GroupX(p, item.x) + Slot(width, i) + margin,
        1.0 - Height(item.y, minyval, yscale),
        width,
        Height(item.y, minyval, yscale),
        item.x, item.y, i)
  }

  /** The bar of the j-th point of the i-th dataset. */
  ghost function BarOf(datasets: Datasets, o: Options, i: nat, j: nat): Bar
    requires Chart(datasets, o) && i < |datasets| && j < |datasets[i]|
  {
    MakeBar(Placed(datasets, o), MinY(datasets, o), Inverse(RangeY(datasets, o)),
            |datasets|, o.barWidthFillFraction, i, datasets[i][j])
  }

  lemma SlotsFollow(width: real, i: nat, k: nat)
    requires 0.0 <= width && i < k
    ensures 0.0 <= Slot(width, i) && Slot(width, i) + width <= Slot(width, k)
  {
    assert Slot(width, i + 1) == Slot(width, i) + width;
    Product(i as real, width, k as real);
    Product((i + 1) as real, width, k as real);
  }

  /** The slots of the datasets and the two margins fill a group exactly. */
  lemma SlotsFill(group: real, sets: nat, fill: real)
    requires 0.0 <= group && sets > 0 && Fraction(fill)
    ensures var w, m := BarWidth(group, sets, fill), BarMargin(group, fill);
      0.0 <= w && 0.0 <= m && Slot(w, sets) + 2.0 * m == group
  {
    Product(fill, group, 1.0);
    Product(1.0 - fill, group, 1.0);
    Share(group * fill, sets, BarWidth(group, sets, fill));
    assert group * (1.0 - fill) == group - group * fill;
  }

  lemma Share(total: real, n: nat, part: real)
    requires 0.0 <= total && n > 0 && part == total / n as real
    ensures 0.0 <= part && Slot(part, n) == total
  {
  }

  lemma HeightFits(minyval: real, range: real, y: real)
    requires minyval <= y <= minyval + range
    ensures 0.0 <= Height(y, minyval, Inverse(range)) <= 1.0
  {
    if range > 0.0 {
      Product(y - minyval, 1.0 / range, range);
      assert range * (1.0 / range) == 1.0;
    }
  }

  lemma PointPlace(datasets: Datasets, i: nat, j: nat) returns (n: nat)
    requires i < |datasets| && j < |datasets[i]|
    ensures n < |XValues(datasets)| && XValues(datasets)[n] == datasets[i][j].x
  {
    var points := Collapse(datasets);
    CollapseIn(datasets, i, j);
    var m :| 0 <= m < |points| && points[m] == datasets[i][j];
    assert Xs(points)[m] in Xs(points);
    XValuesIn(datasets, datasets[i][j].x);
    n :| 0 <= n < |XValues(datasets)| && XValues(datasets)[n] == datasets[i][j].x;
  }

  /** In the unit square, standing on its lower edge, and within its group. */
  ghost predicate WellPlaced(b: Bar, left: real, width: real) {
    && InUnit(b.x, b.w) && InUnit(b.y, b.h) && b.y + b.h == 1.0
    && left <= b.x && b.x + b.w <= left + width
  }

  ghost predicate HeightInUnit(y: real, minyval: real, yscale: real) {
    0.0 <= Height(y, minyval, yscale) <= 1.0
  }

  lemma BarFits(p: Placement, minyval: real, yscale: real, sets: nat, fill: real, i: nat, item: Point)
    requires InUnit(GroupX(p, item.x), GroupWidth(p)) && i < sets && Fraction(fill)
    requires HeightInUnit(item.y, minyval, yscale)
    ensures WellPlaced(MakeBar(p, minyval, yscale, sets, fill, i, item), GroupX(p, item.x), GroupWidth(p))
  {
    SlotsFill(GroupWidth(p), sets, fill);
    SlotsFollow(BarWidth(GroupWidth(p), sets, fill), i, sets);
  }

  lemma PointInWidth(datasets: Datasets, o: Options, i: nat, j: nat)
    requires Chart(datasets, o) && i < |datasets| && j < |datasets[i]|
    ensures InUnit(GroupX(Placed(datasets, o), datasets[i][j].x), GroupWidth(Placed(datasets, o)))
  {
    var n := PointPlace(datasets, i, j);
    GroupsFit(datasets, o, n);
  }

  lemma PointInHeight(datasets: Datasets, o: Options, i: nat, j: nat)
    requires Chart(datasets, o) && i < |datasets| && j < |datasets[i]|
    ensures HeightInUnit(datasets[i][j].y, MinY(datasets, o), Inverse(RangeY(datasets, o)))
  {
    var points := Collapse(datasets);
    CollapseIn(datasets, i, j);
    var m :| 0 <= m < |points| && points[m] == datasets[i][j];
    assert Ys(points)[m] in Ys(points);
    OriginIsLow(o.yAxis, o.yOriginIsZero, Ys(points), datasets[i][j].y);
    HeightFits(MinY(datasets, o), RangeY(datasets, o), datasets[i][j].y);
  }

  /** Every bar lies in the unit square, and within the group of its x value. */
  lemma BarsFit(datasets: Datasets, o: Options, i: nat, j: nat)
    requires Chart(datasets, o) && i < |datasets| && j < |datasets[i]|
    ensures WellPlaced(BarOf(datasets, o, i, j),
                       GroupX(Placed(datasets, o), datasets[i][j].x), GroupWidth(Placed(datasets, o)))
  {
    PointInWidth(datasets, o, i, j);
    PointInHeight(datasets, o, i, j);
    BarFits(Placed(datasets, o), MinY(datasets, o), Inverse(RangeY(datasets, o)),
            |datasets|, o.barWidthFillFraction, i, datasets[i][j]);
  }

  /** Bars of different x values, or of different datasets, share no interior point. */
  lemma BarsApart(datasets: Datasets, o: Options, i: nat, j: nat, k: nat, l: nat)
    requires Chart(datasets, o)
    requires i < |datasets| && j < |datasets[i]| && k < |datasets| && l < |datasets[k]|
    requires i != k || datasets[i][j].x != datasets[k][l].x
    ensures var a, b := BarOf(datasets, o, i, j), BarOf(datasets, o, k, l);
      a.x + a.w <= b.x || b.x + b.w <= a.x
  {
    var p, group := Placed(datasets, o), GroupWidth(Placed(datasets, o));
    var m := PointPlace(datasets, i, j);
    var n := PointPlace(datasets, k, l);
    if m == n {
      GroupsFit(datasets, o, m);
      SlotsFill(group, |datasets|, o.barWidthFillFraction);
      var width := BarWidth(group, |datasets|, o.barWidthFillFraction);
      if i < k {
        SlotsFollow(width, i, k);
      } else {
        SlotsFollow(width, k, i);
      }
    } else {
      BarsFit(datasets, o, i, j);
      BarsFit(datasets, o, k, l);
      if m < n {
        GroupsApart(datasets, o, m, n);
      } else {
        GroupsApart(datasets, o, n, m);
      }
    }
  }

  // ---- when the bars vanish ----

  lemma {:induction false} XdeltaOfTwo(xs: seq<real>)
    requires |xs| == 2 && Increasing(xs)
    ensures Xdelta(xs) == if xs[1] - xs[0] < FAR then xs[1] - xs[0] else FAR
  {
    assert Xdelta(xs[..1]) == FAR;
  }

  lemma XdeltaIsRange(datasets: Datasets, o: Options)
    requires Chart(datasets, o) && |XValues(datasets)| > 1
    ensures var xs := XValues(datasets);
      Xdelta(xs) == RangeX(datasets, o) <==> |xs| == 2 && xs[0] == MinX(datasets, o) && xs[1] - xs[0] <= FAR
  {
    var xs, n := XValues(datasets), |XValues(datasets)| - 1;
    XValuesIncrease(datasets);
    XdeltaRange(xs);
    XValuesFit(datasets, o, 0);
    XValuesFit(datasets, o, n);
    XdeltaSeparates(xs, 0, 1);
    if |xs| == 2 {
      XdeltaOfTwo(xs);
      LastIsGreatest(datasets);
    } else {
      XdeltaSeparates(xs, 1, n);
    }
  }

  lemma LastOf(values: seq<real>, xs: seq<real>)
    requires values != [] && Increasing(xs) && Greatest(values) in xs && xs[|xs| - 1] in values
    ensures xs[|xs| - 1] == Greatest(values)
  {
    var g := Greatest(values);
    var m :| 0 <= m < |xs| && xs[m] == g;
    Bounds(values, xs[|xs| - 1]);
  }

  lemma LastIsGreatest(datasets: Datasets)
    requires Collapse(datasets) != [] && XValues(datasets) != []
    ensures XValues(datasets)[|XValues(datasets)| - 1] == Greatest(Xs(Collapse(datasets)))
  {
    GreatestIn(Xs(Collapse(datasets)));
    XValuesIn(datasets, Greatest(Xs(Collapse(datasets))));
    XValuesIncrease(datasets);
    XValuesIn(datasets, XValues(datasets)[|XValues(datasets)| - 1]);
    LastOf(Xs(Collapse(datasets)), XValues(datasets));
  }

  lemma RescaleVanishes(d: real, range: real)
    requires 0.0 < d <= range
    ensures d * Rescale(d, range) == 0.0 <==> d == range
  {
    var r := Rescaled(d, range, Rescale(d, range));
    assert r * range == d by {
      assert r * (1.0 - r) == d * Rescale(d, range);
      assert range * Rescale(d, range) == 1.0 - r;
      assert range * Rescale(d, range) == 1.0 - d / range;
    }
  }

  lemma GroupVanishes(datasets: Datasets, o: Options)
    requires Chart(datasets, o)
    ensures var xs := XValues(datasets);
      GroupWidth(Placed(datasets, o)) == 0.0 <==> |xs| == 2 && xs[0] == MinX(datasets, o) && xs[1] - xs[0] <= FAR
  {
    RangeIsWide(datasets, o);
    if |XValues(datasets)| > 1 {
      XdeltaIsRange(datasets, o);
      RescaleVanishes(Xdelta(XValues(datasets)), RangeX(datasets, o));
    }
  }

  /** Bars have no width exactly when there are two x values, the lower one at the origin
      and no more than `FAR` apart: then one group would take the whole range. */
  lemma BarsVanishIff(datasets: Datasets, o: Options, i: nat, j: nat)
    requires Chart(datasets, o) && i < |datasets| && j < |datasets[i]|
    ensures var xs := XValues(datasets);
      BarOf(datasets, o, i, j).w == 0.0
      <==> |xs| == 2 && xs[0] == MinX(datasets, o) && xs[1] - xs[0] <= FAR
  {
    GroupVanishes(datasets, o);
    WidthVanishes(GroupWidth(Placed(datasets, o)), |datasets|, o.barWidthFillFraction);
  }

  lemma WidthVanishes(group: real, sets: nat, fill: real)
    requires sets > 0 && Fraction(fill)
    ensures BarWidth(group, sets, fill) == 0.0 <==> group == 0.0
  {
    var w := BarWidth(group, sets, fill);
    assert w * sets as real == group * fill;
  }

  // ---- ticks ----

  /** A tick without a label of its own shows its value. */
  datatype Tick = Tick(pos: real, value: real, text: Option<string>)

  function TickPos(p: Placement, v: real): real { p.xscale * (v - p.minxval) }

  predicate Due(v: real, count: nat, rough: real) { v >= count as real * rough }

  /** The loop of `_evaluateLineTicksForXAxis` from its i-th turn on. */
  function LineTicks(xs: seq<real>, p: Placement, rough: real, number: nat, i: nat, count: nat): seq<Tick>
    decreases |xs| - i
  {
    if i >= |xs| then []
    else if Due(xs[i], count, rough) then
      var pos := TickPos(p, xs[i]);
      if pos > 1.0 || pos < 0.0 then []
      else [Tick(pos, xs[i], None)]
           + (if count + 1 > number then [] else LineTicks(xs, p, rough, number, i + 1, count + 1))
    else if count > number then []
    else LineTicks(xs, p, rough, number, i + 1, count)
  }

  function GivenTick(p: Placement, tick: XTick): Tick {
    Tick(TickPos(p, tick.v), tick.v, tick.text)
  }

  /** `_evaluateLineTicksForXAxis` over ticks that stand already. */
  function AxisTicks(datasets: Datasets, xTicks: Option<seq<XTick>>, number: nat, p: Placement, range: real,
      ticks: seq<Tick>): seq<Tick>
  {
    if xTicks.Some? then GivenTicks(p, xTicks.value)
    else if number == 0 then ticks
    else LineTicks(XValues(datasets), p, range / number as real, number, 0, 0)
  }

  function GivenTicks(p: Placement, xTicks: seq<XTick>): seq<Tick> {
    seq(|xTicks|, k requires 0 <= k < |xTicks| => GivenTick(p, xTicks[k]))
  }

  function Centre(p: Placement, tick: Tick): Tick {
    tick.(pos := tick.pos + GroupWidth(p) / 2.0)
  }

  function Centred(p: Placement, ticks: seq<Tick>): seq<Tick> {
    seq(|ticks|, k requires 0 <= k < |ticks| => Centre(p, ticks[k]))
  }

  lemma {:induction false} LineTicksAt(xs: seq<real>, p: Placement, rough: real, number: nat, i: nat, count: nat,
      n: nat)
    requires n < |LineTicks(xs, p, rough, number, i, count)|
    ensures var t := LineTicks(xs, p, rough, number, i, count)[n];
      t.value in xs[i..] && t.pos == GroupX(p, t.value)
    decreases |xs| - i
  {
    assert xs[i..] == [xs[i]] + xs[i + 1..];
    if Due(xs[i], count, rough) {
      if n > 0 {
        LineTicksAt(xs, p, rough, number, i + 1, count + 1, n - 1);
      }
    } else {
      LineTicksAt(xs, p, rough, number, i + 1, count, n);
    }
  }

  /** Half way from the left end of the first dataset's bar slot to the right end of the
      last one's. */
  ghost function BarsMidpoint(p: Placement, sets: nat, fill: real, v: real): real
    requires sets > 0
  {
    var first := MakeBar(p, 0.0, 0.0, sets, fill, 0, Point(v, 0.0));
    var last := MakeBar(p, 0.0, 0.0, sets, fill, sets - 1, Point(v, 0.0));
    (first.x + (last.x + last.w)) / 2.0
  }

  lemma GroupMidpoint(p: Placement, sets: nat, fill: real, v: real)
    requires 0.0 <= GroupWidth(p) && sets > 0 && Fraction(fill)
    ensures BarsMidpoint(p, sets, fill, v) == GroupX(p, v) + GroupWidth(p) / 2.0
  {
    var width := BarWidth(GroupWidth(p), sets, fill);
    SlotsFill(GroupWidth(p), sets, fill);
    assert Slot(width, 0) == 0.0;
    assert Slot(width, sets) == Slot(width, sets - 1) + width;
  }

  lemma CentredTick(p: Placement, sets: nat, fill: real, tick: Tick)
    requires 0.0 <= GroupWidth(p) && sets > 0 && Fraction(fill) && tick.pos == GroupX(p, tick.value)
    ensures Centre(p, tick).pos == BarsMidpoint(p, sets, fill, tick.value)
  {
    GroupMidpoint(p, sets, fill, tick.value);
  }

  lemma WideGroups(datasets: Datasets, o: Options)
    requires Chart(datasets, o)
    ensures 0.0 <= GroupWidth(Placed(datasets, o))
  {
    RangeIsWide(datasets, o);
    GroupsFit(datasets, o, 0);
  }

  lemma LineTickIn(datasets: Datasets, p: Placement, rough: real, number: nat, n: nat)
    requires Collapse(datasets) != [] && n < |LineTicks(XValues(datasets), p, rough, number, 0, 0)|
    ensures var t := LineTicks(XValues(datasets), p, rough, number, 0, 0)[n];
      t.value in Xs(Collapse(datasets)) && t.pos == GroupX(p, t.value)
  {
    LineTicksAt(XValues(datasets), p, rough, number, 0, 0, n);
    assert XValues(datasets)[0..] == XValues(datasets);
    XValuesIn(datasets, LineTicks(XValues(datasets), p, rough, number, 0, 0)[n].value);
  }

  /** Every tick belongs to an x value of the data and stands at the exact middle of the
      bars of that value. */
  lemma TicksAreMidpoints(datasets: Datasets, o: Options, rough: real, number: nat, n: nat)
    requires Chart(datasets, o) && n < |LineTicks(XValues(datasets), Placed(datasets, o), rough, number, 0, 0)|
    ensures var p := Placed(datasets, o);
      var t := Centre(p, LineTicks(XValues(datasets), p, rough, number, 0, 0)[n]);
      t.value in Xs(Collapse(datasets)) && t.pos == BarsMidpoint(p, |datasets|, o.barWidthFillFraction, t.value)
  {
    var p := Placed(datasets, o);
    WideGroups(datasets, o);
    LineTickIn(datasets, p, rough, number, n);
    CentredTick(p, |datasets|, o.barWidthFillFraction, LineTicks(XValues(datasets), p, rough, number, 0, 0)[n]);
  }

  /** A tick that is asked for keeps its label and stands at the middle of the bars that its
      value has or would have. */
  lemma GivenTicksAreMidpoints(datasets: Datasets, o: Options, tick: XTick)
    requires Chart(datasets, o)
    ensures var p := Placed(datasets, o);
      var t := Centre(p, GivenTick(p, tick));
      && t.value == tick.v && t.text == tick.text
      && t.pos == BarsMidpoint(p, |datasets|, o.barWidthFillFraction, tick.v)
  {
    var p := Placed(datasets, o);
    WideGroups(datasets, o);
    GivenPos(p, tick);
    CentredTick(p, |datasets|, o.barWidthFillFraction, GivenTick(p, tick));
  }

  lemma GivenPos(p: Placement, tick: XTick)
    ensures GivenTick(p, tick).pos == GroupX(p, tick.v)
  {
  }

  // ---- the object ----

  function SetBars(p: Placement, minyval: real, yscale: real, sets: nat, fill: real, i: nat,
      items: seq<Point>): seq<Bar>
    requires sets > 0
  {
    if items == [] then []
    else SetBars(p, minyval, yscale, sets, fill, i, items[..|items| - 1])
         + [MakeBar(p, minyval, yscale, sets, fill, i, items[|items| - 1])]
  }

  lemma SingleGroup(minxval: real, sets: nat, fill: real)
    requires sets > 0
    ensures var group := GroupWidth(Placement(minxval, 1.0, 1.0));
      BarWidth(group, sets, fill) == 1.0 * fill / sets as real && BarMargin(group, fill) == (1.0 - fill) / 2.0
  {
  }

  /** The bars of the first n datasets, in the order in which they are made. */
  function AllBars(p: Placement, minyval: real, yscale: real, datasets: Datasets, fill: real, n: nat): seq<Bar>
    requires n <= |datasets|
  {
    if n == 0 then []
    else AllBars(p, minyval, yscale, datasets, fill, n - 1)
         + SetBars(p, minyval, yscale, |datasets|, fill, n - 1, datasets[n - 1])
  }

  lemma {:induction false} SetBar(p: Placement, minyval: real, yscale: real, sets: nat, fill: real, i: nat,
      items: seq<Point>, b: Bar)
    returns (j: nat)
    requires sets > 0 && b in SetBars(p, minyval, yscale, sets, fill, i, items)
    ensures j < |items| && b == MakeBar(p, minyval, yscale, sets, fill, i, items[j])
  {
    j := |items| - 1;
    if b != MakeBar(p, minyval, yscale, sets, fill, i, items[j]) {
      j := SetBar(p, minyval, yscale, sets, fill, i, items[..j], b);
    }
  }

  lemma {:induction false} MadeBar(p: Placement, minyval: real, yscale: real, datasets: Datasets, fill: real, n: nat,
      b: Bar)
    returns (i: nat, j: nat)
    requires n <= |datasets| && b in AllBars(p, minyval, yscale, datasets, fill, n)
    ensures i < n && j < |datasets[i]| && b == MakeBar(p, minyval, yscale, |datasets|, fill, i, datasets[i][j])
    decreases n
  {
    if b in AllBars(p, minyval, yscale, datasets, fill, n - 1) {
      i, j := MadeBar(p, minyval, yscale, datasets, fill, n - 1, b);
    } else {
      i := n - 1;
      j := SetBar(p, minyval, yscale, |datasets|, fill, i, datasets[i], b);
    }
  }

  /** The bars of a chart, and its ticks if `ticks` stand already. */
  ghost function ChartBars(datasets: Datasets, o: Options): seq<Bar>
    requires Chart(datasets, o)
  {
    AllBars(Placed(datasets, o), MinY(datasets, o), Inverse(RangeY(datasets, o)),
            datasets, o.barWidthFillFraction, |datasets|)
  }

  ghost function ChartTicks(datasets: Datasets, o: Options, ticks: seq<Tick>): seq<Tick>
    requires Chart(datasets, o)
  {
    var p := Placed(datasets, o);
    Centred(p, AxisTicks(datasets, o.xTicks, o.xNumberOfTicks, p, RangeX(datasets, o), ticks))
  }

  ghost predicate IsMade(datasets: Datasets, o: Options, b: Bar)
    requires Chart(datasets, o)
  {
    b in ChartBars(datasets, o)
  }

  /** Every bar that is made is the bar of a point of a dataset. */
  lemma EveryBar(datasets: Datasets, o: Options, b: Bar) returns (i: nat, j: nat)
    requires Chart(datasets, o)
    ensures IsMade(datasets, o, b) ==> i < |datasets| && j < |datasets[i]| && b == BarOf(datasets, o, i, j)
  {
    i, j := 0, 0;
    if IsMade(datasets, o, b) {
      i, j := MadeBar(Placed(datasets, o), MinY(datasets, o), Inverse(RangeY(datasets, o)),
                      datasets, o.barWidthFillFraction, |datasets|, b);
    }
  }

  lemma {:induction false} PointSetBar(p: Placement, minyval: real, yscale: real, sets: nat, fill: real, i: nat,
      items: seq<Point>, j: nat)
    requires sets > 0 && j < |items|
    ensures MakeBar(p, minyval, yscale, sets, fill, i, items[j]) in SetBars(p, minyval, yscale, sets, fill, i, items)
  {
    if j < |items| - 1 {
      PointSetBar(p, minyval, yscale, sets, fill, i, items[..|items| - 1], j);
    }
  }

  lemma {:induction false} PointBar(p: Placement, minyval: real, yscale: real, datasets: Datasets, fill: real, n: nat,
      i: nat, j: nat)
    requires i < n <= |datasets| && j < |datasets[i]|
    ensures MakeBar(p, minyval, yscale, |datasets|, fill, i, datasets[i][j])
         in AllBars(p, minyval, yscale, datasets, fill, n)
    decreases n
  {
    if i < n - 1 {
      PointBar(p, minyval, yscale, datasets, fill, n - 1, i, j);
    } else {
      PointSetBar(p, minyval, yscale, |datasets|, fill, i, datasets[i], j);
    }
  }

  /** And every point has its bar made. */
  lemma EveryPoint(datasets: Datasets, o: Options, i: nat, j: nat)
    requires Chart(datasets, o) && i < |datasets| && j < |datasets[i]|
    ensures IsMade(datasets, o, BarOf(datasets, o, i, j))
  {
    PointBar(Placed(datasets, o), MinY(datasets, o), Inverse(RangeY(datasets, o)),
             datasets, o.barWidthFillFraction, |datasets|, i, j);
  }

  class Layout {
    const datasets: Datasets
    const options: Options
    var minxval: real
    var maxxval: real
    var minyval: real
    var maxyval: real
    var xrange: real
    var yrange: real
    var xscale: real
    var yscale: real
    var minxdelta: real
    var bars: seq<Bar>
    var xticks: seq<Tick>

    constructor (datasets: Datasets, options: Options)
      ensures this.datasets == datasets && this.options == options && bars == [] && xticks == []
      ensures Effective() == options
    {
      this.datasets, this.options := datasets, options;
      minxval := if options.xAxis.Some? then options.xAxis.value.0 else 0.0;
      maxxval := if options.xAxis.Some? then options.xAxis.value.1 else 0.0;
      minyval := if options.yAxis.Some? then options.yAxis.value.0 else 0.0;
      maxyval := if options.yAxis.Some? then options.yAxis.value.1 else 0.0;
      xrange, yrange, xscale, yscale, minxdelta := 1.0, 1.0, 0.0, 0.0, 0.0;
      bars, xticks := [], [];
    }

    /** The options, with the start of a given axis as it stands: only the constructor sets
        it, and placing a single x value moves it. */
    function Effective(): Options
      reads this
    {
      options.(xAxis := if options.xAxis.Some? then Some((minxval, options.xAxis.value.1)) else None,
               yAxis := if options.yAxis.Some? then Some((minyval, options.yAxis.value.1)) else None)
    }

    predicate Limited(o: Options)
      requires Collapse(datasets) != []
      reads this
    {
      && minxval == MinX(datasets, o) && maxxval == Greatest(Xs(Collapse(datasets)))
      && minyval == MinY(datasets, o) && maxyval == Greatest(Ys(Collapse(datasets)))
    }

    method EvaluateLimits()
      requires Collapse(datasets) != []
      modifies `minxval, `maxxval, `minyval, `maxyval
      ensures Limited(old(Effective()))
    {
      var all := Collapse(datasets);
      if options.xAxis.None? {
        if options.xOriginIsZero {
          minxval := 0.0;
        } else {
          minxval := Least(Xs(all));
        }
      }
      if options.yAxis.None? {
        if options.yOriginIsZero {
          minyval := 0.0;
        } else {
          minyval := Least(Ys(all));
        }
      }
      maxxval := Greatest(Xs(all));
      maxyval := Greatest(Ys(all));
    }

    method EvaluateScales(ghost o: Options)
      requires Collapse(datasets) != [] && Limited(o)
      modifies `xrange, `yrange, `xscale, `yscale
      ensures xrange == RangeX(datasets, o) && xscale == Inverse(xrange)
      ensures yrange == RangeY(datasets, o) && yscale == Inverse(yrange)
    {
      xrange := maxxval - minxval;
      if xrange == 0.0 {
        xscale := 1.0;
      } else {
        xscale := 1.0 / xrange;
      }
      yrange := maxyval - minyval;
      if yrange == 0.0 {
        yscale := 1.0;
      } else {
        yscale := 1.0 / yrange;
      }
    }

    method UniqueXValues() returns (uniq: seq<real>)
      ensures uniq == XValues(datasets)
    {
      var sorted := Sort(Xs(Collapse(datasets)));
      uniq := [];
      if sorted == [] {
        return;
      }
      var lastElem := sorted[0];
      uniq := [sorted[0]];
      for i := 1 to |sorted|
        invariant uniq == Uniq(sorted[..i]) && uniq != [] && lastElem == uniq[|uniq| - 1]
      {
        assert sorted[..i + 1][..i] == sorted[..i];
        if sorted[i] != lastElem {
          lastElem := sorted[i];
          uniq := uniq + [sorted[i]];
        }
      }
      assert sorted[..|sorted|] == sorted;
    }

    method SmallestDistance(xvalues: seq<real>) returns (xdelta: real)
      ensures xdelta == Xdelta(xvalues)
    {
      xdelta := FAR;
      var i := 1;
      while i < |xvalues|
        invariant 1 <= i && xdelta == Xdelta(if i <= |xvalues| then xvalues[..i] else xvalues)
      {
        assert xvalues[..i + 1][..i] == xvalues[..i];
        if Abs(xvalues[i] - xvalues[i - 1]) < xdelta {
          xdelta := Abs(xvalues[i] - xvalues[i - 1]);
        }
        i := i + 1;
      }
      assert |xvalues| >= 1 ==> xvalues[..|xvalues|] == xvalues;
    }

    /** Where the bars go: the first half of `_evaluateBarCharts`. */
    method EvaluatePlacement(xvalues: seq<real>)
      requires |xvalues| != 1 ==> xrange != 0.0
      modifies `xscale, `minxval, `minxdelta
      ensures Placement(minxval, xscale, minxdelta) == Place(xvalues, old(minxval), xrange)
    {
      var xdelta := SmallestDistance(xvalues);
      if |xvalues| == 1 {
        xdelta := 1.0;
        xscale := 1.0;
        minxval := xvalues[0];
      } else {
        xscale := Rescale(xdelta, xrange);
      }
      minxdelta := xdelta;
    }

    /** How wide the bars and their margins are. */
    method EvaluateWidths(single: bool) returns (barWidthForSet: real, barMargin: real)
      requires datasets != [] && (single ==> minxdelta == 1.0 && xscale == 1.0)
      ensures var group := GroupWidth(Placement(minxval, xscale, minxdelta));
        && barWidthForSet == BarWidth(group, |datasets|, options.barWidthFillFraction)
        && barMargin == BarMargin(group, options.barWidthFillFraction)
    {
      var setCount, fill := |datasets|, options.barWidthFillFraction;
      if single {
        barWidthForSet := 1.0 * fill / setCount as real;
        barMargin := (1.0 - fill) / 2.0;
        SingleGroup(minxval, setCount, fill);
      } else {
        barWidthForSet := minxdelta * xscale * fill / setCount as real;
        barMargin := minxdelta * xscale * (1.0 - fill) / 2.0;
      }
    }

    /** The loops that add all the rectangles. */
    method AddBars(barWidthForSet: real, barMargin: real)
      requires datasets != []
      requires var group := GroupWidth(Placement(minxval, xscale, minxdelta));
        && barWidthForSet == BarWidth(group, |datasets|, options.barWidthFillFraction)
        && barMargin == BarMargin(group, options.barWidthFillFraction)
      modifies `bars
      ensures bars == AllBars(Placement(minxval, xscale, minxdelta), minyval, yscale,
                              datasets, options.barWidthFillFraction, |datasets|)
    {
      ghost var p, fill := Placement(minxval, xscale, minxdelta), options.barWidthFillFraction;
      bars := [];
      for i := 0 to |datasets|
        invariant bars == AllBars(p, minyval, yscale, datasets, fill, i)
      {
        var dataset := datasets[i];
        ghost var before := bars;
        for j := 0 to |dataset|
          invariant bars == before + SetBars(p, minyval, yscale, |datasets|, fill, i, dataset[..j])
        {
          assert dataset[..j + 1][..j] == dataset[..j];
          var item := dataset[j];
          var left := GroupX(Placement(minxval, xscale, minxdelta), item.x);
          var height := Height(item.y, minyval, yscale);
          var rect := Bar(left + Slot(barWidthForSet, i) + barMargin, 1.0 - height,
                          barWidthForSet, height, item.x, item.y, i);
          assert rect == MakeBar(p, minyval, yscale, |datasets|, fill, i, item);
          bars := bars + [rect];
        }
        assert dataset[..|dataset|] == dataset;
      }
    }

    method EvaluateBarCharts()
      requires Collapse(datasets) != [] && datasets != []
      requires |XValues(datasets)| != 1 ==> xrange != 0.0
      modifies `xscale, `minxval, `minxdelta, `bars
      ensures var p := Place(XValues(datasets), old(minxval), xrange);
        && Placement(minxval, xscale, minxdelta) == p
        && bars == AllBars(p, minyval, yscale, datasets, options.barWidthFillFraction, |datasets|)
    {
      var xvalues := UniqueXValues();
      EvaluatePlacement(xvalues);
      var barWidthForSet, barMargin := EvaluateWidths(|xvalues| == 1);
      AddBars(barWidthForSet, barMargin);
    }

    /** The loop that generates the ticks. */
    method GenerateTicks(xvalues: seq<real>, roughSeparation: real)
      modifies `xticks
      ensures xticks == LineTicks(xvalues, Placement(minxval, xscale, minxdelta), roughSeparation,
          options.xNumberOfTicks, 0, 0)
    {
      var tickCount := 0;
      ghost var p, number := Placement(minxval, xscale, minxdelta), options.xNumberOfTicks;
      ghost var all := LineTicks(xvalues, p, roughSeparation, number, 0, 0);
      xticks := [];
      var i := 0;
      while i < |xvalues|
        invariant 0 <= i <= |xvalues| && 0 <= tickCount <= number
        invariant xticks + LineTicks(xvalues, p, roughSeparation, number, i, tickCount) == all
      {
        ghost var before, rest := xticks, LineTicks(xvalues, p, roughSeparation, number, i, tickCount);
        if Due(xvalues[i], tickCount, roughSeparation) {
          var pos := TickPos(Placement(minxval, xscale, minxdelta), xvalues[i]);
          if pos > 1.0 || pos < 0.0 {
            assert rest == [];
            return;
          }
          xticks := xticks + [Tick(pos, xvalues[i], None)];
          tickCount := tickCount + 1;
          assert rest != [] && xticks + rest[1..] == before + rest;
        }
        if tickCount > options.xNumberOfTicks {
          break;
        }
        i := i + 1;
      }
    }

    /** `makeTicks`, for each tick that is given. */
    method MakeTicks(xTicks: seq<XTick>)
      modifies `xticks
      ensures xticks == GivenTicks(Placement(minxval, xscale, minxdelta), xTicks)
    {
      xticks := [];
      for n := 0 to |xTicks|
        invariant |xticks| == n
        invariant forall k :: 0 <= k < n ==> xticks[k] == GivenTick(Placement(minxval, xscale, minxdelta), xTicks[k])
      {
        var pos := xscale * (xTicks[n].v - minxval);
        xticks := xticks + [Tick(pos, xTicks[n].v, xTicks[n].text)];
      }
    }

    method EvaluateLineTicksForXAxis()
      modifies `xticks
      ensures xticks
           == AxisTicks(datasets, options.xTicks, options.xNumberOfTicks, Placement(minxval, xscale, minxdelta),
                        xrange, old(xticks))
    {
      if options.xTicks.Some? {
        MakeTicks(options.xTicks.value);
      } else if options.xNumberOfTicks > 0 {
        var xvalues := UniqueXValues();
        var roughSeparation := xrange / options.xNumberOfTicks as real;
        GenerateTicks(xvalues, roughSeparation);
      }
    }

    /** `centerInBar`, mapped over the ticks. */
    method CentreTicks()
      modifies `xticks
      ensures xticks == Centred(Placement(minxval, xscale, minxdelta), old(xticks))
    {
      ghost var line := xticks;
      var ticks: seq<Tick> := [];
      for n := 0 to |xticks|
        invariant |ticks| == n
        invariant forall k :: 0 <= k < n ==> ticks[k] == Centre(Placement(minxval, xscale, minxdelta), line[k])
      {
        ticks := ticks + [Centre(Placement(minxval, xscale, minxdelta), xticks[n])];
      }
      xticks := ticks;
    }

    method EvaluateBarTicks()
      modifies `xticks
      ensures var p := Placement(minxval, xscale, minxdelta);
        xticks == Centred(p, AxisTicks(datasets, options.xTicks, options.xNumberOfTicks, p, xrange, old(xticks)))
    {
      EvaluateLineTicksForXAxis();
      CentreTicks();
    }

    /** All of `evaluate` but the ticks. */
    method EvaluateBars()
      requires Chart(datasets, Effective())
      modifies this
      ensures var o := old(Effective());
        && Placement(minxval, xscale, minxdelta) == Placed(datasets, o) && xrange == RangeX(datasets, o)
        && bars == ChartBars(datasets, o) && xticks == old(xticks)
    {
      ghost var o := Effective();
      RangeIsWide(datasets, o);
      EvaluateLimits();
      EvaluateScales(o);
      EvaluateBarCharts();
    }

    /** `evaluate` for a bar chart. */
    method Evaluate()
      requires Chart(datasets, Effective())
      modifies this
      ensures var o := old(Effective());
        && bars == ChartBars(datasets, o)
        && xticks == ChartTicks(datasets, o, old(xticks))
    {
      EvaluateBars();
      EvaluateBarTicks();
    }
  }
}
