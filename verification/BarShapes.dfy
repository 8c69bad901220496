/** Where each bar of a PlotKit chart is and how large, in terms of the data alone, and which
    values get a tick. */
module BarShapes {
  import opened Basics
  import opened BarLayout

  // ---- the least distance ----

  /** The distance of neighbours that a chart works with is the least one, or the cap if all
      are larger. */
  lemma {:induction false} XdeltaIsLeast(xs: seq<real>)
    requires Increasing(xs)
    ensures Xdelta(xs) <= 10000000.0
    ensures forall k :: 0 <= k < |xs| - 1 ==> Xdelta(xs) <= xs[k + 1] - xs[k]
    ensures Xdelta(xs) == 10000000.0 || exists k :: 0 <= k < |xs| - 1 && Xdelta(xs) == xs[k + 1] - xs[k]
  {
    if |xs| > 1 {
      var init, n := xs[..|xs| - 1], |xs| - 1;
      XdeltaIsLeast(init);
      forall k | 0 <= k < n ensures Xdelta(xs) <= xs[k + 1] - xs[k] {
        assert k < n - 1 ==> xs[k + 1] == init[k + 1] && xs[k] == init[k];
      }
      if k :| 0 <= k < n - 1 && Xdelta(init) == init[k + 1] - init[k] {
        assert xs[k + 1] == init[k + 1] && xs[k] == init[k];
      }
    }
  }

  // ---- heights ----

  /** A bar knows its point, and its height is the share that the value takes of the range from
      `low` on, hanging from its height down to the lower edge; without a range it has none. */
  ghost predicate TallAs(b: Bar, item: Point, low: real, range: real) {
    && b.xval == item.x && b.yval == item.y && b.y == 1.0 - b.h
    && (range != 0.0 ==> low + b.h * range == item.y)
    && (range == 0.0 ==> b.h == 0.0 && item.y == low)
  }

  lemma HeightScales(y: real, low: real, range: real)
    ensures range != 0.0 ==> Height(y, low, Inverse(range)) * range == y - low
    ensures range == 0.0 ==> Height(y, low, Inverse(range)) == y - low
  {
    if range != 0.0 {
      assert (1.0 / range) * range == 1.0;
      assert (y - low) * ((1.0 / range) * range) == y - low;
    }
  }

  lemma MadeTall(p: Placement, low: real, range: real, sets: nat, fill: real, i: nat, item: Point)
    requires sets > 0 && low <= item.y <= low + range
    ensures TallAs(MakeBar(p, low, Inverse(range), sets, fill, i, item), item, low, range)
  {
    HeightScales(item.y, low, range);
  }

  lemma InRange(datasets: Datasets, o: Options, i: nat, j: nat)
    requires Chart(datasets, o) && i < |datasets| && j < |datasets[i]|
    ensures MinY(datasets, o) <= datasets[i][j].y <= MinY(datasets, o) + RangeY(datasets, o)
  {
    var points := Collapse(datasets);
    CollapseIn(datasets, i, j);
    var m :| 0 <= m < |points| && points[m] == datasets[i][j];
    assert Ys(points)[m] in Ys(points);
    OriginIsLow(o.yAxis, o.yOriginIsZero, Ys(points), datasets[i][j].y);
  }

  /** The bar of every point is as tall as the point's value, in the range of the data. */
  lemma HeightsTrue(datasets: Datasets, o: Options, i: nat, j: nat)
    requires Chart(datasets, o) && i < |datasets| && j < |datasets[i]|
    ensures TallAs(BarOf(datasets, o, i, j), datasets[i][j], MinY(datasets, o), RangeY(datasets, o))
    ensures BarOf(datasets, o, i, j).dataset == i
  {
    InRange(datasets, o, i, j);
    MadeTall(Placed(datasets, o), MinY(datasets, o), RangeY(datasets, o), |datasets|, o.barWidthFillFraction, i,
             datasets[i][j]);
  }

  /** Bars compare as their values do, and exactly the value at the top reaches the top. */
  ghost predicate ComparesAs(a: Bar, b: Bar, y: real, z: real, top: real) {
    && (a.h <= b.h <==> y <= z)
    && (a.h == 1.0 <==> y == top)
  }

  lemma BarsCompare(a: Bar, b: Bar, v: Point, w: Point, low: real, range: real)
    requires range > 0.0 && TallAs(a, v, low, range) && TallAs(b, w, low, range)
    ensures ComparesAs(a, b, v.y, w.y, low + range)
  {
    Minus(a.h, b.h, range);
    Minus(a.h, 1.0, range);
    Sign(a.h - b.h, range);
    Sign(a.h - 1.0, range);
  }

  lemma Minus(h: real, k: real, range: real)
    ensures (h - k) * range == h * range - k * range
  {
  }

  lemma Sign(x: real, range: real)
    requires range > 0.0
    ensures x <= 0.0 <==> x * range <= 0.0
    ensures x == 0.0 <==> x * range == 0.0
  {
  }

  lemma HeightsCompare(datasets: Datasets, o: Options, i: nat, j: nat, k: nat, l: nat)
    requires Chart(datasets, o) && RangeY(datasets, o) > 0.0
    requires i < |datasets| && j < |datasets[i]| && k < |datasets| && l < |datasets[k]|
    ensures ComparesAs(BarOf(datasets, o, i, j), BarOf(datasets, o, k, l), datasets[i][j].y, datasets[k][l].y,
                       Greatest(Ys(Collapse(datasets))))
  {
    HeightsTrue(datasets, o, i, j);
    HeightsTrue(datasets, o, k, l);
    Top(datasets, o);
    BarsCompare(BarOf(datasets, o, i, j), BarOf(datasets, o, k, l), datasets[i][j], datasets[k][l],
                MinY(datasets, o), RangeY(datasets, o));
  }

  lemma Top(datasets: Datasets, o: Options)
    requires Collapse(datasets) != []
    ensures MinY(datasets, o) + RangeY(datasets, o) == Greatest(Ys(Collapse(datasets)))
  {
  }

  // ---- places ----

  /** Where the group of a value is and how wide, for values from `low` on over a range and with
      the least distance d: positions are proportional to the values, shrunk so that the last
      group, as wide as d, ends within the chart. */
  ghost predicate Proportional(left: real, width: real, v: real, low: real, range: real, d: real) {
    && left * range * range == (v - low) * (range - d)
    && width * range * range == d * (range - d)
  }

  lemma ScaleIs(d: real, range: real)
    requires range != 0.0
    ensures Rescale(d, range) * range * range == range - d
  {
    var s := Rescale(d, range);
    assert s * range == 1.0 - d / range;
    assert (1.0 - d / range) * range == range - d;
  }

  lemma Times(x: real, s: real, range: real, left: real)
    requires s * range * range == left
    ensures (x * s) * range * range == x * left
  {
    assert (x * s) * range * range == x * (s * range * range);
  }

  lemma PlaceIs(xs: seq<real>, low: real, range: real, v: real)
    requires |xs| != 1 && range != 0.0
    ensures Proportional(GroupX(Place(xs, low, range), v), GroupWidth(Place(xs, low, range)), v, low, range, Xdelta(xs))
  {
    ScaleIs(Xdelta(xs), range);
    ProportionalAt(Place(xs, low, range), range, v);
  }

  lemma ProportionalAt(p: Placement, range: real, v: real)
    requires p.xscale * range * range == range - p.xdelta
    ensures Proportional(GroupX(p, v), GroupWidth(p), v, p.minxval, range, p.xdelta)
  {
    Times(v - p.minxval, p.xscale, range, range - p.xdelta);
    Times(p.xdelta, p.xscale, range, range - p.xdelta);
  }

  lemma SinglePlace(x: real, low: real, range: real)
    ensures GroupX(Place([x], low, range), x) == 0.0 && GroupWidth(Place([x], low, range)) == 1.0
  {
  }

  /** A single x value has the whole chart; several are placed in proportion. */
  lemma GroupIs(datasets: Datasets, o: Options, v: real)
    requires Chart(datasets, o)
    ensures var xs, left, width := XValues(datasets), GroupX(Placed(datasets, o), v), GroupWidth(Placed(datasets, o));
      if |xs| == 1 then v == xs[0] ==> left == 0.0 && width == 1.0
      else Proportional(left, width, v, MinX(datasets, o), RangeX(datasets, o), Xdelta(xs))
  {
    RangeIsWide(datasets, o);
    var xs := XValues(datasets);
    if |xs| == 1 {
      assert xs == [xs[0]];
      SinglePlace(xs[0], MinX(datasets, o), RangeX(datasets, o));
    } else {
      PlaceIs(xs, MinX(datasets, o), RangeX(datasets, o), v);
    }
  }

  /** Within its group a bar has its share of the filled part, after those of the earlier
      datasets, and the rest of the group is left free evenly on both sides. */
  ghost predicate HasShare(b: Bar, left: real, width: real, sets: nat, fill: real, i: nat) {
    && b.w * sets as real == width * fill
    && 2.0 * (b.x - left - i as real * b.w) == width - width * fill
  }

  lemma WidthIs(group: real, sets: nat, fill: real)
    requires sets > 0
    ensures BarWidth(group, sets, fill) * sets as real == group * fill
  {
  }

  lemma MarginIs(group: real, fill: real)
    ensures 2.0 * BarMargin(group, fill) == group - group * fill
  {
    assert group * (1.0 - fill) == group - group * fill;
  }

  lemma MadeInGroup(p: Placement, low: real, yscale: real, sets: nat, fill: real, i: nat, item: Point)
    requires sets > 0
    ensures HasShare(MakeBar(p, low, yscale, sets, fill, i, item), GroupX(p, item.x), GroupWidth(p), sets, fill, i)
  {
    WidthIs(GroupWidth(p), sets, fill);
    MarginIs(GroupWidth(p), fill);
  }

  lemma BarInGroup(datasets: Datasets, o: Options, i: nat, j: nat)
    requires Chart(datasets, o) && i < |datasets| && j < |datasets[i]|
    ensures HasShare(BarOf(datasets, o, i, j), GroupX(Placed(datasets, o), datasets[i][j].x),
                     GroupWidth(Placed(datasets, o)), |datasets|, o.barWidthFillFraction, i)
  {
    MadeInGroup(Placed(datasets, o), MinY(datasets, o), Inverse(RangeY(datasets, o)), |datasets|,
                o.barWidthFillFraction, i, datasets[i][j]);
  }

  // ---- which values get a tick ----

  /** The ticks from the count-th on, at the x values `at`, looking from index i on: each is at
      the first value that reaches its share of the separation. */
  ghost predicate Greedy(xs: seq<real>, share: nat -> real, i: nat, count: nat, at: seq<nat>)
    decreases |at|
  {
    at != [] ==>
      && FirstDue(xs, share, i, count, at[0])
      && Greedy(xs, share, at[0] + 1, count + 1, at[1..])
  }

  /** Index k holds the first value from index i on that reaches the n-th share. */
  ghost predicate FirstDue(xs: seq<real>, share: nat -> real, i: nat, n: nat, k: nat) {
    i <= k < |xs| && xs[k] >= share(n) && forall m :: i <= m < k ==> xs[m] < share(n)
  }

  /** Why there is no n-th tick from index i on: no value is due, or the first one that is due
      is outside the chart. */
  ghost predicate NoMore(xs: seq<real>, p: Placement, share: nat -> real, i: nat, n: nat) {
    || (forall k :: i <= k < |xs| ==> xs[k] < share(n))
    || exists k: nat :: FirstDue(xs, share, i, n, k) && !(0.0 <= GroupX(p, xs[k]) <= 1.0)
  }

  /** There are no more ticks than these, since their number is exceeded or there is no next
      one. */
  ghost predicate Complete(xs: seq<real>, p: Placement, share: nat -> real, number: nat, i: nat, count: nat,
                           at: seq<nat>)
  {
    count + |at| > number || NoMore(xs, p, share, if at == [] then i else at[|at| - 1] + 1, count + |at|)
  }

  /** The ticks stand, without labels of their own, at their values' places. */
  ghost predicate StandAt(xs: seq<real>, p: Placement, at: seq<nat>, ticks: seq<Tick>) {
    |at| == |ticks| && forall n :: 0 <= n < |at| ==>
      at[n] < |xs| && ticks[n].value == xs[at[n]] && ticks[n].pos == GroupX(p, xs[at[n]]) && ticks[n].text == None
  }

  lemma GreedySkip(xs: seq<real>, share: nat -> real, i: nat, count: nat, at: seq<nat>)
    requires i < |xs| && xs[i] < share(count) && Greedy(xs, share, i + 1, count, at)
    ensures Greedy(xs, share, i, count, at)
  {
  }

  lemma GreedyTake(xs: seq<real>, share: nat -> real, i: nat, count: nat, rest: seq<nat>)
    requires i < |xs| && xs[i] >= share(count) && Greedy(xs, share, i + 1, count + 1, rest)
    ensures Greedy(xs, share, i, count, [i] + rest)
  {
    assert ([i] + rest)[1..] == rest;
  }

  lemma CompleteSkip(xs: seq<real>, p: Placement, share: nat -> real, number: nat, i: nat, count: nat, at: seq<nat>)
    requires i < |xs| && xs[i] < share(count) && Complete(xs, p, share, number, i + 1, count, at)
    ensures Complete(xs, p, share, number, i, count, at)
  {
    if at == [] && count <= number {
      if k: nat :| FirstDue(xs, share, i + 1, count, k) && !(0.0 <= GroupX(p, xs[k]) <= 1.0) {
        assert FirstDue(xs, share, i, count, k);
      }
    }
  }

  lemma CompleteTake(xs: seq<real>, p: Placement, share: nat -> real, number: nat, i: nat, count: nat, rest: seq<nat>)
    requires Complete(xs, p, share, number, i + 1, count + 1, rest)
    ensures Complete(xs, p, share, number, i, count, [i] + rest)
  {
    var at := [i] + rest;
    assert rest != [] ==> at[|at| - 1] == rest[|rest| - 1];
  }

  lemma StandTake(xs: seq<real>, p: Placement, i: nat, rest: seq<nat>, ticks: seq<Tick>)
    requires i < |xs| && StandAt(xs, p, rest, ticks)
    ensures StandAt(xs, p, [i] + rest, [Tick(TickPos(p, xs[i]), xs[i], None)] + ticks)
  {
    TickPlace(p, xs[i]);
  }

  lemma TickPlace(p: Placement, v: real)
    ensures TickPos(p, v) == GroupX(p, v)
  {
  }

  lemma {:induction false} GreedyTicks(xs: seq<real>, p: Placement, rough: real, share: nat -> real, number: nat,
                                       i: nat, count: nat)
    returns (at: seq<nat>)
    requires count <= number
    requires forall v, n :: Due(v, n, rough) <==> v >= share(n)
    ensures Greedy(xs, share, i, count, at) && Complete(xs, p, share, number, i, count, at)
    ensures StandAt(xs, p, at, LineTicks(xs, p, rough, number, i, count))
    decreases |xs| - i
  {
    at := [];
    if i < |xs| {
      if Due(xs[i], count, rough) {
        TickPlace(p, xs[i]);
        if !(0.0 <= GroupX(p, xs[i]) <= 1.0) {
          assert FirstDue(xs, share, i, count, i);
        } else {
          var rest, ticks := [], [];
          if count < number {
            rest := GreedyTicks(xs, p, rough, share, number, i + 1, count + 1);
            ticks := LineTicks(xs, p, rough, number, i + 1, count + 1);
          }
          at := [i] + rest;
          GreedyTake(xs, share, i, count, rest);
          CompleteTake(xs, p, share, number, i, count, rest);
          StandTake(xs, p, i, rest, ticks);
        }
      } else {
        at := GreedyTicks(xs, p, rough, share, number, i + 1, count);
        GreedySkip(xs, share, i, count, at);
        CompleteSkip(xs, p, share, number, i, count, at);
      }
    }
  }

  /** Which x values get a generated tick: the n-th tick is at the first value after the last
      one's that is at least n separations, as long as there is one and it is in the chart, and
      there is one tick more than asked for at the most. */
  lemma TicksAreGreedy(xs: seq<real>, p: Placement, rough: real, number: nat) returns (at: seq<nat>)
    ensures var share := (n: nat) => n as real * rough;
      Greedy(xs, share, 0, 0, at) && Complete(xs, p, share, number, 0, 0, at)
    ensures |at| <= number + 1 && StandAt(xs, p, at, LineTicks(xs, p, rough, number, 0, 0))
  {
    at := GreedyTicks(xs, p, rough, (n: nat) => n as real * rough, number, 0, 0);
    FewTicks(xs, p, rough, number, 0, 0);
  }

  lemma {:induction false} FewTicks(xs: seq<real>, p: Placement, rough: real, number: nat, i: nat, count: nat)
    requires count <= number
    ensures count + |LineTicks(xs, p, rough, number, i, count)| <= number + 1
    decreases |xs| - i
  {
    if i < |xs| {
      if Due(xs[i], count, rough) {
        if count < number {
          FewTicks(xs, p, rough, number, i + 1, count + 1);
        }
      } else {
        FewTicks(xs, p, rough, number, i + 1, count);
      }
    }
  }

  /** The ticks of the x axis before they are moved: those that are asked for, in order, each at
      the place of its value; else generated ones, a separation being the range divided by
      their rough number; and if that is 0, those that stand already. */
  lemma AxisTicksAre(datasets: Datasets, xTicks: Option<seq<XTick>>, number: nat, p: Placement, range: real,
                     ticks: seq<Tick>)
    returns (at: seq<nat>)
    ensures var made := AxisTicks(datasets, xTicks, number, p, range, ticks);
      match xTicks
      case Some(asked) =>
        |made| == |asked| && forall k :: 0 <= k < |asked| ==>
          made[k].pos == GroupX(p, asked[k].v) && made[k].value == asked[k].v && made[k].text == asked[k].text
      case None =>
        if number == 0 then made == ticks
        else
          var share := (n: nat) => n as real * (range / number as real);
          && Greedy(XValues(datasets), share, 0, 0, at)
          && Complete(XValues(datasets), p, share, number, 0, 0, at) && StandAt(XValues(datasets), p, at, made)
  {
    at := [];
    if xTicks.None? && number > 0 {
      at := TicksAreGreedy(XValues(datasets), p, range / number as real, number);
    } else if xTicks.Some? {
      forall k | 0 <= k < |xTicks.value| ensures TickPos(p, xTicks.value[k].v) == GroupX(p, xTicks.value[k].v) {
        TickPlace(p, xTicks.value[k].v);
      }
    }
  }

  // ---- where the axes start ----

  /** An axis starts where it is told to, or at zero if asked to, or at the least value. */
  lemma OriginIs(axis: Option<(real, real)>, isZero: bool, values: seq<real>)
    requires values != []
    ensures match axis
      case Some(ends) => Origin(axis, isZero, values) == ends.0
      case None =>
        if isZero then Origin(axis, isZero, values) == 0.0
        else
          && Origin(axis, isZero, values) in values
          && forall v :: v in values ==> Origin(axis, isZero, values) <= v
  {
    LeastIn(values);
    forall v | v in values ensures Least(values) <= v {
      Bounds(values, v);
    }
  }

  lemma {:induction false} LeastIn(values: seq<real>)
    requires values != []
    ensures Least(values) in values
    decreases |values|
  {
    if |values| > 1 {
      LeastIn(values[..|values| - 1]);
    }
  }
}
