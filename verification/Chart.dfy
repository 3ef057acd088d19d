/** The scaling chart's geometry, over the reals. */
module Chart {
  import opened Sorting
  import opened Extremes

  const Y_REF := 214.0
  const Y_TOP := 21.0
  const Y_BOTTOM := 250.0
  const LABEL_MIN_GAP := 14.0
  const LOWER_LIMIT := Y_BOTTOM + 40.0
  const FULL_SCALE := 120.0
  const GRID_TOP := 35.0

  /** Where a ratio is drawn, at `scale` pixels per 1.0. */
  function Y(ratio: real, scale: real): real { Y_REF - (ratio - 1.0) * scale }

  // --- fitting the scale --------------------------------------------------

  ghost predicate OnChart(ratio: real, scale: real) { Y_TOP <= Y(ratio, scale) <= Y_BOTTOM }

  /** In pixels: parity is drawn at 214, a ratio `scale` higher for each 1.0, and the
      chart reaches from 21 down to 250. */
  lemma ChartInPixels(ratio: real, scale: real)
    ensures Y(1.0, scale) == 214.0 && Y(ratio + 1.0, scale) == Y(ratio, scale) - scale
    ensures OnChart(ratio, scale) <==> 21.0 <= Y(ratio, scale) <= 250.0
  {
    assert (1.0 - 1.0) * scale == 0.0;
    assert (ratio + 1.0 - 1.0) * scale == (ratio - 1.0) * scale + scale;
  }

  lemma DivideUp(scale: real, room: real, reach: real)
    requires reach > 0.0
    ensures scale <= room / reach <==> scale * reach <= room
  {
    var q := room / reach;
    assert q * reach == room;
    if scale <= q {
      Monotone(scale, q, reach);
    }
    if scale * reach <= room && scale > q {
      StrictMonotone(q, scale, reach);
    }
  }

  lemma Monotone(a: real, b: real, c: real)
    requires a <= b && c >= 0.0
    ensures a * c <= b * c
  {}

  lemma StrictMonotone(a: real, b: real, c: real)
    requires a < b && c > 0.0
    ensures a * c < b * c
  {}

  /** A ratio is on the chart exactly when the scale leaves room for it. */
  lemma OnChartIff(ratio: real, scale: real)
    requires scale > 0.0
    ensures OnChart(ratio, scale) <==>
      && (ratio > 1.0 ==> scale <= (Y_REF - Y_TOP) / (ratio - 1.0))
      && (ratio < 1.0 ==> scale <= (Y_BOTTOM - Y_REF) / (1.0 - ratio))
  {
    if ratio > 1.0 {
      DivideUp(scale, Y_REF - Y_TOP, ratio - 1.0);
      StrictMonotone(0.0, scale, ratio - 1.0);
    } else if ratio < 1.0 {
      DivideUp(scale, Y_BOTTOM - Y_REF, 1.0 - ratio);
      assert (ratio - 1.0) * scale == -((1.0 - ratio) * scale);
      StrictMonotone(0.0, scale, 1.0 - ratio);
    } else {
      assert (ratio - 1.0) * scale == 0.0;
    }
  }

  /** The ratios between two that are on the chart are on it too. */
  lemma BetweenOnChart(low: real, ratio: real, high: real, scale: real)
    requires low <= ratio <= high && scale > 0.0 && OnChart(low, scale) && OnChart(high, scale)
    ensures OnChart(ratio, scale)
  {
    Monotone(low - 1.0, ratio - 1.0, scale);
    Monotone(ratio - 1.0, high - 1.0, scale);
  }

  ghost predicate AllOnChart(ratios: seq<real>, scale: real) { forall r :: r in ratios ==> OnChart(r, scale) }

  /** Scales the greatest and least ratio leave room for. */
  ghost predicate RoomFor(high: real, low: real, scale: real) {
    && (high > 1.0 ==> scale <= (Y_REF - Y_TOP) / (high - 1.0))
    && (low < 1.0 ==> scale <= (Y_BOTTOM - Y_REF) / (1.0 - low))
  }

  lemma RoomIsOnChart(ratios: seq<real>, scale: real)
    requires ratios != [] && scale > 0.0
    ensures AllOnChart(ratios, scale) <==> RoomFor(Greatest(ratios), Least(ratios), scale)
  {
    hide Greatest, Least, OnChart;
    var high, low := Greatest(ratios), Least(ratios);
    OnChartIff(high, scale);
    OnChartIff(low, scale);
    if OnChart(low, scale) && OnChart(high, scale) {
      forall r | r in ratios
        ensures OnChart(r, scale)
      {
        BetweenOnChart(low, r, high, scale);
      }
    }
    if RoomFor(high, low, scale) {
      RoomMeans(high, low, scale);
    }
  }

  lemma RoomMeans(high: real, low: real, scale: real)
    requires RoomFor(high, low, scale) && low <= high && scale > 0.0
    ensures OnChart(high, scale) && OnChart(low, scale)
  {
    OnChartIff(high, scale);
    OnChartIff(low, scale);
    if low > 1.0 {
      BetweenOnChart(1.0, low, high, scale);
    }
    if high < 1.0 {
      BetweenOnChart(low, high, 1.0, scale);
    }
  }

  lemma RoomIsPositive(room: real, reach: real)
    requires room > 0.0 && reach > 0.0
    ensures room / reach > 0.0
  {}

  /** The fitted scale is positive, keeps every point on the chart, and is the
      greatest up to full scale that does. */
  method YScale(ratios: seq<real>) returns (scale: real)
    requires ratios != []
    ensures 0.0 < scale <= 120.0 && AllOnChart(ratios, scale)
    ensures forall s :: 0.0 < s <= 120.0 && AllOnChart(ratios, s) ==> s <= scale
  {
    hide AllOnChart, Greatest, Least;
    var maxR, minR := Greatest(ratios), Least(ratios);
    scale := FULL_SCALE;
    if maxR > 1.0 {
      RoomIsPositive(Y_REF - Y_TOP, maxR - 1.0);
      scale := Min(scale, (Y_REF - Y_TOP) / (maxR - 1.0));
    }
    if minR < 1.0 {
      RoomIsPositive(Y_BOTTOM - Y_REF, 1.0 - minR);
      scale := Min(scale, (Y_BOTTOM - Y_REF) / (1.0 - minR));
    }
    RoomIsOnChart(ratios, scale);
    forall s | 0.0 < s <= FULL_SCALE && AllOnChart(ratios, s)
      ensures s <= scale
    {
      RoomIsOnChart(ratios, s);
    }
  }

  // --- grid lines ---------------------------------------------------------

  /** Where the grid line of a whole ratio goes. */
  function GridY(k: int, scale: real): real { Y(k as real, scale) }

  lemma GridFalls(k: int, m: int, scale: real)
    requires scale > 0.0 && k <= m
    ensures GridY(m, scale) <= GridY(k, scale)
  {
    Monotone(k as real - 1.0, m as real - 1.0, scale);
  }

  lemma GridStep(k: int, scale: real)
    requires scale > 0.0
    ensures (GridY(k + 1, scale) - GRID_TOP) / scale == (GridY(k, scale) - GRID_TOP) / scale - 1.0
  {
    var a, b := GridY(k + 1, scale) - GRID_TOP, GridY(k, scale) - GRID_TOP;
    assert (k + 1) as real == k as real + 1.0;
    assert a == b - scale by {
      assert ((k as real + 1.0) - 1.0) * scale == (k as real - 1.0) * scale + scale;
    }
    assert scale / scale == 1.0;
  }

  /** One line for each whole ratio from 2 on that is drawn low enough, and the
      loop ends: each turn takes one scale off what is left above the top. */
  method GridLines(scale: real) returns (lines: seq<real>)
    requires scale > 0.0
    ensures forall i :: 0 <= i < |lines| ==> lines[i] == GridY(i + 2, scale)
    ensures forall k :: k >= 2 ==> (GridY(k, scale) >= 35.0 <==> k < |lines| + 2)
  {
    hide GridY;
    lines := [];
    var k := 2;
    while GridY(k, scale) >= GRID_TOP
      invariant k == |lines| + 2
      invariant forall i :: 0 <= i < |lines| ==> lines[i] == GridY(i + 2, scale)
      invariant forall m :: 2 <= m < k ==> GridY(m, scale) >= GRID_TOP
      decreases (GridY(k, scale) - GRID_TOP) / scale
    {
      lines := lines + [GridY(k, scale)];
      GridStep(k, scale);
      Nonnegative(GridY(k, scale) - GRID_TOP, scale);
      k := k + 1;
    }
    forall m | m >= k
      ensures GridY(m, scale) < GRID_TOP
    {
      GridFalls(k, m, scale);
    }
  }

  lemma Nonnegative(a: real, b: real)
    requires a >= 0.0 && b > 0.0
    ensures a / b >= 0.0
  {}

  // --- end-of-line labels -------------------------------------------------

  /** Each label at its place, or just far enough below the one before. */
  function Pushed(ys: seq<real>): (r: seq<real>)
    ensures |r| == |ys|
  {
    if ys == [] then []
    else
      var l := |ys| - 1;
      var r := Pushed(ys[..l]);
      r + [if l == 0 then ys[l] else Max(ys[l], r[l - 1] + LABEL_MIN_GAP)]
  }

  function Lifted(ys: seq<real>, amount: real): (r: seq<real>)
    ensures |r| == |ys| && forall i :: 0 <= i < |r| ==> r[i] == ys[i] - amount
  {
    if ys == [] then [] else Lifted(ys[..|ys| - 1], amount) + [ys[|ys| - 1] - amount]
  }

  function Overflow(ys: seq<real>): real
    requires ys != []
  {
    Pushed(ys)[|ys| - 1] - LOWER_LIMIT
  }

  /** Pushed apart, and all lifted together when the last is too low. */
  function Placed(ys: seq<real>): (r: seq<real>)
    requires ys != []
    ensures |r| == |ys|
  {
    if Overflow(ys) > 0.0 then Lifted(Pushed(ys), Overflow(ys)) else Pushed(ys)
  }

  ghost predicate Spaced(ys: seq<real>) { forall i :: 0 <= i < |ys| - 1 ==> ys[i] + LABEL_MIN_GAP <= ys[i + 1] }

  ghost predicate AtOrBelow(ys: seq<real>, zs: seq<real>) {
    |zs| == |ys| && forall i :: 0 <= i < |ys| ==> ys[i] <= zs[i]
  }

  lemma {:induction false} PushedIs(ys: seq<real>, i: nat)
    requires i < |ys|
    ensures Pushed(ys)[i] == if i == 0 then ys[0] else Max(ys[i], Pushed(ys)[i - 1] + LABEL_MIN_GAP)
    decreases |ys|
  {
    if i < |ys| - 1 {
      PushedIs(ys[..|ys| - 1], i);
    }
  }

  lemma PushedIsSpaced(ys: seq<real>)
    ensures Spaced(Pushed(ys)) && AtOrBelow(ys, Pushed(ys))
  {
    hide Pushed;
    forall i | 0 <= i < |ys|
      ensures ys[i] <= Pushed(ys)[i] && (i > 0 ==> Pushed(ys)[i - 1] + LABEL_MIN_GAP <= Pushed(ys)[i])
    {
      PushedIs(ys, i);
    }
    forall i | 0 <= i < |ys| - 1
      ensures Pushed(ys)[i] + LABEL_MIN_GAP <= Pushed(ys)[i + 1]
    {
      PushedIs(ys, i + 1);
    }
  }

  lemma {:induction false} PushedIsLeastAt(ys: seq<real>, zs: seq<real>, i: nat)
    requires Spaced(zs) && AtOrBelow(ys, zs) && i < |ys|
    ensures Pushed(ys)[i] <= zs[i]
  {
    hide Pushed;
    PushedIs(ys, i);
    if i > 0 {
      PushedIsLeastAt(ys, zs, i - 1);
      assert zs[i - 1] + LABEL_MIN_GAP <= zs[i - 1 + 1];
    }
  }

  /** Labels keep their order and the minimum gap, and none passes the limit. */
  lemma PlacedFits(ys: seq<real>)
    requires ys != []
    ensures Spaced(Placed(ys)) && forall i :: 0 <= i < |ys| ==> Placed(ys)[i] <= 290.0
    ensures forall i :: 0 <= i < |ys| - 1 ==> Placed(ys)[i + 1] - Placed(ys)[i] >= 14.0
  {
    hide Pushed, Lifted;
    PushedIsSpaced(ys);
    var r := Placed(ys);
    assert r[|r| - 1] <= LOWER_LIMIT;
    forall i | 0 <= i < |r| - 1
      ensures r[i] + LABEL_MIN_GAP <= r[i + 1]
    {
      assert Pushed(ys)[i] + LABEL_MIN_GAP <= Pushed(ys)[i + 1];
    }
    assert Spaced(r);
    forall i | 0 <= i < |r|
      ensures r[i] <= LOWER_LIMIT
    {
      SpacedRises(r, i);
    }
  }

  lemma {:induction false} SpacedRises(r: seq<real>, i: nat)
    requires Spaced(r) && i < |r|
    ensures r[i] <= r[|r| - 1]
    decreases |r| - i
  {
    if i < |r| - 1 {
      SpacedRises(r, i + 1);
      assert r[i] + LABEL_MIN_GAP <= r[i + 1];
    }
  }

  /** When nothing overflows, the placement is the least of all that keep the gap
      and raise no label; and it overflows only if every such placement does. */
  lemma PlacedIsLeast(ys: seq<real>, zs: seq<real>)
    requires ys != [] && Spaced(zs) && AtOrBelow(ys, zs)
    ensures Overflow(ys) <= 0.0 ==> AtOrBelow(ys, Placed(ys)) && AtOrBelow(Placed(ys), zs)
    ensures Overflow(ys) > 0.0 ==> zs[|zs| - 1] > LOWER_LIMIT
  {
    hide Pushed;
    PushedIsSpaced(ys);
    forall i | 0 <= i < |ys|
      ensures Pushed(ys)[i] <= zs[i]
    {
      PushedIsLeastAt(ys, zs, i);
    }
  }

  /** On overflow the last label sits at the limit, and distances are as pushed. */
  lemma OverflowLifts(ys: seq<real>, i: nat)
    requires ys != [] && Overflow(ys) > 0.0 && i < |ys|
    ensures Placed(ys)[|ys| - 1] == LOWER_LIMIT
    ensures Placed(ys)[|ys| - 1] - Placed(ys)[i] == Pushed(ys)[|ys| - 1] - Pushed(ys)[i]
  {
    hide Pushed;
  }

  // --- the loops over the label positions ---------------------------------

  method PushApart(ys: array<real>)
    requires ys.Length > 0
    modifies ys
    ensures ys[..] == Pushed(old(ys[..]))
  {
    hide Pushed;
    ghost var was := ys[..];
    PushedIs(was, 0);
    for i := 1 to ys.Length
      invariant forall k :: 0 <= k < i ==> ys[k] == Pushed(was)[k]
      invariant forall k :: i <= k < ys.Length ==> ys[k] == was[k]
    {
      PushedIs(was, i);
      ys[i] := Max(ys[i], ys[i - 1] + LABEL_MIN_GAP);
    }
  }

  /** After an overflow the labels are lifted and, going up, pushed apart again;
      that second push moves nothing. */
  method LiftLabels(ys: array<real>, overflow: real)
    requires ys.Length > 0 && Spaced(ys[..])
    modifies ys
    ensures ys[..] == Lifted(old(ys[..]), overflow)
  {
    ghost var was := ys[..];
    for i := 0 to ys.Length
      invariant forall k :: 0 <= k < i ==> ys[k] == was[k] - overflow
      invariant forall k :: i <= k < ys.Length ==> ys[k] == was[k]
    {
      ys[i] := ys[i] - overflow;
    }
    for i := ys.Length - 1 downto 0
      invariant forall k :: 0 <= k < ys.Length ==> ys[k] == was[k] - overflow
    {
      assert was[i] + LABEL_MIN_GAP <= was[i + 1];
      ys[i] := Min(ys[i], ys[i + 1] - LABEL_MIN_GAP);
    }
  }

  method NudgeInPlace(ys: array<real>)
    requires ys.Length > 0
    modifies ys
    ensures ys[..] == Placed(old(ys[..]))
  {
    hide Pushed, Lifted;
    ghost var was := ys[..];
    PushApart(ys);
    PushedIsSpaced(was);
    var overflow := ys[ys.Length - 1] - LOWER_LIMIT;
    assert ys[..][ys.Length - 1] == ys[ys.Length - 1];
    if overflow > 0.0 {
      LiftLabels(ys, overflow);
    }
  }

  // --- labels by name -----------------------------------------------------

  datatype Label = Label(key: string, y: real)

  predicate Higher(a: Label, b: Label) { a.y <= b.y }

  function Heights(labels: seq<Label>): (r: seq<real>)
    ensures |r| == |labels| && forall i :: 0 <= i < |r| ==> r[i] == labels[i].y
  {
    if labels == [] then [] else Heights(labels[..|labels| - 1]) + [labels[|labels| - 1].y]
  }

  lemma HeightsAreOrdered()
    ensures KeyOrder(Higher)
  {}

  /** Labels in order of height, each at its place among them. */
  method NudgeLabels(entries: seq<Label>) returns (placed: seq<Label>)
    requires entries != []
    ensures var ordered := Sorted(entries, Higher);
      && InOrder(ordered, Higher)
      && |placed| == |ordered| && Heights(placed) == Placed(Heights(ordered))
      && forall i :: 0 <= i < |placed| ==> placed[i].key == ordered[i].key
  {
    hide Sorted, Placed;
    HeightsAreOrdered();
    SortedInOrder(entries, Higher);
    var ordered := Sorted(entries, Higher);
    var ys := new real[|ordered|];
    for i := 0 to |ordered|
      invariant forall k :: 0 <= k < i ==> ys[k] == ordered[k].y
    {
      ys[i] := ordered[i].y;
    }
    assert ys[..] == Heights(ordered);
    NudgeInPlace(ys);
    placed := [];
    for i := 0 to |ordered|
      invariant |placed| == i
      invariant forall k :: 0 <= k < i ==> placed[k] == Label(ordered[k].key, ys[k])
    {
      placed := placed + [Label(ordered[i].key, ys[i])];
    }
    assert Heights(placed) == ys[..];
  }
}
