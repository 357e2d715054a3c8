/** Bounds on what `_subw` hands out. With non-negative configuration and
    requests, every window of a layout laid out in rows `[top, top + height)`
    gets rows inside that band, and at each vertically stacked level the sizes
    of the children add up to at most the height.

    Only rows are bounded: columns are not, because a window whose width
    is not positive makes `newpad` raise, and that failure is not part of
    `Tiling.Solve`. Containment is all that is proved; siblings may
    overlap, since a composite is charged the extent of its largest single
    window rather than the extent of its windows together. */
module TilingBounds {
  import opened Basics
  import opened Windows
  import opened Borders
  import opened Tiling
  import opened TilingFacts

  /** Every window in `p` has a non-negative height and lies in rows `[lo, hi)`. */
  predicate RowsWithin(p: Placed, lo: int, hi: int)
    decreases p
  {
    match p
    case PLeaf(_, r, _) => 0 <= r.height && lo <= r.top && r.top + r.height <= hi
    case PGroup(ps) => AllRowsWithin(ps, lo, hi)
  }

  predicate AllRowsWithin(ps: seq<Placed>, lo: int, hi: int)
    decreases ps
  {
    forall k :: 0 <= k < |ps| ==> RowsWithin(ps[k], lo, hi)
  }

  lemma {:induction false} RowsWiden(p: Placed, lo: int, hi: int, lo': int, hi': int)
    requires RowsWithin(p, lo, hi) && lo' <= lo && hi <= hi'
    ensures RowsWithin(p, lo', hi')
    decreases p
  {
    match p
    case PLeaf(_, _, _) =>
    case PGroup(ps) =>
      forall k | 0 <= k < |ps| ensures RowsWithin(ps[k], lo', hi') {
        RowsWiden(ps[k], lo, hi, lo', hi');
      }
  }

  /** A group whose windows lie in a band of rows measures at most the
      band's height, and never less than zero. */
  lemma {:induction false} MeasureRows(ps: seq<Placed>, lo: int, hi: int)
    requires AllRowsWithin(ps, lo, hi)
    requires MeasureAll(ps, Height).Some?
    ensures 0 <= MeasureAll(ps, Height).value <= hi - lo
    decreases ps
  {
    assert RowsWithin(ps[0], lo, hi);
    if ps[0].PGroup? {
      MeasureRows(ps[0].kids, lo, hi);
    }
    if |ps| > 1 {
      assert AllRowsWithin(ps[1..], lo, hi) by {
        forall k | 0 <= k < |ps| - 1 ensures RowsWithin(ps[1..][k], lo, hi) {
          assert ps[1..][k] == ps[k + 1];
        }
      }
      MeasureRows(ps[1..], lo, hi);
    }
  }

  lemma {:induction false} SumWhereMonotone(kids: seq<Node>, s: seq<int>, i: nat, j: nat, leaf: bool)
    requires i <= j <= |kids| == |s|
    requires forall k :: 0 <= k < |s| ==> s[k] >= 0
    ensures SumWhere(kids, s, i, leaf) <= SumWhere(kids, s, j, leaf)
    decreases j - i
  {
    if i < j {
      SumWhereMonotone(kids, s, i, j - 1, leaf);
    }
  }

  /** Pass 1 never gives away more than the extent: each immediate's share is
      at most what is left, so the running total stays within `[0, extent]`. */
  lemma {:induction false} ImmediateTotals(env: Env, kids: seq<Node>, sizes: seq<int>, extent: int, j: nat)
    requires NonNegative(env) && extent >= 0
    requires j <= |kids| == |sizes|
    requires forall k :: 0 <= k < |kids| && kids[k].Leaf? ==>
      sizes[k] == SizeHeight(env, kids[k].w, Share(kids, sizes, extent, k))
    ensures 0 <= SumWhere(kids, sizes, j, true) <= extent
    ensures forall k :: 0 <= k < j && kids[k].Leaf? ==> sizes[k] >= 0
  {
    if j > 0 {
      ImmediateTotals(env, kids, sizes, extent, j - 1);
      var k := j - 1;
      if kids[k].Leaf? {
        var units := |kids| - CountWhere(kids, k, true);
        var left := extent - SumWhere(kids, sizes, k, true);
        assert units >= 1 && left >= 0;
        DivBounds(left, units);
        assert Share(kids, sizes, extent, k) == left / units;
      }
    }
  }

  /** Pass 2 never gives away more than pass 1 left: each composite is charged
      at most its share of what is left, so the running total of composite
      sizes stays within `[0, extent - immediates]`. */
  lemma {:induction false} CompositeTotals(kids: seq<Node>, sizes: seq<int>, extent: int, j: nat)
    requires j <= |kids| == |sizes|
    requires 0 <= SumWhere(kids, sizes, |kids|, true) <= extent
    requires forall k :: 0 <= k < |kids| && kids[k].Group? ==>
      CompositeRows(kids, sizes, extent, k) >= 0 ==> 0 <= sizes[k] <= CompositeRows(kids, sizes, extent, k)
    ensures 0 <= SumWhere(kids, sizes, j, false) <= extent - SumWhere(kids, sizes, |kids|, true)
    ensures forall k :: 0 <= k < j && kids[k].Group? ==> sizes[k] >= 0
  {
    if j > 0 {
      CompositeTotals(kids, sizes, extent, j - 1);
      var k := j - 1;
      if kids[k].Group? {
        var avail := CompositeRows(kids, sizes, extent, k);
      }
    }
  }

  /** The extent a vertical or horizontal level offers composite `k`: what is
      left after every immediate and every earlier composite, divided among
      the composites not yet laid out. It is non-negative exactly when
      something is left, and never more than what is left. */
  function CompositeRows(kids: seq<Node>, sizes: seq<int>, extent: int, k: nat): (r: int)
    requires k < |kids| == |sizes| && kids[k].Group?
    ensures var left := extent - SumWhere(kids, sizes, |kids|, true) - SumWhere(kids, sizes, k, false);
      (r >= 0 <==> left >= 0) && (left >= 0 ==> r <= left)
  {
    GroupCountStep(kids, k);
    var left := extent - SumWhere(kids, sizes, |kids|, true) - SumWhere(kids, sizes, k, false);
    DivSign(left, GroupCount(kids[k..]));
    left / GroupCount(kids[k..])
  }

  /** Every window `_subw` lays out in rows `[top, top + height)` stays in
      those rows; when the level stacks vertically, its sizes are
      non-negative and add up to at most `height`. */
  lemma {:induction false} SolveRows(env: Env, kids: seq<Node>, top: int, left: int, height: int, width: int,
                                     o: Orientation, lv: Level)
    requires NonNegative(env) && height >= 0
    requires Solve(env, kids, top, left, height, width, o) == Some(lv)
    ensures AllRowsWithin(lv.placed, top, top + height)
    ensures o == Vertical ==>
      (forall k :: 0 <= k < |lv.sizes| ==> lv.sizes[k] >= 0) && Sum(lv.sizes) <= height
    decreases kids, 3
  {
    if o == Horizontal {
      HorizontalRows(env, kids, top, left, height, width, lv);
    } else {
      VerticalRows(env, kids, top, left, height, width, lv);
    }
  }

  /** A horizontal level hands every child the level's full band of rows. */
  lemma {:induction false} HorizontalRows(env: Env, kids: seq<Node>, top: int, left: int, height: int, width: int,
                                          lv: Level)
    requires NonNegative(env) && height >= 0
    requires Solve(env, kids, top, left, height, width, Horizontal) == Some(lv)
    ensures AllRowsWithin(lv.placed, top, top + height)
    decreases kids, 2
  {
    ImmediatePlacement(env, kids, top, left, height, width, Horizontal, lv);
    forall k | 0 <= k < |kids| ensures RowsWithin(lv.placed[k], top, top + height) {
      if kids[k].Group? {
        HorizontalComposite(env, kids, top, left, height, width, lv, k);
      }
    }
  }

  /** Composite `k` of a horizontal level keeps its windows in the level's rows. */
  lemma {:induction false} HorizontalComposite(env: Env, kids: seq<Node>, top: int, left: int, height: int, width: int,
                                               lv: Level, k: nat)
    requires NonNegative(env) && height >= 0
    requires Solve(env, kids, top, left, height, width, Horizontal) == Some(lv)
    requires k < |kids| && kids[k].Group?
    ensures |lv.placed| == |kids| && RowsWithin(lv.placed[k], top, top + height)
    decreases kids, 0
  {
    CompositePlacement(env, kids, top, left, height, width, Horizontal, lv);
    var sub := SubLayout(env, kids, Horizontal, top, left, height, width, lv.sizes, k);
    GroupCountStep(kids, k);
    SolveRows(env, kids[k].kids, top, left + Sum(lv.sizes[..k]), height,
              CompositeRows(kids, lv.sizes, width, k), Vertical, sub.value);
  }

  /** Composite `k` of a vertical level, when offered a non-negative number of
      rows, is charged at most that many and keeps its windows within them. */
  lemma {:induction false} VerticalComposite(env: Env, kids: seq<Node>, top: int, left: int, height: int, width: int,
                                             lv: Level, k: nat)
    requires NonNegative(env)
    requires Solve(env, kids, top, left, height, width, Vertical) == Some(lv)
    requires k < |kids| && kids[k].Group?
    ensures |lv.sizes| == |kids| && |lv.placed| == |kids|
    ensures var avail := CompositeRows(kids, lv.sizes, height, k);
      avail >= 0 ==>
        0 <= lv.sizes[k] <= avail && lv.placed[k].PGroup? &&
        AllRowsWithin(lv.placed[k].kids, top + Sum(lv.sizes[..k]), top + Sum(lv.sizes[..k]) + avail)
    decreases kids, 0
  {
    CompositePlacement(env, kids, top, left, height, width, Vertical, lv);
    GroupCountStep(kids, k);
    var avail := CompositeRows(kids, lv.sizes, height, k);
    var sub := SubLayout(env, kids, Vertical, top, left, height, width, lv.sizes, k);
    if avail >= 0 {
      var lo := top + Sum(lv.sizes[..k]);
      SolveRows(env, kids[k].kids, lo, left, avail, width, Horizontal, sub.value);
      MeasureRows(sub.value.placed, lo, lo + avail);
    }
  }

  /** The sizes of a vertical level are non-negative: immediates by the min
      rule against a non-negative share, composites by their measure. The
      immediates add up to at most the height, and so do all children. */
  lemma {:induction false} VerticalSizes(env: Env, kids: seq<Node>, top: int, left: int, height: int, width: int,
                                         lv: Level)
    requires NonNegative(env) && height >= 0
    requires Solve(env, kids, top, left, height, width, Vertical) == Some(lv)
    ensures |lv.sizes| == |kids| && |lv.placed| == |kids|
    ensures forall k :: 0 <= k < |kids| ==> lv.sizes[k] >= 0
    ensures 0 <= SumWhere(kids, lv.sizes, |kids|, true) <= height
    ensures forall j :: 0 <= j <= |kids| ==>
      0 <= SumWhere(kids, lv.sizes, j, false) <= height - SumWhere(kids, lv.sizes, |kids|, true)
    ensures Sum(lv.sizes) <= height
    decreases kids, 1
  {
    ImmediatePlacement(env, kids, top, left, height, width, Vertical, lv);
    ImmediateTotals(env, kids, lv.sizes, height, |kids|);
    forall k | 0 <= k < |kids| && kids[k].Group?
      ensures CompositeRows(kids, lv.sizes, height, k) >= 0 ==>
        0 <= lv.sizes[k] <= CompositeRows(kids, lv.sizes, height, k)
    {
      VerticalComposite(env, kids, top, left, height, width, lv, k);
    }
    CompositeTotals(kids, lv.sizes, height, |kids|);
    forall j | 0 <= j <= |kids|
      ensures 0 <= SumWhere(kids, lv.sizes, j, false) <= height - SumWhere(kids, lv.sizes, |kids|, true)
    {
      CompositeTotals(kids, lv.sizes, height, j);
    }
    SumSplit(kids, lv.sizes, |kids|);
    assert lv.sizes[..|kids|] == lv.sizes;
  }

  /** A vertical level stacks its children inside its band of rows. */
  lemma {:induction false} VerticalRows(env: Env, kids: seq<Node>, top: int, left: int, height: int, width: int,
                                        lv: Level)
    requires NonNegative(env) && height >= 0
    requires Solve(env, kids, top, left, height, width, Vertical) == Some(lv)
    ensures AllRowsWithin(lv.placed, top, top + height)
    ensures (forall k :: 0 <= k < |lv.sizes| ==> lv.sizes[k] >= 0) && Sum(lv.sizes) <= height
    decreases kids, 2
  {
    VerticalSizes(env, kids, top, left, height, width, lv);
    forall k | 0 <= k < |kids| ensures RowsWithin(lv.placed[k], top, top + height) {
      VerticalChild(env, kids, top, left, height, width, lv, k);
    }
  }

  /** Child `k` of a vertical level lies in the level's band of rows. */
  lemma {:induction false} VerticalChild(env: Env, kids: seq<Node>, top: int, left: int, height: int, width: int,
                                         lv: Level, k: nat)
    requires NonNegative(env) && height >= 0
    requires Solve(env, kids, top, left, height, width, Vertical) == Some(lv)
    requires k < |kids| == |lv.sizes| == |lv.placed|
    requires (forall j :: 0 <= j < |kids| ==> lv.sizes[j] >= 0) && Sum(lv.sizes) <= height
    requires 0 <= SumWhere(kids, lv.sizes, |kids|, true) <= height
    requires 0 <= SumWhere(kids, lv.sizes, k, false) <= height - SumWhere(kids, lv.sizes, |kids|, true)
    ensures RowsWithin(lv.placed[k], top, top + height)
    decreases kids, 1
  {
    var sizes := lv.sizes;
    var n := |kids|;
    assert sizes[..n] == sizes;
    SumPrefixMonotone(sizes, 0, k);
    SumPrefixMonotone(sizes, k + 1, n);
    SumPrefixStep(sizes, k);
    assert sizes[..0] == [];
    if kids[k].Leaf? {
      ImmediatePlacement(env, kids, top, left, height, width, Vertical, lv);
    } else {
      VerticalComposite(env, kids, top, left, height, width, lv, k);
      SumSplit(kids, sizes, k);
      SumWhereMonotone(kids, sizes, k, n, true);
      var avail := CompositeRows(kids, sizes, height, k);
      var lo := top + Sum(sizes[..k]);
      forall q | 0 <= q < |lv.placed[k].kids| ensures RowsWithin(lv.placed[k].kids[q], top, top + height) {
        RowsWiden(lv.placed[k].kids[q], lo, lo + avail, top, top + height);
      }
    }
  }

}
