/** The tiled layout allocator of canto_curses/screen.py: `_subw` partitions a
    rectangle among a nested list of windows, alternating orientation with
    depth, and `_subw_layout_size` measures how much of the partition axis a
    laid-out group actually took.

    A layout is a list of nodes; a node is a window (an "immediate") or a
    nested list (a "composite"). One level is allocated in three passes:
    1. each immediate, in order, gets `min(share, maximum, request)` with
       `share = (extent - used) / units`, where `units` starts at the number
       of ALL children and drops by one per immediate;
    2. each composite, in order, is laid out recursively in the opposite
       orientation against `(extent - used) / composites_left` and is charged
       only what it measured;
    3. each immediate is placed at the sum of the sizes before it.
    The result mirrors the layout: a placed window carries its rectangle and
    border flags; a placed group carries its placed children. */
module Tiling {
  import opened Basics
  import opened Windows
  import opened Borders

  datatype Orientation = Vertical | Horizontal

  function Flip(o: Orientation): Orientation
  {
    if o == Vertical then Horizontal else Vertical
  }

  datatype Node = Leaf(w: Win) | Group(kids: seq<Node>)

  /** A laid-out node. A window's rectangle and border flags are what
      `_subw_init` gives it (its pad is one row taller than `rect`). */
  datatype Placed = PLeaf(w: Win, rect: Rect, border: Option<Flags>) | PGroup(kids: seq<Placed>)

  /** One level of `_subw`: the final `sizes` list and the placed children. */
  datatype Level = Level(sizes: seq<int>, placed: seq<Placed>)

  datatype Dim = Height | Width

  /** The extent along the partition axis. */
  function Along(o: Orientation, height: int, width: int): int
  {
    if o == Horizontal then width else height
  }

  /** The measuring axis of a composite laid out inside orientation `o`. */
  function DimOf(o: Orientation): Dim
  {
    if o == Horizontal then Width else Height
  }

  function SizeAlong(env: Env, w: Win, o: Orientation, avail: int): int
  {
    if o == Horizontal then SizeWidth(env, w, avail) else SizeHeight(env, w, avail)
  }

  /** Number of composites in a list of nodes. */
  function GroupCount(s: seq<Node>): (n: nat)
    ensures n <= |s|
  {
    if s == [] then 0 else (if s[0].Group? then 1 else 0) + GroupCount(s[1..])
  }

  lemma GroupCountStep(s: seq<Node>, i: nat)
    requires i < |s|
    ensures GroupCount(s[i..]) == (if s[i].Group? then 1 else 0) + GroupCount(s[i + 1..])
  {
    assert s[i..][1..] == s[i + 1..];
  }

  /** `_subw_layout_size` for one node: a window measures its pad, whose
      height is one more than its rectangle's (so the height is measured
      exactly) and whose width is its rectangle's (so the width is measured
      one short); a group measures the largest of its children. */
  function MeasureOne(p: Placed, d: Dim): Option<int>
    decreases p
  {
    match p
    case PLeaf(_, r, _) => Some(if d == Height then r.height else r.width - 1)
    case PGroup(ps) => MeasureAll(ps, d)
  }

  /** `_subw_layout_size(layout, dim)`: the maximum over the children;
      `max([])` raises, so an empty group anywhere below fails: `None`. */
  function MeasureAll(ps: seq<Placed>, d: Dim): Option<int>
    decreases ps
  {
    if ps == [] then None
    else
      var head := MeasureOne(ps[0], d);
      if head.None? then None
      else if |ps| == 1 then head
      else
        var rest := MeasureAll(ps[1..], d);
        if rest.None? then None else Some(Max(head.value, rest.value))
  }

  /** Pass 1 of `_subw` from child `i` on, with `units` and `used` as the
      loop has them: returns the final `used` and `sizes`. */
  function Immediates(env: Env, kids: seq<Node>, o: Orientation, extent: int,
                      i: nat, units: int, used: int, sizes: seq<int>): (r: (int, seq<int>))
    requires i <= |kids| == |sizes|
    requires units >= |kids| - i
    ensures |r.1| == |sizes|
    decreases |kids| - i
  {
    if i == |kids| then (used, sizes)
    else if kids[i].Group? then Immediates(env, kids, o, extent, i + 1, units, used, sizes)
    else
      var size := SizeAlong(env, kids[i].w, o, (extent - used) / units);
      Immediates(env, kids, o, extent, i + 1, units - 1, used + size, sizes[i := size])
  }

  /** Pass 2 of `_subw` from child `i` on: each composite is laid out
      recursively and charged its measured extent. `None` when a measurement
      fails. Returns the final `used`, `sizes` and placed children. */
  function Composites(env: Env, kids: seq<Node>, o: Orientation, top: int, left: int,
                      height: int, width: int, i: nat, units: int, used: int,
                      sizes: seq<int>, placed: seq<Placed>): (r: Option<(int, seq<int>, seq<Placed>)>)
    requires i <= |kids| == |sizes| == |placed|
    requires units >= GroupCount(kids[i..])
    ensures r.Some? ==> |r.value.1| == |sizes| && |r.value.2| == |placed|
    decreases kids, 0, |kids| - i
  {
    if i == |kids| then Some((used, sizes, placed))
    else
      GroupCountStep(kids, i);
      if kids[i].Leaf? then
        Composites(env, kids, o, top, left, height, width, i + 1, units, used, sizes, placed)
      else
        var offset := Sum(sizes[..i]);
        var avail := (Along(o, height, width) - used) / units;
        var sub := if o == Horizontal then Solve(env, kids[i].kids, top, left + offset, height, avail, Vertical)
                   else Solve(env, kids[i].kids, top + offset, left, avail, width, Horizontal);
        if sub.None? then None
        else
          var m := MeasureAll(sub.value.placed, DimOf(o));
          if m.None? then None
          else Composites(env, kids, o, top, left, height, width, i + 1, units - 1,
                          used + m.value, sizes[i := m.value], placed[i := PGroup(sub.value.placed)])
  }

  /** The rectangle `_subw_init` receives for child `i` given the final sizes. */
  function ChildRect(o: Orientation, top: int, left: int, height: int, width: int,
                     sizes: seq<int>, i: nat): Rect
    requires i < |sizes|
  {
    var offset := Sum(sizes[..i]);
    if o == Horizontal then Rect(top, left + offset, height, sizes[i])
    else Rect(top + offset, left, sizes[i], width)
  }

  /** The window `_subw_init` sets up at `r`, not being a float. */
  function InitTile(env: Env, w: Win, r: Rect): Placed
  {
    PLeaf(w, r, BorderFlags(ConfOf(env, w).border, ConfOf(env, w).align, false, r, env.height, env.width))
  }

  /** Pass 3 of `_subw` from child `i` on: place every immediate. */
  function PlaceImmediates(env: Env, kids: seq<Node>, o: Orientation, top: int, left: int,
                           height: int, width: int, sizes: seq<int>, i: nat,
                           placed: seq<Placed>): (r: seq<Placed>)
    requires i <= |kids| == |sizes| == |placed|
    ensures |r| == |placed|
    decreases |kids| - i
  {
    if i == |kids| then placed
    else if kids[i].Group? then PlaceImmediates(env, kids, o, top, left, height, width, sizes, i + 1, placed)
    else
      var r := ChildRect(o, top, left, height, width, sizes, i);
      PlaceImmediates(env, kids, o, top, left, height, width, sizes, i + 1,
                      placed[i := InitTile(env, kids[i].w, r)])
  }

  /** A placeholder for slots not yet filled. */
  function Blank(n: nat): (s: seq<Placed>)
    ensures |s| == n
  {
    seq(n, _ => PGroup([]))
  }

  function Zeros(n: nat): (s: seq<int>)
    ensures |s| == n && forall k :: 0 <= k < n ==> s[k] == 0
  {
    seq(n, _ => 0)
  }

  /** `_subw(layout, top, left, height, width, orientation)`: `None` when the
      layout size of some composite cannot be measured. */
  function Solve(env: Env, kids: seq<Node>, top: int, left: int, height: int, width: int,
                 o: Orientation): Option<Level>
    decreases kids, 1
  {
    var n := |kids|;
    var pass1 := Immediates(env, kids, o, Along(o, height, width), 0, n, 0, Zeros(n));
    var pass2 := Composites(env, kids, o, top, left, height, width, 0, GroupCount(kids),
                            pass1.0, pass1.1, Blank(n));
    if pass2.None? then None
    else
      var sizes := pass2.value.1;
      Some(Level(sizes, PlaceImmediates(env, kids, o, top, left, height, width, sizes, 0, pass2.value.2)))
  }

  /** `_subw`, as the source writes it: three loops over the children that
      update `used` and `units` and write into `sizes`, recursing into each
      composite with the orientation flipped. Each loop is one helper below. */
  method Subw(env: Env, kids: seq<Node>, top: int, left: int, height: int, width: int,
              o: Orientation) returns (r: Option<Level>)
    ensures r == Solve(env, kids, top, left, height, width, o)
    decreases kids, 2
  {
    var n := |kids|;
    var used, sizes := SubwImmediates(env, kids, o, Along(o, height, width));
    var pass2 := SubwComposites(env, kids, o, top, left, height, width, used, sizes);
    if pass2.None? {
      return None;
    }
    var placed := SubwPlace(env, kids, o, top, left, height, width, pass2.value.1, pass2.value.2);
    r := Some(Level(pass2.value.1, placed));
  }

  /** The first loop of `_subw`: size every immediate in turn. */
  method SubwImmediates(env: Env, kids: seq<Node>, o: Orientation, extent: int)
    returns (used: int, sizes: seq<int>)
    ensures (used, sizes) == Immediates(env, kids, o, extent, 0, |kids|, 0, Zeros(|kids|))
  {
    var n := |kids|;
    sizes := Zeros(n);
    var units := n;
    used := 0;
    var i := 0;
    while i < n
      invariant 0 <= i <= n && |sizes| == n && units >= n - i
      invariant Immediates(env, kids, o, extent, i, units, used, sizes)
             == Immediates(env, kids, o, extent, 0, n, 0, Zeros(n))
    {
      if kids[i].Leaf? {
        var size := SizeAlong(env, kids[i].w, o, (extent - used) / units);
        used := used + size;
        sizes := sizes[i := size];
        units := units - 1;
      }
      i := i + 1;
    }
  }

  /** The second loop of `_subw`: lay out every composite and charge it. */
  method SubwComposites(env: Env, kids: seq<Node>, o: Orientation, top: int, left: int,
                        height: int, width: int, used0: int, sizes0: seq<int>)
    returns (r: Option<(int, seq<int>, seq<Placed>)>)
    requires |sizes0| == |kids|
    ensures r == Composites(env, kids, o, top, left, height, width, 0, GroupCount(kids),
                            used0, sizes0, Blank(|kids|))
    decreases kids, 1
  {
    var n := |kids|;
    var used, sizes, placed := used0, sizes0, Blank(n);
    var units := GroupCount(kids);
    var i := 0;
    while i < n
      invariant 0 <= i <= n && |sizes| == n && |placed| == n
      invariant units >= GroupCount(kids[i..])
      invariant Composites(env, kids, o, top, left, height, width, i, units, used, sizes, placed)
             == Composites(env, kids, o, top, left, height, width, 0, GroupCount(kids),
                           used0, sizes0, Blank(n))
    {
      GroupCountStep(kids, i);
      if kids[i].Group? {
        var next := SubwComposite(env, kids, o, top, left, height, width, i, units, used, sizes, placed);
        if next.None? {
          return None;
        }
        used, sizes, placed := next.value.0, next.value.1, next.value.2;
        units := units - 1;
      }
      i := i + 1;
    }
    r := Some((used, sizes, placed));
  }

  /** One turn of the second loop of `_subw` at composite `i`: lay it out
      in its share and charge it its measure. `None` when either fails. */
  method SubwComposite(env: Env, kids: seq<Node>, o: Orientation, top: int, left: int,
                       height: int, width: int, i: nat, units: int, used: int,
                       sizes: seq<int>, placed: seq<Placed>)
    returns (next: Option<(int, seq<int>, seq<Placed>)>)
    requires i < |kids| == |sizes| == |placed| && kids[i].Group?
    requires units >= GroupCount(kids[i..])
    ensures units - 1 >= GroupCount(kids[i + 1..])
    ensures next.None? ==>
      Composites(env, kids, o, top, left, height, width, i, units, used, sizes, placed).None?
    ensures next.Some? ==>
      |next.value.1| == |kids| && |next.value.2| == |kids| &&
      Composites(env, kids, o, top, left, height, width, i, units, used, sizes, placed)
        == Composites(env, kids, o, top, left, height, width, i + 1, units - 1,
                      next.value.0, next.value.1, next.value.2)
    decreases kids, 0
  {
    GroupCountStep(kids, i);
    var offset := Sum(sizes[..i]);
    var avail := (Along(o, height, width) - used) / units;
    var sub;
    if o == Horizontal {
      sub := Subw(env, kids[i].kids, top, left + offset, height, avail, Vertical);
    } else {
      sub := Subw(env, kids[i].kids, top + offset, left, avail, width, Horizontal);
    }
    if sub.None? {
      return None;
    }
    var m := MeasureAll(sub.value.placed, DimOf(o));
    if m.None? {
      return None;
    }
    next := Some((used + m.value, sizes[i := m.value], placed[i := PGroup(sub.value.placed)]));
  }


  /** The third loop of `_subw`: set up every immediate at its offset. */
  method SubwPlace(env: Env, kids: seq<Node>, o: Orientation, top: int, left: int,
                   height: int, width: int, sizes: seq<int>, placed0: seq<Placed>)
    returns (placed: seq<Placed>)
    requires |sizes| == |kids| == |placed0|
    ensures placed == PlaceImmediates(env, kids, o, top, left, height, width, sizes, 0, placed0)
  {
    var n := |kids|;
    placed := placed0;
    var i := 0;
    while i < n
      invariant 0 <= i <= n && |placed| == n
      invariant PlaceImmediates(env, kids, o, top, left, height, width, sizes, i, placed)
             == PlaceImmediates(env, kids, o, top, left, height, width, sizes, 0, placed0)
    {
      if kids[i].Leaf? {
        var offset := Sum(sizes[..i]);
        var rect := if o == Horizontal then Rect(top, left + offset, height, sizes[i])
                    else Rect(top + offset, left, sizes[i], width);
        placed := placed[i := InitTile(env, kids[i].w, rect)];
      }
      i := i + 1;
    }
  }
}
