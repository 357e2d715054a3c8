/** What one level of `_subw` computes, stated without its loops:
    the share each immediate is offered, the space each composite is laid out
    in, where every child is placed, and that the rows handed out never leave
    the rectangle the level was given. */
module TilingFacts {
  import opened Basics
  import opened Windows
  import opened Borders
  import opened Tiling

  /** Sum of `sizes[k]` over the children before `i` that are immediates
      (`leaf`) or composites (`!leaf`). */
  function SumWhere(kids: seq<Node>, sizes: seq<int>, i: nat, leaf: bool): int
    requires i <= |kids| == |sizes|
  {
    if i == 0 then 0
    else SumWhere(kids, sizes, i - 1, leaf) + (if kids[i - 1].Leaf? == leaf then sizes[i - 1] else 0)
  }

  /** Number of children before `i` that are immediates (`leaf`) or composites. */
  function CountWhere(kids: seq<Node>, i: nat, leaf: bool): (c: nat)
    requires i <= |kids|
    ensures c <= i
  {
    if i == 0 then 0
    else CountWhere(kids, i - 1, leaf) + (if kids[i - 1].Leaf? == leaf then 1 else 0)
  }

  lemma {:induction false} SumWhereFrame(kids: seq<Node>, s: seq<int>, t: seq<int>, i: nat, leaf: bool)
    requires i <= |kids| == |s| == |t|
    requires forall k :: 0 <= k < i && kids[k].Leaf? == leaf ==> s[k] == t[k]
    ensures SumWhere(kids, s, i, leaf) == SumWhere(kids, t, i, leaf)
  {
    if i > 0 {
      SumWhereFrame(kids, s, t, i - 1, leaf);
    }
  }

  /** A prefix sum splits into its immediates' part and its composites' part. */
  lemma {:induction false} SumSplit(kids: seq<Node>, s: seq<int>, i: nat)
    requires i <= |kids| == |s|
    ensures Sum(s[..i]) == SumWhere(kids, s, i, true) + SumWhere(kids, s, i, false)
  {
    if i > 0 {
      SumSplit(kids, s, i - 1);
      SumPrefixStep(s, i - 1);
    }
  }

  lemma {:induction false} CountSplit(kids: seq<Node>, i: nat)
    requires i <= |kids|
    ensures CountWhere(kids, i, true) + CountWhere(kids, i, false) == i
  {
    if i > 0 {
      CountSplit(kids, i - 1);
    }
  }

  lemma {:induction false} GroupCountAll(kids: seq<Node>, i: nat)
    requires i <= |kids|
    ensures GroupCount(kids[i..]) == CountWhere(kids, |kids|, false) - CountWhere(kids, i, false)
    decreases |kids| - i
  {
    if i < |kids| {
      GroupCountStep(kids, i);
      GroupCountAll(kids, i + 1);
      CountFrom(kids, i);
    } else {
      assert kids[i..] == [];
    }
  }

  lemma {:induction false} CountFrom(kids: seq<Node>, i: nat)
    requires i < |kids|
    ensures CountWhere(kids, |kids|, false) - CountWhere(kids, i, false)
         == (if kids[i].Group? then 1 else 0) + CountWhere(kids, |kids|, false) - CountWhere(kids, i + 1, false)
  {
  }

  /** The share pass 1 offers immediate `k`, in terms of the final sizes: the
      extent left after the immediates before it, divided among every child
      not yet sized (all children, composites included, minus the
      immediates before it). */
  function Share(kids: seq<Node>, sizes: seq<int>, extent: int, k: nat): int
    requires k < |kids| == |sizes|
  {
    (extent - SumWhere(kids, sizes, k, true)) / (|kids| - CountWhere(kids, k, true))
  }

  /** Pass 1 in closed form, from any point of the loop on. */
  lemma {:induction false} ImmediatesFrom(env: Env, kids: seq<Node>, o: Orientation, extent: int,
                                          i: nat, units: int, used: int, sizes: seq<int>)
    requires i <= |kids| == |sizes|
    requires units == |kids| - CountWhere(kids, i, true)
    requires used == SumWhere(kids, sizes, i, true)
    ensures var r := Immediates(env, kids, o, extent, i, units, used, sizes);
      (forall k :: 0 <= k < i ==> r.1[k] == sizes[k]) &&
      (forall k :: i <= k < |kids| && kids[k].Group? ==> r.1[k] == sizes[k]) &&
      (forall k :: i <= k < |kids| && kids[k].Leaf? ==>
         r.1[k] == SizeAlong(env, kids[k].w, o, Share(kids, r.1, extent, k))) &&
      r.0 == SumWhere(kids, r.1, |kids|, true)
    decreases |kids| - i
  {
    var r := Immediates(env, kids, o, extent, i, units, used, sizes);
    if i < |kids| {
      if kids[i].Group? {
        ImmediatesFrom(env, kids, o, extent, i + 1, units, used, sizes);
      } else {
        var size := SizeAlong(env, kids[i].w, o, (extent - used) / units);
        var sizes' := sizes[i := size];
        SumWhereFrame(kids, sizes, sizes', i, true);
        ImmediatesFrom(env, kids, o, extent, i + 1, units - 1, used + size, sizes');
        ImmediateBack(env, kids, o, extent, i, sizes, size, r.1);
      }
    }
  }

  /** The closed form of pass 1 carries back over one immediate step. */
  lemma ImmediateBack(env: Env, kids: seq<Node>, o: Orientation, extent: int,
                      i: nat, sizes: seq<int>, size: int, final: seq<int>)
    requires i < |kids| == |sizes| == |final| && kids[i].Leaf?
    requires size == SizeAlong(env, kids[i].w, o,
      (extent - SumWhere(kids, sizes, i, true)) / (|kids| - CountWhere(kids, i, true)))
    requires forall k :: 0 <= k < i + 1 ==> final[k] == sizes[i := size][k]
    requires forall k :: i + 1 <= k < |kids| && kids[k].Group? ==> final[k] == sizes[i := size][k]
    requires forall k :: i + 1 <= k < |kids| && kids[k].Leaf? ==>
      final[k] == SizeAlong(env, kids[k].w, o, Share(kids, final, extent, k))
    ensures forall k :: 0 <= k < i ==> final[k] == sizes[k]
    ensures forall k :: i <= k < |kids| && kids[k].Group? ==> final[k] == sizes[k]
    ensures forall k :: i <= k < |kids| && kids[k].Leaf? ==>
      final[k] == SizeAlong(env, kids[k].w, o, Share(kids, final, extent, k))
  {
    SumWhereFrame(kids, sizes, final, i, true);
    assert final[i] == size;
  }

  /** Pass 1 from the start: every immediate gets the min rule against its
      share, composites keep size 0, and `used` is the immediates' total. */
  lemma ImmediatesSpec(env: Env, kids: seq<Node>, o: Orientation, extent: int)
    ensures var r := Immediates(env, kids, o, extent, 0, |kids|, 0, Zeros(|kids|));
      (forall k :: 0 <= k < |kids| ==>
         r.1[k] == if kids[k].Group? then 0
                   else SizeAlong(env, kids[k].w, o, Share(kids, r.1, extent, k))) &&
      r.0 == SumWhere(kids, r.1, |kids|, true)
  {
    ImmediatesFrom(env, kids, o, extent, 0, |kids|, 0, Zeros(|kids|));
  }

  /** The space composite `k` is laid out in, given the final sizes: what is
      left after every immediate and every earlier composite, divided among
      the composites not yet laid out; the orientation flips. */
  function SubLayout(env: Env, kids: seq<Node>, o: Orientation, top: int, left: int,
                     height: int, width: int, sizes: seq<int>, k: nat): Option<Level>
    requires k < |kids| == |sizes| && kids[k].Group?
  {
    GroupCountStep(kids, k);
    var avail := (Along(o, height, width) - SumWhere(kids, sizes, |kids|, true)
                  - SumWhere(kids, sizes, k, false)) / GroupCount(kids[k..]);
    var offset := Sum(sizes[..k]);
    if o == Horizontal then Solve(env, kids[k].kids, top, left + offset, height, avail, Vertical)
    else Solve(env, kids[k].kids, top + offset, left, avail, width, Horizontal)
  }

  /** One composite step of pass 2 that goes on to a result: its layout
      and its measure exist, and the rest of the pass starts from them. */
  lemma CompositeStep(env: Env, kids: seq<Node>, o: Orientation, top: int, left: int,
                      height: int, width: int, i: nat, units: int, used: int,
                      sizes: seq<int>, placed: seq<Placed>, r: (int, seq<int>, seq<Placed>))
    returns (sub: Option<Level>, m: int)
    requires i < |kids| == |sizes| == |placed| && kids[i].Group?
    requires units == GroupCount(kids[i..])
    requires Composites(env, kids, o, top, left, height, width, i, units, used, sizes, placed) == Some(r)
    ensures units >= 1
    ensures sub == if o == Horizontal
      then Solve(env, kids[i].kids, top, left + Sum(sizes[..i]), height, (Along(o, height, width) - used) / units, Vertical)
      else Solve(env, kids[i].kids, top + Sum(sizes[..i]), left, (Along(o, height, width) - used) / units, width, Horizontal)
    ensures sub.Some? && MeasureAll(sub.value.placed, DimOf(o)) == Some(m)
    ensures units - 1 == GroupCount(kids[i + 1..])
    ensures Composites(env, kids, o, top, left, height, width, i + 1, units - 1, used + m,
                       sizes[i := m], placed[i := PGroup(sub.value.placed)]) == Some(r)
  {
    GroupCountStep(kids, i);
    var offset := Sum(sizes[..i]);
    var avail := (Along(o, height, width) - used) / units;
    sub := if o == Horizontal then Solve(env, kids[i].kids, top, left + offset, height, avail, Vertical)
           else Solve(env, kids[i].kids, top + offset, left, avail, width, Horizontal);
    m := MeasureAll(sub.value.placed, DimOf(o)).value;
  }

  /** Pass 2 passes over an immediate without touching anything. */
  lemma CompositeSkip(env: Env, kids: seq<Node>, o: Orientation, top: int, left: int,
                      height: int, width: int, i: nat, units: int, used: int,
                      sizes: seq<int>, placed: seq<Placed>, r: (int, seq<int>, seq<Placed>))
    requires i < |kids| == |sizes| == |placed| && kids[i].Leaf?
    requires units == GroupCount(kids[i..])
    requires used == SumWhere(kids, sizes, |kids|, true) + SumWhere(kids, sizes, i, false)
    requires Composites(env, kids, o, top, left, height, width, i, units, used, sizes, placed) == Some(r)
    ensures units == GroupCount(kids[i + 1..])
    ensures used == SumWhere(kids, sizes, |kids|, true) + SumWhere(kids, sizes, i + 1, false)
    ensures Composites(env, kids, o, top, left, height, width, i + 1, units, used, sizes, placed) == Some(r)
  {
    GroupCountStep(kids, i);
  }

  /** The closed form of pass 2 carries back over one composite step. */
  lemma CompositeBack(env: Env, kids: seq<Node>, o: Orientation, top: int, left: int,
                      height: int, width: int, i: nat, units: int, used: int,
                      sizes: seq<int>, placed: seq<Placed>, sub: Option<Level>, m: int,
                      r: (int, seq<int>, seq<Placed>))
    requires i < |kids| == |sizes| == |placed| && kids[i].Group? && sub.Some?
    requires units == GroupCount(kids[i..])
    requires used == SumWhere(kids, sizes, |kids|, true) + SumWhere(kids, sizes, i, false)
    requires sub == if o == Horizontal
      then Solve(env, kids[i].kids, top, left + Sum(sizes[..i]), height, (Along(o, height, width) - used) / units, Vertical)
      else Solve(env, kids[i].kids, top + Sum(sizes[..i]), left, (Along(o, height, width) - used) / units, width, Horizontal)
    requires MeasureAll(sub.value.placed, DimOf(o)) == Some(m)
    requires |r.1| == |kids| && |r.2| == |kids|
    requires forall k :: 0 <= k < |kids| && (k < i + 1 || kids[k].Leaf?) ==>
      r.1[k] == sizes[i := m][k] && r.2[k] == placed[i := PGroup(sub.value.placed)][k]
    requires forall k :: i + 1 <= k < |kids| && kids[k].Group? ==>
      var sub := SubLayout(env, kids, o, top, left, height, width, r.1, k);
      sub.Some? && r.2[k] == PGroup(sub.value.placed) &&
      MeasureAll(sub.value.placed, DimOf(o)) == Some(r.1[k])
    ensures forall k :: 0 <= k < |kids| && (k < i || kids[k].Leaf?) ==> r.1[k] == sizes[k] && r.2[k] == placed[k]
    ensures forall k :: i <= k < |kids| && kids[k].Group? ==>
      var sub := SubLayout(env, kids, o, top, left, height, width, r.1, k);
      sub.Some? && r.2[k] == PGroup(sub.value.placed) &&
      MeasureAll(sub.value.placed, DimOf(o)) == Some(r.1[k])
  {
    CompositeSlot(env, kids, o, top, left, height, width, i, used, units, sizes, r.1, sub);
    assert r.1[i] == m && r.2[i] == PGroup(sub.value.placed);
  }

  /** Pass 2 in closed form, from any point of the loop on. */
  lemma {:induction false} CompositesFrom(env: Env, kids: seq<Node>, o: Orientation, top: int, left: int,
                                          height: int, width: int, i: nat, units: int, used: int,
                                          sizes: seq<int>, placed: seq<Placed>,
                                          r: (int, seq<int>, seq<Placed>))
    requires i <= |kids| == |sizes| == |placed|
    requires units == GroupCount(kids[i..])
    requires used == SumWhere(kids, sizes, |kids|, true) + SumWhere(kids, sizes, i, false)
    requires Composites(env, kids, o, top, left, height, width, i, units, used, sizes, placed) == Some(r)
    ensures |r.1| == |kids| && |r.2| == |kids|
    ensures forall k :: 0 <= k < |kids| && (k < i || kids[k].Leaf?) ==> r.1[k] == sizes[k] && r.2[k] == placed[k]
    ensures forall k :: i <= k < |kids| && kids[k].Group? ==>
      var sub := SubLayout(env, kids, o, top, left, height, width, r.1, k);
      sub.Some? && r.2[k] == PGroup(sub.value.placed) &&
      MeasureAll(sub.value.placed, DimOf(o)) == Some(r.1[k])
    ensures r.0 == SumWhere(kids, r.1, |kids|, true) + SumWhere(kids, r.1, |kids|, false)
    decreases |kids| - i, 1
  {
    if i < |kids| {
      if kids[i].Leaf? {
        CompositeSkip(env, kids, o, top, left, height, width, i, units, used, sizes, placed, r);
        CompositesFrom(env, kids, o, top, left, height, width, i + 1, units, used, sizes, placed, r);
      } else {
        CompositeFrom(env, kids, o, top, left, height, width, i, units, used, sizes, placed, r);
      }
    }
  }

  /** `CompositesFrom` at a composite: one step, then the rest of the pass. */
  lemma {:induction false} CompositeFrom(env: Env, kids: seq<Node>, o: Orientation, top: int, left: int,
                                         height: int, width: int, i: nat, units: int, used: int,
                                         sizes: seq<int>, placed: seq<Placed>,
                                         r: (int, seq<int>, seq<Placed>))
    requires i < |kids| == |sizes| == |placed| && kids[i].Group?
    requires units == GroupCount(kids[i..])
    requires used == SumWhere(kids, sizes, |kids|, true) + SumWhere(kids, sizes, i, false)
    requires Composites(env, kids, o, top, left, height, width, i, units, used, sizes, placed) == Some(r)
    ensures |r.1| == |kids| && |r.2| == |kids|
    ensures forall k :: 0 <= k < |kids| && (k < i || kids[k].Leaf?) ==> r.1[k] == sizes[k] && r.2[k] == placed[k]
    ensures forall k :: i <= k < |kids| && kids[k].Group? ==>
      var sub := SubLayout(env, kids, o, top, left, height, width, r.1, k);
      sub.Some? && r.2[k] == PGroup(sub.value.placed) &&
      MeasureAll(sub.value.placed, DimOf(o)) == Some(r.1[k])
    ensures r.0 == SumWhere(kids, r.1, |kids|, true) + SumWhere(kids, r.1, |kids|, false)
    decreases |kids| - i, 0
  {
    var sub, m := CompositeStep(env, kids, o, top, left, height, width, i, units, used, sizes, placed, r);
    var sizes' := sizes[i := m];
    var placed' := placed[i := PGroup(sub.value.placed)];
    SumWhereFrame(kids, sizes, sizes', |kids|, true);
    SumWhereFrame(kids, sizes, sizes', i, false);
    CompositesFrom(env, kids, o, top, left, height, width, i + 1, units - 1, used + m, sizes', placed', r);
    CompositeBack(env, kids, o, top, left, height, width, i, units, used, sizes, placed, sub, m, r);
  }

  /** The composite laid out at step `i` is the one `SubLayout` names for the
      final sizes: the slots before it and the immediates' slots are final. */
  lemma CompositeSlot(env: Env, kids: seq<Node>, o: Orientation, top: int, left: int,
                      height: int, width: int, i: nat, used: int, units: int,
                      sizes: seq<int>, final: seq<int>, sub: Option<Level>)
    requires i < |kids| == |sizes| == |final| && kids[i].Group?
    requires units == GroupCount(kids[i..])
    requires used == SumWhere(kids, sizes, |kids|, true) + SumWhere(kids, sizes, i, false)
    requires forall k :: 0 <= k < |kids| && (k < i || kids[k].Leaf?) ==> final[k] == sizes[k]
    requires sub == if o == Horizontal
      then Solve(env, kids[i].kids, top, left + Sum(sizes[..i]), height, (Along(o, height, width) - used) / units, Vertical)
      else Solve(env, kids[i].kids, top + Sum(sizes[..i]), left, (Along(o, height, width) - used) / units, width, Horizontal)
    ensures SubLayout(env, kids, o, top, left, height, width, final, i) == sub
  {
    GroupCountStep(kids, i);
    assert final[..i] == sizes[..i];
    SumWhereFrame(kids, sizes, final, |kids|, true);
    SumWhereFrame(kids, sizes, final, i, false);
  }

  /** Pass 3 in closed form, from any point of the loop on. */
  lemma {:induction false} PlaceFrom(env: Env, kids: seq<Node>, o: Orientation, top: int, left: int,
                                     height: int, width: int, sizes: seq<int>, i: nat, placed: seq<Placed>)
    requires i <= |kids| == |sizes| == |placed|
    ensures var r := PlaceImmediates(env, kids, o, top, left, height, width, sizes, i, placed);
      (forall k :: 0 <= k < |kids| && (k < i || kids[k].Group?) ==> r[k] == placed[k]) &&
      (forall k :: i <= k < |kids| && kids[k].Leaf? ==>
         r[k] == InitTile(env, kids[k].w, ChildRect(o, top, left, height, width, sizes, k)))
    decreases |kids| - i
  {
    if i < |kids| {
      if kids[i].Group? {
        PlaceFrom(env, kids, o, top, left, height, width, sizes, i + 1, placed);
      } else {
        var r := ChildRect(o, top, left, height, width, sizes, i);
        PlaceFrom(env, kids, o, top, left, height, width, sizes, i + 1, placed[i := InitTile(env, kids[i].w, r)]);
      }
    }
  }

  /** The three passes of one level that produced `lv`, with their closed forms. */
  lemma LevelPasses(env: Env, kids: seq<Node>, top: int, left: int, height: int, width: int,
                    o: Orientation, lv: Level)
    returns (pass1: (int, seq<int>), pass2: (int, seq<int>, seq<Placed>))
    requires Solve(env, kids, top, left, height, width, o) == Some(lv)
    ensures pass1 == Immediates(env, kids, o, Along(o, height, width), 0, |kids|, 0, Zeros(|kids|))
    ensures |pass1.1| == |kids| && |pass2.1| == |kids| && |pass2.2| == |kids|
    ensures lv.sizes == pass2.1
    ensures lv.placed == PlaceImmediates(env, kids, o, top, left, height, width, pass2.1, 0, pass2.2)
    ensures forall k :: 0 <= k < |kids| && kids[k].Leaf? ==>
      pass2.1[k] == pass1.1[k] && pass2.1[k] == SizeAlong(env, kids[k].w, o, Share(kids, pass1.1, Along(o, height, width), k))
    ensures Composites(env, kids, o, top, left, height, width, 0, GroupCount(kids), pass1.0, pass1.1, Blank(|kids|)) == Some(pass2)
    ensures pass1.0 == SumWhere(kids, pass1.1, |kids|, true) + SumWhere(kids, pass1.1, 0, false)
    ensures GroupCount(kids) == GroupCount(kids[0..])
  {
    var n := |kids|;
    var extent := Along(o, height, width);
    pass1 := Immediates(env, kids, o, extent, 0, n, 0, Zeros(n));
    ImmediatesSpec(env, kids, o, extent);
    GroupCountAll(kids, 0);
    assert kids[0..] == kids;
    pass2 := Composites(env, kids, o, top, left, height, width, 0, GroupCount(kids), pass1.0, pass1.1, Blank(n)).value;
    CompositesFrom(env, kids, o, top, left, height, width, 0, GroupCount(kids), pass1.0, pass1.1, Blank(n), pass2);
  }

  /** Immediate `k` of one level of `_subw`: sized by the min rule against its
      share and set up at the sum of the sizes before it on the partition
      axis, spanning the whole cross axis. */
  lemma ImmediatePlacement(env: Env, kids: seq<Node>, top: int, left: int, height: int, width: int,
                           o: Orientation, lv: Level)
    requires Solve(env, kids, top, left, height, width, o) == Some(lv)
    ensures |lv.sizes| == |kids| && |lv.placed| == |kids|
    ensures forall k :: 0 <= k < |kids| && kids[k].Leaf? ==>
      lv.sizes[k] == SizeAlong(env, kids[k].w, o, Share(kids, lv.sizes, Along(o, height, width), k)) &&
      lv.placed[k] == InitTile(env, kids[k].w, ChildRect(o, top, left, height, width, lv.sizes, k))
  {
    var pass1, pass2 := LevelPasses(env, kids, top, left, height, width, o, lv);
    PlaceFrom(env, kids, o, top, left, height, width, pass2.1, 0, pass2.2);
    LeafSizes(env, kids, o, Along(o, height, width), pass1.1, pass2.1);
  }

  /** Pass 2 keeps the immediates' sizes, so their shares read the same
      against the sizes after pass 1 and against the final sizes. */
  lemma LeafSizes(env: Env, kids: seq<Node>, o: Orientation, extent: int, s: seq<int>, t: seq<int>)
    requires |s| == |t| == |kids|
    requires forall k :: 0 <= k < |kids| && kids[k].Leaf? ==>
      t[k] == s[k] && t[k] == SizeAlong(env, kids[k].w, o, Share(kids, s, extent, k))
    ensures forall k :: 0 <= k < |kids| && kids[k].Leaf? ==>
      t[k] == SizeAlong(env, kids[k].w, o, Share(kids, t, extent, k))
  {
    forall k | 0 <= k < |kids| && kids[k].Leaf?
      ensures t[k] == SizeAlong(env, kids[k].w, o, Share(kids, t, extent, k))
    {
      SumWhereFrame(kids, s, t, k, true);
    }
  }

  /** Composite `k` of one level of `_subw`: laid out in the space
      `SubLayout` describes, with the orientation flipped, and charged exactly
      its measured extent. */
  lemma CompositePlacement(env: Env, kids: seq<Node>, top: int, left: int, height: int, width: int,
                           o: Orientation, lv: Level)
    requires Solve(env, kids, top, left, height, width, o) == Some(lv)
    ensures |lv.sizes| == |kids| && |lv.placed| == |kids|
    ensures forall k :: 0 <= k < |kids| && kids[k].Group? ==>
      var sub := SubLayout(env, kids, o, top, left, height, width, lv.sizes, k);
      sub.Some? && lv.placed[k] == PGroup(sub.value.placed) &&
      MeasureAll(sub.value.placed, DimOf(o)) == Some(lv.sizes[k])
  {
    var pass1, pass2 := LevelPasses(env, kids, top, left, height, width, o, lv);
    CompositesFrom(env, kids, o, top, left, height, width, 0, GroupCount(kids), pass1.0, pass1.1, Blank(|kids|), pass2);
    PlaceFrom(env, kids, o, top, left, height, width, pass2.1, 0, pass2.2);
  }
}
