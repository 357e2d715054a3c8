/** `fill_layout` (canto_curses/screen.py:376-405): how the tiled windows
    become the nested list `_subw` lays out, and which of them becomes the
    input box. */
module Layouts {
  import opened Basics
  import opened Windows
  import opened Tiling

  /** The windows of a layout, depth first, left to right. */
  function Flatten(ns: seq<Node>): seq<Win>
    decreases ns
  {
    if ns == [] then [] else LeavesOf(ns[0]) + Flatten(ns[1..])
  }

  function LeavesOf(n: Node): seq<Win>
    decreases n
  {
    match n
    case Leaf(w) => [w]
    case Group(kids) => Flatten(kids)
  }

  lemma {:induction false} FlattenAppend(a: seq<Node>, b: seq<Node>)
    ensures Flatten(a + b) == Flatten(a) + Flatten(b)
    decreases |a|
  {
    if a == [] {
      assert a + b == b;
    } else {
      assert (a + b)[0] == a[0] && (a + b)[1..] == a[1..] + b;
      FlattenAppend(a[1..], b);
    }
  }

  lemma FlattenOne(n: Node)
    ensures Flatten([n]) == LeavesOf(n)
  {
    assert [n][1..] == [];
  }

  /** The alignments `fill_layout` has a bucket for. */
  predicate KnownAlign(a: string)
  {
    a == "top" || a == "bottom" || a == "left" || a == "right" || a == "neutral"
  }

  function AlignOf(env: Env, w: Win): string
  {
    ConfOf(env, w).align
  }

  /** The windows of `ws` whose alignment is `a`, in order. */
  function Aligned(env: Env, ws: seq<Win>, a: string): seq<Win>
  {
    if ws == [] then []
    else (if AlignOf(env, ws[0]) == a then [ws[0]] else []) + Aligned(env, ws[1..], a)
  }

  /** What a window contributes to its bucket: the window itself, or, for
      the tag list, the window nested two levels down so that it takes up
      the space the rest of the layout leaves. */
  function Entry(w: Win): (n: Node)
    ensures LeavesOf(n) == [w]
    ensures w.kind.optName == "taglist" <==> n.Group?
  {
    if w.kind.optName == "taglist" then
      FlattenOne(Leaf(w));
      FlattenOne(Group([Leaf(w)]));
      Group([Group([Leaf(w)])])
    else Leaf(w)
  }

  /** The bucket `aligns[a]` after the loop over `ws`. */
  function Bucket(env: Env, ws: seq<Win>, a: string): (b: seq<Node>)
    ensures Flatten(b) == Aligned(env, ws, a)
  {
    if ws == [] then []
    else
      var head := if AlignOf(env, ws[0]) == a then [Entry(ws[0])] else [];
      var rest := Bucket(env, ws[1..], a);
      FlattenAppend(head, rest);
      FlattenOne(Entry(ws[0]));
      head + rest
  }

  /** The bucket holds one entry per window of that alignment, in order:
      the tag list wrapped two levels deep, any other window bare. */
  lemma {:induction false} BucketEntries(env: Env, ws: seq<Win>, a: string)
    ensures |Bucket(env, ws, a)| == |Aligned(env, ws, a)|
    ensures forall i :: 0 <= i < |Bucket(env, ws, a)| ==>
      Bucket(env, ws, a)[i] == Entry(Aligned(env, ws, a)[i])
    decreases |ws|
  {
    if ws != [] {
      BucketEntries(env, ws[1..], a);
    }
  }

  /** Every window's alignment has a bucket; otherwise the lookup
      `aligns[align]` raises. */
  predicate AllKnown(env: Env, ws: seq<Win>)
  {
    forall i :: 0 <= i < |ws| ==> KnownAlign(AlignOf(env, ws[i]))
  }

  /** Each window as a leaf of its own. */
  function Leaves(ws: seq<Win>): (ns: seq<Node>)
    ensures |ns| == |ws| && forall i :: 0 <= i < |ws| ==> ns[i] == Leaf(ws[i])
  {
    seq(|ws|, i requires 0 <= i < |ws| => Leaf(ws[i]))
  }

  lemma {:induction false} FlattenLeaves(ws: seq<Win>)
    ensures Flatten(Leaves(ws)) == ws
    decreases |ws|
  {
    if ws != [] {
      assert Leaves(ws)[1..] == Leaves(ws[1..]);
      FlattenLeaves(ws[1..]);
    }
  }

  /** The windows of the five buckets: top, then left, neutral and right,
      then bottom. */
  function Arranged(env: Env, ws: seq<Win>): seq<Win>
  {
    Aligned(env, ws, "top") + Aligned(env, ws, "left") + Aligned(env, ws, "neutral")
    + Aligned(env, ws, "right") + Aligned(env, ws, "bottom")
  }

  lemma RowLeaves(left: seq<Node>, neutral: seq<Node>, right: seq<Node>)
    ensures Flatten([Group(left + neutral + right)]) == Flatten(left) + Flatten(neutral) + Flatten(right)
  {
    FlattenAppend(left, neutral);
    FlattenAppend(left + neutral, right);
    FlattenOne(Group(left + neutral + right));
  }

  lemma ArrangementLeaves(top: seq<Node>, left: seq<Node>, neutral: seq<Node>, right: seq<Node>,
                           bottom: seq<Node>)
    ensures Flatten(top + [Group(left + neutral + right)] + bottom)
         == Flatten(top) + Flatten(left) + Flatten(neutral) + Flatten(right) + Flatten(bottom)
  {
    var g := [Group(left + neutral + right)];
    var t, l, n, r, b := Flatten(top), Flatten(left), Flatten(neutral), Flatten(right), Flatten(bottom);
    RowLeaves(left, neutral, right);
    FlattenAppend(top, g);
    FlattenAppend(top + g, bottom);
    assert Flatten(top + g + bottom) == t + (l + n + r) + b;
    Regroup(t, l, n, r, b);
  }

  lemma Regroup<T>(t: seq<T>, l: seq<T>, n: seq<T>, r: seq<T>, b: seq<T>)
    ensures t + (l + n + r) + b == t + l + n + r + b
  {
  }

  /** The default layout: the top bucket, one composite holding the left,
      neutral and right buckets side by side, and the bottom bucket. */
  function Buckets(env: Env, ws: seq<Win>): (r: seq<Node>)
    ensures Flatten(r) == Arranged(env, ws)
    ensures |r| == |Bucket(env, ws, "top")| + 1 + |Bucket(env, ws, "bottom")|
    ensures r[..|Bucket(env, ws, "top")|] == Bucket(env, ws, "top")
    ensures r[|Bucket(env, ws, "top")| + 1..] == Bucket(env, ws, "bottom")
    ensures r[|Bucket(env, ws, "top")|]
         == Group(Bucket(env, ws, "left") + Bucket(env, ws, "neutral") + Bucket(env, ws, "right"))
    ensures Flatten(r[|Bucket(env, ws, "top")|].kids)
         == Aligned(env, ws, "left") + Aligned(env, ws, "neutral") + Aligned(env, ws, "right")
  {
    var top, left, neutral, right, bottom := Bucket(env, ws, "top"), Bucket(env, ws, "left"),
      Bucket(env, ws, "neutral"), Bucket(env, ws, "right"), Bucket(env, ws, "bottom");
    ArrangementLeaves(top, left, neutral, right, bottom);
    FlattenAppend(left, neutral);
    FlattenAppend(left + neutral, right);
    var r := top + [Group(left + neutral + right)] + bottom;
    assert r[..|top|] == top;
    assert r[|top| + 1..] == bottom;
    r
  }

  /** `fill_layout(layout, windows)`: "hstack" returns the windows as a
      flat list, which the top level of `_subw` stacks one above the
      other; "vstack" returns them as one composite, whose windows are
      laid side by side; any other layout arranges the alignment buckets.
      `None` when a window's alignment has no bucket. */
  function FillLayout(env: Env, layout: string, ws: seq<Win>): (r: Option<seq<Node>>)
    ensures layout == "hstack" ==> r == Some(Leaves(ws))
    ensures layout == "vstack" ==> r == Some([Group(Leaves(ws))])
    ensures r.None? <==> layout != "hstack" && layout != "vstack" && !AllKnown(env, ws)
    ensures r.Some? && layout != "hstack" && layout != "vstack" ==> Flatten(r.value) == Arranged(env, ws)
  {
    if layout == "hstack" then Some(Leaves(ws))
    else if layout == "vstack" then Some([Group(Leaves(ws))])
    else if !AllKnown(env, ws) then None
    else Some(Buckets(env, ws))
  }

  /** What window `w` adds to the bucket `a`. */
  ghost function Part(env: Env, w: Win, a: string): multiset<Win>
  {
    if AlignOf(env, w) == a then multiset{w} else multiset{}
  }

  lemma AlignedStep(env: Env, ws: seq<Win>, a: string)
    requires ws != []
    ensures multiset(Aligned(env, ws, a)) == Part(env, ws[0], a) + multiset(Aligned(env, ws[1..], a))
  {
  }

  /** The windows of the five buckets, counted with multiplicity. */
  ghost function Spread(env: Env, ws: seq<Win>): multiset<Win>
  {
    multiset(Aligned(env, ws, "top")) + multiset(Aligned(env, ws, "left"))
    + multiset(Aligned(env, ws, "neutral")) + multiset(Aligned(env, ws, "right"))
    + multiset(Aligned(env, ws, "bottom"))
  }

  /** A window with a known alignment lands in exactly one bucket. */
  lemma SpreadStep(env: Env, ws: seq<Win>)
    requires ws != [] && KnownAlign(AlignOf(env, ws[0]))
    ensures Spread(env, ws) == multiset{ws[0]} + Spread(env, ws[1..])
  {
    var w := ws[0];
    AlignedStep(env, ws, "top");
    AlignedStep(env, ws, "left");
    AlignedStep(env, ws, "neutral");
    AlignedStep(env, ws, "right");
    AlignedStep(env, ws, "bottom");
    SumParts(Part(env, w, "top"), Part(env, w, "left"), Part(env, w, "neutral"),
             Part(env, w, "right"), Part(env, w, "bottom"),
             multiset(Aligned(env, ws[1..], "top")), multiset(Aligned(env, ws[1..], "left")),
             multiset(Aligned(env, ws[1..], "neutral")), multiset(Aligned(env, ws[1..], "right")),
             multiset(Aligned(env, ws[1..], "bottom")));
    PartsOne(env, w);
  }

  lemma PartsOne(env: Env, w: Win)
    requires KnownAlign(AlignOf(env, w))
    ensures Part(env, w, "top") + Part(env, w, "left") + Part(env, w, "neutral")
          + Part(env, w, "right") + Part(env, w, "bottom") == multiset{w}
  {
  }

  /** Five bucket counts, each split into a first part and a rest. */
  lemma SumParts<T>(p1: multiset<T>, p2: multiset<T>, p3: multiset<T>, p4: multiset<T>, p5: multiset<T>,
                    r1: multiset<T>, r2: multiset<T>, r3: multiset<T>, r4: multiset<T>, r5: multiset<T>)
    ensures (p1 + r1) + (p2 + r2) + (p3 + r3) + (p4 + r4) + (p5 + r5)
         == (p1 + p2 + p3 + p4 + p5) + (r1 + r2 + r3 + r4 + r5)
  {
  }

  /** When every alignment is known, the five buckets hold every window once. */
  lemma {:induction false} BucketsPartition(env: Env, ws: seq<Win>)
    requires AllKnown(env, ws)
    ensures Spread(env, ws) == multiset(ws)
    decreases |ws|
  {
    if ws != [] {
      assert AllKnown(env, ws[1..]) by {
        forall i | 0 <= i < |ws[1..]| ensures KnownAlign(AlignOf(env, ws[1..][i])) {
          assert ws[1..][i] == ws[i + 1];
        }
      }
      BucketsPartition(env, ws[1..]);
      SpreadStep(env, ws);
      assert ws == [ws[0]] + ws[1..];
    }
  }

  /** Every tiled window appears in the layout exactly once, whatever the
      layout name. */
  lemma TilesOnce(env: Env, layout: string, ws: seq<Win>)
    requires FillLayout(env, layout, ws).Some?
    ensures multiset(Flatten(FillLayout(env, layout, ws).value)) == multiset(ws)
  {
    if layout == "hstack" {
      FlattenLeaves(ws);
    } else if layout == "vstack" {
      FlattenLeaves(ws);
      FlattenOne(Group(Leaves(ws)));
    } else {
      BucketsPartition(env, ws);
    }
  }

  /** `input_box` as `fill_layout` sets it: the first window that is a
      line-input box, if any. */
  function InputBoxOf(ws: seq<Win>): (r: Option<Win>)
    ensures r.None? <==> forall i :: 0 <= i < |ws| ==> !ws[i].kind.isInput
    ensures r.Some? ==> exists i :: 0 <= i < |ws| && ws[i] == r.value && ws[i].kind.isInput &&
                                    forall j :: 0 <= j < i ==> !ws[j].kind.isInput
  {
    if ws == [] then None
    else if ws[0].kind.isInput then Some(ws[0])
    else
      var r := InputBoxOf(ws[1..]);
      assert forall i :: 1 <= i < |ws| ==> ws[i] == ws[1..][i - 1];
      r
  }
}
