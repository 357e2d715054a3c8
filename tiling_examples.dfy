/** Worked layouts of `_subw` on small inputs, with every window asking for
    all the space it is offered and no configured maximum. */
module TilingExamples {
  import opened Basics
  import opened Windows
  import opened Borders
  import opened Tiling

  /** Windows that want everything, under border mode "none". */
  function Greedy(height: int, width: int): Env
  {
    Env(_ => WinConf(None, None, false, "", "none"), (_, a) => a, (_, a) => a, height, width)
  }

  const NoBorder := Some(Flags(false, false, false, false))

  /** Three windows stacked in 30 rows share them equally: 10 rows each, at
      rows 0, 10 and 20, every one spanning the full width. */
  lemma ThreeStacked(a: Win, b: Win, c: Win)
    ensures Solve(Greedy(30, 80), [Leaf(a), Leaf(b), Leaf(c)], 0, 0, 30, 80, Vertical)
         == Some(Level([10, 10, 10],
                       [PLeaf(a, Rect(0, 0, 10, 80), NoBorder),
                        PLeaf(b, Rect(10, 0, 10, 80), NoBorder),
                        PLeaf(c, Rect(20, 0, 10, 80), NoBorder)]))
  {
    var env := Greedy(30, 80);
    var kids := [Leaf(a), Leaf(b), Leaf(c)];
    assert SizeHeight(env, a, 10) == 10 && SizeHeight(env, b, 10) == 10 && SizeHeight(env, c, 10) == 10;
    assert Zeros(3) == [0, 0, 0];
    assert Zeros(3)[0 := 10] == [10, 0, 0];
    assert [10, 0, 0][1 := 10] == [10, 10, 0];
    assert [10, 10, 0][2 := 10] == [10, 10, 10];
    calc {
      Immediates(env, kids, Vertical, 30, 0, 3, 0, Zeros(3));
      Immediates(env, kids, Vertical, 30, 1, 2, 10, [10, 0, 0]);
      Immediates(env, kids, Vertical, 30, 2, 1, 20, [10, 10, 0]);
      Immediates(env, kids, Vertical, 30, 3, 0, 30, [10, 10, 10]);
    }
    assert kids[1..] == [Leaf(b), Leaf(c)];
    assert kids[1..][1..] == [Leaf(c)];
    assert kids[1..][1..][1..] == [];
    assert GroupCount(kids[1..][1..]) == 0;
    assert GroupCount(kids[1..]) == 0;
    assert GroupCount(kids) == 0;
    var sizes := [10, 10, 10];
    assert Composites(env, kids, Vertical, 0, 0, 30, 80, 3, 0, 30, sizes, Blank(3))
        == Some((30, sizes, Blank(3)));
    assert Composites(env, kids, Vertical, 0, 0, 30, 80, 2, 0, 30, sizes, Blank(3))
        == Some((30, sizes, Blank(3)));
    assert Composites(env, kids, Vertical, 0, 0, 30, 80, 1, 0, 30, sizes, Blank(3))
        == Some((30, sizes, Blank(3)));
    assert Composites(env, kids, Vertical, 0, 0, 30, 80, 0, 0, 30, sizes, Blank(3))
        == Some((30, sizes, Blank(3)));
    assert sizes[..0] == [] && sizes[..1] == [10] && sizes[..2] == [10, 10];
    assert Sum(sizes[..1]) == 10 && Sum(sizes[..2]) == 20;
    var ta := PLeaf(a, Rect(0, 0, 10, 80), NoBorder);
    var tb := PLeaf(b, Rect(10, 0, 10, 80), NoBorder);
    var tc := PLeaf(c, Rect(20, 0, 10, 80), NoBorder);
    assert InitTile(env, a, ChildRect(Vertical, 0, 0, 30, 80, sizes, 0)) == ta;
    assert InitTile(env, b, ChildRect(Vertical, 0, 0, 30, 80, sizes, 1)) == tb;
    assert InitTile(env, c, ChildRect(Vertical, 0, 0, 30, 80, sizes, 2)) == tc;
    var p1 := Blank(3)[0 := ta];
    var p2 := p1[1 := tb];
    var p3 := p2[2 := tc];
    assert p3 == [ta, tb, tc];
    calc {
      PlaceImmediates(env, kids, Vertical, 0, 0, 30, 80, sizes, 0, Blank(3));
      PlaceImmediates(env, kids, Vertical, 0, 0, 30, 80, sizes, 1, p1);
      PlaceImmediates(env, kids, Vertical, 0, 0, 30, 80, sizes, 2, p2);
      PlaceImmediates(env, kids, Vertical, 0, 0, 30, 80, sizes, 3, p3);
    }
  }

  /** One window alone in a vertical level gets all the rows it is offered. */
  lemma Alone(env: Env, w: Win, top: int, left: int, height: int, width: int)
    requires env == Greedy(env.height, env.width)
    ensures Solve(env, [Leaf(w)], top, left, height, width, Vertical)
         == Some(Level([height], [PLeaf(w, Rect(top, left, height, width), NoBorder)]))
  {
    var kids := [Leaf(w)];
    assert SizeHeight(env, w, height) == height;
    assert Zeros(1)[0 := height] == [height];
    assert Immediates(env, kids, Vertical, height, 0, 1, 0, Zeros(1)) == (height, [height]);
    assert kids[1..] == [];
    assert GroupCount(kids) == 0;
    assert Composites(env, kids, Vertical, top, left, height, width, 0, 0, height, [height], Blank(1))
        == Some((height, [height], Blank(1)));
    assert [height][..0] == [];
    var t := PLeaf(w, Rect(top, left, height, width), NoBorder);
    assert InitTile(env, w, ChildRect(Vertical, top, left, height, width, [height], 0)) == t;
    assert Blank(1)[0 := t] == [t];
    calc {
      PlaceImmediates(env, kids, Vertical, top, left, height, width, [height], 0, Blank(1));
      PlaceImmediates(env, kids, Vertical, top, left, height, width, [height], 1, [t]);
    }
  }

  /** The pad-width measure charges a horizontal composite one column less
      than it occupies, so the next sibling starts on the composite's last
      column: in 10 columns, window `c` gets 5, the composite holding `b` is
      offered the other 5 and `b` takes them (columns 0 to 4), yet `c` is
      placed from column 4. */
  lemma OverlapAfterComposite(b: Win, c: Win)
    ensures Solve(Greedy(5, 10), [Group([Leaf(b)]), Leaf(c)], 0, 0, 5, 10, Horizontal)
         == Some(Level([4, 5],
                       [PGroup([PLeaf(b, Rect(0, 0, 5, 5), NoBorder)]),
                        PLeaf(c, Rect(0, 4, 5, 5), NoBorder)]))
  {
    var env := Greedy(5, 10);
    var kids := [Group([Leaf(b)]), Leaf(c)];
    assert SizeWidth(env, c, 5) == 5;
    assert Zeros(2) == [0, 0];
    assert Zeros(2)[1 := 5] == [0, 5];
    calc {
      Immediates(env, kids, Horizontal, 10, 0, 2, 0, Zeros(2));
      Immediates(env, kids, Horizontal, 10, 1, 2, 0, Zeros(2));
      Immediates(env, kids, Horizontal, 10, 2, 1, 5, [0, 5]);
    }
    assert kids[1..] == [Leaf(c)] && kids[1..][1..] == [];
    assert GroupCount(kids[1..]) == 0;
    assert GroupCount(kids) == 1;
    Alone(env, b, 0, 0, 5, 5);
    var gb := PGroup([PLeaf(b, Rect(0, 0, 5, 5), NoBorder)]);
    assert MeasureAll([PLeaf(b, Rect(0, 0, 5, 5), NoBorder)], Width) == Some(4);
    assert [0, 5][..0] == [];
    assert [0, 5][0 := 4] == [4, 5];
    assert Blank(2)[0 := gb] == [gb, PGroup([])];
    calc {
      Composites(env, kids, Horizontal, 0, 0, 5, 10, 0, 1, 5, [0, 5], Blank(2));
      Composites(env, kids, Horizontal, 0, 0, 5, 10, 1, 0, 9, [4, 5], [gb, PGroup([])]);
      Composites(env, kids, Horizontal, 0, 0, 5, 10, 2, 0, 9, [4, 5], [gb, PGroup([])]);
    }
    assert [4, 5][..1] == [4];
    var tc := PLeaf(c, Rect(0, 4, 5, 5), NoBorder);
    assert InitTile(env, c, ChildRect(Horizontal, 0, 0, 5, 10, [4, 5], 1)) == tc;
    assert [gb, PGroup([])][1 := tc] == [gb, tc];
    calc {
      PlaceImmediates(env, kids, Horizontal, 0, 0, 5, 10, [4, 5], 0, [gb, PGroup([])]);
      PlaceImmediates(env, kids, Horizontal, 0, 0, 5, 10, [4, 5], 1, [gb, PGroup([])]);
      PlaceImmediates(env, kids, Horizontal, 0, 0, 5, 10, [4, 5], 2, [gb, tc]);
    }
  }
}
