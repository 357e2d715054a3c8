/** Placement of floating windows by `subwindows` (canto_curses/screen.py:441-454):
    a float is sized by the min rule against the whole screen and anchored to
    the bottom when its alignment starts with "bottom", to the right when it
    ends with "right", and to the top-left corner otherwise. */
module Floats {
  import opened Basics
  import opened Windows
  import opened Borders
  import opened Tiling

  /** The rectangle lies on the screen. */
  predicate OnScreen(r: Rect, screenHeight: int, screenWidth: int)
  {
    0 <= r.height && 0 <= r.top && r.top + r.height <= screenHeight &&
    0 <= r.width && 0 <= r.left && r.left + r.width <= screenWidth
  }

  /** The rectangle `subwindows` hands float `w`. */
  function FloatRect(env: Env, w: Win): (r: Rect)
    ensures r.height == SizeHeight(env, w, env.height) && r.width == SizeWidth(env, w, env.width)
    ensures StartsWith(ConfOf(env, w).align, "bottom") ==> r.top + r.height == env.height
    ensures !StartsWith(ConfOf(env, w).align, "bottom") ==> r.top == 0
    ensures EndsWith(ConfOf(env, w).align, "right") ==> r.left + r.width == env.width
    ensures !EndsWith(ConfOf(env, w).align, "right") ==> r.left == 0
    ensures NonNegative(env) && env.height >= 0 && env.width >= 0 ==> OnScreen(r, env.height, env.width)
  {
    var align := ConfOf(env, w).align;
    var height := SizeHeight(env, w, env.height);
    var width := SizeWidth(env, w, env.width);
    var top := if StartsWith(align, "bottom") then env.height - height else 0;
    var left := if EndsWith(align, "right") then env.width - width else 0;
    Rect(top, left, height, width)
  }

  /** `_subw_init` on a float: its rectangle, and its border flags computed
      as those of a float. */
  function InitFloat(env: Env, w: Win): (p: Placed)
    ensures p.PLeaf? && p.w == w && p.rect == FloatRect(env, w)
    ensures p.border == BorderFlags(ConfOf(env, w).border, ConfOf(env, w).align, true,
                                    FloatRect(env, w), env.height, env.width)
  {
    var r := FloatRect(env, w);
    PLeaf(w, r, BorderFlags(ConfOf(env, w).border, ConfOf(env, w).align, true, r, env.height, env.width))
  }

  /** A float anchored to the bottom under "smart" borders has its top border
      (the alignment names "bottom") and, unless the alignment also names
      "top", no bottom border (it sits on the screen's last row). */
  lemma {:induction false} BottomFloatBorders(env: Env, w: Win)
    requires ConfOf(env, w).border == "smart"
    requires StartsWith(ConfOf(env, w).align, "bottom")
    ensures var f := InitFloat(env, w).border;
      f.Some? && f.value.top &&
      (f.value.bottom <==> Contains(ConfOf(env, w).align, "top"))
  {
    StartsWithContains(ConfOf(env, w).align, "bottom");
  }

  /** A float anchored to the right under "smart" borders has no right
      border; one not anchored to the right has no left border. */
  lemma FloatSideBorders(env: Env, w: Win)
    requires ConfOf(env, w).border == "smart"
    ensures var f := InitFloat(env, w).border;
      f.Some? &&
      (EndsWith(ConfOf(env, w).align, "right") ==> !f.value.right) &&
      (!EndsWith(ConfOf(env, w).align, "right") ==> !f.value.left)
  {
  }

  /** A float aligned "bottomright" with at most 10 rows and 20 columns, on
      a 24-row, 80-column screen, whose window asks for all it is offered:
      rows 14 to 23, columns 60 to 79; under "smart" borders it has a top
      and a left border only. */
  lemma BottomRightExample(w: Win)
    ensures var env := Env(_ => WinConf(Some(10), Some(20), true, "bottomright", "smart"),
                           (_, a) => a, (_, a) => a, 24, 80);
      InitFloat(env, w) == PLeaf(w, Rect(14, 60, 10, 20), Some(Flags(true, true, false, false)))
  {
    BottomRightWords();
  }

  /** "bottomright" names the bottom and the right edge, and not the top. */
  lemma BottomRightWords()
    ensures var align := "bottomright";
      StartsWith(align, "bottom") && EndsWith(align, "right") &&
      Contains(align, "bottom") && !Contains(align, "top")
  {
    var align := "bottomright";
    assert StartsWith(align, "bottom") by { assert align[..6] == "bottom"; }
    assert EndsWith(align, "right") by { assert align[|align| - 5..] == "right"; }
    assert Contains(align, "bottom") by { StartsWithContains(align, "bottom"); }
    assert !Contains(align, "top") by {
      // There is no 'p' in "bottomright".
      assert forall i :: 0 <= i < |align| ==> align[i] != 'p';
      forall k | 0 <= k <= |align| - 3 ensures !OccursAt(align, "top", k) {
        assert align[k..k + 3][2] == align[k + 2];
      }
    }
  }

}
