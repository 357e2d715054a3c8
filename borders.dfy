/** The border flags `_subw_init` hands each window through its `border`
    callback (canto_curses/screen.py:227-248), as the tuple
    (top, left, bottom, right). */
module Borders {
  import opened Basics
  import opened Windows

  datatype Flags = Flags(top: bool, left: bool, bottom: bool, right: bool)

  /** The rectangle's first row is the screen's first row. */
  predicate OnTopEdge(r: Rect)
  {
    r.top == 0
  }

  /** The rectangle's last row is the screen's last row. */
  predicate OnBottomEdge(r: Rect, screenHeight: int)
  {
    r.top + r.height == screenHeight
  }

  predicate OnLeftEdge(r: Rect)
  {
    r.left == 0
  }

  predicate OnRightEdge(r: Rect, screenWidth: int)
  {
    r.left + r.width == screenWidth
  }

  /** The border mode of a window placed at `r`. Under "smart" an edge gets a
      border unless it lies on the screen's edge; for a float, an alignment
      naming "top" forces the bottom border on and one naming "bottom" forces
      the top border on. A mode other than the three known ones leaves the
      flags unset, so asking for them fails: `None`. */
  function BorderFlags(mode: string, align: string, isFloat: bool, r: Rect,
                       screenHeight: int, screenWidth: int): (f: Option<Flags>)
    ensures f.None? <==> mode != "smart" && mode != "full" && mode != "none"
    ensures mode == "full" ==> f == Some(Flags(true, true, true, true))
    ensures mode == "none" ==> f == Some(Flags(false, false, false, false))
    ensures mode == "smart" ==>
      f.Some? &&
      (f.value.left <==> !OnLeftEdge(r)) &&
      (f.value.right <==> !OnRightEdge(r, screenWidth)) &&
      (f.value.top <==> !OnTopEdge(r) || (isFloat && Contains(align, "bottom"))) &&
      (f.value.bottom <==> !OnBottomEdge(r, screenHeight) || (isFloat && Contains(align, "top")))
  {
    if mode == "smart" then
      var bottom := r.top + (r.height - 1);
      var right := r.left + (r.width - 1);
      var topB := r.top != 0;
      var bottomB := bottom != screenHeight - 1;
      var leftB := r.left != 0;
      var rightB := right != screenWidth - 1;
      var topB' := if isFloat && Contains(align, "bottom") then true else topB;
      var bottomB' := if isFloat && Contains(align, "top") then true else bottomB;
      Some(Flags(topB', leftB, bottomB', rightB))
    else if mode == "full" then
      Some(Flags(true, true, true, true))
    else if mode == "none" then
      Some(Flags(false, false, false, false))
    else
      None
  }

  /** Under "smart", a tile that fills the whole screen has no border at all;
      one that touches no screen edge has all four. */
  lemma SmartTileBorders(r: Rect, screenHeight: int, screenWidth: int)
    ensures r == Rect(0, 0, screenHeight, screenWidth) ==>
      BorderFlags("smart", "", false, r, screenHeight, screenWidth) == Some(Flags(false, false, false, false))
    ensures r.top > 0 && r.left > 0 && r.top + r.height < screenHeight && r.left + r.width < screenWidth ==>
      BorderFlags("smart", "", false, r, screenHeight, screenWidth) == Some(Flags(true, true, true, true))
  {
  }
}
