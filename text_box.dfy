/** The `TextBox` window of canto_curses/text.py: a pre-rendered text that
    is shown through a pad of fixed height, scrolled by an offset clamped to
    the part of the text that does not fit. The offset is the GUI variable
    `textbox_offset`, held here as a field; the pad's height counts the one
    extra row every pad carries below its visible region. */
module TextBoxes {
  import opened Basics
  import opened Windows
  import opened Borders

  /** The number of pad lines a render takes: the content rows, a row for
      each horizontal border, and the extra row that keeps the pad's dead
      bottom-right cell out of sight. */
  function RenderedLines(rows: nat, top: bool, bottom: bool): (n: nat)
    ensures n >= rows + 1
    ensures n <= rows + 3
    ensures n == rows + 1 <==> !top && !bottom
  {
    rows + (if top then 1 else 0) + (if bottom then 1 else 0) + 1
  }

  /** `max((lines - 1) - (height - 1), 0)`: how far the text can scroll. */
  function MaxOffset(lines: int, height: int): (m: int)
    ensures m >= 0
    ensures m >= (lines - 1) - (height - 1)
    ensures m == 0 || m == (lines - 1) - (height - 1)
  {
    Max((lines - 1) - (height - 1), 0)
  }

  /** The largest offset is the smallest non-negative offset at which the
      last text line is on the visible rows: an offset shows the last line
      exactly when it is at least the largest offset. */
  lemma MaxOffsetShowsEnd(lines: int, height: int, o: int)
    requires o >= 0
    ensures o + (height - 1) >= lines - 1 <==> o >= MaxOffset(lines, height)
  {
  }

  /** A text that fits does not scroll at all. */
  lemma FitsNoScroll(rows: nat, top: bool, bottom: bool, height: int)
    requires RenderedLines(rows, top, bottom) <= height
    ensures MaxOffset(RenderedLines(rows, top, bottom), height) == 0
  {
  }

  /** `_relscroll(factor)`: move by `factor`, then clamp into
      `[0, maxOffset]`, the upper bound applied first. */
  function Scrolled(offset: int, factor: int, maxOffset: int): (r: int)
    ensures r >= 0
    ensures maxOffset >= 0 ==> r <= maxOffset
    ensures 0 <= offset + factor <= maxOffset ==> r == offset + factor
    ensures offset + factor < 0 ==> r == 0
    ensures offset + factor > maxOffset ==> r == Max(maxOffset, 0)
  {
    Max(Min(offset + factor, maxOffset), 0)
  }

  /** At either end, scrolling further changes nothing. */
  lemma {:induction false} ScrollStops(maxOffset: int, k: int)
    requires maxOffset >= 0 && k >= 0
    ensures Scrolled(maxOffset, k, maxOffset) == maxOffset
    ensures Scrolled(0, -k, maxOffset) == 0
  {
    assert Min(maxOffset + k, maxOffset) == maxOffset;
    assert Min(-k, maxOffset) == -k;
  }

  /** Within the scroll range, scrolling back undoes a scroll. */
  lemma ScrollBack(offset: int, k: int, maxOffset: int)
    requires 0 <= offset <= maxOffset && 0 <= offset + k <= maxOffset
    ensures Scrolled(Scrolled(offset, k, maxOffset), -k, maxOffset) == offset
  {
  }

  /** A scroll lands where a single clamp of the unclamped sum would, so
      two scrolls the same way land where one scroll by their sum would,
      as long as the first does not hit an end. */
  lemma ScrollsAdd(offset: int, a: int, b: int, maxOffset: int)
    requires 0 <= offset + a <= maxOffset
    ensures Scrolled(Scrolled(offset, a, maxOffset), b, maxOffset) == Scrolled(offset, a + b, maxOffset)
  {
  }

  /** A text box shows its whole offer: it asks for every row and column it
      is given, so only its configured maximum bounds it. */
  function GetHeight(mheight: int): (r: int)
    ensures r == mheight
  {
    mheight
  }

  function GetWidth(mwidth: int): (r: int)
    ensures r == mwidth
  {
    mwidth
  }

  /** `is_input()`: a text box never edits a line. */
  function IsInput(): (r: bool)
    ensures !r
  {
    false
  }

  /** With a text box's requests, the min rule is the available extent
      capped by a bounded maximum. */
  lemma TextBoxSize(env: Env, w: Win, avail: int)
    requires forall a :: env.wantHeight(w.kind, a) == GetHeight(a)
    ensures Unbounded(ConfOf(env, w).maxHeight) ==> SizeHeight(env, w, avail) == avail
    ensures !Unbounded(ConfOf(env, w).maxHeight) ==>
      SizeHeight(env, w, avail) == Min(avail, ConfOf(env, w).maxHeight.value)
  {
    assert env.wantHeight(w.kind, avail) == avail;
  }

  /** The same for columns: a text box's width is the offer, capped by
      `maxwidth` when that is bounded. */
  lemma TextBoxWidth(env: Env, w: Win, avail: int)
    requires forall a :: env.wantWidth(w.kind, a) == GetWidth(a)
    ensures Unbounded(ConfOf(env, w).maxWidth) ==> SizeWidth(env, w, avail) == avail
    ensures !Unbounded(ConfOf(env, w).maxWidth) ==>
      SizeWidth(env, w, avail) == Min(avail, ConfOf(env, w).maxWidth.value)
  {
    assert env.wantWidth(w.kind, avail) == avail;
  }

  class TextBox {
    /** The pad's height and width, from `getmaxyx()`. */
    var height: int
    var width: int
    var maxOffset: int
    /** The GUI variable `textbox_offset`. */
    var offset: int
    /** The GUI variable `needs_redraw`. */
    var needsRedraw: bool
    /** The height of the pre-rendered pad. */
    var lines: int

    /** `init(pad, callbacks)` */
    constructor(offset: int)
      ensures maxOffset == 0 && this.offset == offset && !needsRedraw
    {
      height := 0;
      width := 0;
      maxOffset := 0;
      this.offset := offset;
      needsRedraw := false;
      lines := 0;
    }

    /** `render(pad)`, where `rows` is the number of rows the theme printer
        fills with the text and `border` the window's border flags. */
    method Render(rows: nat, border: Flags) returns (n: nat)
      ensures n == RenderedLines(rows, border.top, border.bottom)
    {
      n := 0;
      if border.top {
        n := n + 1;
      }
      var left := rows;
      while left > 0
        invariant 0 <= left <= rows
        invariant n == (if border.top then 1 else 0) + (rows - left)
      {
        left := left - 1;
        n := n + 1;
      }
      if border.bottom {
        n := n + 1;
      }
      n := n + 1;
    }

    /** `refresh()` on a pad of `padHeight` by `padWidth`: re-render, take
        the new scroll range and pull the offset down into it. An offset
        below zero is left as it is. */
    method Refresh(padHeight: int, padWidth: int, rows: nat, border: Flags)
      modifies this
      ensures height == padHeight && width == padWidth
      ensures lines == RenderedLines(rows, border.top, border.bottom)
      ensures maxOffset == MaxOffset(lines, height)
      ensures offset == Min(old(offset), maxOffset)
      ensures needsRedraw
    {
      height := padHeight;
      width := padWidth;
      var n := Render(rows, border);
      lines := n;
      maxOffset := Max((n - 1) - (height - 1), 0);
      offset := Min(offset, maxOffset);
      needsRedraw := true;
    }

    /** `_relscroll(factor)` */
    method RelScroll(factor: int)
      modifies this`offset, this`needsRedraw
      ensures offset == Scrolled(old(offset), factor, maxOffset)
      ensures maxOffset >= 0 ==> 0 <= offset <= maxOffset
      ensures needsRedraw
    {
      var o := offset + factor;
      o := Min(o, maxOffset);
      o := Max(o, 0);
      offset := o;
      needsRedraw := true;
    }

    /** `cmd_scroll_up` */
    method ScrollUp()
      modifies this`offset, this`needsRedraw
      ensures offset == Scrolled(old(offset), -1, maxOffset) && needsRedraw
    {
      RelScroll(-1);
    }

    /** `cmd_scroll_down` */
    method ScrollDown()
      modifies this`offset, this`needsRedraw
      ensures offset == Scrolled(old(offset), 1, maxOffset) && needsRedraw
    {
      RelScroll(1);
    }

    /** `cmd_page_up`: a page is the pad's height less its extra row. */
    method PageUp()
      modifies this`offset, this`needsRedraw
      ensures offset == Scrolled(old(offset), -(height - 1), maxOffset) && needsRedraw
    {
      RelScroll(-1 * (height - 1));
    }

    /** `cmd_page_down` */
    method PageDown()
      modifies this`offset, this`needsRedraw
      ensures offset == Scrolled(old(offset), height - 1, maxOffset) && needsRedraw
    {
      RelScroll(height - 1);
    }
  }
}
