/** Focus resolution, `_focus(idx)` (canto_curses/screen.py:584-593): windows
    are numbered from the last float backwards through the tiles, and a
    negative index counts from the other end, as Python list indexing
    does. */
module Focus {
  import opened Basics
  import opened Windows

  /** `focus_order[idx]` when `-l < idx < l`, and nothing otherwise. */
  function Pick(order: seq<Win>, idx: int): (r: Option<Win>)
    ensures r.Some? <==> -|order| < idx < |order|
    ensures r.Some? ==> r.value in order
  {
    if 0 <= idx < |order| then Some(order[idx])
    else if -|order| < idx < 0 then Some(order[|order| + idx])
    else None
  }

  /** The window index `idx` names among `tiles` and `floats`. */
  function FocusTarget(tiles: seq<Win>, floats: seq<Win>, idx: int): Option<Win>
  {
    Pick(Reverse(tiles + floats), idx)
  }

  /** Index `idx` counts back from the last float; index `-idx` counts
      forward from the first tile, starting at 1. */
  lemma FocusIndex(tiles: seq<Win>, floats: seq<Win>, idx: int)
    ensures var all := tiles + floats;
      (0 <= idx < |all| ==> FocusTarget(tiles, floats, idx) == Some(all[|all| - 1 - idx])) &&
      (-|all| < idx < 0 ==> FocusTarget(tiles, floats, idx) == Some(all[-idx - 1])) &&
      (idx <= -|all| || |all| <= idx ==> FocusTarget(tiles, floats, idx) == None)
  {
  }

  /** A non-negative index and the same index less the number of windows
      name the same window. */
  lemma FocusWraps(tiles: seq<Win>, floats: seq<Win>, idx: int)
    requires 0 < idx < |tiles| + |floats|
    ensures FocusTarget(tiles, floats, idx) == FocusTarget(tiles, floats, idx - |tiles| - |floats|)
  {
  }

  /** Index 0, which `subwindows` focuses, is the last float, or the last
      tile when there are no floats. */
  lemma {:induction false} FocusFirst(tiles: seq<Win>, floats: seq<Win>)
    ensures floats != [] ==> FocusTarget(tiles, floats, 0) == Some(floats[|floats| - 1])
    ensures floats == [] && tiles != [] ==> FocusTarget(tiles, floats, 0) == Some(tiles[|tiles| - 1])
    ensures floats == [] && tiles == [] ==> FocusTarget(tiles, floats, 0) == None
  {
    var all := tiles + floats;
    if all != [] {
      assert Reverse(all)[0] == all[|all| - 1];
    }
  }
}
