/** The `Screen` object of canto_curses/screen.py: the list of window classes,
    the windows instantiated from them (split into tiles and floats), their
    layout, the focused window, and the state the input loop shares with the
    rest of the program. Curses, threads and hooks are not part of this
    model; the terminal size and configuration are the `env` field. */
module Screens {
  import opened Basics
  import opened Windows
  import opened Tiling
  import opened Floats
  import opened Layouts
  import opened Focus
  import opened Keys

  /** Instantiating the window classes `kinds` in order, each instance a new
      object, numbered from `first` on. */
  function Instances(first: nat, kinds: seq<WinKind>): (ws: seq<Win>)
    ensures |ws| == |kinds|
    ensures forall i :: 0 <= i < |ws| ==> ws[i] == Win(first + i, kinds[i])
  {
    seq(|kinds|, i requires 0 <= i < |kinds| => Win(first + i, kinds[i]))
  }

  predicate IsFloat(env: Env, w: Win)
  {
    ConfOf(env, w).isFloat
  }

  /** The floats (`wantFloat`) or the tiles of `ws`, in order. */
  function Split(env: Env, ws: seq<Win>, wantFloat: bool): (r: seq<Win>)
    ensures forall i :: 0 <= i < |r| ==> IsFloat(env, r[i]) == wantFloat
    decreases |ws|
  {
    if ws == [] then []
    else
      var last := ws[|ws| - 1];
      Split(env, ws[..|ws| - 1], wantFloat) + (if IsFloat(env, last) == wantFloat then [last] else [])
  }

  /** Every window is a tile or a float, never both. */
  lemma {:induction false} SplitPartition(env: Env, ws: seq<Win>)
    ensures multiset(Split(env, ws, false)) + multiset(Split(env, ws, true)) == multiset(ws)
    decreases |ws|
  {
    if ws != [] {
      var init := ws[..|ws| - 1];
      SplitPartition(env, init);
      assert ws == init + [ws[|ws| - 1]];
    }
  }

  /** Every float set up by `_subw_init` at its anchored rectangle. */
  function PlaceFloats(env: Env, fs: seq<Win>): (ps: seq<Placed>)
    ensures |ps| == |fs| && forall i :: 0 <= i < |fs| ==> ps[i] == InitFloat(env, fs[i])
  {
    seq(|fs|, i requires 0 <= i < |fs| => InitFloat(env, fs[i]))
  }

  /** `del s[i]` */
  function Remove<T>(s: seq<T>, i: nat): (r: seq<T>)
    requires i < |s|
    ensures |r| == |s| - 1
  {
    s[..i] + s[i + 1..]
  }

  function Kinds(ws: seq<Win>): (ks: seq<WinKind>)
    ensures |ks| == |ws| && forall i :: 0 <= i < |ws| ==> ks[i] == ws[i].kind
  {
    seq(|ws|, i requires 0 <= i < |ws| => ws[i].kind)
  }

  /** Removing the dying window's entry from the window list and from the
      class list at the same position keeps the two lists in step: what is
      left of the classes are the classes of the windows that are left, and
      exactly one instance of the dying window's class is gone. */
  lemma DieKeepsListsInStep(ws: seq<Win>, ks: seq<WinKind>, w: Win)
    requires ks == Kinds(ws)
    requires IndexOf(ws, w).Some?
    ensures var i := IndexOf(ws, w).value;
      Remove(ks, i) == Kinds(Remove(ws, i)) &&
      multiset(Remove(ks, i)) + multiset{w.kind} == multiset(ks)
  {
    var i := IndexOf(ws, w).value;
    var r := Remove(ks, i);
    forall j | 0 <= j < |r| ensures r[j] == Kinds(Remove(ws, i))[j] {
      if j < i {
        assert r[j] == ks[j] && Remove(ws, i)[j] == ws[j];
      } else {
        assert r[j] == ks[j + 1] && Remove(ws, i)[j] == ws[j + 1];
      }
    }
    RemoveCount(ks, i);
  }

  /** `del s[i]` takes exactly one occurrence of `s[i]` away. */
  lemma RemoveCount<T>(s: seq<T>, i: nat)
    requires i < |s|
    ensures multiset(Remove(s, i)) + multiset{s[i]} == multiset(s)
  {
    assert s == s[..i] + [s[i]] + s[i + 1..];
    assert multiset(s) == multiset(s[..i]) + multiset{s[i]} + multiset(s[i + 1..]);
  }

  /** The loop calling `die()` on every window: appends them to `died`,
      in order. */
  method DieAll(died: seq<Win>, ws: seq<Win>) returns (dead: seq<Win>)
    ensures dead == died + ws
  {
    dead := died;
    var i := 0;
    while i < |ws|
      invariant 0 <= i <= |ws|
      invariant dead == died + ws[..i]
    {
      dead := dead + [ws[i]];
      i := i + 1;
    }
    assert ws[..i] == ws;
  }

  /** The loop instantiating every window class in order, each instance a
      new object, and appending it to the floats or the tiles as its `float`
      option says. */
  method InstantiateAll(env: Env, kinds: seq<WinKind>, first: nat) returns (ws: seq<Win>, tiles: seq<Win>, floats: seq<Win>)
    ensures ws == Instances(first, kinds)
    ensures tiles == Split(env, ws, false) && floats == Split(env, ws, true)
  {
    ws, tiles, floats := [], [], [];
    var j := 0;
    while j < |kinds|
      invariant 0 <= j <= |kinds|
      invariant ws == Instances(first, kinds[..j])
      invariant tiles == Split(env, ws, false) && floats == Split(env, ws, true)
    {
      var w := Win(first + j, kinds[j]);
      if ConfOf(env, w).isFloat {
        floats := floats + [w];
      } else {
        tiles := tiles + [w];
      }
      assert (ws + [w])[..|ws|] == ws;
      ws := ws + [w];
      j := j + 1;
    }
    assert kinds[..j] == kinds;
  }

  /** The loop calling `_subw_init` on every float, in order. */
  method InitFloats(env: Env, fl: seq<Win>) returns (placed: seq<Placed>)
    ensures placed == PlaceFloats(env, fl)
  {
    placed := [];
    var k := 0;
    while k < |fl|
      invariant 0 <= k <= |fl|
      invariant placed == PlaceFloats(env, fl[..k])
    {
      placed := placed + [InitFloat(env, fl[k])];
      k := k + 1;
    }
    assert fl[..k] == fl;
  }

  class Screen {
    var env: Env
    var layout: string
    var windowTypes: seq<WinKind>
    var windows: seq<Win>
    var tiles: seq<Win>
    var floats: seq<Win>
    var focused: Option<Win>
    var inputBox: Option<Win>
    /** What `_subw` set up for the tiles; `None` stands for a raise in
        `fill_layout` or `_subw`, and then records nothing about windows set
        up before it. */
    var tiled: Option<Level>
    /** What `_subw_init` set up for the floats. */
    var floated: seq<Placed>
    /** The windows whose `die()` has been called, in order. */
    var died: seq<Win>
    /** The identity the next instantiated window receives. */
    var nextId: nat
    var subEdit: bool
    var queue: seq<Event>
    var fed: seq<int>
    var inputDone: bool
    var needsRedraw: bool

    /** The windows are the instances of the window classes, position by
        position, split into tiles and floats by their `float` option. */
    ghost predicate Valid()
      reads this`env, this`windowTypes, this`windows, this`tiles, this`floats
    {
      windowTypes == Kinds(windows) &&
      tiles == Split(env, windows, false) && floats == Split(env, windows, true)
    }

    /** The windows were instantiated afresh, from identity `first` on. */
    ghost predicate Rebuilt(first: nat)
      reads this`env, this`windowTypes, this`windows, this`tiles, this`floats, this`nextId, this`inputBox
    {
      Valid() && windows == Instances(first, windowTypes) && nextId == first + |windowTypes| &&
      inputBox == InputBoxOf(tiles)
    }

    /** The tile layout `subwindows` asks `_subw` for, when `fill_layout`
        can build it. */
    function TileLayout(): Option<Level>
      reads this`env, this`layout, this`tiles
    {
      var l := FillLayout(env, layout, tiles);
      if l.None? then None else Solve(env, l.value, 0, 0, env.height, env.width, Vertical)
    }

    /** The outcome of `subwindows`: the tiles set up as the layout says;
        when it could be built, every float set up and the first window in
        focus order focused; when it raised, `tiled` is `None`, no float is
        placed and nothing is focused. */
    ghost predicate Laid()
      reads this`env, this`layout, this`tiles, this`floats, this`tiled, this`floated, this`focused
    {
      tiled == TileLayout() &&
      (tiled.Some? ==> floated == PlaceFloats(env, floats) && focused == FocusTarget(tiles, floats, 0)) &&
      (tiled.None? ==> floated == [] && focused == None)
    }

    function InputState(): Input
      reads this`subEdit, this`queue, this`fed, this`inputDone, this`needsRedraw
    {
      Input(subEdit, queue, fed, inputDone, needsRedraw)
    }

    /** `Screen(user_queue, callbacks, types)` */
    constructor (env: Env, types: seq<WinKind>)
      ensures this.env == env && layout == "default" && windowTypes == types
      ensures died == [] && Rebuilt(0) && Laid()
    {
      this.env := env;
      layout := "default";
      windowTypes := types;
      inputBox := None;
      subEdit := false;
      floats, tiles, windows := [], [], [];
      focused, tiled, floated := None, None, [];
      died, nextId := [], 0;
      queue, fed, inputDone, needsRedraw := [], [], false, false;
      new;
      var ok := Subwindows();
    }

    /** `subwindows()`: every current window dies, each window class is
        instantiated again, and the new windows are laid out. */
    method Subwindows() returns (ok: bool)
      modifies this`died, this`floats, this`tiles, this`windows, this`nextId
      modifies this`focused, this`inputBox, this`tiled, this`floated
      ensures died == old(died) + old(windows)
      ensures Rebuilt(old(nextId)) && Laid() && ok == tiled.Some?
    {
      Instantiate();
      ok := LayOut();
    }

    /** The first half of `subwindows`: the current windows die and the
        window classes are instantiated afresh, floats apart from tiles. */
    method Instantiate()
      modifies this`died, this`floats, this`tiles, this`windows, this`nextId, this`focused
      ensures died == old(died) + old(windows)
      ensures windows == Instances(old(nextId), windowTypes) && nextId == old(nextId) + |windowTypes|
      ensures Valid() && focused == None
    {
      var dead := DieAll(died, windows);
      var ws, ti, fl := InstantiateAll(env, windowTypes, nextId);
      died, floats, tiles, windows, nextId := dead, fl, ti, ws, nextId + |windowTypes|;
      focused := None;
    }

    /** The second half of `subwindows`: `fill_layout` picks the input box
        and builds the tile layout, `_subw` lays it out, each float is set
        up at its anchored rectangle, and window 0 is focused. */
    method LayOut() returns (ok: bool)
      requires focused == None
      modifies this`inputBox, this`tiled, this`floated, this`focused
      ensures inputBox == InputBoxOf(tiles) && Laid() && ok == tiled.Some?
    {
      inputBox := InputBoxOf(tiles);
      var l := FillLayout(env, layout, tiles);
      if l.None? {
        tiled, floated := None, [];
        return false;
      }
      tiled := Subw(env, l.value, 0, 0, env.height, env.width, Vertical);
      if tiled.None? {
        floated := [];
        return false;
      }
      floated := InitFloats(env, floats);
      Focus(0);
      ok := true;
    }

    /** `_focus(idx)`: focus the window at `idx` in the reversed list of
        tiles and floats; an index out of range leaves the focus alone. */
    method Focus(idx: int)
      modifies this`focused
      ensures FocusTarget(tiles, floats, idx).Some? ==> focused == FocusTarget(tiles, floats, idx)
      ensures FocusTarget(tiles, floats, idx).None? ==> focused == old(focused)
    {
      var order := Reverse(tiles + floats);
      var l := |order|;
      if -1 * l < idx < l {
        focused := Some(if idx >= 0 then order[idx] else order[l + idx]);
      }
    }

    /** `die_callback(window)`: the window dies, it and its class leave the
        two lists, and the remaining classes are laid out afresh. When the
        window is not in the list, `index` raises after `die()`: `ok` is
        false and nothing else changes. */
    method DieCallback(w: Win) returns (ok: bool)
      requires Valid()
      modifies this`died, this`floats, this`tiles, this`windows, this`windowTypes, this`nextId
      modifies this`focused, this`inputBox, this`tiled, this`floated
      ensures IndexOf(old(windows), w).None? ==>
        !ok && died == old(died) + [w] && windows == old(windows) && windowTypes == old(windowTypes) &&
        tiles == old(tiles) && floats == old(floats) && nextId == old(nextId) &&
        tiled == old(tiled) && floated == old(floated) && focused == old(focused) &&
        inputBox == old(inputBox) && Valid()
      ensures IndexOf(old(windows), w).Some? ==>
        var i := IndexOf(old(windows), w).value;
        windowTypes == Remove(old(windowTypes), i) &&
        died == old(died) + [w] + Remove(old(windows), i) &&
        Rebuilt(old(nextId)) && Laid() && ok == tiled.Some?
    {
      died := died + [w];
      var idx := IndexOf(windows, w);
      if idx.None? {
        return false;
      }
      var i := idx.value;
      windows := Remove(windows, i);
      windowTypes := Remove(windowTypes, i);
      ok := Subwindows();
    }

    /** `add_window_callback(cls)`: the class joins the list, every window is
        laid out afresh and the first window in focus order is focused. Its
        own `_focus(0)` repeats the last step of `subwindows`, which leaves
        the focus as it is, and is not run when `subwindows` raises. */
    method AddWindowCallback(k: WinKind) returns (ok: bool)
      modifies this`died, this`floats, this`tiles, this`windows, this`windowTypes, this`nextId
      modifies this`focused, this`inputBox, this`tiled, this`floated
      ensures windowTypes == old(windowTypes) + [k]
      ensures died == old(died) + old(windows)
      ensures Rebuilt(old(nextId)) && Laid() && ok == tiled.Some?
    {
      windowTypes := windowTypes + [k];
      ok := Subwindows();
    }

    /** One pass of `input_thread` with key `r`, where `rc` is what the edit
        box's `addkey(r)` returns. */
    method KeyStep(r: int, rc: int)
      modifies this`subEdit, this`queue, this`fed, this`inputDone, this`needsRedraw
      ensures InputState() == Step(old(InputState()), r, rc)
      ensures windows == old(windows) && tiles == old(tiles) && floats == old(floats)
      ensures focused == old(focused) && windowTypes == old(windowTypes)
    {
      if r == NoKey {
        return;
      }
      if subEdit {
        fed := fed + [r];
        if rc == 0 {
          subEdit := false;
          inputDone := true;
          needsRedraw := true;
        }
        return;
      }
      queue := queue + [Key(r)];
    }
  }
}
