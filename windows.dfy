/** Window descriptors as the screen sees them, their per-window configuration,
    and the sizing rule `_subw_size_height` / `_subw_size_width` of
    canto_curses/screen.py: a window gets the minimum of the space on offer, its
    configured maximum and the size it asks for. */
module Windows {
  import opened Basics

  /** A window class: the name its options live under (`get_opt_name`) and
      whether it is a line-input box (`is_input`). */
  datatype WinKind = WinKind(optName: string, isInput: bool)

  /** A window object. `id` is its identity: each instantiation of a class
      yields a new object, so two windows of one kind are still different. */
  datatype Win = Win(id: nat, kind: WinKind)

  /** The options `<name>.maxheight`, `<name>.maxwidth`, `<name>.float`,
      `<name>.align` and `<name>.border`. A maximum that is absent or zero
      means "not bounded by configuration". */
  datatype WinConf = WinConf(
    maxHeight: Option<int>,
    maxWidth: Option<int>,
    isFloat: bool,
    align: string,
    border: string)

  /** What the screen consults while laying windows out: the configuration,
      the size each window class asks for given the space on offer
      (`get_height(avail)`, `get_width(avail)`), and the terminal size. */
  datatype Env = Env(
    conf: string -> WinConf,
    wantHeight: (WinKind, int) -> int,
    wantWidth: (WinKind, int) -> int,
    height: int,
    width: int)

  /** A rectangle of the character grid: first row and column, and extent. */
  datatype Rect = Rect(top: int, left: int, height: int, width: int)

  function ConfOf(env: Env, w: Win): WinConf
  {
    env.conf(w.kind.optName)
  }

  /** Python's `not cfg`: an absent or zero maximum leaves the size unbounded. */
  predicate Unbounded(cfg: Option<int>)
  {
    cfg.None? || cfg.value == 0
  }

  /** Configured maxima are never negative and a window never asks for a
      negative size when offered a non-negative one. */
  ghost predicate NonNegative(env: Env)
  {
    (forall name :: env.conf(name).maxHeight.Some? ==> env.conf(name).maxHeight.value >= 0) &&
    (forall name :: env.conf(name).maxWidth.Some? ==> env.conf(name).maxWidth.value >= 0) &&
    (forall k, a :: a >= 0 ==> env.wantHeight(k, a) >= 0) &&
    (forall k, a :: a >= 0 ==> env.wantWidth(k, a) >= 0)
  }

  /** The min rule shared by both axes: never more than is available, never
      more than a bounded maximum, never more than requested, and equal to one
      of the three. */
  function Clamp(avail: int, cfg: Option<int>, want: int): (r: int)
    ensures r <= avail && r <= want
    ensures !Unbounded(cfg) ==> r <= cfg.value
    ensures r == avail || r == want || (!Unbounded(cfg) && r == cfg.value)
  {
    Min3(avail, if Unbounded(cfg) then avail else cfg.value, want)
  }

  /** `_subw_size_height(ci, height)` */
  function SizeHeight(env: Env, w: Win, height: int): (r: int)
    ensures r <= height && r <= env.wantHeight(w.kind, height)
    ensures !Unbounded(ConfOf(env, w).maxHeight) ==> r <= ConfOf(env, w).maxHeight.value
    ensures NonNegative(env) && height >= 0 ==> r >= 0
  {
    Clamp(height, ConfOf(env, w).maxHeight, env.wantHeight(w.kind, height))
  }

  /** `_subw_size_width(ci, width)` */
  function SizeWidth(env: Env, w: Win, width: int): (r: int)
    ensures r <= width && r <= env.wantWidth(w.kind, width)
    ensures !Unbounded(ConfOf(env, w).maxWidth) ==> r <= ConfOf(env, w).maxWidth.value
    ensures NonNegative(env) && width >= 0 ==> r >= 0
  {
    Clamp(width, ConfOf(env, w).maxWidth, env.wantWidth(w.kind, width))
  }
}
