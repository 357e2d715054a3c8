# canto-curses screen, tag and text-box logic in Dafny

This project models the sequential core of canto-curses, the curses front end
of the canto RSS reader, and proves properties of that model:

- **Screen layout** (`canto_curses/screen.py`).
  - The min rule that sizes a window: available space, configured maximum,
    requested size.
  - The recursive tiling allocator `_subw` and its measure
    `_subw_layout_size`.
  - The border flags a window receives.
  - `fill_layout`, which turns alignment buckets into a nested layout.
  - Float placement, and the tile/float split of `subwindows`.
  - Focus resolution (`_focus`).
  - The window-list surgery of `die_callback` and `add_window_callback`.
  - The per-key routing step of `input_thread`.
- **Tags** (`canto_curses/tag.py`).
  - `Tag.sync` reconciles a tag's story objects with the item ids its
    tagcore lists. Surviving stories keep their tagcore position as their
    place. A vanished selection stays "undead" half a step after them. New
    ids get new stories. The list is sorted only under the "maintain"
    style or after a reset. Stories left out are disposed of.
  - The small bookkeeping around it: pending-update counting, item and
    selection offsets, select/unselect and the `lines` cache.
- **Text boxes** (`canto_curses/text.py`).
  - Rendered line counting.
  - The scroll range `max_offset`.
  - The clamped relative scroll behind the scroll and page commands.

Pure code becomes datatypes, functions and lemmas. Code that updates state
becomes classes and methods with loops, and each method is proved against a
specification function:

- `Screens.Screen`, `Tags.Tag`, `Tags.TagCore` and `TextBoxes.TextBox` are
  classes.
- `_subw`'s three loops (`Tiling.Subw*`) are proved equal to `Tiling.Solve`.
- `sync`'s three loops (`Tags.KeepListed`, `Tags.AddMissing`,
  `Tags.Dispose`) are proved equal to `TagSync.Kept`, `TagSync.Fresh` and
  `TagSync.Deleted`.

Modelling conventions:

- Windows are values `Win(id, kind)`. A new `id` per instantiation stands for
  Python object identity.
- Story objects are `Story(sid, id, ...)`. The identity is `sid` and the
  backend item id is `id`. `sync` compares stories with `==` and `in`
  (`story == sel` at canto_curses/tag.py:379, `not story in current_stories`
  at canto_curses/tag.py:413); the model reads both as `sid` equality, that
  is, as object identity.
- Each tag numbers its own stories from `nextSid = 0`, so a `sid` is unique
  only within one tag. The selection `sel` is passed as the `sid` of a story
  of this tag, and as `None` when the selected story belongs to another tag
  or nothing is selected.
- `on_items_added` compares the tagcore it is told about with its own
  (`tagcore == self.tagcore`, canto_curses/tag.py:159). The model reads this
  as object identity. tagcore.py, which decides what `==` on a tagcore means,
  is not part of this model.
- Configuration lookups (`get_opt`), the sizes a window class requests
  (`get_height`/`get_width`) and the terminal size are fields of
  `Windows.Env`.
- The GUI variables a tag or text box sets through its callbacks
  (`needs_refresh`, `needs_redraw`, `textbox_offset`) are fields of the
  object.
- `screen.py` is Python 2, so `/` on integers is floor division. Every
  divisor there is positive: `units` is at least the number of children
  still to size. Dafny's `/` agrees with floor division for a positive
  divisor, so it is used as is.
- `sync` gives an undead story the place `max + 0.5`. Places are stored
  doubled: a kept story sits at twice its tagcore index, and an undead one
  at one more than the largest doubled place so far, or at -2.

A pad is created one row taller than the region it is given
(`newpad(height + 1, width)`), and `_subw_layout_size` measures a window's
pad as height − 1 and width − 1, so a single window's height is measured
exactly and its width one column short. A composite is charged the largest
such measure of any one window inside it, at any depth, not the extent its
windows cover together: when a composite holds windows side by side (for
columns) or stacked (for rows), the siblings after it are placed over part
of it. The model keeps this as written:

- `TilingBounds.SolveRows` proves that every tiled window's rows stay inside
  the rows it was given. Containment is all that is proved; siblings may
  overlap, in either direction.
- `TilingExamples.OverlapAfterComposite` shows the smallest case: a window
  placed after a horizontal composite holding one window overlaps it by one
  column.

## Model

| member | source | states |
|---|---|---|
| Windows.Clamp | canto_curses/screen.py:156-172 | The size is at most what is available, at most a bounded maximum (absent or zero means unbounded) and at most the request, and it equals one of the three |
| Windows.SizeHeight | canto_curses/screen.py:156-163 | A window's height never exceeds the offer, its request or a bounded `maxheight`; it is non-negative when configuration and requests are |
| Windows.SizeWidth | canto_curses/screen.py:165-172 | The same bounds for widths and `maxwidth` |
| Borders.BorderFlags | canto_curses/screen.py:227-248 | "full" sets all four flags and "none" clears them. Under "smart", each flag is on exactly when that edge is not on the screen's edge; for a float, "bottom" in the alignment forces the top flag on and "top" forces the bottom flag on. Any other mode leaves the flags unset (`None`) |
| Borders.SmartTileBorders | canto_curses/screen.py:231-235 | Under "smart", a tile filling the screen gets no border, and a tile touching no screen edge gets all four |
| Tiling.Subw | canto_curses/screen.py:273-352 | The imperative `_subw` returns exactly the layout `Solve` specifies, including the failure when a composite cannot be measured |
| Tiling.SubwImmediates | canto_curses/screen.py:291-314 | The first loop (`used`, `units`, `sizes`) computes what the pass-1 fold specifies |
| Tiling.SubwComposites | canto_curses/screen.py:316-340 | The second loop lays out each composite recursively and charges it its measured extent, as the pass-2 fold specifies |
| Tiling.SubwPlace | canto_curses/screen.py:342-351 | The third loop sets up each immediate at the sum of the sizes before it |
| TilingFacts.ImmediatesSpec | canto_curses/screen.py:285-314 | After pass 1, each immediate's size is the min rule applied to `(extent - used) / units`, where `used` sums the earlier immediates and `units` counts every child not yet sized; composites stay 0 |
| TilingFacts.ImmediatePlacement | canto_curses/screen.py:291-351 | In a laid-out level, each immediate's size is its share under the min rule, and its rectangle starts at the parent offset plus the sizes before it and spans the full cross extent |
| TilingFacts.CompositePlacement | canto_curses/screen.py:316-340 | Each composite is laid out in the flipped orientation against its share of what is left, and its recorded size is exactly the measure of that layout |
| TilingBounds.MeasureRows | canto_curses/screen.py:178-195 | The height measure of a group whose rows lie within a band is between 0 and the band's height |
| TilingBounds.SolveRows | canto_curses/screen.py:273-352 | With non-negative configuration and requests, every window `_subw` places, at any depth, has its rows inside the rows it was given; in a vertical level the sizes are non-negative and sum to at most the height |
| TilingBounds.VerticalSizes | canto_curses/screen.py:285-340 | In a vertical level, the immediates use at most the height, and the composites use at most what the immediates left |
| TilingExamples.ThreeStacked | canto_curses/screen.py:285-351 | Three unconstrained windows stacked in 30 rows get sizes [10, 10, 10] at rows 0, 10 and 20, each 80 columns wide |
| TilingExamples.Alone | canto_curses/screen.py:285-351 | A single unconstrained window gets the whole screen |
| TilingExamples.OverlapAfterComposite | canto_curses/screen.py:178-195 | A window after a horizontal composite starts one column before the composite's window ends, because widths are measured one short |
| Floats.FloatRect | canto_curses/screen.py:441-452 | A float's size follows the min rule against the full screen. It touches the bottom exactly when its alignment starts with "bottom" (else row 0), touches the right edge exactly when the alignment ends with "right" (else column 0), and always lies on the screen |
| Floats.InitFloat | canto_curses/screen.py:441-454 | A float is set up at its anchored rectangle, with border flags computed as for a float |
| Floats.BottomFloatBorders | canto_curses/screen.py:236-240 | Under "smart", a bottom-aligned float always has a top border, and has a bottom border exactly when its alignment also names "top" |
| Floats.FloatSideBorders | canto_curses/screen.py:231-235 | Under "smart", a right-aligned float has no right border and any other float has no left border |
| Floats.BottomRightExample | canto_curses/screen.py:441-454 | A "bottomright" float with maxima 10 and 20 on an 80×24 screen sits at row 14, column 60, with top and left borders only |
| Layouts.Entry | canto_curses/screen.py:396-399 | The taglist window is wrapped two levels deep and every other window is a bare leaf; either way the entry holds just that window |
| Layouts.Bucket | canto_curses/screen.py:388-399 | A bucket holds exactly the windows with that alignment, in order |
| Layouts.BucketEntries | canto_curses/screen.py:393-402 | A bucket holds one entry per window of its alignment, in order: the taglist wrapped as `[[w]]`, every other window bare |
| Layouts.Buckets | canto_curses/screen.py:389-405 | The default layout is the top bucket, then one composite made of the left, neutral and right buckets themselves, in that order, then the bottom bucket; its windows in order are top, left, neutral, right, bottom |
| Layouts.FillLayout | canto_curses/screen.py:376-405 | "hstack" returns the windows as a flat list (stacked by the top level), "vstack" wraps them in one composite (laid side by side), and the default arranges the buckets. It fails exactly when some window's alignment names no bucket |
| Layouts.BucketsPartition | canto_curses/screen.py:388-399 | With every alignment known, the buckets together hold every window exactly as often as the list does |
| Layouts.TilesOnce | canto_curses/screen.py:376-405 | Every tile appears in the filled layout exactly once |
| Layouts.InputBoxOf | canto_curses/screen.py:377-381 | The input box is the first window that is an input, and there is none exactly when no window is |
| Focus.Pick | canto_curses/screen.py:584-593 | A window is picked exactly when `-len < idx < len`, and the window picked is in the list |
| Focus.FocusIndex | canto_curses/screen.py:584-593 | With `tiles + floats` reversed, a non-negative index counts from the last window, a negative one from the first, and an index out of range picks nothing |
| Focus.FocusWraps | canto_curses/screen.py:584-593 | A positive index and the same index minus the length pick the same window |
| Focus.FocusFirst | canto_curses/screen.py:584-593 | Index 0 focuses the last float, or the last tile when there are no floats, or nothing |
| Keys.Step | canto_curses/screen.py:629-659 | Key -1 changes nothing. In edit mode the key goes to the edit box and is never queued, and return code 0 ends editing, sets the done flag and asks for a redraw. Otherwise `("KEY", r)` is appended to the queue |
| Keys.QueueKeepsOrder | canto_curses/screen.py:657-659 | Outside edit mode, a run of keys appends exactly the non-idle keys to the queue, in order |
| Keys.CodesAreReal | canto_curses/screen.py:632-640 | The keys a run delivers are exactly its non-idle readings: -1 never gets through, and every other key read does |
| Keys.EventsAreCodes | canto_curses/screen.py:657-659 | Each delivered key becomes exactly one `("KEY", r)` event, in the order read |
| Keys.EditingNeverQueues | canto_curses/screen.py:642-655 | While the edit box wants more keys, a run of keys feeds it exactly the non-idle keys and queues nothing |
| Keys.EditThenQueue | canto_curses/screen.py:629-659 | Keys h, idle, i (ending the edit), x: the box receives h and i, and only x is queued |
| Screens.Instances | canto_curses/screen.py:419-431 | Each window class is instantiated once, in order, as a new window |
| Screens.Split | canto_curses/screen.py:419-431 | Floats go to one list and tiles to the other |
| Screens.SplitPartition | canto_curses/screen.py:419-431 | Together, tiles and floats hold every window exactly once |
| Screens.PlaceFloats | canto_curses/screen.py:441-454 | Every float is set up at its anchored rectangle |
| Screens.DieKeepsListsInStep | canto_curses/screen.py:480-488 | Deleting the same position from windows and window classes keeps the two lists in step and removes exactly that window's class |
| Screens.DieAll | canto_curses/screen.py:412-414 | Every current window is disposed of, in order |
| Screens.InstantiateAll | canto_curses/screen.py:419-431 | The instantiation loop builds the window list and its float/tile split |
| Screens.Screen.constructor | canto_curses/screen.py:43-74 | A new screen has the default layout and the given classes, and is already laid out: one fresh window per class, tiles laid out, floats anchored, focus at index 0 (when the layout raises, `tiled` is `None` and no float is placed or window focused), nothing disposed of |
| Screens.Screen.Subwindows | canto_curses/screen.py:410-457 | The old windows are disposed of and rebuilt from the classes. Tiles are laid out from the filled layout on the whole screen, floats are anchored, and focus goes to index 0. When `fill_layout` or `_subw` raises, the windows are rebuilt, the raise is recorded as `tiled == None` and `ok == false`, and no float is placed and nothing is focused |
| Screens.Screen.Instantiate | canto_curses/screen.py:410-434 | Disposal, instantiation and the split keep windows, classes, tiles and floats consistent, and clear focus |
| Screens.Screen.LayOut | canto_curses/screen.py:436-457 | The input box is the first input tile, the tiles are laid out, the floats are placed, and focus goes to index 0; a layout that raises is recorded as `tiled == None`, with no float placed and nothing focused |
| Screens.Screen.Focus | canto_curses/screen.py:584-593 | Focus moves to the resolved window when the index is in range, and otherwise stays |
| Screens.Screen.DieCallback | canto_curses/screen.py:480-495 | The dying window is disposed of and its entry is removed from windows and classes at the same position, then everything is rebuilt. A window not in the list fails (Python's `ValueError`): it is recorded as dying, and the window lists, tiles, floats, focus, input box and id counter are unchanged, so the screen stays consistent |
| Screens.Screen.AddWindowCallback | canto_curses/screen.py:514-521 | The class is appended and everything is rebuilt and refocused |
| Screens.Screen.KeyStep | canto_curses/screen.py:629-659 | One key moves the screen's input state exactly as `Keys.Step` does, and touches no window list |
| TagSync.MaxPlace | canto_curses/tag.py:386-389 | The maximum place bounds every place and is attained |
| TagSync.Kept | canto_curses/tag.py:376-391 | The first loop keeps exactly the survivors, in old order. A listed story's place is twice its tagcore index; an unlisted one is the selection, placed after every earlier place, or at -2 (that is, -1) when first |
| TagSync.KeptExactPlaces | canto_curses/tag.py:379-391 | Pins every place the first loop hands out: an undead selection after other stories sits at one more than the largest earlier doubled place, that is, `max + 0.5` |
| TagSync.Fresh | canto_curses/tag.py:393-397 | New stories have new identities counted from `first` and no offsets; each sits at twice the tagcore position of its id, in increasing order |
| TagSync.SortByPlace | canto_curses/tag.py:404-406 | Sorting yields an ordering by place and a permutation of the entries |
| TagSync.ReconcileMembers | canto_curses/tag.py:376-408 | After sync, the tag holds exactly the survivors and the new stories, whether or not it sorted |
| TagSync.SyncKeeps | canto_curses/tag.py:376-391 | An old story stays exactly when its id is still listed or it is the selection |
| TagSync.SyncIdsOnce | canto_curses/tag.py:393-397 | When stories had distinct ids, every listed id is on exactly one story after sync |
| TagSync.SyncDeletes | canto_curses/tag.py:410-416 | The stories that get `die()` are exactly the old stories that did not survive, in old order |
| TagSync.SyncKeepsApart | canto_curses/tag.py:365-422 | Sync preserves distinct identities, identities below the next unused one, and distinct ids |
| TagSync.SyncKeepsOrder | canto_curses/tag.py:404-408 | Without sorting, the survivors come first, in their old order |
| TagSync.SyncAddsInOrder | canto_curses/tag.py:393-408 | Without sorting, the new stories follow the survivors in tagcore order, numbered consecutively |
| TagSync.AddedCount | canto_curses/tag.py:393-397 | Sync creates at most one story per listed id |
| Tags.TagCore.AckChanges | canto_curses/tag.py:374 | Acknowledging clears the changes flag |
| Tags.TagCore.Changed | canto_curses/tag.py:385 | Re-marking sets the changes flag |
| Tags.NewCount | canto_curses/tag.py:157-163 | The count of added ids not already shown never exceeds the number added |
| Tags.NewCountExtremes | canto_curses/tag.py:157-163 | Nothing is counted exactly when every added id is shown, and everything exactly when none is |
| Tags.NewCountAppend | canto_curses/tag.py:157-163 | Counting two batches adds their counts |
| Tags.KeepListed | canto_curses/tag.py:376-391 | The first loop of `sync` computes `Kept`, and whether an undead selection was kept |
| Tags.AddMissing | canto_curses/tag.py:393-397 | The second loop computes `Fresh` |
| Tags.Dispose | canto_curses/tag.py:410-416 | The third loop computes `Deleted` |
| Tags.Reconciled | canto_curses/tag.py:370-422 | The lists of `sync` are the reconciled stories, the disposed ones, the number created and the re-mark flag, and the result keeps stories apart |
| Tags.Tag.constructor | canto_curses/tag.py:37-111 | A new tag is synced with `force` from empty: it holds one new story per distinct listed id, with nothing pending or selected and offsets 0 |
| Tags.Tag.NeedRefresh | canto_curses/tag.py:228-230 | Marks the tag changed and asks for a refresh |
| Tags.Tag.NeedRedraw | canto_curses/tag.py:232-234 | Marks the tag changed and asks for a redraw |
| Tags.Tag.Sync | canto_curses/tag.py:365-433 | Unforced with no changes, nothing but the pending count changes. Otherwise the stories become the reconciled list (sorted iff "maintain" or reset), the non-survivors are disposed of, the tagcore stays marked changed exactly when an undead selection was kept, the reset flag is cleared, and a refresh is requested. The pending count becomes 0 either way, and the stories stay distinct |
| Tags.Tag.OnItemsAdded | canto_curses/tag.py:157-163 | For this tag's own tagcore, the pending count grows by the number of added ids not shown and a redraw is requested; another tagcore object's news changes nothing (the comparison is read as identity) |
| Tags.Tag.SetItemOffset | canto_curses/tag.py:185-189 | Nothing changes when the offset is the same; otherwise story i gets offset `offset + i` |
| Tags.Tag.SetSelOffset | canto_curses/tag.py:201-206 | The selection offset is always stored, and story i gets `offset + i` only when the tag is not collapsed |
| Tags.Tag.Select | canto_curses/tag.py:218-221 | The tag ends selected, and a redraw is requested only when that is a change |
| Tags.Tag.Unselect | canto_curses/tag.py:223-226 | The tag ends unselected, and a redraw is requested only when that is a change |
| Tags.Tag.Lines | canto_curses/tag.py:236-305 | The cached count is returned when the width is the same and nothing changed; otherwise the fresh count is cached. Either way, a repeat call at that width is a cache hit |
| TextBoxes.RenderedLines | canto_curses/text.py:119-156 | A render takes the content rows plus one for each horizontal border plus one, and exactly rows + 1 without borders |
| TextBoxes.MaxOffset | canto_curses/text.py:49 | The scroll range is never negative and is either 0 or the overflow `(lines - 1) - (height - 1)` |
| TextBoxes.MaxOffsetShowsEnd | canto_curses/text.py:49 | A non-negative offset shows the last line exactly when it is at least `max_offset` |
| TextBoxes.FitsNoScroll | canto_curses/text.py:49 | A render that fits the pad cannot scroll |
| TextBoxes.Scrolled | canto_curses/text.py:174-181 | A relative scroll lands in `[0, max_offset]`; it moves by exactly the factor when that stays in range, and otherwise stops at the nearer end |
| TextBoxes.ScrollStops | canto_curses/text.py:174-181 | Scrolling down at `max_offset`, or up at 0, changes nothing |
| TextBoxes.ScrollBack | canto_curses/text.py:174-181 | Inside the range, scrolling back undoes a scroll |
| TextBoxes.ScrollsAdd | canto_curses/text.py:174-181 | After a scroll that stays in range, a second scroll lands where one scroll by the sum would |
| TextBoxes.GetHeight | canto_curses/text.py:189-190 | A text box asks for every row offered |
| TextBoxes.GetWidth | canto_curses/text.py:192-193 | A text box asks for every column offered |
| TextBoxes.IsInput | canto_curses/text.py:183-184 | A text box is not an input box |
| TextBoxes.TextBoxSize | canto_curses/text.py:189-190 | A text box's height is the offer, capped by `maxheight` when that is bounded |
| TextBoxes.TextBoxWidth | canto_curses/text.py:192-193 | A text box's width is the offer, capped by `maxwidth` when that is bounded |
| TextBoxes.TextBox.constructor | canto_curses/text.py:20-27 | A new text box has scroll range 0 |
| TextBoxes.TextBox.Render | canto_curses/text.py:119-156 | The counting loop returns `RenderedLines` |
| TextBoxes.TextBox.Refresh | canto_curses/text.py:38-53 | Refresh re-renders, sets `max_offset` from the new line count and pad height, lowers the offset to at most `max_offset` (it does not raise a negative one), and requests a redraw |
| TextBoxes.TextBox.RelScroll | canto_curses/text.py:174-181 | The offset becomes the clamped scroll, inside `[0, max_offset]`, and a redraw is requested |
| TextBoxes.TextBox.ScrollUp | canto_curses/text.py:158-160 | Scrolls by -1 |
| TextBoxes.TextBox.ScrollDown | canto_curses/text.py:162-164 | Scrolls by 1 |
| TextBoxes.TextBox.PageUp | canto_curses/text.py:166-168 | Scrolls by `-(height - 1)` |
| TextBoxes.TextBox.PageDown | canto_curses/text.py:170-172 | Scrolls by `height - 1` |

## Left out

- Curses itself is not modelled: `initscr`, `newpad`, `noutrefresh`, `doupdate`, `getch`, cursor moves and pad overwrites. A window is its rectangle plus border flags. `refresh_callback`, `redraw` and `TextBox.redraw` only draw.
- `curses_setup` is not modelled. It initialises colour pairs on the terminal and ignores failures.
- Threads are not modelled: the input thread's loop, `input_lock`, `pause_interface_callback`/`unpause_interface_callback`, the `input_done` event and `time.sleep`. One key is one `KeyStep`. `getch`'s key and `addkey`'s return code are parameters.
- `input_callback`, `cmd_resize`/`_resize` and `cmd_dump_screen` are not modelled. They block on another thread, query the terminal or write a file.
- `widecurse.c` is not part of this model. It wraps locale-dependent wide-character calls.
- Theme rendering and format evaluation are not modelled: `theme_print`, `theme_lstrip`, `try_parse`/`try_eval` and `render_header`/`render_footer`. The number of rows a render fills is a parameter of `TextBoxes.TextBox.Render`/`Refresh` and `Tags.Tag.Lines`.
- Hooks (`on_hook`, `call_hook`, `unhook_all`), the global `alltags` list, the tagcore's read lock and `config.get_conf()` are not modelled. Options arrive as parameters: `Env.conf`, `maintain`, `collapsed` and `sel`.
- The final `s.sync()` on every story in `Tag.sync` is not modelled. `story.py` is not part of this model; a story is its identity, its item id and the two offsets the tag gives it.
- The tag methods outside the reconciliation core are not modelled: `die`, `on_opt_change`, `on_tag_opt_change`, `on_attributes`, `set_visible_tag_offset`, `set_tag_offset`, `pads` and `__eq__`/`__str__`. They only raise redraw or refresh flags, or render.
- TagSync.SortByPlace: equal places are ordered stably. Python's `list.sort()` on `(place, story)` pairs would compare the Story objects on a tie, and `story.py` is not part of this model.
- Tags.Tag.Sync: story equality is `sid` equality, and `sid`s are numbered per tag rather than drawn from one global counter, so a selection in another tag must be passed as `None`; a `sid` of this tag would otherwise be mistaken for it. `story.py`, which would say whether `Story` overrides `__eq__`, is not part of this model.
- Tags.Tag.Sync: `tagcore.changed()` is called once after the first loop rather than inside it. Both set the same flag, and nothing reads it in between.
- Tiling.Solve: setting up a window whose width is not positive, or whose height is negative, makes `curses.newpad` raise in `_subw_init`, which ends `_subw`. `Solve` and `Subw` do not model that failure: they go on and hand such windows their rectangles, and later siblings their shares.
- TilingBounds.SolveRows: containment is proved for rows only. Columns are not bounded, because the `newpad` failure above is not modelled; and in neither direction is non-overlap promised, because a composite is charged the measure of its largest single window.
- Screens.Screen.Subwindows: a raise in `fill_layout` or `_subw` is represented as `tiled == None` (and `ok == false` from the callbacks). In Python the exception propagates out of `subwindows`: from `__init__` no screen exists, and from `die_callback`/`add_window_callback` the `refresh()` is skipped. Windows that `_subw_init` set up in earlier composites before the raise (say a taglist aligned "top" laid out before an empty middle composite reaches `max([])`) are not recorded.
- Tags.Tag.OnItemsAdded: the tagcore comparison is taken as identity. If tagcore.py compared tagcores by their ids, a different tagcore with the same ids would also count its news here.
- Screens.Screen.Subwindows: `ci.init(pad, callbacks)` is not modelled. A placed window records the rectangle and border flags it was given; the callbacks and pad it receives are left out.
- The log calls in `_focus`, `sync` and `input_thread` are not modelled.
- Screens.Screen.constructor: the window class list is held as a value. In Python `window_types` is the caller's list (by default the shared default argument `[InputBox, TagList]`), and `die_callback` and `add_window_callback` change it in place, so the caller's list, or the default of a later `Screen()`, changes with it. That aliasing is not modelled.
- Screens.Screen.constructor: the key-input fields start as in the source (no edit box, empty queue, no redraw pending), but the contract does not restate them.
- Screens.Screen.AddWindowCallback: the trailing `_focus(0)` is not replayed. `subwindows` has just focused index 0 on the same lists, so it would change nothing.
