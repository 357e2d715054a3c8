/** The `Tag` object of canto_curses/tag.py: a list of story objects kept in
    step with the backend's list of item ids (its tagcore), the offsets it
    hands those stories, its selection state and its cached line count. The
    GUI variables `needs_refresh` and `needs_redraw` the tag sets through
    its callbacks are fields here. */
module Tags {
  import opened Basics
  import opened TagSync

  /** The part of canto-next's TagCore that a tag consults: the ids it
      lists, whether they changed since the tag last acknowledged them, and
      whether the list was reset. */
  class TagCore {
    var ids: seq<Id>
    var changes: bool
    var wasReset: bool

    constructor(ids: seq<Id>, changes: bool, wasReset: bool)
      ensures this.ids == ids && this.changes == changes && this.wasReset == wasReset
    {
      this.ids := ids;
      this.changes := changes;
      this.wasReset := wasReset;
    }

    /** `ack_changes()` */
    method AckChanges()
      modifies this`changes
      ensures !changes
    {
      changes := false;
    }

    /** `changed()` */
    method Changed()
      modifies this`changes
      ensures changes
    {
      changes := true;
    }
  }

  /** Whether the first `n` old stories include an undead selection. */
  lemma RemarkedStep(olds: seq<Story>, ids: seq<Id>, sel: Option<nat>, n: nat)
    requires n < |olds|
    ensures Remarked(olds[..n + 1], ids, sel) <==>
      Remarked(olds[..n], ids, sel) || (olds[n].id !in ids && sel == Some(olds[n].sid))
  {
    if Remarked(olds[..n + 1], ids, sel) {
      var k :| 0 <= k < n + 1 && olds[..n + 1][k].id !in ids && sel == Some(olds[..n + 1][k].sid);
      if k < n {
        assert olds[..n][k] == olds[k];
      }
    }
    if Remarked(olds[..n], ids, sel) {
      var k :| 0 <= k < n && olds[..n][k].id !in ids && sel == Some(olds[..n][k].sid);
      assert olds[..n + 1][k] == olds[k];
    }
    if olds[n].id !in ids && sel == Some(olds[n].sid) {
      assert olds[..n + 1][n] == olds[n];
    }
  }

  /** One step of the first loop of `sync`, as `Kept` takes it. */
  lemma KeptStep(olds: seq<Story>, ids: seq<Id>, sel: Option<nat>, n: nat)
    requires n < |olds|
    ensures Kept(olds[..n + 1], ids, sel) == KeepNext(Kept(olds[..n], ids, sel), olds[n], ids, sel)
  {
    assert olds[..n + 1][..n] == olds[..n];
  }

  /** How many of `added` are not among `cur`, counting repeats. */
  function NewCount(added: seq<Id>, cur: seq<Id>): (n: nat)
    ensures n <= |added|
    decreases |added|
  {
    if added == [] then 0
    else NewCount(added[..|added| - 1], cur) + (if added[|added| - 1] in cur then 0 else 1)
  }

  /** Nothing is counted exactly when every added id is already shown, and
      everything is counted exactly when none is. */
  lemma {:induction false} NewCountExtremes(added: seq<Id>, cur: seq<Id>)
    ensures NewCount(added, cur) == 0 <==> forall k :: 0 <= k < |added| ==> added[k] in cur
    ensures NewCount(added, cur) == |added| <==> forall k :: 0 <= k < |added| ==> added[k] !in cur
    decreases |added|
  {
    if added != [] {
      var init := added[..|added| - 1];
      NewCountExtremes(init, cur);
      assert forall k :: 0 <= k < |init| ==> init[k] == added[k];
    }
  }

  /** Counting two batches is counting them one after the other. */
  lemma {:induction false} NewCountAppend(a: seq<Id>, b: seq<Id>, cur: seq<Id>)
    ensures NewCount(a + b, cur) == NewCount(a, cur) + NewCount(b, cur)
    decreases |b|
  {
    if b != [] {
      var init := b[..|b| - 1];
      NewCountAppend(a, init, cur);
      assert (a + b)[..|a + b| - 1] == a + init;
    } else {
      assert a + b == a;
    }
  }

  /** The body of the first loop of `sync` for one old story `s`: a listed
      story keeps its list place, the undead selection goes half a step
      after the places so far. */
  method KeepOne(prev: seq<PlacedStory>, s: Story, ids: seq<Id>, sel: Option<nat>) returns (next: seq<PlacedStory>, undead: bool)
    ensures next == KeepNext(prev, s, ids, sel)
    ensures undead <==> s.id !in ids && sel == Some(s.sid)
  {
    next := prev;
    undead := false;
    match IndexOf(ids, s.id) {
      case Some(p) =>
        next := prev + [PlacedStory(2 * p, s)];
      case None =>
        if sel == Some(s.sid) {
          undead := true;
          var place := if prev == [] then -2 else MaxPlace(prev) + 1;
          next := prev + [PlacedStory(place, s)];
        }
    }
  }

  /** The first loop of `sync`: the old stories that stay, at their
      places, and whether an undead selection was among them. */
  method KeepListed(olds: seq<Story>, ids: seq<Id>, sel: Option<nat>) returns (kept: seq<PlacedStory>, remark: bool)
    ensures kept == Kept(olds, ids, sel)
    ensures remark == Remarked(olds, ids, sel)
  {
    kept := [];
    remark := false;
    var i := 0;
    while i < |olds|
      invariant 0 <= i <= |olds|
      invariant kept == Kept(olds[..i], ids, sel)
      invariant remark == Remarked(olds[..i], ids, sel)
    {
      RemarkedStep(olds, ids, sel, i);
      KeptStep(olds, ids, sel, i);
      var undead;
      kept, undead := KeepOne(kept, olds[i], ids, sel);
      remark := remark || undead;
      i := i + 1;
    }
    assert olds[..i] == olds;
  }

  /** The second loop of `sync`: a new story for each listed id that no
      story carries yet, numbered from `first`. */
  method AddMissing(ids: seq<Id>, kept: seq<PlacedStory>, first: nat) returns (added: seq<PlacedStory>)
    ensures added == Fresh(ids, kept, |ids|, first)
  {
    added := [];
    var j := 0;
    while j < |ids|
      invariant 0 <= j <= |ids|
      invariant added == Fresh(ids, kept, j, first)
    {
      if ids[j] !in IdsOf(StoriesOf(kept + added)) {
        added := added + [PlacedStory(2 * j, Story(first + |added|, ids[j], None, None))];
      }
      j := j + 1;
    }
  }

  /** The third loop of `sync`: the old stories missing from `current`. */
  method Dispose(olds: seq<Story>, current: seq<Story>) returns (deleted: seq<Story>)
    ensures deleted == Deleted(olds, current)
  {
    deleted := [];
    var k := 0;
    while k < |olds|
      invariant 0 <= k <= |olds|
      invariant deleted == Deleted(olds[..k], current)
    {
      assert olds[..k + 1][..k] == olds[..k];
      if olds[k].sid !in SidsOf(current) {
        deleted := deleted + [olds[k]];
      }
      k := k + 1;
    }
    assert olds[..k] == olds;
  }

  /** The lists of `sync`: the new stories, the disposed ones, how many
      stories were created and whether an undead selection was kept. */
  method Reconciled(olds: seq<Story>, ids: seq<Id>, sel: Option<nat>, first: nat, sort: bool)
    returns (current: seq<Story>, deleted: seq<Story>, count: nat, remark: bool)
    requires forall k :: 0 <= k < |olds| ==> olds[k].sid < first
    requires Distinct(SidsOf(olds)) && Distinct(IdsOf(olds))
    ensures current == StoriesOf(Reconcile(olds, ids, sel, first, sort))
    ensures deleted == Deleted(olds, current)
    ensures count == AddedCount(olds, ids, sel, first)
    ensures remark == Remarked(olds, ids, sel)
    ensures forall k :: 0 <= k < |current| ==> current[k].sid < first + count
    ensures Distinct(SidsOf(current)) && Distinct(IdsOf(current))
  {
    var kept;
    kept, remark := KeepListed(olds, ids, sel);
    var added := AddMissing(ids, kept, first);
    var all := kept + added;
    if sort {
      all := SortByPlace(all);
    }
    current := StoriesOf(all);
    deleted := Dispose(olds, current);
    count := |added|;
    SyncKeepsApart(olds, ids, sel, first, sort);
  }

  class Tag {
    const tagcore: TagCore
    var stories: seq<Story>
    var updatesPending: nat
    var changed: bool
    var selected: bool
    var itemOffset: int
    var selOffset: int
    var width: int
    var lns: int
    var needsRefresh: bool
    var needsRedraw: bool
    /** The stories whose `die()` was called, in order. */
    var dead: seq<Story>
    /** The identity the next new story object takes. */
    var nextSid: nat

    /** The stories are distinct objects created by this tag, and no two
        show the same item. */
    ghost predicate Valid()
      reads this
    {
      (forall k :: 0 <= k < |stories| ==> stories[k].sid < nextSid) &&
      Distinct(SidsOf(stories)) && Distinct(IdsOf(stories))
    }

    /** `Tag(tagcore, callbacks)`: an empty tag that at once syncs with
        `force`. */
    constructor(tc: TagCore, sel: Option<nat>, maintain: bool)
      modifies tc
      ensures Valid() && tagcore == tc
      ensures tc.ids == old(tc.ids)
      ensures stories == StoriesOf(Reconcile([], tc.ids, sel, 0, maintain || old(tc.wasReset)))
      ensures updatesPending == 0 && changed && needsRefresh && !selected
      ensures itemOffset == 0 && selOffset == 0 && width == 0 && dead == []
    {
      tagcore := tc;
      stories := [];
      updatesPending := 0;
      changed := true;
      selected := false;
      itemOffset := 0;
      selOffset := 0;
      width := 0;
      lns := 0;
      needsRefresh := false;
      needsRedraw := false;
      dead := [];
      nextSid := 0;
      new;
      Sync(true, sel, maintain);
    }

    /** `need_refresh()` */
    method NeedRefresh()
      modifies this`changed, this`needsRefresh
      ensures changed && needsRefresh
    {
      changed := true;
      needsRefresh := true;
    }

    /** `need_redraw()` */
    method NeedRedraw()
      modifies this`changed, this`needsRedraw
      ensures changed && needsRedraw
    {
      changed := true;
      needsRedraw := true;
    }

    /** `sync(force)`, with `sel` the selected story's identity and
        `maintain` whether the update style is "maintain". Unless forced
        or the tagcore reports changes, the stories stay as they are;
        otherwise they become the reconciled list, the old stories that
        did not survive are disposed of, and the tagcore is left marked
        changed exactly when an undead selection was kept. */
    method Sync(force: bool, sel: Option<nat>, maintain: bool)
      requires Valid()
      modifies this`stories, this`dead, this`nextSid, this`changed, this`needsRefresh, this`updatesPending
      modifies tagcore`changes, tagcore`wasReset
      ensures Valid()
      ensures updatesPending == 0
      ensures !force && !old(tagcore.changes) ==>
        stories == old(stories) && dead == old(dead) && nextSid == old(nextSid) &&
        changed == old(changed) && needsRefresh == old(needsRefresh) &&
        !tagcore.changes && tagcore.wasReset == old(tagcore.wasReset)
      ensures force || old(tagcore.changes) ==>
        stories == StoriesOf(Reconcile(old(stories), old(tagcore.ids), sel, old(nextSid),
                                       maintain || old(tagcore.wasReset))) &&
        dead == old(dead) + Deleted(old(stories), stories) &&
        nextSid == old(nextSid) + AddedCount(old(stories), old(tagcore.ids), sel, old(nextSid)) &&
        tagcore.changes == Remarked(old(stories), old(tagcore.ids), sel) &&
        !tagcore.wasReset && changed && needsRefresh
    {
      if force || tagcore.changes {
        var olds := stories;
        var ids := tagcore.ids;
        var first := nextSid;
        var sort := maintain || tagcore.wasReset;
        tagcore.AckChanges();

        if sort {
          tagcore.wasReset := false;
        }
        var current, deleted, count, remark := Reconciled(olds, ids, sel, first, sort);
        if remark {
          tagcore.Changed();
        }
        dead := dead + deleted;
        stories := current;
        nextSid := first + count;
        NeedRefresh();
      }
      updatesPending := 0;
    }

    /** `on_items_added(tagcore, added)`: for this tag's own tagcore, each
        added id no story shows yet is one more pending update, and the tag
        asks for a redraw; another tagcore object's news changes nothing. */
    method OnItemsAdded(tc: TagCore, added: seq<Id>)
      modifies this`updatesPending, this`changed, this`needsRedraw
      ensures tc == tagcore ==>
        updatesPending == old(updatesPending) + NewCount(added, IdsOf(stories)) &&
        changed && needsRedraw
      ensures tc != tagcore ==>
        updatesPending == old(updatesPending) && changed == old(changed) && needsRedraw == old(needsRedraw)
    {
      var cur := IdsOf(stories);
      if tc == tagcore {
        var n := updatesPending;
        var i := 0;
        while i < |added|
          invariant 0 <= i <= |added|
          invariant n == updatesPending + NewCount(added[..i], cur)
        {
          assert added[..i + 1][..i] == added[..i];
          if added[i] !in cur {
            n := n + 1;
          }
          i := i + 1;
        }
        assert added[..i] == added;
        updatesPending := n;
        NeedRedraw();
      }
    }

    /** `set_item_offset(offset)`: when the offset moves, the stories are
        numbered from it in order; otherwise nothing changes. */
    method SetItemOffset(offset: int)
      requires Valid()
      modifies this`itemOffset, this`stories
      ensures Valid()
      ensures itemOffset == offset
      ensures old(itemOffset) == offset ==> stories == old(stories)
      ensures old(itemOffset) != offset ==>
        |stories| == |old(stories)| &&
        forall i :: 0 <= i < |stories| ==> stories[i] == old(stories[i]).(offset := Some(offset + i))
    {
      if itemOffset != offset {
        itemOffset := offset;
        var ss := stories;
        var i := 0;
        while i < |ss|
          invariant 0 <= i <= |ss| && |ss| == |stories|
          invariant forall m :: 0 <= m < i ==> ss[m] == stories[m].(offset := Some(offset + m))
          invariant forall m :: i <= m < |ss| ==> ss[m] == stories[m]
        {
          ss := ss[i := ss[i].(offset := Some(offset + i))];
          i := i + 1;
        }
        assert SidsOf(ss) == SidsOf(stories) && IdsOf(ss) == IdsOf(stories);
        stories := ss;
      }
    }

    /** `set_sel_offset(offset)`: the offset is always recorded; the
        stories are numbered from it only while the tag is not collapsed. */
    method SetSelOffset(offset: int, collapsed: bool)
      requires Valid()
      modifies this`selOffset, this`stories
      ensures Valid()
      ensures selOffset == offset
      ensures collapsed ==> stories == old(stories)
      ensures !collapsed ==>
        |stories| == |old(stories)| &&
        forall i :: 0 <= i < |stories| ==> stories[i] == old(stories[i]).(selOffset := Some(offset + i))
    {
      selOffset := offset;
      if !collapsed {
        var ss := stories;
        var i := 0;
        while i < |ss|
          invariant 0 <= i <= |ss| && |ss| == |stories|
          invariant forall m :: 0 <= m < i ==> ss[m] == stories[m].(selOffset := Some(offset + m))
          invariant forall m :: i <= m < |ss| ==> ss[m] == stories[m]
        {
          ss := ss[i := ss[i].(selOffset := Some(offset + i))];
          i := i + 1;
        }
        assert SidsOf(ss) == SidsOf(stories) && IdsOf(ss) == IdsOf(stories);
        stories := ss;
      }
    }

    /** `select()`: only a change of state asks for a redraw. */
    method Select()
      modifies this`selected, this`changed, this`needsRedraw
      ensures selected
      ensures old(selected) ==> changed == old(changed) && needsRedraw == old(needsRedraw)
      ensures !old(selected) ==> changed && needsRedraw
    {
      if !selected {
        selected := true;
        NeedRedraw();
      }
    }

    /** `unselect()` */
    method Unselect()
      modifies this`selected, this`changed, this`needsRedraw
      ensures !selected
      ensures !old(selected) ==> changed == old(changed) && needsRedraw == old(needsRedraw)
      ensures old(selected) ==> changed && needsRedraw
    {
      if selected {
        selected := false;
        NeedRedraw();
      }
    }

    /** `lines(width)`, with `rendered` the number of header lines a fresh
        render at `width` produces. The cached count is answered while the
        width is the same and nothing changed; otherwise the fresh count is
        cached. Either way a second call at the same width is answered
        from the cache. */
    method Lines(width: int, rendered: int) returns (n: int)
      modifies this`width, this`changed, this`lns
      ensures old(this.width) == width && !old(changed) ==>
        n == old(lns) && this.width == old(this.width) && changed == old(changed) && lns == old(lns)
      ensures !(old(this.width) == width && !old(changed)) ==> n == rendered
      ensures this.width == width && !changed && lns == n
    {
      if width == this.width && !changed {
        return lns;
      }
      this.width := width;
      changed := false;
      lns := rendered;
      n := rendered;
    }
  }
}
