/** The reconciliation `Tag.sync` performs (canto_curses/tag.py:365-433):
    the tag's stories are matched against the ids its tagcore now lists.
    Every story sits at a place while the new list is put together; a place
    is held doubled here, so that the half-step place of an undead
    selection is an integer. */
module TagSync {
  import opened Basics

  type Id = string

  /** A story object: `sid` is its identity, `id` the backend's item id;
      the two offsets are those `set_offset` and `set_sel_offset` last gave
      it (`None`: never given). */
  datatype Story = Story(sid: nat, id: Id, offset: Option<int>, selOffset: Option<int>)

  /** A story with its doubled place: twice its tagcore index, or one more
      than twice an index for the half-step of an undead selection. */
  datatype PlacedStory = PlacedStory(place: int, story: Story)

  function StoriesOf(es: seq<PlacedStory>): (ss: seq<Story>)
    ensures |ss| == |es| && forall k :: 0 <= k < |es| ==> ss[k] == es[k].story
  {
    seq(|es|, k requires 0 <= k < |es| => es[k].story)
  }

  function IdsOf(ss: seq<Story>): (r: seq<Id>)
    ensures |r| == |ss| && forall k :: 0 <= k < |ss| ==> r[k] == ss[k].id
  {
    seq(|ss|, k requires 0 <= k < |ss| => ss[k].id)
  }

  function SidsOf(ss: seq<Story>): (r: seq<nat>)
    ensures |r| == |ss| && forall k :: 0 <= k < |ss| ==> r[k] == ss[k].sid
  {
    seq(|ss|, k requires 0 <= k < |ss| => ss[k].sid)
  }

  /** `max([x[0] for x in current_stories])` */
  function MaxPlace(es: seq<PlacedStory>): (m: int)
    requires es != []
    ensures forall k :: 0 <= k < |es| ==> es[k].place <= m
    ensures exists k :: 0 <= k < |es| && es[k].place == m
    decreases |es|
  {
    if |es| == 1 then es[0].place
    else
      var init := es[..|es| - 1];
      var m := MaxPlace(init);
      assert forall k :: 0 <= k < |init| ==> init[k] == es[k];
      Max(m, es[|es| - 1].place)
  }

  /** A story survives a sync when its id is still listed, or when it is
      the selection. */
  predicate Survives(s: Story, ids: seq<Id>, sel: Option<nat>)
  {
    s.id in ids || sel == Some(s.sid)
  }

  /** The surviving stories of `olds`, in their old order. */
  function Survivors(olds: seq<Story>, ids: seq<Id>, sel: Option<nat>): seq<Story>
    decreases |olds|
  {
    if olds == [] then []
    else
      var last := olds[|olds| - 1];
      Survivors(olds[..|olds| - 1], ids, sel) + (if Survives(last, ids, sel) then [last] else [])
  }

  /** The first loop of `sync` over the old stories `olds`: a story whose id
      is listed keeps its place in the list; a story that vanished but is
      the selection stays, undead, half a step after every place so far
      (or at -1 when it comes first). */
  function Kept(olds: seq<Story>, ids: seq<Id>, sel: Option<nat>): (es: seq<PlacedStory>)
    ensures StoriesOf(es) == Survivors(olds, ids, sel)
    ensures forall k :: 0 <= k < |es| && es[k].story.id in ids ==>
      es[k].place == 2 * IndexOf(ids, es[k].story.id).value
    ensures forall k :: 0 <= k < |es| && es[k].story.id !in ids ==>
      sel == Some(es[k].story.sid) &&
      (k == 0 ==> es[k].place == -2) &&
      (forall m :: 0 <= m < k ==> es[m].place < es[k].place)
    decreases |olds|
  {
    if olds == [] then []
    else
      var prev := Kept(olds[..|olds| - 1], ids, sel);
      var s := olds[|olds| - 1];
      var r := KeepNext(prev, s, ids, sel);
      assert Survives(s, ids, sel) ==> StoriesOf(r) == StoriesOf(prev) + [s];
      r
  }

  /** Every place the first loop hands out, exactly: an undead selection
      after other stories sits at `max + 0.5` of the places before it. */
  lemma {:induction false} KeptExactPlaces(olds: seq<Story>, ids: seq<Id>, sel: Option<nat>)
    ensures KeptPlaces(Kept(olds, ids, sel), ids, sel)
    decreases |olds|
  {
    if olds != [] {
      var prev := Kept(olds[..|olds| - 1], ids, sel);
      KeptExactPlaces(olds[..|olds| - 1], ids, sel);
      KeepNextPlaces(prev, olds[|olds| - 1], ids, sel);
    }
  }

  /** The places the first loop hands out: a listed story sits at twice its
      tagcore index; an unlisted one is the selection, at -2 (that is, -1)
      when it comes first and otherwise at one more than the largest doubled
      place before it (that is, `max + 0.5`), so after every earlier place. */
  ghost predicate KeptPlaces(es: seq<PlacedStory>, ids: seq<Id>, sel: Option<nat>)
  {
    (forall k :: 0 <= k < |es| && es[k].story.id in ids ==>
       es[k].place == 2 * IndexOf(ids, es[k].story.id).value) &&
    (forall k :: 0 <= k < |es| && es[k].story.id !in ids ==>
       sel == Some(es[k].story.sid) &&
       (k == 0 ==> es[k].place == -2) &&
       (k > 0 ==> es[k].place == MaxPlace(es[..k]) + 1) &&
       (forall m :: 0 <= m < k ==> es[m].place < es[k].place))
  }

  lemma KeepNextPlaces(prev: seq<PlacedStory>, s: Story, ids: seq<Id>, sel: Option<nat>)
    requires KeptPlaces(prev, ids, sel)
    ensures KeptPlaces(KeepNext(prev, s, ids, sel), ids, sel)
  {
    if s.id in ids {
      AppendPlaces(prev, PlacedStory(2 * IndexOf(ids, s.id).value, s), ids, sel);
    } else if sel == Some(s.sid) {
      AppendPlaces(prev, PlacedStory(if prev == [] then -2 else MaxPlace(prev) + 1, s), ids, sel);
    }
  }

  /** Appending an entry placed as the first loop places it. */
  lemma AppendPlaces(prev: seq<PlacedStory>, e: PlacedStory, ids: seq<Id>, sel: Option<nat>)
    requires KeptPlaces(prev, ids, sel)
    requires e.story.id in ids ==> e.place == 2 * IndexOf(ids, e.story.id).value
    requires e.story.id !in ids ==>
      sel == Some(e.story.sid) && e.place == if prev == [] then -2 else MaxPlace(prev) + 1
    ensures KeptPlaces(prev + [e], ids, sel)
  {
    var r := prev + [e];
    var n := |prev|;
    forall k | 0 <= k < |r| && r[k].story.id in ids
      ensures r[k].place == 2 * IndexOf(ids, r[k].story.id).value
    {
      if k < n {
        assert r[k] == prev[k];
      }
    }
    forall k | 0 <= k < |r| && r[k].story.id !in ids
      ensures sel == Some(r[k].story.sid)
      ensures k == 0 ==> r[k].place == -2
      ensures k > 0 ==> r[k].place == MaxPlace(r[..k]) + 1
      ensures forall m :: 0 <= m < k ==> r[m].place < r[k].place
    {
      if k < n {
        assert r[k] == prev[k] && r[..k] == prev[..k];
        forall m | 0 <= m < k ensures r[m].place < r[k].place {
          assert r[m] == prev[m];
        }
      } else {
        assert r[k] == e && r[..k] == prev;
        forall m | 0 <= m < k ensures r[m].place < r[k].place {
          assert r[m] == prev[m];
        }
      }
    }
  }


  /** One step of the first loop of `sync` for the old story `s`. */
  function KeepNext(prev: seq<PlacedStory>, s: Story, ids: seq<Id>, sel: Option<nat>): seq<PlacedStory>
  {
    if s.id in ids then prev + [PlacedStory(2 * IndexOf(ids, s.id).value, s)]
    else if sel == Some(s.sid) then prev + [PlacedStory(if prev == [] then -2 else MaxPlace(prev) + 1, s)]
    else prev
  }

  /** The tagcore re-marks itself changed: some story vanished but stays as
      the undead selection. */
  predicate Remarked(olds: seq<Story>, ids: seq<Id>, sel: Option<nat>)
  {
    exists k :: 0 <= k < |olds| && olds[k].id !in ids && sel == Some(olds[k].sid)
  }

  /** The second loop of `sync` over `ids[..j]`: an id that no story in
      `base` or added so far carries gets a new story at its tagcore
      position; new stories take identities from `first` on. */
  function Fresh(ids: seq<Id>, base: seq<PlacedStory>, j: nat, first: nat): (es: seq<PlacedStory>)
    requires j <= |ids|
    ensures |es| <= j
    ensures forall k :: 0 <= k < |es| ==>
      es[k].story == Story(first + k, es[k].story.id, None, None) &&
      0 <= es[k].place < 2 * j && es[k].place % 2 == 0 && ids[es[k].place / 2] == es[k].story.id
    ensures forall a, b :: 0 <= a < b < |es| ==> es[a].place < es[b].place
    decreases j
  {
    if j == 0 then []
    else
      var prev := Fresh(ids, base, j - 1, first);
      var id := ids[j - 1];
      if id in IdsOf(StoriesOf(base + prev)) then prev
      else prev + [PlacedStory(2 * (j - 1), Story(first + |prev|, id, None, None))]
  }

  predicate SortedByPlace(es: seq<PlacedStory>)
  {
    forall a, b :: 0 <= a < b < |es| ==> es[a].place <= es[b].place
  }

  /** Inserting `e` before the first entry placed at or after it. */
  function Insert(e: PlacedStory, es: seq<PlacedStory>): (r: seq<PlacedStory>)
    ensures multiset(r) == multiset{e} + multiset(es)
    ensures |r| == |es| + 1
    decreases |es|
  {
    if es == [] then [e]
    else if e.place <= es[0].place then [e] + es
    else
      assert es == [es[0]] + es[1..];
      [es[0]] + Insert(e, es[1..])
  }

  /** A bound below `e` and every entry of `es` bounds the insertion. */
  lemma {:induction false} InsertBound(e: PlacedStory, es: seq<PlacedStory>, lo: int)
    requires lo <= e.place && forall k :: 0 <= k < |es| ==> lo <= es[k].place
    ensures forall k :: 0 <= k < |Insert(e, es)| ==> lo <= Insert(e, es)[k].place
    decreases |es|
  {
    if es != [] && e.place > es[0].place {
      InsertBound(e, es[1..], lo);
    }
  }

  lemma {:induction false} InsertSorted(e: PlacedStory, es: seq<PlacedStory>)
    requires SortedByPlace(es)
    ensures SortedByPlace(Insert(e, es))
    decreases |es|
  {
    if es != [] && e.place > es[0].place {
      InsertSorted(e, es[1..]);
      InsertBound(e, es[1..], es[0].place);
      var r := Insert(e, es);
      assert forall k :: 1 <= k < |r| ==> r[k] == Insert(e, es[1..])[k - 1];
    }
  }

  /** `current_stories.sort()`, ordering by place. */
  function SortByPlace(es: seq<PlacedStory>): (r: seq<PlacedStory>)
    ensures SortedByPlace(r)
    ensures multiset(r) == multiset(es)
    decreases |es|
  {
    if es == [] then []
    else
      var rest := SortByPlace(es[1..]);
      InsertSorted(es[0], rest);
      assert es == [es[0]] + es[1..];
      Insert(es[0], rest)
  }

  /** The ids of the stories of `es`, in order. */
  function EntryIds(es: seq<PlacedStory>): (r: seq<Id>)
    ensures r == IdsOf(StoriesOf(es))
    decreases |es|
  {
    if es == [] then []
    else
      var r := [es[0].story.id] + EntryIds(es[1..]);
      assert forall k :: 1 <= k < |es| ==> r[k] == es[1..][k - 1].story.id;
      r
  }

  lemma {:induction false} InsertIds(e: PlacedStory, es: seq<PlacedStory>)
    ensures multiset(EntryIds(Insert(e, es))) == multiset{e.story.id} + multiset(EntryIds(es))
    decreases |es|
  {
    if es != [] && e.place > es[0].place {
      InsertIds(e, es[1..]);
    }
  }

  /** Sorting keeps every story id, as often as it occurs. */
  lemma {:induction false} SortIds(es: seq<PlacedStory>)
    ensures multiset(EntryIds(SortByPlace(es))) == multiset(EntryIds(es))
    decreases |es|
  {
    if es != [] {
      SortIds(es[1..]);
      InsertIds(es[0], SortByPlace(es[1..]));
    }
  }

  /** The identities of the stories of `es`, in order. */
  function EntrySids(es: seq<PlacedStory>): (r: seq<nat>)
    ensures r == SidsOf(StoriesOf(es))
    decreases |es|
  {
    if es == [] then []
    else
      var r := [es[0].story.sid] + EntrySids(es[1..]);
      assert forall k :: 1 <= k < |es| ==> r[k] == es[1..][k - 1].story.sid;
      r
  }

  lemma {:induction false} InsertSids(e: PlacedStory, es: seq<PlacedStory>)
    ensures multiset(EntrySids(Insert(e, es))) == multiset{e.story.sid} + multiset(EntrySids(es))
    decreases |es|
  {
    if es != [] && e.place > es[0].place {
      InsertSids(e, es[1..]);
    }
  }

  /** Sorting keeps every story identity, as often as it occurs. */
  lemma {:induction false} SortSids(es: seq<PlacedStory>)
    ensures multiset(EntrySids(SortByPlace(es))) == multiset(EntrySids(es))
    decreases |es|
  {
    if es != [] {
      SortSids(es[1..]);
      InsertSids(es[0], SortByPlace(es[1..]));
    }
  }

  /** Sorting neither merges nor splits ids or identities. */
  lemma SortDistinct(es: seq<PlacedStory>)
    ensures Distinct(EntryIds(SortByPlace(es))) <==> Distinct(EntryIds(es))
    ensures Distinct(EntrySids(SortByPlace(es))) <==> Distinct(EntrySids(es))
  {
    SortIds(es);
    SortSids(es);
    DistinctByCounts(EntryIds(es));
    DistinctByCounts(EntryIds(SortByPlace(es)));
    DistinctByCounts(EntrySids(es));
    DistinctByCounts(EntrySids(SortByPlace(es)));
  }

  /** The list `sync` assembles: the kept stories, then a new story for each
      listed id no story carries, all sorted by place when `sort`. */
  function Reconcile(olds: seq<Story>, ids: seq<Id>, sel: Option<nat>, first: nat, sort: bool): seq<PlacedStory>
  {
    var kept := Kept(olds, ids, sel);
    var all := kept + Fresh(ids, kept, |ids|, first);
    if sort then SortByPlace(all) else all
  }

  /** The old stories that do not survive, in their old order. */
  function Vanished(olds: seq<Story>, ids: seq<Id>, sel: Option<nat>): seq<Story>
    decreases |olds|
  {
    if olds == [] then []
    else
      var last := olds[|olds| - 1];
      Vanished(olds[..|olds| - 1], ids, sel) + (if Survives(last, ids, sel) then [] else [last])
  }

  /** The third loop of `sync`: the old stories not in the new list, in
      their old order; these are the ones whose `die()` is called. */
  function Deleted(olds: seq<Story>, result: seq<Story>): seq<Story>
    decreases |olds|
  {
    if olds == [] then []
    else
      var last := olds[|olds| - 1];
      Deleted(olds[..|olds| - 1], result) + (if last.sid in SidsOf(result) then [] else [last])
  }

  lemma {:induction false} SurvivorsMembers(olds: seq<Story>, ids: seq<Id>, sel: Option<nat>)
    ensures forall x :: x in Survivors(olds, ids, sel) <==> x in olds && Survives(x, ids, sel)
    decreases |olds|
  {
    if olds != [] {
      var init := olds[..|olds| - 1];
      SurvivorsMembers(init, ids, sel);
      assert olds == init + [olds[|olds| - 1]];
    }
  }

  /** Sorting keeps exactly the same stories. */
  lemma SortKeepsStories(es: seq<PlacedStory>)
    ensures forall x :: x in StoriesOf(SortByPlace(es)) <==> x in StoriesOf(es)
  {
    var r := SortByPlace(es);
    forall x | x in StoriesOf(r) ensures x in StoriesOf(es) {
      var k :| 0 <= k < |r| && StoriesOf(r)[k] == x;
      assert r[k] in multiset(es);
      var j :| 0 <= j < |es| && es[j] == r[k];
      assert StoriesOf(es)[j] == x;
    }
    forall x | x in StoriesOf(es) ensures x in StoriesOf(r) {
      var j :| 0 <= j < |es| && StoriesOf(es)[j] == x;
      assert es[j] in multiset(r);
      var k :| 0 <= k < |r| && r[k] == es[j];
      assert StoriesOf(r)[k] == x;
    }
  }

  /** The stories in the list `sync` assembles: the survivors and the new
      stories, whatever the order. */
  lemma ReconcileMembers(olds: seq<Story>, ids: seq<Id>, sel: Option<nat>, first: nat, sort: bool)
    ensures var kept := Kept(olds, ids, sel);
      forall x :: x in StoriesOf(Reconcile(olds, ids, sel, first, sort)) <==>
        x in Survivors(olds, ids, sel) || x in StoriesOf(Fresh(ids, kept, |ids|, first))
  {
    var kept := Kept(olds, ids, sel);
    var added := Fresh(ids, kept, |ids|, first);
    assert StoriesOf(kept + added) == StoriesOf(kept) + StoriesOf(added);
    if sort {
      SortKeepsStories(kept + added);
    }
  }

  /** A story is kept exactly when its id is still listed or it is the
      selection; no new story is mistaken for an old one. */
  lemma SyncKeeps(olds: seq<Story>, ids: seq<Id>, sel: Option<nat>, first: nat, sort: bool)
    requires forall k :: 0 <= k < |olds| ==> olds[k].sid < first
    ensures forall k :: 0 <= k < |olds| ==>
      (olds[k] in StoriesOf(Reconcile(olds, ids, sel, first, sort)) <==> Survives(olds[k], ids, sel))
  {
    ReconcileMembers(olds, ids, sel, first, sort);
    SurvivorsMembers(olds, ids, sel);
  }

  lemma {:induction false} SurvivorsDistinct(olds: seq<Story>, ids: seq<Id>, sel: Option<nat>)
    requires Distinct(IdsOf(olds))
    ensures Distinct(IdsOf(Survivors(olds, ids, sel)))
    decreases |olds|
  {
    if olds != [] {
      var init := olds[..|olds| - 1];
      var last := olds[|olds| - 1];
      assert Distinct(IdsOf(init)) by {
        forall a, b | 0 <= a < b < |init| ensures IdsOf(init)[a] != IdsOf(init)[b] {
          assert IdsOf(olds)[a] != IdsOf(olds)[b];
        }
      }
      SurvivorsDistinct(init, ids, sel);
      SurvivorsMembers(init, ids, sel);
      var prev := Survivors(init, ids, sel);
      forall k | 0 <= k < |prev| ensures prev[k].id != last.id {
        assert prev[k] in init;
        var j :| 0 <= j < |init| && init[j] == prev[k];
        assert IdsOf(olds)[j] != IdsOf(olds)[|olds| - 1];
      }
    }
  }

  lemma EntryIdsSnoc(es: seq<PlacedStory>, e: PlacedStory)
    ensures EntryIds(es + [e]) == EntryIds(es) + [e.story.id]
  {
    assert IdsOf(StoriesOf(es + [e])) == IdsOf(StoriesOf(es)) + [e.story.id];
  }

  /** The ids the second loop leaves after `ids[..j]`, starting from `have`:
      each listed id not yet there is appended once. */
  function IdsAdded(ids: seq<Id>, have: seq<Id>, j: nat): seq<Id>
    requires j <= |ids|
    decreases j
  {
    if j == 0 then have
    else
      var prev := IdsAdded(ids, have, j - 1);
      if ids[j - 1] in prev then prev else prev + [ids[j - 1]]
  }

  /** One step of the second loop, seen through the ids. */
  lemma FreshStep(ids: seq<Id>, base: seq<PlacedStory>, j: nat, first: nat)
    requires 0 < j <= |ids|
    requires EntryIds(base + Fresh(ids, base, j - 1, first)) == IdsAdded(ids, EntryIds(base), j - 1)
    ensures EntryIds(base + Fresh(ids, base, j, first)) == IdsAdded(ids, EntryIds(base), j)
  {
    var prev := Fresh(ids, base, j - 1, first);
    var id := ids[j - 1];
    if id !in EntryIds(base + prev) {
      var e := PlacedStory(2 * (j - 1), Story(first + |prev|, id, None, None));
      assert Fresh(ids, base, j, first) == prev + [e];
      assert base + (prev + [e]) == (base + prev) + [e];
      EntryIdsSnoc(base + prev, e);
    }
  }

  /** The ids after the second loop are those `IdsAdded` describes. */
  lemma {:induction false} FreshIds(ids: seq<Id>, base: seq<PlacedStory>, j: nat, first: nat)
    requires j <= |ids|
    ensures EntryIds(base + Fresh(ids, base, j, first)) == IdsAdded(ids, EntryIds(base), j)
    decreases j
  {
    if j == 0 {
      assert base + Fresh(ids, base, j, first) == base;
    } else {
      FreshIds(ids, base, j - 1, first);
      FreshStep(ids, base, j, first);
    }
  }

  /** Adding ids only when missing keeps them distinct and takes in every
      listed id. */
  lemma {:induction false} IdsAddedDistinct(ids: seq<Id>, have: seq<Id>, j: nat)
    requires j <= |ids|
    requires Distinct(have)
    ensures Distinct(IdsAdded(ids, have, j))
    ensures forall p :: 0 <= p < j ==> ids[p] in IdsAdded(ids, have, j)
    decreases j
  {
    if j > 0 {
      IdsAddedDistinct(ids, have, j - 1);
      var prev := IdsAdded(ids, have, j - 1);
      if ids[j - 1] !in prev {
        DistinctSnoc(prev, ids[j - 1]);
        assert forall p :: 0 <= p < j - 1 ==> ids[p] in prev + [ids[j - 1]];
      }
    }
  }

  /** The new stories never repeat an id already present. */
  lemma FreshDistinct(ids: seq<Id>, base: seq<PlacedStory>, j: nat, first: nat)
    requires j <= |ids|
    requires Distinct(EntryIds(base))
    ensures Distinct(EntryIds(base + Fresh(ids, base, j, first)))
    ensures forall p :: 0 <= p < j ==> ids[p] in EntryIds(base + Fresh(ids, base, j, first))
  {
    FreshIds(ids, base, j, first);
    IdsAddedDistinct(ids, EntryIds(base), j);
  }

  /** When the tag's stories carry distinct ids, every listed id ends up on
      exactly one story. */
  lemma SyncIdsOnce(olds: seq<Story>, ids: seq<Id>, sel: Option<nat>, first: nat, sort: bool)
    requires Distinct(IdsOf(olds))
    ensures forall id :: id in ids ==>
      multiset(IdsOf(StoriesOf(Reconcile(olds, ids, sel, first, sort))))[id] == 1
  {
    var kept := Kept(olds, ids, sel);
    var all := kept + Fresh(ids, kept, |ids|, first);
    SurvivorsDistinct(olds, ids, sel);
    FreshDistinct(ids, kept, |ids|, first);
    forall id | id in ids
      ensures multiset(IdsOf(StoriesOf(Reconcile(olds, ids, sel, first, sort))))[id] == 1
    {
      var p :| 0 <= p < |ids| && ids[p] == id;
      DistinctCount(EntryIds(all), id);
      if sort {
        SortIds(all);
      }
    }
  }

  lemma {:induction false} DeletedVanished(olds: seq<Story>, result: seq<Story>, ids: seq<Id>, sel: Option<nat>)
    requires forall k :: 0 <= k < |olds| ==> (olds[k].sid in SidsOf(result) <==> Survives(olds[k], ids, sel))
    ensures Deleted(olds, result) == Vanished(olds, ids, sel)
    decreases |olds|
  {
    if olds != [] {
      DeletedVanished(olds[..|olds| - 1], result, ids, sel);
    }
  }

  /** A surviving old story is still on the tag after `sync`. */
  lemma SurvivorStays(olds: seq<Story>, ids: seq<Id>, sel: Option<nat>, first: nat, sort: bool, k: nat)
    requires k < |olds| && Survives(olds[k], ids, sel)
    ensures olds[k].sid in SidsOf(StoriesOf(Reconcile(olds, ids, sel, first, sort)))
  {
    var result := StoriesOf(Reconcile(olds, ids, sel, first, sort));
    ReconcileMembers(olds, ids, sel, first, sort);
    SurvivorsMembers(olds, ids, sel);
    assert olds[k] in result;
    var m :| 0 <= m < |result| && result[m] == olds[k];
    assert SidsOf(result)[m] == olds[k].sid;
  }

  /** No story on the tag after `sync` carries the identity of an old
      story that did not survive. */
  lemma VanishedGoes(olds: seq<Story>, ids: seq<Id>, sel: Option<nat>, first: nat, sort: bool, k: nat)
    requires forall j :: 0 <= j < |olds| ==> olds[j].sid < first
    requires Distinct(SidsOf(olds))
    requires k < |olds| && !Survives(olds[k], ids, sel)
    ensures olds[k].sid !in SidsOf(StoriesOf(Reconcile(olds, ids, sel, first, sort)))
  {
    var result := StoriesOf(Reconcile(olds, ids, sel, first, sort));
    var kept := Kept(olds, ids, sel);
    ReconcileMembers(olds, ids, sel, first, sort);
    SurvivorsMembers(olds, ids, sel);
    forall m | 0 <= m < |result| ensures SidsOf(result)[m] != olds[k].sid {
      var x := result[m];
      assert x in result;
      if x in Survivors(olds, ids, sel) {
        OtherOldSid(olds, k, x);
      } else {
        var added := StoriesOf(Fresh(ids, kept, |ids|, first));
        var q :| 0 <= q < |added| && added[q] == x;
        assert x.sid >= first;
      }
    }
  }

  /** With distinct identities, another old story has another identity. */
  lemma OtherOldSid(olds: seq<Story>, k: nat, x: Story)
    requires Distinct(SidsOf(olds)) && k < |olds|
    requires x in olds && x != olds[k]
    ensures x.sid != olds[k].sid
  {
    var j :| 0 <= j < |olds| && olds[j] == x;
    assert SidsOf(olds)[j] != SidsOf(olds)[k];
  }

  /** When the old stories have distinct identities older than every new
      one, the stories `sync` disposes of are exactly those that did not
      survive. */
  lemma SyncDeletes(olds: seq<Story>, ids: seq<Id>, sel: Option<nat>, first: nat, sort: bool)
    requires forall k :: 0 <= k < |olds| ==> olds[k].sid < first
    requires Distinct(SidsOf(olds))
    ensures Deleted(olds, StoriesOf(Reconcile(olds, ids, sel, first, sort))) == Vanished(olds, ids, sel)
  {
    var result := StoriesOf(Reconcile(olds, ids, sel, first, sort));
    forall k | 0 <= k < |olds| ensures olds[k].sid in SidsOf(result) <==> Survives(olds[k], ids, sel) {
      if Survives(olds[k], ids, sel) {
        SurvivorStays(olds, ids, sel, first, sort, k);
      } else {
        VanishedGoes(olds, ids, sel, first, sort, k);
      }
    }
    DeletedVanished(olds, result, ids, sel);
  }

  lemma {:induction false} SurvivorsDistinctSids(olds: seq<Story>, ids: seq<Id>, sel: Option<nat>)
    requires Distinct(SidsOf(olds))
    ensures Distinct(SidsOf(Survivors(olds, ids, sel)))
    decreases |olds|
  {
    if olds != [] {
      var init := olds[..|olds| - 1];
      var last := olds[|olds| - 1];
      assert Distinct(SidsOf(init)) by {
        forall a, b | 0 <= a < b < |init| ensures SidsOf(init)[a] != SidsOf(init)[b] {
          assert SidsOf(olds)[a] != SidsOf(olds)[b];
        }
      }
      SurvivorsDistinctSids(init, ids, sel);
      SurvivorsMembers(init, ids, sel);
      var prev := Survivors(init, ids, sel);
      forall k | 0 <= k < |prev| ensures prev[k].sid != last.sid {
        assert prev[k] in init;
        var j :| 0 <= j < |init| && init[j] == prev[k];
        assert SidsOf(olds)[j] != SidsOf(olds)[|olds| - 1];
      }
    }
  }

  /** How many new stories `sync` creates. */
  function AddedCount(olds: seq<Story>, ids: seq<Id>, sel: Option<nat>, first: nat): (n: nat)
    ensures n <= |ids|
  {
    |Fresh(ids, Kept(olds, ids, sel), |ids|, first)|
  }

  /** The kept stories carry identities from the old ones. */
  lemma KeptBelow(olds: seq<Story>, ids: seq<Id>, sel: Option<nat>, first: nat)
    requires forall k :: 0 <= k < |olds| ==> olds[k].sid < first
    ensures forall k :: 0 <= k < |Kept(olds, ids, sel)| ==> Kept(olds, ids, sel)[k].story.sid < first
  {
    var kept := Kept(olds, ids, sel);
    SurvivorsMembers(olds, ids, sel);
    forall k | 0 <= k < |kept| ensures kept[k].story.sid < first {
      assert StoriesOf(kept)[k] in olds;
    }
  }

  /** Before sorting, the kept and the new stories have distinct
      identities, all below the next unused one. */
  lemma UnsortedSidsApart(olds: seq<Story>, ids: seq<Id>, sel: Option<nat>, first: nat)
    requires forall k :: 0 <= k < |olds| ==> olds[k].sid < first
    requires Distinct(SidsOf(olds))
    ensures var all := Kept(olds, ids, sel) + Fresh(ids, Kept(olds, ids, sel), |ids|, first);
      Distinct(EntrySids(all)) &&
      forall k :: 0 <= k < |all| ==> all[k].story.sid < first + AddedCount(olds, ids, sel, first)
  {
    var kept := Kept(olds, ids, sel);
    var added := Fresh(ids, kept, |ids|, first);
    var all := kept + added;
    SurvivorsDistinctSids(olds, ids, sel);
    KeptBelow(olds, ids, sel, first);
    assert Distinct(EntrySids(all)) by {
      forall a, b | 0 <= a < b < |all| ensures all[a].story.sid != all[b].story.sid {
        if b < |kept| {
          assert SidsOf(StoriesOf(kept))[a] != SidsOf(StoriesOf(kept))[b];
        } else if a >= |kept| {
          assert added[b - |kept|].story.sid == first + (b - |kept|);
          assert added[a - |kept|].story.sid == first + (a - |kept|);
        } else {
          assert added[b - |kept|].story.sid >= first;
        }
      }
    }
    forall k | 0 <= k < |all| ensures all[k].story.sid < first + |added| {
      if k >= |kept| {
        assert added[k - |kept|].story.sid == first + (k - |kept|);
      }
    }
  }

  /** `sync` keeps the tag's stories apart: distinct identities, all below
      the next unused one, and distinct ids. */
  lemma SyncKeepsApart(olds: seq<Story>, ids: seq<Id>, sel: Option<nat>, first: nat, sort: bool)
    requires forall k :: 0 <= k < |olds| ==> olds[k].sid < first
    requires Distinct(SidsOf(olds)) && Distinct(IdsOf(olds))
    ensures var r := StoriesOf(Reconcile(olds, ids, sel, first, sort));
      (forall k :: 0 <= k < |r| ==> r[k].sid < first + AddedCount(olds, ids, sel, first)) &&
      Distinct(SidsOf(r)) && Distinct(IdsOf(r))
  {
    var kept := Kept(olds, ids, sel);
    var all := kept + Fresh(ids, kept, |ids|, first);
    var n := AddedCount(olds, ids, sel, first);
    SurvivorsDistinct(olds, ids, sel);
    FreshDistinct(ids, kept, |ids|, first);
    UnsortedSidsApart(olds, ids, sel, first);
    if sort {
      SortDistinct(all);
      SortKeepsStories(all);
      var r := StoriesOf(SortByPlace(all));
      forall k | 0 <= k < |r| ensures r[k].sid < first + n {
        assert r[k] in StoriesOf(all);
      }
    }
  }

  /** Unsorted, `sync` leaves the survivors first, in their old order. */
  lemma SyncKeepsOrder(olds: seq<Story>, ids: seq<Id>, sel: Option<nat>, first: nat)
    ensures |Survivors(olds, ids, sel)| <= |Reconcile(olds, ids, sel, first, false)|
    ensures StoriesOf(Reconcile(olds, ids, sel, first, false))[..|Survivors(olds, ids, sel)|]
            == Survivors(olds, ids, sel)
  {
    var kept := Kept(olds, ids, sel);
    var es := kept + Fresh(ids, kept, |ids|, first);
    assert StoriesOf(es)[..|kept|] == StoriesOf(kept);
  }

  lemma FreshAfter(ids: seq<Id>, base: seq<PlacedStory>, first: nat)
    ensures var es := base + Fresh(ids, base, |ids|, first);
      (forall k :: |base| <= k < |es| ==>
        es[k].story.sid == first + (k - |base|) && 0 <= es[k].place / 2 < |ids| && ids[es[k].place / 2] == es[k].story.id) &&
      (forall a, b :: |base| <= a < b < |es| ==> es[a].place < es[b].place)
  {
    var added := Fresh(ids, base, |ids|, first);
    var es := base + added;
    var n := |base|;
    forall k | n <= k < |es|
      ensures es[k].story.sid == first + (k - n) && 0 <= es[k].place / 2 < |ids| && ids[es[k].place / 2] == es[k].story.id
    {
      assert es[k] == added[k - n];
    }
    forall a, b | n <= a < b < |es| ensures es[a].place < es[b].place {
      assert es[a] == added[a - n] && es[b] == added[b - n];
    }
  }

  /** Unsorted, the new stories follow the survivors in tagcore order,
      numbered from `first`. */
  lemma SyncAddsInOrder(olds: seq<Story>, ids: seq<Id>, sel: Option<nat>, first: nat)
    ensures var es := Reconcile(olds, ids, sel, first, false);
      var n := |Survivors(olds, ids, sel)|;
      n <= |es| &&
      (forall k :: n <= k < |es| ==>
        es[k].story.sid == first + (k - n) && 0 <= es[k].place / 2 < |ids| && ids[es[k].place / 2] == es[k].story.id) &&
      (forall a, b :: n <= a < b < |es| ==> es[a].place < es[b].place)
  {
    var kept := Kept(olds, ids, sel);
    assert |kept| == |Survivors(olds, ids, sel)| by {
      assert |StoriesOf(kept)| == |kept|;
    }
    FreshAfter(ids, kept, first);
  }
}
