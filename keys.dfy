/** One pass of the input loop, `input_thread` (canto_curses/screen.py:629-659),
    as a state transition: the key read and, when a line is being edited, what
    the edit box's `addkey` answered are inputs. */
module Keys {

  /** What the input loop puts on the user queue: `("KEY", r)`. */
  datatype Event = Key(code: int)

  /** The state one pass reads and writes: whether a line is being edited
      (`sub_edit`), the user queue, the keys fed to the edit box, the
      "input done" event and the `needs_redraw` variable. */
  datatype Input = Input(subEdit: bool, queue: seq<Event>, fed: seq<int>, done: bool, redraw: bool)

  /** No key is ready. */
  const NoKey := -1

  /** One pass with key `r`; `rc` is what `addkey(r)` returns, consulted
      only while editing (0: the line is finished). */
  function Step(s: Input, r: int, rc: int): (t: Input)
    ensures r == NoKey ==> t == s
    ensures r != NoKey && s.subEdit ==>
      t.queue == s.queue && t.fed == s.fed + [r] &&
      (rc == 0 ==> !t.subEdit && t.done && t.redraw) &&
      (rc != 0 ==> t.subEdit && t.done == s.done && t.redraw == s.redraw)
    ensures r != NoKey && !s.subEdit ==> t == s.(queue := s.queue + [Key(r)])
  {
    if r == NoKey then s
    else if s.subEdit then
      var fed := s.fed + [r];
      if rc == 0 then s.(subEdit := false, fed := fed, done := true, redraw := true)
      else s.(fed := fed)
    else s.(queue := s.queue + [Key(r)])
  }

  /** Successive passes, each with its key and `addkey` answer. */
  function Run(s: Input, ks: seq<(int, int)>): Input
    decreases |ks|
  {
    if ks == [] then s else Run(Step(s, ks[0].0, ks[0].1), ks[1..])
  }

  /** The real keys of `ks`, in order. */
  function Codes(ks: seq<(int, int)>): (cs: seq<int>)
    ensures |cs| <= |ks|
  {
    if ks == [] then []
    else (if ks[0].0 == NoKey then [] else [ks[0].0]) + Codes(ks[1..])
  }

  /** The events the real keys of `ks` become, in order. */
  function Events(ks: seq<(int, int)>): (es: seq<Event>)
    ensures |es| <= |ks|
  {
    if ks == [] then []
    else (if ks[0].0 == NoKey then [] else [Key(ks[0].0)]) + Events(ks[1..])
  }

  /** No idle reading is among the real keys, and every real key read is
      one of them. */
  lemma {:induction false} CodesAreReal(ks: seq<(int, int)>)
    ensures forall i :: 0 <= i < |Codes(ks)| ==> Codes(ks)[i] != NoKey
    ensures forall i :: 0 <= i < |ks| && ks[i].0 != NoKey ==> ks[i].0 in Codes(ks)
    decreases |ks|
  {
    if ks != [] {
      CodesAreReal(ks[1..]);
      assert forall i :: 1 <= i < |ks| ==> ks[i] == ks[1..][i - 1];
    }
  }

  /** One `("KEY", r)` event per real key, in the order read. */
  lemma {:induction false} EventsAreCodes(ks: seq<(int, int)>)
    ensures |Events(ks)| == |Codes(ks)|
    ensures forall i :: 0 <= i < |Events(ks)| ==> Events(ks)[i] == Key(Codes(ks)[i])
    decreases |ks|
  {
    if ks != [] {
      EventsAreCodes(ks[1..]);
    }
  }

  /** Outside line editing every real key is queued, in the order read,
      and nothing reaches the edit box. */
  lemma {:induction false} QueueKeepsOrder(s: Input, ks: seq<(int, int)>)
    requires !s.subEdit
    ensures Run(s, ks) == s.(queue := s.queue + Events(ks))
    decreases |ks|
  {
    if ks != [] {
      var t := Step(s, ks[0].0, ks[0].1);
      QueueKeepsOrder(t, ks[1..]);
      assert s.queue + Events(ks) == t.queue + Events(ks[1..]);
    }
  }

  /** While the edit box keeps asking for more, every real key goes to it
      and none is queued. */
  lemma {:induction false} EditingNeverQueues(s: Input, ks: seq<(int, int)>)
    requires s.subEdit
    requires forall i :: 0 <= i < |ks| ==> ks[i].1 != 0
    ensures Run(s, ks) == s.(fed := s.fed + Codes(ks))
    decreases |ks|
  {
    if ks != [] {
      var head := if ks[0].0 == NoKey then [] else [ks[0].0];
      var t := s.(fed := s.fed + head);
      assert Step(s, ks[0].0, ks[0].1) == t;
      assert Run(s, ks) == Run(t, ks[1..]);
      assert Codes(ks) == head + Codes(ks[1..]);
      assert forall i :: 0 <= i < |ks[1..]| ==> ks[1..][i].1 != 0 by {
        forall i | 0 <= i < |ks[1..]| ensures ks[1..][i].1 != 0 {
          assert ks[1..][i] == ks[i + 1];
        }
      }
      EditingNeverQueues(t, ks[1..]);
      assert s.fed + Codes(ks) == t.fed + Codes(ks[1..]);
    }
  }

  /** Typing "h", a pause, "i" (which finishes the line) and then "x": the
      first two keys go to the edit box, editing ends and signals done, and
      "x" is queued. */
  lemma EditThenQueue(s: Input)
    requires s.subEdit && s.queue == [] && s.fed == []
    ensures Run(s, [('h' as int, 1), (NoKey, 1), ('i' as int, 0), ('x' as int, 1)])
         == Input(false, [Key('x' as int)], ['h' as int, 'i' as int], true, true)
  {
    var ks: seq<(int, int)> := [('h' as int, 1), (NoKey, 1), ('i' as int, 0), ('x' as int, 1)];
    var s1 := Step(s, 'h' as int, 1);
    var s2 := Step(s1, NoKey, 1);
    var s3 := Step(s2, 'i' as int, 0);
    var s4 := Step(s3, 'x' as int, 1);
    assert |ks[1..][1..][1..][1..]| == 0;
    calc {
      Run(s, ks);
      Run(s1, ks[1..]);
      Run(s2, ks[1..][1..]);
      Run(s3, ks[1..][1..][1..]);
      Run(s4, []);
    }
  }
}
