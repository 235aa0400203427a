/** What the event handler promises across calls: the axis classifier's
    shape, the effect of the repeat sweep, edge reporting after a poll, the
    ordering of releases before the sweep, quit handling, and the axis
    branch as written. */
module HandlerProperties {
  import opened Wrappers
  import opened Pugwash

  /** A dictionary entry, or None when the key is absent. */
  function Lookup<V>(m: map<string, V>, k: string): (entry: Option<V>) {
    if k in m then Some(m[k]) else None
  }

  // ---------------------------------------------------------------- _axis_map

  /** Negating a value mirrors its region (for a positive limit). */
  lemma ClassifyAxisMirror(value: int, limit: int)
    requires limit > 0
    ensures ClassifyAxis(-value, limit) == 2 - ClassifyAxis(value, limit)
  {
  }

  /** A larger value never falls in a lower region. */
  lemma ClassifyAxisMonotone(v: int, w: int, limit: int)
    requires v <= w
    ensures ClassifyAxis(v, limit) <= ClassifyAxis(w, limit)
  {
  }

  // ------------------------------------------------------------- repeat sweep

  /** The sweep over `keys`, key by key: a key listed in `keys` whose timer
      was due has its previous-frame entry forced to false and its deadline
      moved to now + 300; every other key keeps both entries. */
  lemma {:induction false} SweepKeysEffect(h: Handler, now: nat, keys: seq<string>, k: string)
    ensures var r := SweepKeys(h, now, keys);
      if k in keys && h.Due(k, now) then
        && Lookup(r.repeat, k) == Some(Some(now + RepeatRate))
        && Lookup(r.lastButtons, k) == Some(false)
      else
        && Lookup(r.repeat, k) == Lookup(h.repeat, k)
        && Lookup(r.lastButtons, k) == Lookup(h.lastButtons, k)
    decreases |keys|
  {
    if keys != [] {
      var prefix, last := keys[..|keys| - 1], keys[|keys| - 1];
      assert keys == prefix + [last];
      SweepKeysEffect(h, now, prefix, k);
      var s := SweepKeys(h, now, prefix);
      assert SweepKeys(h, now, keys) == SweepOne(s, last, now);
      if k == last && s.Due(k, now) {
        assert !(k in prefix && h.Due(k, now));
      }
    }
  }

  /** After the sweep over the repeatable buttons no timer is due. */
  lemma SweepLeavesNothingDue(h: Handler, now: nat, k: string)
    requires h.repeat.Keys <= RepeatKeys()
    ensures !SweepKeys(h, now, RepeatMap).Due(k, now)
  {
    SweepKeysEffect(h, now, RepeatMap, k);
  }

  /** The sweep of `handle_events`: the current frame is untouched; a due
      repeatable button gets a fresh press edge and a deadline one repeat
      interval ahead, strictly after now; every other entry is kept. */
  lemma SweepEffect(h: Handler, now: nat, k: string)
    requires h.Valid()
    ensures var r := SweepKeys(h, now, RepeatMap);
      && r.buttons == h.buttons
      && (h.Due(k, now) ==>
            r.WasPressed(k) && r.repeat[k] == Some(now + RepeatRate) && now < now + RepeatRate)
      && (!h.Due(k, now) ==>
            Lookup(r.repeat, k) == Lookup(h.repeat, k) && Lookup(r.lastButtons, k) == Lookup(h.lastButtons, k))
  {
    SweepKeysEffect(h, now, RepeatMap, k);
  }

  // --------------------------------------------------------- the event loop

  /** Without a quit in `a`, processing `a + b` is processing `a` and then `b`. */
  lemma {:induction false} ProcessEventsAppend(h: Handler, now: nat, a: seq<Event>, b: seq<Event>)
    requires h.Valid() && Quit !in a
    ensures ProcessEvents(h, now, a + b) == ProcessEvents(ProcessEvents(h, now, a), now, b)
    decreases |a|
  {
    if a != [] {
      assert (a + b)[0] == a[0] && (a + b)[1..] == a[1..] + b;
      ProcessEventsAppend(Step(h, now, a[0]), now, a[1..], b);
    } else {
      assert a + b == b;
    }
  }

  /** A batch ending in one event other than a quit is the earlier events
      followed by one `Step`. */
  lemma ProcessEventsLast(h: Handler, now: nat, events: seq<Event>, e: Event)
    requires h.Valid() && Quit !in events && !e.Quit?
    ensures ProcessEvents(h, now, events + [e]) == Step(ProcessEvents(h, now, events), now, e)
  {
    ProcessEventsAppend(h, now, events, [e]);
    assert [e][1..] == [];
  }

  /** A quit clears `running` and drops every later event of the batch; the
      repeat sweep still runs on the state the quit left. */
  lemma QuitEndsBatch(h: Handler, now: nat, before: seq<Event>, after: seq<Event>)
    requires h.Valid() && Quit !in before
    ensures !Poll(h, now, before + [Quit] + after).running
    ensures Poll(h, now, before + [Quit] + after) == Poll(h, now, before + [Quit])
    ensures Poll(h, now, before + [Quit]) ==
              SweepKeys(ProcessEvents(Snapshot(h), now, before).(running := false), now, RepeatMap)
  {
    var s := Snapshot(h);
    assert before + [Quit] + after == before + ([Quit] + after);
    ProcessEventsAppend(s, now, before, [Quit] + after);
    ProcessEventsAppend(s, now, before, [Quit]);
  }

  // ---------------------------------------------------------- button events

  /** A button-down of a mapped button holds its name and, for a repeatable
      one, arms the timer for now + 800; an unmapped button changes nothing. */
  lemma ButtonDownEffect(h: Handler, now: nat, b: int)
    requires h.Valid()
    ensures var r := Step(h, now, ButtonDown(b));
      if b in ButtonMap then
        && r.buttons == h.buttons[ButtonMap[b] := true]
        && r.repeat == (if ButtonMap[b] in RepeatKeys() then h.repeat[ButtonMap[b] := Some(now + RepeatDelay)] else h.repeat)
        && r.axis == h.axis && r.axisButton == h.axisButton && r.lastButtons == h.lastButtons
      else r == h
  {
  }

  /** A button-up of a mapped button clears its name and disarms its timer;
      an unmapped button changes nothing. */
  lemma ButtonUpEffect(h: Handler, now: nat, b: int)
    requires h.Valid()
    ensures var r := Step(h, now, ButtonUp(b));
      if b in ButtonMap then
        && r.buttons == h.buttons[ButtonMap[b] := false]
        && r.repeat == (if ButtonMap[b] in RepeatKeys() then h.repeat[ButtonMap[b] := None] else h.repeat)
        && r.axis == h.axis && r.axisButton == h.axisButton && r.lastButtons == h.lastButtons
      else r == h
  {
  }

  /** A poll whose last event presses a mapped button reports the press
      exactly when the button was up in the previous frame, and leaves it
      held. */
  lemma PressReported(h: Handler, now: nat, events: seq<Event>, b: int)
    requires h.Valid() && Quit !in events && b in ButtonMap
    ensures var r := Poll(h, now, events + [ButtonDown(b)]);
      r.Held(ButtonMap[b]) && (r.WasPressed(ButtonMap[b]) <==> !h.Held(ButtonMap[b]))
  {
    var key := ButtonMap[b];
    var s := Snapshot(h);
    ProcessEventsLast(s, now, events, ButtonDown(b));
    var p := ProcessEvents(s, now, events + [ButtonDown(b)]);
    assert !p.Due(key, now);
    SweepKeysEffect(p, now, RepeatMap, key);
  }

  /** Releases are handled before the sweep: a poll whose last event releases
      a mapped button never repeats it, reports no press, leaves its timer
      disarmed, and reports the release exactly when it was held before. */
  lemma ReleaseNeverRepeats(h: Handler, now: nat, events: seq<Event>, b: int)
    requires h.Valid() && Quit !in events && b in ButtonMap
    ensures var r := Poll(h, now, events + [ButtonUp(b)]);
      && !r.Held(ButtonMap[b]) && !r.WasPressed(ButtonMap[b])
      && (ButtonMap[b] in RepeatKeys() ==> r.repeat[ButtonMap[b]] == None)
      && (r.WasReleased(ButtonMap[b]) <==> h.Held(ButtonMap[b]))
  {
    var key := ButtonMap[b];
    var s := Snapshot(h);
    ProcessEventsLast(s, now, events, ButtonUp(b));
    var p := ProcessEvents(s, now, events + [ButtonUp(b)]);
    assert !p.Due(key, now);
    SweepKeysEffect(p, now, RepeatMap, key);
  }

  /** No event arms a timer that is already due: a press arms it one
      initial delay ahead, a release or an axis exit disarms it. */
  lemma StepNeverMakesDue(h: Handler, now: nat, e: Event, k: string)
    requires h.Valid() && !h.Due(k, now)
    ensures !Step(h, now, e).Due(k, now)
  {
    if e.AxisMotion? && e.axis in AxisMap {
      AxisMotionEffect(h, now, e.axis, e.value);
    }
  }

  /** So no batch of events makes a timer due that was not. */
  lemma {:induction false} ProcessEventsNeverMakesDue(h: Handler, now: nat, events: seq<Event>, k: string)
    requires h.Valid() && !h.Due(k, now)
    ensures !ProcessEvents(h, now, events).Due(k, now)
    decreases |events|
  {
    if events != [] {
      StepNeverMakesDue(h, now, events[0], k);
      if !events[0].Quit? {
        ProcessEventsNeverMakesDue(Step(h, now, events[0]), now, events[1..], k);
      }
    }
  }

  /** Releases are handled before the sweep: a button released anywhere in a
      poll's batch (before any quit), whatever follows it, is not due when
      the sweep runs, so the sweep leaves its previous-frame entry and its
      timer as the event loop left them and fires no repeat for it. */
  lemma ReleaseSuppressesRepeat(h: Handler, now: nat, pre: seq<Event>, b: int, post: seq<Event>)
    requires h.Valid() && Quit !in pre && b in ButtonMap
    ensures var p := ProcessEvents(Snapshot(h), now, pre + [ButtonUp(b)] + post);
      var r := Poll(h, now, pre + [ButtonUp(b)] + post);
      && !p.Due(ButtonMap[b], now)
      && Lookup(r.lastButtons, ButtonMap[b]) == Lookup(p.lastButtons, ButtonMap[b])
      && Lookup(r.repeat, ButtonMap[b]) == Lookup(p.repeat, ButtonMap[b])
  {
    var key := ButtonMap[b];
    var s := Snapshot(h);
    var tail := [ButtonUp(b)] + post;
    assert pre + [ButtonUp(b)] + post == pre + tail;
    ProcessEventsAppend(s, now, pre, tail);
    var q := ProcessEvents(s, now, pre);
    assert tail[0] == ButtonUp(b) && tail[1..] == post;
    var q1 := Step(q, now, ButtonUp(b));
    assert ProcessEvents(q, now, tail) == ProcessEvents(q1, now, post);
    assert !q1.Due(key, now);
    ProcessEventsNeverMakesDue(q1, now, post, key);
    var p := ProcessEvents(q1, now, post);
    SweepKeysEffect(p, now, RepeatMap, key);
  }

  /** The two shoulders share the name "L1" and are not combined: whatever
      the state, pressing the left one and then releasing the right one in
      one poll leaves "L1" up. */
  lemma ShouldersAliasLastEventWins(h: Handler, now: nat)
    requires h.Valid()
    ensures !Poll(h, now, [ButtonDown(9), ButtonUp(10)]).Held("L1")
  {
    var s := Snapshot(h);
    ProcessEventsLast(s, now, [ButtonDown(9)], ButtonUp(10));
    var p := ProcessEvents(s, now, [ButtonDown(9), ButtonUp(10)]);
    assert !p.Held("L1");
  }

  // ------------------------------------------------------------ quiet polls

  /** A poll with no events reports a press exactly for the buttons whose
      repeat timer was due, and never a release. */
  lemma QuietPollEdges(h: Handler, now: nat, b: string)
    requires h.Valid()
    ensures Poll(h, now, []).WasPressed(b) <==> h.Due(b, now)
    ensures !Poll(h, now, []).WasReleased(b)
  {
    var s := Snapshot(h);
    assert ProcessEvents(s, now, []) == s;
    SweepKeysEffect(s, now, RepeatMap, b);
  }

  /** So a poll with no events and no due timer reports no edge at all. */
  lemma QuietPollNoEdges(h: Handler, now: nat, b: string)
    requires h.Valid() && forall k :: !h.Due(k, now)
    ensures !Poll(h, now, []).WasPressed(b) && !Poll(h, now, []).WasReleased(b)
  {
    QuietPollEdges(h, now, b);
  }

  /** A press is reported once: after the poll that saw the button go down,
      a later quiet poll reports it again only as a repeat, i.e. only for a
      repeatable button and only once the initial delay has passed. */
  lemma PressReportedOnce(h: Handler, t1: nat, t2: nat, b: int)
    requires h.Valid() && b in ButtonMap && !h.Held(ButtonMap[b]) && t1 <= t2
    ensures Poll(h, t1, [ButtonDown(b)]).WasPressed(ButtonMap[b])
    ensures Poll(Poll(h, t1, [ButtonDown(b)]), t2, []).WasPressed(ButtonMap[b]) <==>
              ButtonMap[b] in RepeatKeys() && t1 + RepeatDelay <= t2
  {
    var key := ButtonMap[b];
    assert [] + [ButtonDown(b)] == [ButtonDown(b)];
    PressReported(h, t1, [], b);
    var s := Snapshot(h);
    ProcessEventsLast(s, t1, [], ButtonDown(b));
    var p := ProcessEvents(s, t1, [ButtonDown(b)]);
    SweepKeysEffect(p, t1, RepeatMap, key);
    var h1 := Poll(h, t1, [ButtonDown(b)]);
    QuietPollEdges(h1, t2, key);
  }

  // ------------------------------------------------------------- axis events

  /** Motion on a mapped axis records the value and the new synthetic button.
      Entering a region from the centre presses its button and arms a
      repeatable one for now + 800.  Leaving the old region, whether for the
      centre or straight for the opposite region, disarms the old button but,
      as written, sets it held, and leaves the new button alone.  Staying in
      the same region changes neither table.  Nothing else changes. */
  lemma AxisMotionEffect(h: Handler, now: nat, a: int, v: int)
    requires h.Valid() && a in AxisMap
    ensures AxisMap[a] in AxisToButton && AxisMap[a] in h.axisButton
    ensures var r := Step(h, now, AxisMotion(a, v));
      var last := h.axisButton[AxisMap[a]];
      var next := AxisToButton[AxisMap[a]][ClassifyAxis(v, h.analogMin)];
      && r.axis == h.axis[AxisMap[a] := v]
      && r.axisButton == h.axisButton[AxisMap[a] := next]
      && r.running == h.running && r.lastButtons == h.lastButtons && r.analogMin == h.analogMin
      && (last.None? && next.Some? ==>
            && r.buttons == h.buttons[next.value := true]
            && r.repeat == (if next.value in RepeatKeys() then h.repeat[next.value := Some(now + RepeatDelay)] else h.repeat))
      && (last.Some? && last != next ==>
            && r.buttons == h.buttons[last.value := true]
            && r.repeat == (if last.value in RepeatKeys() then h.repeat[last.value := None] else h.repeat))
      && (last == next ==> r.buttons == h.buttons && r.repeat == h.repeat)
  {
    AxisTables();
    var name := AxisMap[a];
    var last := h.axisButton[name];
    var next := AxisToButton[name][ClassifyAxis(v, h.analogMin)];
    var h1 := h.(axis := h.axis[name := v]);
    var r := Step(h, now, AxisMotion(a, v));
    assert r == AxisStep(h, name, v, now);
    if last.None? && next.Some? {
      assert next.value in h1.repeat <==> next.value in RepeatKeys();
      var h2 := Press(h1, next.value, now);
      assert r == h2.(axisButton := h2.axisButton[name := next]);
    } else if last.Some? && last != next {
      assert last.value in h1.repeat <==> last.value in RepeatKeys();
      var h2 := Unassert(h1, last.value);
      assert r == h2.(axisButton := h2.axisButton[name := next]);
    } else {
      assert r == h1.(axisButton := h1.axisButton[name := next]);
    }
  }

  /** Pushing a centred axis into a region and letting it return to a region
      without a button (the centre, say) within one poll leaves the first
      region's button held (as written, the return sets it to true) with its
      timer disarmed, and the axis asserting nothing. */
  lemma AxisExitLeavesButtonAsserted(h: Handler, now: nat, a: int, out: int, back: int, key: string)
    requires h.Valid() && a in AxisMap
    requires AxisMap[a] in h.axisButton && h.axisButton[AxisMap[a]] == None
    requires AxisMap[a] in AxisToButton && AxisToButton[AxisMap[a]][ClassifyAxis(out, h.analogMin)] == Some(key)
    requires AxisToButton[AxisMap[a]][ClassifyAxis(back, h.analogMin)] == None
    ensures var r := Poll(h, now, [AxisMotion(a, out), AxisMotion(a, back)]);
      && r.Held(key)
      && (key in RepeatKeys() ==> r.repeat[key] == None)
      && r.axisButton[AxisMap[a]] == None
  {
    AxisTables();
    var s0 := Snapshot(h);
    AxisMotionEffect(s0, now, a, out);
    var s1 := Step(s0, now, AxisMotion(a, out));
    AxisMotionEffect(s1, now, a, back);
    var s2 := Step(s1, now, AxisMotion(a, back));
    ProcessEventsLast(s0, now, [AxisMotion(a, out)], AxisMotion(a, back));
    ProcessEventsLast(s0, now, [], AxisMotion(a, out));
    assert [] + [AxisMotion(a, out)] == [AxisMotion(a, out)];
    assert [AxisMotion(a, out)] + [AxisMotion(a, back)] == [AxisMotion(a, out), AxisMotion(a, back)];
    assert ProcessEvents(s0, now, [AxisMotion(a, out), AxisMotion(a, back)]) == s2;
    SweepKeysEffect(s2, now, RepeatMap, key);
  }
}
