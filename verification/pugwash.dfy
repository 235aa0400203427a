/** The per-frame input state machine of the launcher (`EventHandler` in
    pugwash/pugwash.py): it drains a batch of controller events, keeps the
    current and previous frame's button tables, turns analog axes into
    synthetic direction buttons and re-issues press edges for held
    repeatable buttons.  SDL itself is abstracted: an event is a value of
    `Event` and the tick counter is the parameter `now`. */
module Pugwash {
  import opened Wrappers

  /** `BUTTON_MAP`: SDL game-controller button codes (SDL_CONTROLLER_BUTTON_A
      is 0, B 1, X 2, Y 3, BACK 4, GUIDE 5, START 6, LEFTSTICK 7,
      RIGHTSTICK 8, LEFTSHOULDER 9, RIGHTSHOULDER 10, DPAD_UP 11, DPAD_DOWN
      12, DPAD_LEFT 13, DPAD_RIGHT 14) to logical names.  Both shoulders are
      named "L1". */
  const ButtonMap: map<int, string> := map[
    0 := "A", 1 := "B", 2 := "X", 3 := "Y",
    9 := "L1", 10 := "L1",
    7 := "L3", 8 := "R3",
    11 := "UP", 12 := "DOWN", 13 := "LEFT", 14 := "RIGHT",
    6 := "START", 5 := "GUIDE", 4 := "BACK"]

  /** `AXIS_MAP`: SDL axis codes (LEFTX 0, LEFTY 1, RIGHTX 2, RIGHTY 3,
      TRIGGERLEFT 4, TRIGGERRIGHT 5) to axis names. */
  const AxisMap: map<int, string> := map[
    0 := "LX", 1 := "LY", 2 := "RX", 3 := "RY", 4 := "L2", 5 := "R2"]

  /** `AXIS_TO_BUTTON`: for each axis, the synthetic button asserted in the
      negative, centred and positive region, indexed by `ClassifyAxis`. */
  const AxisToButton: map<string, seq<Option<string>>> := map[
    "LX" := [Some("L_LEFT"), None, Some("L_RIGHT")],
    "LY" := [Some("L_UP"), None, Some("L_DOWN")],
    "RX" := [Some("R_LEFT"), None, Some("R_RIGHT")],
    "RY" := [Some("R_UP"), None, Some("R_DOWN")],
    "L2" := [None, None, Some("L2")],
    "R2" := [None, None, Some("R2")]]

  /** `REPEAT_MAP`: the buttons that auto-repeat, in dictionary order. */
  const RepeatMap: seq<string> := [
    "UP", "DOWN", "LEFT", "RIGHT",
    "L_UP", "L_DOWN", "L_LEFT", "L_RIGHT",
    "R_UP", "R_DOWN", "R_LEFT", "R_RIGHT"]

  const RepeatDelay: nat := 800
  const RepeatRate: nat := 300
  const AnalogMin: int := 2048

  /** One SDL event as far as the handler distinguishes it. */
  datatype Event =
    | Quit
    | ButtonDown(button: int)
    | ButtonUp(button: int)
    | AxisMotion(axis: int, value: int)
    | Other

  /** The handler's attributes as one value.  `repeat` holds a deadline in
      ticks for an armed button and None for a disarmed one. */
  datatype Handler = Handler(
    running: bool,
    buttons: map<string, bool>,
    lastButtons: map<string, bool>,
    axis: map<string, int>,
    axisButton: map<string, Option<string>>,
    repeat: map<string, Option<nat>>,
    analogMin: int)
  {
    /** `buttons.get(b, False)`. */
    predicate Held(b: string) {
      b in buttons && buttons[b]
    }

    /** `last_buttons.get(b, False)`. */
    predicate HeldBefore(b: string) {
      b in lastButtons && lastButtons[b]
    }

    /** `was_pressed`: down this frame and not the last one.  A name the
        current table does not hold is never pressed, and a pressed button is
        never released at the same time. */
    predicate WasPressed(b: string)
      ensures WasPressed(b) ==> b in buttons && !WasReleased(b)
    {
      Held(b) && !HeldBefore(b)
    }

    /** `was_released`: down last frame and not this one.  A name the
        previous table does not hold is never released. */
    predicate WasReleased(b: string)
      ensures WasReleased(b) ==> b in lastButtons
    {
      !Held(b) && HeldBefore(b)
    }

    /** The repeat timer of `k` is armed with a deadline that has passed. */
    predicate Due(k: string, now: nat) {
      k in repeat && repeat[k].Some? && repeat[k].value <= now
    }

    /** What every reachable handler satisfies: the repeat table has exactly
        the repeatable buttons, the axis tables exactly the axis names, the
        previous frame names no button the current one lacks, and an armed
        repeat timer belongs to a held button. */
    predicate Valid() {
      && repeat.Keys == RepeatKeys()
      && axisButton.Keys == AxisToButton.Keys
      && lastButtons.Keys <= buttons.Keys
      && (forall k :: k in repeat && repeat[k].Some? ==> Held(k))
    }
  }

  function RepeatKeys(): (keys: set<string>) {
    set k | k in RepeatMap
  }

  /** The axis tables agree: every axis name has a row of three entries in
      `AxisToButton`, and the rows are exactly those of the named axes. */
  lemma AxisTables()
    ensures AxisMap.Values == AxisToButton.Keys
    ensures forall name :: name in AxisToButton ==> |AxisToButton[name]| == 3
  {
    assert AxisMap[0] == "LX" && AxisMap[1] == "LY" && AxisMap[2] == "RX";
    assert AxisMap[3] == "RY" && AxisMap[4] == "L2" && AxisMap[5] == "R2";
  }

  /** Python's `abs` on an int. */
  function IntAbs(v: int): (a: nat) {
    if v < 0 then -v else v
  }

  /** `_axis_map`: 1 (centred) when |value| < limit, otherwise 0 for a
      negative value and 2 for a positive one. */
  function ClassifyAxis(value: int, limit: int): (r: nat)
    ensures r <= 2
    ensures r == 1 <==> IntAbs(value) < limit
    ensures r == 0 <==> IntAbs(value) >= limit && value < 0
  {
    if IntAbs(value) < limit then 1
    else if value < 0 then 0
    else 2
  }

  /** The handler `__init__` builds: not a button held, no axis asserting a
      button, no repeat armed, and the previous frame a copy of the current. */
  function Initial(): (h: Handler)
    ensures h.Valid() && h.running
    ensures forall b :: !h.WasPressed(b) && !h.WasReleased(b)
  {
    AxisTables();
    var buttons := map k | k in ButtonMap.Values + AxisToButton.Keys :: false;
    Handler(
      true,
      buttons,
      map[] + buttons,
      map k | k in AxisMap.Values :: 0,
      map k | k in AxisMap.Values :: None,
      map k | k in RepeatMap :: None,
      AnalogMin)
  }

  /** `last_buttons.update(buttons)` at the top of `handle_events`. */
  function Snapshot(h: Handler): (r: Handler)
    ensures h.Valid() ==> r.Valid() && r.lastButtons == h.buttons
    ensures h.Valid() ==> forall b :: !r.WasPressed(b) && !r.WasReleased(b)
  {
    h.(lastButtons := h.lastButtons + h.buttons)
  }

  /** Mark `key` held and, when it is repeatable, arm its timer for the
      initial delay. */
  function Press(h: Handler, key: string, now: nat): (r: Handler)
    ensures h.Valid() ==> r.Valid()
  {
    h.(buttons := h.buttons[key := true],
       repeat := if key in h.repeat then h.repeat[key := Some(now + RepeatDelay)] else h.repeat)
  }

  /** Mark `key` not held and disarm its timer. */
  function Release(h: Handler, key: string): (r: Handler)
    ensures h.Valid() ==> r.Valid()
  {
    h.(buttons := h.buttons[key := false],
       repeat := if key in h.repeat then h.repeat[key := None] else h.repeat)
  }

  /** What the axis branch does to the synthetic button `key` the axis stops
      asserting: as written it sets the button to TRUE (although the log line
      says "RELEASED") and disarms its timer. */
  function Unassert(h: Handler, key: string): (r: Handler)
    ensures h.Valid() ==> r.Valid()
  {
    h.(buttons := h.buttons[key := true],
       repeat := if key in h.repeat then h.repeat[key := None] else h.repeat)
  }

  /** Motion of value `value` on the axis named `name`: record the value,
      classify it and update the synthetic button.  Entering a region from the
      centre presses its button; leaving a region, or jumping straight to the
      opposite one, only unasserts the old button (the new one is not
      pressed). */
  function AxisStep(h: Handler, name: string, value: int, now: nat): (r: Handler)
    requires h.Valid() && name in AxisToButton
    ensures r.Valid()
    ensures r.running == h.running && r.lastButtons == h.lastButtons && r.analogMin == h.analogMin
    ensures name in r.axis && r.axis[name] == value
    ensures r.axisButton == h.axisButton[name := AxisToButton[name][ClassifyAxis(value, h.analogMin)]]
  {
    AxisTables();
    var h1 := h.(axis := h.axis[name := value]);
    var last := h.axisButton[name];
    var next := AxisToButton[name][ClassifyAxis(value, h.analogMin)];
    var h2 :=
      if next.Some? then
        if last.None? then Press(h1, next.value, now)
        else if last.value != next.value then Unassert(h1, last.value)
        else h1
      else if last.Some? then Unassert(h1, last.value)
      else h1;
    h2.(axisButton := h2.axisButton[name := next])
  }

  /** One event of the loop in `handle_events`; a quit clears `running`.
      Unmapped buttons and axes, and other events, change nothing. */
  function Step(h: Handler, now: nat, e: Event): (r: Handler)
    requires h.Valid()
    ensures r.Valid()
    ensures r.lastButtons == h.lastButtons && r.analogMin == h.analogMin
    ensures r.running == (h.running && !e.Quit?)
  {
    match e
    case Quit => h.(running := false)
    case ButtonDown(b) => if b in ButtonMap then Press(h, ButtonMap[b], now) else h
    case ButtonUp(b) => if b in ButtonMap then Release(h, ButtonMap[b]) else h
    case AxisMotion(a, v) =>
      if a in AxisMap then
        AxisTables();
        AxisStep(h, AxisMap[a], v, now)
      else h
    case Other => h
  }

  /** The event loop: events are applied in order until the batch ends or a
      quit is met; the events after a quit are dropped. */
  function ProcessEvents(h: Handler, now: nat, events: seq<Event>): (r: Handler)
    requires h.Valid()
    ensures r.Valid()
    ensures r.lastButtons == h.lastButtons && r.analogMin == h.analogMin
    ensures r.running == (h.running && Quit !in events)
    decreases |events|
  {
    if events == [] then h
    else if events[0].Quit? then Step(h, now, Quit)
    else ProcessEvents(Step(h, now, events[0]), now, events[1..])
  }

  /** One turn of the repeat sweep: a due timer forces a fresh press edge for
      its button (the previous frame is set to false) and is re-armed one
      repeat interval later. */
  function SweepOne(h: Handler, key: string, now: nat): (r: Handler) {
    if h.Due(key, now) then
      h.(lastButtons := h.lastButtons[key := false],
         repeat := h.repeat[key := Some(now + RepeatRate)])
    else h
  }

  /** The sweep over `keys`, in order.  It never touches the current frame,
      the axis tables or the running flag, and keeps the repeat table's keys. */
  function SweepKeys(h: Handler, now: nat, keys: seq<string>): (r: Handler)
    ensures r.running == h.running && r.buttons == h.buttons && r.axis == h.axis
    ensures r.axisButton == h.axisButton && r.analogMin == h.analogMin
    ensures r.repeat.Keys == h.repeat.Keys
    ensures h.Valid() ==> r.Valid()
    decreases |keys|
  {
    if keys == [] then h
    else SweepOne(SweepKeys(h, now, keys[..|keys| - 1]), keys[|keys| - 1], now)
  }

  /** `handle_events` with the ticks `now` and the batch `events`: snapshot,
      event loop, repeat sweep. */
  function Poll(h: Handler, now: nat, events: seq<Event>): (r: Handler)
    requires h.Valid()
    ensures r.Valid()
    ensures r.running == (h.running && Quit !in events)
  {
    SweepKeys(ProcessEvents(Snapshot(h), now, events), now, RepeatMap)
  }

  /** The handler object, whose dictionaries `handle_events` updates in
      place. */
  class EventHandler {
    var running: bool
    var buttons: map<string, bool>
    var lastButtons: map<string, bool>
    var axis: map<string, int>
    var axisButton: map<string, Option<string>>
    var repeat: map<string, Option<nat>>
    var analogMin: int

    function State(): (s: Handler)
      reads this
    {
      Handler(running, buttons, lastButtons, axis, axisButton, repeat, analogMin)
    }

    constructor ()
      ensures State() == Initial()
    {
      running := true;
      var b := map k | k in ButtonMap.Values + AxisToButton.Keys :: false;
      buttons := b;
      axis := map k | k in AxisMap.Values :: 0;
      axisButton := map k | k in AxisMap.Values :: None;
      repeat := map k | k in RepeatMap :: None;
      lastButtons := map[];
      lastButtons := lastButtons + b;
      analogMin := AnalogMin;
    }

    /** `handle_events`: the new state is `Poll` of the old one. */
    method HandleEvents(now: nat, events: seq<Event>)
      requires State().Valid()
      modifies this
      ensures State().Valid()
      ensures State() == Poll(old(State()), now, events)
    {
      lastButtons := lastButtons + buttons;
      ghost var start := State();
      assert start == Snapshot(old(State()));

      var i := 0;
      while i < |events|
        invariant 0 <= i <= |events|
        invariant State().Valid()
        invariant ProcessEvents(State(), now, events[i..]) == ProcessEvents(start, now, events)
        decreases |events| - i
      {
        var event := events[i];
        if event.Quit? {
          running := false;
          break;
        }
        ApplyEvent(now, event);
        assert events[i..][1..] == events[i + 1..];
        i := i + 1;
      }
      assert State() == ProcessEvents(start, now, events);
      SweepRepeats(now);
    }

    /** The body of the event loop for any event but a quit. */
    method ApplyEvent(now: nat, event: Event)
      requires State().Valid() && !event.Quit?
      modifies this
      ensures State() == Step(old(State()), now, event)
    {
      if event.ButtonDown? {
        if event.button in ButtonMap {
          var key := ButtonMap[event.button];
          buttons := buttons[key := true];
          if key in repeat {
            repeat := repeat[key := Some(now + RepeatDelay)];
          }
        }
      } else if event.ButtonUp? {
        if event.button in ButtonMap {
          var key := ButtonMap[event.button];
          buttons := buttons[key := false];
          if key in repeat {
            repeat := repeat[key := None];
          }
        }
      } else if event.AxisMotion? {
        if event.axis in AxisMap {
          AxisTables();
          OnAxisMotion(now, AxisMap[event.axis], event.value);
        }
      }
    }

    /** The axis-motion branch for the axis named `key`. */
    method OnAxisMotion(now: nat, key: string, value: int)
      requires State().Valid() && key in AxisToButton
      modifies this
      ensures State() == AxisStep(old(State()), key, value, now)
    {
      AxisTables();
      axis := axis[key := value];
      var lastAxisKey := axisButton[key];
      var axisKey := AxisToButton[key][ClassifyAxis(value, analogMin)];
      if axisKey.Some? {
        if lastAxisKey.None? {
          buttons := buttons[axisKey.value := true];
          if axisKey.value in repeat {
            repeat := repeat[axisKey.value := Some(now + RepeatDelay)];
          }
        } else if lastAxisKey.value != axisKey.value {
          // As written: the old button is set to true, not false.
          buttons := buttons[lastAxisKey.value := true];
          if lastAxisKey.value in repeat {
            repeat := repeat[lastAxisKey.value := None];
          }
        }
      } else if lastAxisKey.Some? {
        // As written: the old button is set to true, not false.
        buttons := buttons[lastAxisKey.value := true];
        if lastAxisKey.value in repeat {
          repeat := repeat[lastAxisKey.value := None];
        }
      }
      axisButton := axisButton[key := axisKey];
    }

    /** The repeat sweep over the keys of `repeat`, in their order. */
    method SweepRepeats(now: nat)
      modifies this
      ensures State() == SweepKeys(old(State()), now, RepeatMap)
    {
      ghost var processed := State();
      var j := 0;
      while j < |RepeatMap|
        invariant 0 <= j <= |RepeatMap|
        invariant State() == SweepKeys(processed, now, RepeatMap[..j])
        decreases |RepeatMap| - j
      {
        ghost var before := State();
        var key := RepeatMap[j];
        if key in repeat {
          var nextRepeat := repeat[key];
          if nextRepeat.Some? && nextRepeat.value <= now {
            lastButtons := lastButtons[key := false];
            repeat := repeat[key := Some(now + RepeatRate)];
          }
        }
        assert State() == SweepOne(before, key, now);
        ghost var done := RepeatMap[..j + 1];
        assert done[..j] == RepeatMap[..j] && done[j] == key;
        assert SweepKeys(processed, now, done) == SweepOne(SweepKeys(processed, now, RepeatMap[..j]), key, now);
        j := j + 1;
      }
      assert RepeatMap[..j] == RepeatMap;
    }

    /** `was_pressed`. */
    method WasPressed(button: string) returns (r: bool)
      ensures r == State().WasPressed(button)
    {
      var held := button in buttons && buttons[button];
      var heldBefore := button in lastButtons && lastButtons[button];
      r := held && !heldBefore;
    }

    /** `was_released`. */
    method WasReleased(button: string) returns (r: bool)
      ensures r == State().WasReleased(button)
    {
      var held := button in buttons && buttons[button];
      var heldBefore := button in lastButtons && lastButtons[button];
      r := !held && heldBefore;
    }
  }
}
