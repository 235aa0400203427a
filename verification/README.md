# pugwash input core in Dafny

This project models the input core of pugwash, a game-launcher UI for handheld
devices. It has two parts.

- **`EventHandler`** (pugwash/pugwash.py) is the per-frame input state machine.
  - Each poll first copies the current button table into the previous-frame table.
  - It then drains a batch of controller events: quit, button down, button up, axis motion, other.
  - Axis values are turned into synthetic direction buttons through a three-way classifier.
  - Finally, a repeat sweep re-issues press edges for held repeatable buttons: first after 800 ticks, then every 300.
  - `was_pressed` and `was_released` are edge queries over the two tables.
- **The thumbstick deadzone library** (pugwash/deadzone.py) holds:
  - a two-component `Vector2` with validation;
  - `map_range` and `get_sign`;
  - six deadzone transforms over a stick sample.

Files:

- `wrappers.dfy`: `Option` and `Result`.
- `real_arith.dfy`: small facts about products and quotients of reals, used by the deadzone proofs.
- `deadzone.dfy` (module `Deadzone`): the deadzone library.
  - The transforms are pure functions over a `Vec2` of reals.
  - `Vector2` is a class whose fields are assigned in place.
  - Python exceptions are `Err` values.
- `pugwash.dfy` (module `Pugwash`): the event handler.
  - The handler's state is the datatype value `Handler`.
  - The pure functions `Step`, `ProcessEvents`, `SweepKeys` and `Poll` give the meaning of one poll.
  - The class `EventHandler` has the handler's dictionaries as `map` fields. Its `HandleEvents` method runs the two loops of `handle_events`, and its postcondition is `State() == Poll(old(State()), now, events)`.
- `pugwash_properties.dfy` (module `HandlerProperties`): what a poll promises.
  - edge reporting;
  - the repeat sweep;
  - releases handled before the sweep;
  - quit handling;
  - the axis branch as written.

## Model

| member | source | states |
|---|---|---|
| `Deadzone.Components` | pugwash/deadzone.py:32-51 | The constructor succeeds exactly for a list, tuple or vector of two numbers, or for two numbers. On success the components are the given ones. Everything else is a ValueError. |
| `Deadzone.CopyIsIdentity` | pugwash/deadzone.py:32-51 | Copying a vector, as every transform does first, gives back its components whichever way it is passed. |
| `Deadzone.Vector2.New` | pugwash/deadzone.py:32-51 | The constructor returns a fresh object holding the validated components, or the ValueError it raises. |
| `Deadzone.Vector2.constructor` | pugwash/deadzone.py:43-48 | A new object holds the given x and y. |
| `Deadzone.Vector2.SetItem` | pugwash/deadzone.py:59-68 | A non-number raises ValueError before any change. Index 0 changes only x and index 1 only y. Any other index raises IndexError and changes nothing. |
| `Deadzone.Vector2.ToZero` | pugwash/deadzone.py:73-76 | Both components become 0 and the same object is returned. |
| `Deadzone.MapRangeEndpoints` | pugwash/deadzone.py:79-80 | `map_range` is modelled by the function `MapRange`. Its only contract is the precondition old_min != old_max. Its properties are stated by this lemma and the next two. This one: `map_range` takes old_min to new_min and old_max to new_max. |
| `Deadzone.MapRangeInverse` | pugwash/deadzone.py:79-80 | Mapping a value to the new range and back gives the value again, so the map is a linear bijection. |
| `Deadzone.MapRangeMonotone` | pugwash/deadzone.py:79-80 | An increasing range is mapped monotonically onto an increasing one. |
| `Deadzone.UnitRemap` | pugwash/deadzone.py:117 | The remap of [d, 1] onto [0, 1] is (m - d)/(1 - d). It is non-negative from d on, positive above d, and at most 1 up to 1. |
| `Deadzone.GetSign` | pugwash/deadzone.py:82-86 | The result is -1 or 1. It is -1 exactly for negative values. |
| `Deadzone.SignTimesAbs` | pugwash/deadzone.py:82-86 | The sign times the absolute value gives back the value. |
| `Deadzone.DzAxial` | pugwash/deadzone.py:89-97 | Each component is zeroed exactly when its absolute value is below the deadzone, and is kept otherwise. |
| `Deadzone.DzAxialIdempotent` | pugwash/deadzone.py:89-97 | Filtering twice is filtering once. |
| `Deadzone.DzRadial` | pugwash/deadzone.py:100-107 | A sample inside the circular deadzone becomes the zero vector. Any other sample comes back unchanged. |
| `Deadzone.BelowDeadzoneIsMagnitudeTest` | pugwash/deadzone.py:102-104 | The square-root-free test x*x + y*y < d*d (with d > 0) agrees with `magnitude() < deadzone`. |
| `Deadzone.DzRadialIdempotent` | pugwash/deadzone.py:100-107 | Filtering twice is filtering once. |
| `Deadzone.DzScaledRadial` | pugwash/deadzone.py:110-122 | Below the deadzone the result is zero. A deadzone of exactly 1 or a zero magnitude raises ZeroDivisionError, and nothing else does. Otherwise the result is `Rescale` (lines 118-121): the sample divided by its magnitude and scaled by `map_range(m, d, 1, 0, 1)`. |
| `Deadzone.ScaledRadialMagnitude` | pugwash/deadzone.py:113-122 | For 0 <= d < 1 and a non-zero sample outside the deadzone, the result is defined. Its magnitude is (m - d)/(1 - d), and it is parallel to the sample with the same orientation. |
| `Deadzone.ScaledRadialUnitRoundTrip` | pugwash/deadzone.py:110-122 | A sample of magnitude 1 comes back unchanged. |
| `Deadzone.ScaledRadialContinuousAtBoundary` | pugwash/deadzone.py:113-122 | A sample whose magnitude equals the deadzone maps to zero, like the samples inside it: there is no jump. |
| `Deadzone.DzSlopedAxial` | pugwash/deadzone.py:125-136 | Each component is zeroed exactly when it is below the deadzone times the other ORIGINAL component's absolute value, and is kept otherwise. |
| `Deadzone.SlopedAxialKeepsNonZero` | pugwash/deadzone.py:125-136 | With a deadzone of at most 1, a non-zero sample never becomes zero. |
| `Deadzone.SlopedScaledComponent` | pugwash/deadzone.py:146-150 | A component not above its threshold is unchanged. One above it is its sign times its remap from [threshold, 1] to [0, 1]. A component above a threshold of exactly 1 raises ZeroDivisionError, and nothing else does. |
| `Deadzone.SlopedScaledComponentSign` | pugwash/deadzone.py:144-150 | For a threshold below 1, a remapped component is non-zero, keeps its original sign, and stays in [-1, 1] when the input does. |
| `Deadzone.DzSlopedScaledAxial` | pugwash/deadzone.py:139-152 | The x threshold is d*abs(y) and the y threshold is d*abs(x), both from the ORIGINAL components. A component not above its threshold is kept. One above it is its sign times its remap from [threshold, 1] to [0, 1]. The result is ZeroDivisionError exactly when a component is above a threshold of exactly 1. |
| `Deadzone.SlopedScaledPair` | pugwash/deadzone.py:139-152 | The result is an error exactly when one component's remap divides by zero. Otherwise it is the pair of processed components, each against its own threshold. |
| `Deadzone.SlopedScaledComponentInRange` | pugwash/deadzone.py:146-150 | For a threshold in [0, 1) and a value in [-1, 1], the result is defined. It is unchanged inside the threshold, has the original sign when remapped, and stays in [-1, 1]. |
| `Deadzone.SlopedScaledPairInUnitSquare` | pugwash/deadzone.py:146-150 | With both thresholds in [0, 1), a sample in the unit square stays there and raises nothing. |
| `Deadzone.SlopedScaledAxialInUnitSquare` | pugwash/deadzone.py:139-152 | With the thresholds d*abs(y) and d*abs(x) taken from the original components, d in [0, 1) and a sample in the unit square, the transform raises nothing and stays in the unit square. |
| `Deadzone.DzHybrid` | pugwash/deadzone.py:155-166 | Below the deadzone the result is zero. An error of the radial stage propagates. Otherwise the result is the sloped scaled axial transform of the scaled radial result. |
| `Deadzone.HybridDefinedInUnitDisk` | pugwash/deadzone.py:155-166 | For d in [0, 1) and a non-zero sample in the unit disk that is not inside the deadzone, the hybrid transform raises nothing and its result lies in the unit square. |
| `Deadzone.Examples` | pugwash/deadzone.py:89-122 | Three worked values: `dz_axial((0.05, 0.6), 0.1)`, `dz_radial((0.05, 0.05), 0.1)` and `dz_scaled_radial((0.5, 0), 0.1)`, the last being (4/9, 0). |
| `Pugwash.AxisTables` | pugwash/pugwash.py:102-118 | The axis names of `AXIS_MAP` are exactly the rows of `AXIS_TO_BUTTON`, and each row has three entries. |
| `Pugwash.ClassifyAxis` | pugwash/pugwash.py:182-187 | The result is 0, 1 or 2. It is 1 exactly when abs(value) < limit, and 0 exactly when abs(value) >= limit and the value is negative. |
| `Pugwash.Handler.WasPressed` | pugwash/pugwash.py:259-260 | A pressed name is in the current table and is never released at the same time, so a name absent from the tables is never pressed. |
| `Pugwash.Handler.WasReleased` | pugwash/pugwash.py:262-263 | A released name is in the previous-frame table, so a name absent from it is never released. |
| `Pugwash.Initial` | pugwash/pugwash.py:145-170 | The initial handler satisfies the invariant and is running. No name has an edge. |
| `Pugwash.Snapshot` | pugwash/pugwash.py:192 | After the copy, the previous-frame table equals the current one, so no name has an edge, and the invariant is kept. |
| `Pugwash.Press` | pugwash/pugwash.py:201-208 | Holding a button and arming its timer keeps the invariant: an armed timer belongs to a held button. |
| `Pugwash.Release` | pugwash/pugwash.py:210-217 | Releasing a button and disarming its timer keeps the invariant. |
| `Pugwash.Unassert` | pugwash/pugwash.py:235-246 | The as-written exit from an axis region keeps the invariant: the button is set to true and its timer is disarmed. |
| `Pugwash.AxisStep` | pugwash/pugwash.py:219-248 | Axis motion keeps the invariant, the running flag and the previous frame. It records the value, and the axis now asserts `AXIS_TO_BUTTON[axis][_axis_map(value, analog_min)]`. |
| `Pugwash.Step` | pugwash/pugwash.py:196-248 | One event keeps the invariant and the previous frame. The running flag is cleared exactly by a quit. |
| `Pugwash.ProcessEvents` | pugwash/pugwash.py:196-248 | The event loop keeps the invariant and the previous frame. The handler is still running afterwards exactly when it was before and the batch holds no quit. |
| `Pugwash.SweepKeys` | pugwash/pugwash.py:250-256 | The sweep never changes the current frame, the axis tables or the running flag, keeps the keys of the repeat table, and keeps the invariant. |
| `Pugwash.Poll` | pugwash/pugwash.py:189-256 | A poll keeps the invariant. The handler is still running exactly when it was before and the batch holds no quit. |
| `Pugwash.EventHandler.constructor` | pugwash/pugwash.py:145-170 | The constructed object's state is `Initial()`. |
| `Pugwash.EventHandler.HandleEvents` | pugwash/pugwash.py:189-256 | The new state is `Poll` of the old state, and the invariant is kept. |
| `Pugwash.EventHandler.ApplyEvent` | pugwash/pugwash.py:201-248 | The loop body for a non-quit event leaves the state `Step` gives. |
| `Pugwash.EventHandler.OnAxisMotion` | pugwash/pugwash.py:219-248 | The axis-motion branch leaves the state `AxisStep` gives. |
| `Pugwash.EventHandler.SweepRepeats` | pugwash/pugwash.py:250-256 | The loop over the repeat keys leaves the state `SweepKeys` gives over `REPEAT_MAP`. |
| `Pugwash.EventHandler.WasPressed` | pugwash/pugwash.py:259-260 | `buttons.get(b, False) and not last_buttons.get(b, False)` on the object's dictionaries. |
| `Pugwash.EventHandler.WasReleased` | pugwash/pugwash.py:262-263 | `not buttons.get(b, False) and last_buttons.get(b, False)` on the object's dictionaries. |
| `HandlerProperties.ClassifyAxisMirror` | pugwash/pugwash.py:182-187 | For a positive limit, negating a value mirrors its region. |
| `HandlerProperties.ClassifyAxisMonotone` | pugwash/pugwash.py:182-187 | A larger value never falls in a lower region. |
| `HandlerProperties.SweepKeysEffect` | pugwash/pugwash.py:250-256 | The sweep is a fold of `SweepOne`, one turn of the loop at lines 251-256. For each key: if it is swept and its timer was due, its previous-frame entry becomes false and its deadline now + 300. Otherwise both entries are kept. |
| `HandlerProperties.SweepLeavesNothingDue` | pugwash/pugwash.py:250-256 | After the sweep no timer is due. |
| `HandlerProperties.SweepEffect` | pugwash/pugwash.py:250-256 | The sweep leaves the current frame alone. A due button is reported pressed, with a deadline now + 300 > now. Every other key keeps its entries. |
| `HandlerProperties.ProcessEventsAppend` | pugwash/pugwash.py:196-248 | Without a quit, processing a + b is processing a and then b. |
| `HandlerProperties.ProcessEventsLast` | pugwash/pugwash.py:196-248 | A batch ending in a non-quit event is the earlier events followed by one step. |
| `HandlerProperties.QuitEndsBatch` | pugwash/pugwash.py:196-199 | A quit clears `running`, and the events after it change nothing. The sweep still runs on the state the quit left. |
| `HandlerProperties.ButtonDownEffect` | pugwash/pugwash.py:201-208 | A mapped button-down sets its name true and, for a repeatable name, the deadline now + 800. Nothing else changes. An unmapped button changes nothing. |
| `HandlerProperties.ButtonUpEffect` | pugwash/pugwash.py:210-217 | A mapped button-up sets its name false and disarms its timer. Nothing else changes. An unmapped button changes nothing. |
| `HandlerProperties.PressReported` | pugwash/pugwash.py:192-208 | After a poll ending in a button-down, the button is held. It is reported pressed exactly when it was up in the previous frame. |
| `HandlerProperties.ReleaseNeverRepeats` | pugwash/pugwash.py:210-217 | The special case of `ReleaseSuppressesRepeat` where the release is the batch's last event. After such a poll, the button is not held, not pressed and its timer is disarmed. It is reported released exactly when it was held before. |
| `HandlerProperties.StepNeverMakesDue` | pugwash/pugwash.py:201-248 | No event makes due a timer that was not due. A press arms it 800 ticks ahead, and a release or an axis exit disarms it. |
| `HandlerProperties.ProcessEventsNeverMakesDue` | pugwash/pugwash.py:196-248 | No batch of events makes due a timer that was not due. |
| `HandlerProperties.ReleaseSuppressesRepeat` | pugwash/pugwash.py:210-256 | Releases run before the sweep. A button released anywhere in a batch before any quit is not due when the sweep runs, whatever events follow. So the sweep leaves its previous-frame entry and its timer as the events left them, and fires no repeat for it. |
| `HandlerProperties.ShouldersAliasLastEventWins` | pugwash/pugwash.py:85-86 | From any valid state, pressing the left shoulder and then releasing the right one in one poll leaves "L1" up. The two are not combined. |
| `HandlerProperties.QuietPollEdges` | pugwash/pugwash.py:192 | A poll with no events reports a press exactly for the buttons whose timer was due, and never a release. |
| `HandlerProperties.QuietPollNoEdges` | pugwash/pugwash.py:259-263 | A poll with no events and no due timer reports no edge for any name. |
| `HandlerProperties.PressReportedOnce` | pugwash/pugwash.py:201-208 | A press of a button that was up in the previous frame is reported by the poll that sees it. A later quiet poll reports it again exactly for a repeatable button once 800 ticks have passed. |
| `HandlerProperties.AxisMotionEffect` | pugwash/pugwash.py:219-248 | Motion records the value and the new synthetic button. Entering a region from the centre presses its button and arms a repeatable one for now + 800. Leaving a region disarms the old button and, as written, sets it held. This holds both for a return to the centre and for a direct jump to the other region, where the new button is left alone. Staying in a region changes neither table. The axis value is the only other change. |
| `HandlerProperties.AxisExitLeavesButtonAsserted` | pugwash/pugwash.py:241-248 | Pushing a centred axis into a region and back to a region without a button leaves the first button held with its timer disarmed, and the axis asserting nothing. |

## Left out

- `InfoDB` and `main` in pugwash/pugwash.py are not part of this model. They are JSON loading, texture caching and the SDL frame loop.
- SDL itself is not modelled: initialisation, controller discovery, the `controller` attribute, and event polling.
  - An SDL event is a value of `Event`.
  - `SDL_GetTicks64` is the parameter `now`, and the 64-bit tick counter is an unbounded `nat`.
  - The SDL button and axis codes in `ButtonMap` and `AxisMap` are the values of SDL's own enumerations, which are not in the repository.
- The `print` calls of `handle_events` are logging only and are not modelled.
- `trigger_min` is stored by `__init__` but never read. Classification always uses `analog_min`, which the model keeps as the field `analogMin`.
- `axis` values are ints in the model. `__init__` fills the table with the float 0.0, and the model uses 0.
- The repeat sweep iterates `REPEAT_MAP` rather than `repeat.keys()`. The invariant `Valid` makes them the same set, and a dict keeps insertion order, which is `REPEAT_MAP`'s order.
- The body of the event loop is split into the methods `ApplyEvent` and `OnAxisMotion`. The loop itself keeps the early exit on quit.
- `HandleEvents` requires the invariant `Valid`. It holds of `Initial()` and is kept by every poll. It rules out the `KeyError` that `axis_button[key]` would raise for a missing axis name.
- The axis branch follows the code, not the log messages:
  - leaving a region sets the old button to true;
  - a direct jump from one region to the other does not press the new button;
  - the aliased shoulders are not OR-ed.
  No release-to-false is claimed for axis exits.
- Floating-point rounding in pugwash/deadzone.py is not modelled. Every quantity is a `real`, and the int 0 that `to_zero` stores is the real 0.
- `Vector2.magnitude` (a square root) is not computed.
  - `DzScaledRadial` and `DzHybrid` take the magnitude `m` as a parameter, with `m >= 0` and `m*m == x*x + y*y` required.
  - `DzRadial` uses the equivalent square-root-free test (`BelowDeadzoneIsMagnitudeTest`).
- The transforms take a validated `Vec2`. Their first step, `Vector2(stick_input)`, is modelled once by `Components`, which holds its ValueError path.
- `Vector2.__getitem__` and `__len__` are tuple indexing and the constant 2. A `Vec2` value stands in for them.
- MapRange: its contract is only the precondition old_min != old_max, and it has no ensures of its own. `MapRangeEndpoints`, `MapRangeInverse` and `MapRangeMonotone` state its properties. When old_min == old_max, Python raises ZeroDivisionError. The transforms that can reach that case (`DzScaledRadial`, `SlopedScaledComponent`) test for it and return `Err(ZeroDivisionError)`.
- `dz_sloped_scaled_axial` keeps a component that is not above its threshold: the component is left unchanged, not zeroed.
- The `if` lines of pugwash/deadzone.py at 91, 94, 130, 133, 146 and 149 lack their colons. They are modelled as the evidently intended conditionals.
