# Hemispherical keyboard: the selection engine

This project models the selection engine of the `HemisphericalKeyboard` React
component (`my-react-app/src/App.tsx`) and proves properties of the model. The
user turns a virtual hemisphere with a gamepad stick, which picks one of eight
sectors of five characters, or steps through the sectors with ArrowUp and
ArrowDown. The user then steps to a character inside the selected sector
(ArrowLeft and ArrowRight, or the d-pad) and commits it to the output text. A
gamepad button deletes the last character of the text, another clears it.

Layout, one module per concern:

- `jsmath.dfy` (`JsMath`): JavaScript's signed `%` (`JsRem`), `Math.min` and `Math.max`, and modular-arithmetic helper lemmas.
- `catalog.dfy` (`Catalog`): the fixed `sectors` table.
- `rotation.dfy` (`Rotation`): the two updater expressions of `handleRotation` and the sector formula. Angles are integers in hundredths of a degree.
- `cursor.dfy` (`Cursor`): the modular row and character steps.
- `buffer.dfy` (`Buffer`): `slice(0, -1)`.
- `ratelimit.dfy` (`RateLimit`): the commit debounce gate and the `throttle` closure, over an explicit millisecond clock `now`.
- `selection.dfy` (`Selection`): a reducer over a `State` value. Each action gives the state as React settles it once the handler's updates are applied and the effects at lines 183-192 have re-run; for rotation, `Rotated` is the corrected handler and `RotatedAsWritten` the handler as written.
- `engine.dfy` (`Engine`): class `Keyboard`. Its fields are the component's state hooks and the debounce ref. Each handler is a method whose `ensures` ties the new fields to the matching `Selection` function of the old ones; `Keyboard.Rotate` is the corrected rotation.
- `scenarios.dfy` (`Scenarios`): client code that drives the object through the worked example (ArrowDown, ArrowRight, ArrowRight, Enter), a debounce sequence and a throttle sequence.

Modelling decisions:

- **React effects.** The effects are folded into the action that triggers them.
  - A row change selects `sectors[rowIndex]` and resets the character index.
  - The highlight is always `selectedSector[charIndex]`.
  - `Selection.Inv` states this as an invariant, and every transition preserves it.
- **Line 83.** `handleDPadNavigation` first highlights the character under the index from *before* its own update. `Keyboard.MoveChar` performs that write, then the effect's write. Its contract proves that the settled highlight is the character under the new index.
- **Debounce.** `selectingRef` is one ref shared by Enter (line 102) and gamepad button 0 (line 139). The model keeps it as one gate, `lastCommit`, for both sources.
  - The gate opens once `DEBOUNCE_TIME` = 200 ms have passed since it last fired, or if it has never fired.
  - The reset timer is taken to run exactly 200 ms after the firing.
  - A trigger fires the gate even when nothing is highlighted, as in the code.
- **Rotation and the row index.** Rotation sets the selected sector but leaves `currentRowIndex` alone, as the code does. A later ArrowUp/ArrowDown therefore steps from the last navigated row, not from the rotated sector.
- **The throttle.** After the first call ever, every call goes through the timer path, because `lastRan` is never reset to `null`. The model follows the code here.

Three behaviours of the code shape the model:

- The commit gate is shared between the two sources, not kept per source; the model keeps it shared.
- Rotation does not update the row index; neither does the model.
- `handleRotation` derives the sector from the angle before the update, and its wrap is not normalised for every delta. Here the model departs from the code: `Selection.RotatedAsWritten` is `handleRotation` as written, while `Selection.Rotated`, `Keyboard.Rotate` and everything built on them (`Apply`, `RunAll`, `KeyDown`, `ControllerTick`) use the corrected rotation (see "## Findings").

## Model

| member | source | states |
|---|---|---|
| `JsMath.JsRem` | my-react-app/src/App.tsx:33 | JavaScript `%`: the result has the dividend's sign, is smaller than the divisor in magnitude, and differs from the dividend by a multiple of the divisor |
| `Catalog.CatalogShape` | my-react-app/src/App.tsx:20-29 | the catalog has 8 rows, each of 5 characters |
| `Rotation.Tilt` | my-react-app/src/App.tsx:32 | the vertical angle stays in [-45, 45] for any delta; it is prev + delta inside the range and the nearer bound outside it |
| `Rotation.Wrap` | my-react-app/src/App.tsx:33 | intended horizontal update: always in [0, 360) and congruent to prev + delta modulo 360 |
| `Rotation.WrapAsWritten` | my-react-app/src/App.tsx:33 | the update as written: in (-360, 360), not negative exactly when prev + delta + 360 is not negative and not positive otherwise (JavaScript's signed `%`), and congruent to prev + delta modulo 360 |
| `Rotation.WrapAsWrittenAgrees` | my-react-app/src/App.tsx:33 | whenever prev + delta + 360 >= 0 (in particular prev in [0,360) and delta >= -360) the written update equals the intended one, so it lands in [0, 360) |
| `Rotation.TenMinusThirty` | my-react-app/src/App.tsx:33 | 10 degrees with delta -30 gives 340 degrees under both updates |
| `Rotation.WrapAsWrittenEscapes` | my-react-app/src/App.tsx:33 | from 0 degrees, delta -400 gives -40 degrees as written, against 320 intended |
| `Rotation.SectorOf` | my-react-app/src/App.tsx:35 | `floor(h/360*8)` lies in [0, 8) for h in [0, 360), so `sectors[sectorIndex]` is defined |
| `Rotation.SectorSpan` | my-react-app/src/App.tsx:35 | h is in sector i exactly when 45*i <= h < 45*(i+1) (both directions) |
| `Rotation.SectorExamples` | my-react-app/src/App.tsx:35 | 0 degrees is in sector 0, 180 in sector 4, 359.9 in sector 7 |
| `Cursor.StepBack` | my-react-app/src/App.tsx:74 | `(i - 1 + n) % n` stays in [0, n) and steps from 0 to n - 1, otherwise to i - 1 |
| `Cursor.StepForward` | my-react-app/src/App.tsx:77 | `(i + 1) % n` stays in [0, n) and wraps from n - 1 to 0 (from index 4 of a 5-row to 0), otherwise goes to i + 1 |
| `Cursor.StepsAreInverse` | my-react-app/src/App.tsx:74-77 | a step back undoes a step forward and the other way round |
| `Cursor.ForwardByIsModular` | my-react-app/src/App.tsx:77 | k steps forward from i land on (i + k) mod n, so n presses return to the start |
| `Buffer.DropLast` | my-react-app/src/App.tsx:148 | `slice(0, -1)` leaves the empty text empty and otherwise removes exactly the last character |
| `Buffer.DropLastUndoesAppend` | my-react-app/src/App.tsx:148 | deleting after appending c gives back the original text |
| `RateLimit.AtMostOneInWindow` | my-react-app/src/App.tsx:50-68 | a history spaced by `limit` (the throttle's run times, the gate's firing times) has at most one entry in any window of length `limit` |
| `RateLimit.Throttle.constructor` | my-react-app/src/App.tsx:50-52 | a fresh throttle has not run and holds no pending call; the invariant (runs `limit` apart, a pending call due no earlier than `limit` after the last run) holds |
| `RateLimit.Throttle.Call` | my-react-app/src/App.tsx:53-66 | the first call runs at once with its arguments; each later call does not run, replaces any pending call with itself, due at max(now, lastRan + limit); runs stay at least `limit` apart |
| `RateLimit.Throttle.Fire` | my-react-app/src/App.tsx:60-64 | a timer that is not yet due changes nothing; a due timer clears the pending call and always runs it, with its arguments: the pending call is due no earlier than `limit` ms after the last run, so the test at line 61 cannot fail; runs stay at least `limit` apart |
| `Selection.Initial` | my-react-app/src/App.tsx:183-192 | after mounting, the text is empty, both angles are 0, the char index is 0, the debounce gate has never fired, row 0 "ABCDE" is selected and 'A' is highlighted, and the invariant holds |
| `Selection.Rotated` | my-react-app/src/App.tsx:31-39 | rotation keeps the invariant (angles in range), selects the sector of the new horizontal angle, resets the cursor and highlights the sector's first character; text, row index and gate unchanged |
| `Selection.RotatedAsWritten` | my-react-app/src/App.tsx:31-39 | as written: the sector comes from the horizontal angle before the update; an index outside the catalog selects nothing and keeps the old highlight |
| `Selection.StaleSectorLags` | my-react-app/src/App.tsx:35 | at 44 degrees (sector 0), a 5 degree turn (the largest one left-stick call gives) reaches 49 degrees in sector 1, yet the written handler stays on sector 0; the corrected handler selects sector 1 |
| `Selection.RowMoved` | my-react-app/src/App.tsx:89-94 | ArrowUp/ArrowDown step the row index by -1/+1 modulo 8; afterwards the sector is `sectors[rowIndex]`, the char index 0 and the highlight `sectors[rowIndex][0]` (the effects at 183-192) |
| `Selection.RowMovesAreInverse` | my-react-app/src/App.tsx:89-94 | ArrowDown then ArrowUp (and the reverse) return to the starting row and select it |
| `Selection.CharMoved` | my-react-app/src/App.tsx:70-85 | with a sector selected the char index steps modulo its length and the settled highlight is the character at the new index; with none selected nothing changes |
| `Selection.Committed` | my-react-app/src/App.tsx:41-48 | with a highlight, exactly that character is appended, the sector and highlight are cleared and the char index is 0; with none, nothing changes; angles and row untouched |
| `Selection.GatedCommit` | my-react-app/src/App.tsx:101-106 | when the gate is open it closes at `now` and the commit happens; otherwise the trigger changes nothing |
| `Selection.DebounceWindow` | my-react-app/src/App.tsx:138-144 | after a trigger fires at t, any trigger before t + 200 ms, from either source, changes nothing; the first at or after t + 200 fires |
| `Selection.Deleted` | my-react-app/src/App.tsx:147-149 | delete drops the last character (no-op on empty text) and changes nothing else |
| `Selection.Cleared` | my-react-app/src/App.tsx:152-154 | clear empties the text and changes nothing else |
| `Selection.Apply` | my-react-app/src/App.tsx:87-111 | every action, from either source, preserves the settled-state invariant |
| `Selection.RunAll` | my-react-app/src/App.tsx:133-165 | any sequence of actions preserves the invariant |
| `Selection.TextOnlyEditedByEdits` | my-react-app/src/App.tsx:133-165 | a run of actions without commit, delete or clear leaves the text unchanged |
| `Engine.Keyboard.constructor` | my-react-app/src/App.tsx:4-14 | the mounted component is in the initial settled state, with no commit yet |
| `Engine.Keyboard.Rotate` | my-react-app/src/App.tsx:31-39 | the fields become `Rotated` of the old ones; the invariant is kept |
| `Engine.Keyboard.MoveRow` | my-react-app/src/App.tsx:89-94 | the fields become `RowMoved` of the old ones, the handler's step at lines 90/93 followed by the row effect (183-186) and the highlight effect (188-192) |
| `Engine.Keyboard.MoveChar` | my-react-app/src/App.tsx:70-85 | the fields become `CharMoved` of the old ones: the highlight written from the old index at line 83 ends up as the character under the new index |
| `Engine.Keyboard.CommitSelection` | my-react-app/src/App.tsx:41-48 | the fields become `Committed` of the old ones |
| `Engine.Keyboard.TriggerCommit` | my-react-app/src/App.tsx:101-106 | fires exactly when the shared gate is open, records the firing, and the fields become `GatedCommit` of the old ones; firings stay at least 200 ms apart |
| `Engine.Keyboard.Delete` | my-react-app/src/App.tsx:147-149 | the fields become `Deleted` of the old ones |
| `Engine.Keyboard.Clear` | my-react-app/src/App.tsx:152-154 | the fields become `Cleared` of the old ones |
| `Engine.Keyboard.Dispatch` | my-react-app/src/App.tsx:87-111 | one action of either source: the fields become `Apply` of the old ones |
| `Engine.Keyboard.KeyDown` | my-react-app/src/App.tsx:87-111 | a key press runs the actions `KeyActions` assigns to the key (none for other keys) |
| `Engine.Keyboard.ControllerTick` | my-react-app/src/App.tsx:121-165 | one handler run applies the pad's actions in the handler's order: left stick, buttons 0, 1, 3, right stick, d-pad 12, 13; nothing without a gamepad |
| `Scenarios.WorkedExample` | my-react-app/src/App.tsx:87-111 | from mount, ArrowDown, ArrowRight, ArrowRight highlight 'H' and Enter makes the text "H" |
| `Scenarios.DebounceExample` | my-react-app/src/App.tsx:101-144 | Enter at 0 ms commits; Enter at 50 ms and button 0 at 150 ms are ignored by the shared gate; Enter at 250 ms commits again |
| `Scenarios.ThrottleExample` | my-react-app/src/App.tsx:50-68 | first call runs at once, two later calls are deferred with the later one replacing the earlier, and the timer due at 100 ms runs with the latest arguments |

## Findings

| source | as written | input that shows it | evidently intended | confidence | as-written member | corrected member |
|---|---|---|---|---|---|---|
| my-react-app/src/App.tsx:35 | the sector is derived from `horizontalRotation` captured by the callback, i.e. the angle before this rotation | at 44 degrees, a full left-stick turn of 5 degrees: the new angle 49 degrees lies in sector 1 but sector 0 stays selected | derive the sector from the angle the same update produces | high (not executed) | `Selection.RotatedAsWritten`, `Selection.StaleSectorLags` | `Selection.Rotated` |
| my-react-app/src/App.tsx:33 | `(prev + horizontal + 360) % 360` with JavaScript's signed `%` | prev 0, horizontal delta -400 degrees gives -40 degrees | an angle in [0, 360) for every delta | medium (not executed; controller deltas are at most 5 degrees, where the two agree) | `Rotation.WrapAsWritten`, `Rotation.WrapAsWrittenEscapes` | `Rotation.Wrap` |

## Left out

- Rendering (JSX, the zoomed view, the CSS transform, lines 194-237) is presentation only.
- `components/ui/input.tsx` and `tailwind.config.js` are not part of this model: the first is a pass-through widget, the second is build configuration.
- Host I/O and timers are not modelled: `navigator.getGamepads()`, the 16 ms `setInterval`, and registering and removing the key and gamepad listeners (lines 113-118, 121-124, 171-180). The time of each event is a parameter `now` instead. The removals at lines 178-179 pass fresh closures and so remove nothing; this is not modelled either.
- The model does not compose the throttle with `ControllerTick`; the host does that. `Throttle<A>` models the closure on its own.
- The deadzone (0.1) and stick gains (x2, x5, x1, x2, lines 132-134, 157-160) work on floats. A `Pad` carries each stick's decoded delta, or none inside the deadzone.
- Angles are integers in hundredths of a degree. Float rounding of `h / 360 * 8` is not modelled.
- The controller-connected flag (lines 9, 125, 167, 173-174) only mirrors the device, so it is not modelled.
- A gamepad missing any of buttons 0, 1, 3, 12 or 13 makes the handler throw part-way through the tick, after the earlier actions of that tick have run. `Pad` names the buttons it reads, so this crash is not modelled.
- React batching and stale closures inside one controller tick are not modelled. The model applies a tick's actions one after another, each on the settled state of the one before. In the component, callbacks in the same tick read the values of the render they were created in: a commit after a rotation in the same tick appends the highlight from before the rotation.
- The effect at lines 120-181 builds a new throttle, with `lastRan = null`, whenever `handleRotation`, `handleCharacterSelection` or `handleDPadNavigation` change. The proved spacing therefore holds for one throttle instance. The model does not track the instance being replaced.
- Timer precision is not modelled. The debounce reset is taken to run exactly 200 ms after the firing, and a throttle timer runs when the host calls `Fire` at or after its due time. Browser clamping of nested timers is not modelled.
- `Selection.RotatedAsWritten`: the as-written state can leave the invariant (a negative angle, an undefined sector with a stale highlight). So it exists only as a value function, and the `Keyboard` class uses the corrected rotation.
