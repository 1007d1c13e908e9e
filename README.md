# Desktop window manager — a Dafny model

The portfolio site draws a retro desktop. Its script `assets/js/desktop.js` holds a small
window manager, and this project models it:

- **The window registry.** `openWindow(id)` shows a window, marks it active and focuses it.
  `closeWindow(id)` hides it and marks it inactive. `focusWindow(win)` takes the `focused`
  class off every window, puts it on `win`, and gives `win` the next value of the global
  counter `highestZ`. The counter starts at 100.
- **The header-drag state machine.** A `mousedown` inside a window header makes that window
  the drag target, focuses it, and records the pointer's offset from the window's top-left
  corner. A `mousemove` acts only while a window is being dragged. A `mouseup` ends the drag.
  A `click` anywhere inside a window focuses it.
- **The boundary checks.** A dragged window's position is the pointer minus the offset. Left
  and top are first raised to 0. The right edge is then held at the desktop's right edge.
  Finally the top is raised to 32, the height of the top bar. There is no bottom bound.

Files:

- `geometry.dfy` (module `Geometry`): the boundary checks as a pure function `Clamp`, with lemmas about it.
- `windows.dfy` (module `Windows`): the state as a value `Desk`, and one function per entry point.
  These functions are the specification.
- `session.dfy` (module `Session`): events, `Run` over a sequence of events, and what holds
  after any sequence.
- `desktop.dfy` (module `Script`): class `Desktop`. Its fields are the script's globals and
  the seq of window records. Each entry point is a method that updates those fields in place,
  and each method is proved equal to its function in `Windows`. The same file holds module
  `Scenario`, an example client of the class: one method that opens two windows, drags one and
  closes it, asserting what the method contracts let a caller conclude.

Modelling decisions:

- DOM lookups become plain data. `getElementById` is a map from element ids to window
  indices. The `closest(...)` tree walks become a `Hit` value: whether the target is inside a
  header, and which window encloses it.
- `getBoundingClientRect`, `clientX` and `clientY` become integer parameters. The browser's
  fractional pixel values are taken as integers.
- `style.display` becomes the boolean `visible`. The `active` and `focused` classes become
  booleans. `style.transition = 'none'` becomes the boolean `noTransition`. An unset inline
  z-index is 0.
- `draggedElement` becomes `dragged: Option<nat>`, where `None` stands for `null`.
- `highestZ` and the z-indices are unbounded integers. In the script the counter is a JS number,
  exact only up to 2^53, and CSS caps `z-index` at 2^31 - 1. "Strictly above every other window"
  rests on the counter never reaching either limit.

Facts about the boundary checks and the registry that the model keeps as the code has them:

- The committed top is at least 32, the height of the top bar.
- The bottom edge is not bounded.
- The right-hand test compares against `dRect.width + dRect.left`, the desktop's right edge in
  viewport coordinates. A window wider than `deskLeft + deskWidth` gets the left edge
  `deskLeft + deskWidth - winWidth`, which is negative (`Geometry.Clamp`, third ensures).
- `openWindow` and `closeWindow` leave a window's left and top as they were.

## Model

| member | source | states |
|---|---|---|
| `Geometry.Clamp` | assets/js/desktop.js:61-73 | the committed top is at least 32; if the window is no wider than deskLeft + deskWidth (the desktop's right edge in viewport coordinates), its left edge is at least 0 and its right edge stays at or left of that edge; if it is wider, its left edge is the (negative) right limit |
| `Geometry.ClampIsMinMax` | assets/js/desktop.js:69-73 | the if-chain matches an independent min/max description: left = min(max(x, 0), right limit); top = max(y, 32) |
| `Geometry.ClampKeepsLegalPosition` | assets/js/desktop.js:69-73 | a position that passes every check is committed unchanged |
| `Geometry.ClampIdempotent` | assets/js/desktop.js:69-73 | clamping an already-clamped position returns it unchanged |
| `Geometry.ClampLeftIsNearest` | assets/js/desktop.js:69-71 | when the window fits, the committed left edge is at least as close to the raw value as any legal left edge is |
| `Geometry.ClampTopIsNearest` | assets/js/desktop.js:70-73 | the committed top is at least as close to the raw value as any top at or below the top bar is |
| `Geometry.ClampMonotone` | assets/js/desktop.js:69-73 | moving the pointer right or down never moves the window left or up |
| `Windows.Unfocused` | assets/js/desktop.js:36 | no window keeps the `focused` class, and nothing else about any window changes |
| `Windows.Focus` | assets/js/desktop.js:35-40 | exactly one window is focused, and it is the target; the counter rises by exactly 1 and the target gets the new value; if no z-index was above the counter before, the target is strictly above every other window and none is above the counter after; every other window only loses `focused` |
| `Windows.Open` | assets/js/desktop.js:19-26 | an unknown id changes nothing; otherwise the window becomes visible, active and focused with the new counter value, and nothing else about it changes (position, transition); every other window only loses `focused`; the drag target and the offsets are unchanged |
| `Windows.Close` | assets/js/desktop.js:28-33 | an unknown id changes nothing; otherwise the window becomes hidden and inactive; its z-index and `focused` flag, every other window, the counter and the drag state are unchanged |
| `Windows.Press` | assets/js/desktop.js:43-56 | a press off any header changes nothing; a press on a header outside every window clears all focus and the drag target; a press on a window's header makes that window the drag target, focuses it with the next counter value, records offset = pointer − window top-left, and turns its transition off |
| `Windows.Move` | assets/js/desktop.js:58-77 | while idle, a move is a no-op; while dragging, only the dragged window's left and top change, to the clamped pointer-minus-offset position, so top ≥ 32 and, if the window is no wider than deskLeft + deskWidth, its left edge is at least 0 and its right edge is at or left of deskLeft + deskWidth (the desktop's right edge); the drag state, the offsets and the counter are untouched |
| `Windows.Release` | assets/js/desktop.js:79-84 | always ends idle; while idle, it is a no-op; otherwise only the dragged window's transition is restored |
| `Windows.Click` | assets/js/desktop.js:87-90 | a click inside a window focuses that window; a click elsewhere is a no-op |
| `Windows.CloseThenOpenKeepsPosition` | assets/js/desktop.js:19-33 | closing and reopening a window brings it back visible and focused at the same left/top |
| `Windows.CloseIdempotent` | assets/js/desktop.js:28-33 | closing twice equals closing once |
| `Windows.OpenShownOnlyRefocuses` | assets/js/desktop.js:19-26 | opening a window that is already shown and active only focuses it again |
| `Windows.OpenTwiceOnlyRefocuses` | assets/js/desktop.js:19-26 | in particular, a second open right after an open only focuses the window again |
| `Windows.PressThenReleaseIsFocus` | assets/js/desktop.js:43-84 | a header press followed by a release leaves the machine idle, with the windows and the counter as a focus of that window leaves them (its transition restored), and with the offsets the press recorded (pointer − window top-left) |
| `Session.Step` | assets/js/desktop.js:19-90 | every entry point keeps the invariant (ids and drag target in range, counter ≥ 100, at most one focused window); the counter rises by 1 exactly when a window is focused; only header presses and releases change the drag target; events that neither focus nor clear focus change no `focused` flag and no z-index |
| `Session.Run` | assets/js/desktop.js:2-90 | over any sequence of events: the invariant holds, so at most one window is ever focused; the counter equals its start plus the number of focusing events, so it never decreases and never goes below 100 |
| `Session.RunDragIsDragAfter` | assets/js/desktop.js:43-84 | the drag target after any sequence is the window of the last header press or release, read off the events alone |
| `Session.DragNeedsHeaderPress` | assets/js/desktop.js:43-84 | starting idle, a window is dragged only after a press on its own header with no release and no other header press since |
| `Session.DragAfterHasPress` | assets/js/desktop.js:43-84 | the same fact, stated about the event-only description of the drag target |
| `Session.RunKeepsBelowCounter` | assets/js/desktop.js:35-40 | if no z-index starts above the counter, none ever goes above it |
| `Session.StepKeepsBelowCounter` | assets/js/desktop.js:35-40 | one event never pushes a z-index above the counter |
| `Session.LastFocusedIsOnTop` | assets/js/desktop.js:35-40 | after the last focusing event, the window it focused is the only focused window; if no z-index started above the counter, it is strictly above every other window, whatever events that neither focus nor clear focus come after |
| `Session.StepFocusIsOnTop` | assets/js/desktop.js:35-40 | if no z-index is above the counter, a focusing event puts its window strictly above every other window |
| `Script.Desktop.constructor` | assets/js/desktop.js:1-5 | on load: counter 100, idle, both offsets 0; the invariant holds and no z-index is above the counter |
| `Script.Desktop.RemoveFocusedClass` | assets/js/desktop.js:36 | the loop takes `focused` off every window and changes nothing else |
| `Script.Desktop.FocusWindow` | assets/js/desktop.js:35-40 | the new state is `Windows.Focus` of the old state |
| `Script.Desktop.OpenWindow` | assets/js/desktop.js:19-26 | the new state is `Windows.Open` of the old state |
| `Script.Desktop.CloseWindow` | assets/js/desktop.js:28-33 | the new state is `Windows.Close` of the old state |
| `Script.Desktop.MouseDown` | assets/js/desktop.js:43-56 | the new state is `Windows.Press` of the old state |
| `Script.Desktop.MouseMove` | assets/js/desktop.js:58-77 | the new state is `Windows.Move` of the old state |
| `Script.Desktop.MouseUp` | assets/js/desktop.js:79-84 | the new state is `Windows.Release` of the old state |
| `Script.Desktop.ClickAt` | assets/js/desktop.js:87-90 | the new state is `Windows.Click` of the old state |

## Left out

- The clock (`updateClock`, `setInterval`, lines 7-16). It depends on wall-clock time and locale formatting.
- `window.onload` (lines 93-95). It only calls `openWindow('win-about')`, which is `Script.Desktop.OpenWindow`.
- Rendering. `display`, the CSS classes and the transition string are kept only as booleans, and the inline left/top/z-index only as integers.
- Elements that `getElementById` finds but that are not `.window` elements. The id map names only windows.
- A missing `#desktop` element in the `mousemove` handler. Its rectangle is always a parameter.
- Fractional pixel values. Coordinates are integers.
- The browser's event ordering: a `click` follows a `mousedown`/`mouseup` pair on the same element. Events are taken as an arbitrary sequence.
- Script.Desktop.constructor: requires that the markup marks at most one window focused and sets no inline z-index above 100. The script itself starts from whatever the page holds.
- Window resizing, edge-snapping, the desktop-icon grid, layout persistence and the idle screensaver. None of these is in `assets/js/desktop.js`, so they are not part of this model.
- The counter's precision (2^53 for a JS number) and the CSS `z-index` cap (2^31 - 1). The counter is an unbounded integer.
