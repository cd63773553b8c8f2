# MouseGestureControl: the gesture pipeline in Dafny

MouseGestureControl turns a chorded mouse gesture into a keyboard shortcut. The user holds
the left and right buttons together and swipes. The swipe is classified as up, down, left or
right, and the action configured for that direction is sent as keystrokes. The actions are
task view, closing task view, and switching to the virtual desktop on the left or right.

This project models the four pieces that do this:

- `gesture_controller.dfy` (module `GestureControl`) models the recogniser of
  `src/gesture_controller.py`. It covers the anchor, the `active` flag and the cooldown, and
  the three gates of `detect_direction` (active, cooldown, distance) in that order. It also
  covers the direction classification and its tie-break, which is vertical when
  |dx| = |dy|. The class `GestureController` updates its fields in place. Each method is
  tied to a pure function (`Start`, `Detect`, `End`) of the field values, and the lemmas
  about runs of calls are stated on those functions.
- `input_listener.dfy` (module `InputEvents`) models the chord detector of
  `src/input_listener.py`. It has the two button flags and `_on_click` (`HandleClick`), and
  `Listen` gives the handler calls that a stream of mouse events causes. The class
  `InputListener` keeps a ghost history of the clicks it has seen and the calls it has made.
- `actions.dfy` (module `Actions`) models `perform_action` of `src/actions.py`. The
  keyboard controller and the debug output are one append-only log of `Effect`s. The
  `with kb.pressed(k)` blocks become `Holding(k, body)`.
- `app.dfy` (module `App`) models the configuration defaults and the three handlers in
  `main` of `src/app.py`, and the wiring of listener, controller and keyboard (`GestureApp`).
  `Run` gives the combined effect of a sequence of handler calls.

Modelling choices:

- The clock is a parameter `now` of `detect_direction`.
- Coordinates, times, the threshold and the cooldown are exact real numbers.
- `math.hypot(dx, dy) < threshold` is decided as `0 < threshold && dx² + dy² < threshold²`.
  `BelowThreshold` explains why this matches the true length.
- The pynput hook becomes a sequence of `MouseEvent` values. Each handler the listener
  calls is returned as a `Callback` value, and `GestureApp.Click` then runs that handler.

## Model

| member | source | states |
|---|---|---|
| `GestureControl.Classify` | src/gesture_controller.py:41-45 | The result is horizontal exactly when \|dx\| > \|dy\|, so a tie is vertical. Its sense follows the sign of the dominant component: right iff dx > 0, down iff dy > 0. No other direction reaches further along the displacement. |
| `GestureControl.ClassifyDependsOnlyOnSignsAndOrder` | src/gesture_controller.py:42-45 | Two displacements with the same signs and the same order of \|dx\| and \|dy\| get the same direction. |
| `GestureControl.ClassifyScaleInvariant` | src/gesture_controller.py:42-45 | Scaling the displacement by any positive factor does not change the direction, so the direction does not depend on distance beyond the threshold. |
| `GestureControl.BelowThresholdIsHypot` | src/gesture_controller.py:34-38 | For the true length h ≥ 0 with h² = dx² + dy², the squared test holds iff h < threshold. This covers every threshold, including thresholds ≤ 0. |
| `GestureControl.Initial` | src/gesture_controller.py:12-18 | A new controller has no anchor, is inactive, has last classification time 0, and keeps the threshold and cooldown it was given. |
| `GestureControl.Start` | src/gesture_controller.py:20-23 | `start_gesture` sets the anchor to (x, y) and makes the session active, replacing any earlier anchor. The last classification time, threshold and cooldown are unchanged. |
| `GestureControl.End` | src/gesture_controller.py:50-51 | `end_gesture` clears only `active`. The anchor, the last classification time, the threshold and the cooldown stay as they were. |
| `GestureControl.EndIdempotent` | src/gesture_controller.py:50-51 | Ending twice is the same as ending once. |
| `GestureControl.Detect` | src/gesture_controller.py:25-48 | When no direction is found, the state is exactly as before. A direction is found only in an active session after the cooldown has elapsed. Finding one only sets the last classification time to `now` and keeps the session active. |
| `GestureControl.DetectFiresExactly` | src/gesture_controller.py:25-48 | A direction d is returned if and only if four things hold: the session is active, at least `cooldown` has passed, the distance is at least `threshold`, and d is the classification of the displacement from the anchor. |
| `GestureControl.NoMoveNoDirection` | src/gesture_controller.py:34-39 | Zero displacement with a positive threshold returns None and changes nothing. |
| `GestureControl.SwipeExamples` | src/gesture_controller.py:25-48 | (50, 50) is classified down. Threshold 80, cooldown 0.5, anchor (100, 100): a move to (100, 200) gives down. A move to (300, 100) 0.2 s later gives nothing. After a fresh start 0.8 s after the first swipe, a move to (300, 100) gives right. |
| `GestureControl.Drive` | src/gesture_controller.py:20-51 | A run of start, detect and end calls keeps the anchor invariant, the threshold and the cooldown, and classifies at most once per call. |
| `GestureControl.FiringsRespectCooldown` | src/gesture_controller.py:29-47 | In any run of calls, including ended and restarted sessions, consecutive classifications are at least `cooldown` apart. The first is at least `cooldown` after the initial last time. `last_gesture_time` is always the time of the latest classification. |
| `GestureControl.LastTimeComesFromClock` | src/gesture_controller.py:16-47 | `last_gesture_time` is either its initial value or the `now` of some detect call. |
| `GestureControl.LastGestureTimeNonDecreasing` | src/gesture_controller.py:16-47 | Suppose the `now` values never go backwards and none is earlier than the initial value (0 for a new controller). Then `last_gesture_time` after i calls is at most its value after j ≥ i calls. |
| `GestureControl.GestureController.constructor` | src/gesture_controller.py:12-18 | The fields are those of `Initial(threshold, cooldown)`. |
| `GestureControl.GestureController.StartGesture` | src/gesture_controller.py:20-23 | Anchor := (x, y) and active := true, overwriting any anchor. `last_gesture_time`, threshold and cooldown are unchanged. |
| `GestureControl.GestureController.DetectDirection` | src/gesture_controller.py:25-48 | If inactive, returns None and changes nothing. Within the cooldown, returns None and changes nothing, however far the cursor moved. Below the threshold, returns None and changes nothing. Otherwise it returns the classification, sets `last_gesture_time := now` and leaves `active` true. |
| `GestureControl.GestureController.EndGesture` | src/gesture_controller.py:50-51 | Only `active` becomes false. All other fields are unchanged. |
| `InputEvents.HandleClick` | src/input_listener.py:21-44 | A left click sets only the left flag and a right click only the right flag. Any other button changes neither. `on_both_press(x, y)` is called iff the click presses one button while the other was already down (flags read before the update), and the chord is then held. `on_release` is called iff the click is a release that leaves the chord incomplete, so every left or right release calls it. No click calls both handlers, and a press never calls `on_release`. |
| `InputEvents.Listen` | src/input_listener.py:16-44 | A stream of mouse events is routed as the hook does: clicks go through `_on_click` and moves go straight to `on_move`. There are never more handler calls than events. `ListenAppend` gives one step, `FlagsFollowLatestClick` the flags, `MovesPassUnfiltered` the `on_move` calls, and `InputListener.OnClick` with its `Valid` the click handlers. |
| `InputEvents.ListenAppend` | src/input_listener.py:16-44 | One more move appends its `on_move(x, y)` call and leaves the flags alone. One more click takes the new flags of `_on_click` and appends the handler it calls, `on_both_press` or `on_release`, if any. |
| `InputEvents.FlagsFollowLatestClick` | src/input_listener.py:14-30 | Starting with both flags false, each flag equals what the latest click of its own button reported, or false if there was none. |
| `InputEvents.MovesPassUnfiltered` | src/input_listener.py:16-17 | Every move event reaches `on_move`, in order and with its own coordinates and time, whatever the button state. Clicks never produce `on_move`. |
| `InputEvents.ChordExample` | src/input_listener.py:33-38 | Pressing left with right up calls nothing. Then pressing right while left is held calls `on_both_press` once. |
| `InputEvents.InputListener.constructor` | src/input_listener.py:13-19 | Both flags start false, and no click or call has been seen. |
| `InputEvents.InputListener.OnClick` | src/input_listener.py:21-44 | `_on_click` returns True on every path. Its new flags and the handler it calls are those of `HandleClick` applied to the old flags. The flags and calls stay those that the clicks seen so far produce from the released state. |
| `Actions.ActionEffectsBalanced` | src/actions.py:24-43 | For every action name, debug flag, direction and modifier choice, every key pressed is released, in reverse order of pressing. |
| `Actions.HoldingBalanced` | src/actions.py:34-37 | A `with kb.pressed(k)` block around a balanced body is balanced. |
| `Actions.KeystrokeTable` | src/actions.py:24-43 | The sequences are: task_view = press cmd, press tab, release tab, release cmd; close_task_view = press esc, release esc. desktop_left/right = press cmd, press modifier, press arrow, release arrow, release modifier, release cmd. |
| `Actions.UnknownActionSendsNothing` | src/actions.py:24-43 | Any other action name sends no key. |
| `Actions.ModifierChoice` | src/actions.py:22-43 | Alt is pressed iff `use_alt` is set and the action switches desktops. Ctrl is pressed iff it is not set and the action switches desktops. The task-view actions press neither. |
| `Actions.DebugComesFirst` | src/actions.py:17-19 | The debug line appears iff `debug` is on and a direction is given, and then only as the first effect, before any key. |
| `Actions.Keystrokes` | src/actions.py:24-43 | The if/elif chain sends keys iff the name is one of the four actions, and sends only key presses and releases. `KeystrokeTable` gives the exact sequences and `UnknownActionSendsNothing` the fall-through. |
| `Actions.ActionEffects` | src/actions.py:17-43 | With debugging on and a direction given, the debug line comes first and the action's keys follow it. Otherwise exactly the action's keys are sent. Either way Alt or Ctrl is the modifier. Nothing at all happens iff there is no debug line and the name is unknown. `KeystrokeTable`, `ActionEffectsBalanced`, `ModifierChoice` and `DebugComesFirst` state what the keys are. |
| `Actions.ShowDebugMessage` | src/actions.py:13-15 | Appends one debug line carrying the direction and the action name. |
| `Actions.PerformAction` | src/actions.py:17-43 | Appends exactly the debug line (if any) followed by the action's keys with the chosen modifier. Nothing else is logged. |
| `Actions.SendKeystrokes` | src/actions.py:24-43 | The if/elif chain appends exactly the keys of the named action, and nothing for an unknown name. |
| `App.Resolve` | src/app.py:27-30 | Each missing key takes its default: debug False, threshold 60, cooldown 0.5, use_alt False. Each given key is used as given. |
| `App.EmptyConfigDefaults` | src/app.py:27-30 | An empty configuration gives exactly the defaults and maps no direction. |
| `App.ActionFor` | src/app.py:40-41 | `config.get(direction)` is acted on iff the direction is mapped to a non-empty (truthy) name, and then that name is used. |
| `App.Dispatch` | src/app.py:40-47 | A direction mapped to a non-empty action sends exactly what `perform_action(action, debug, d, use_alt)` does (`ActionEffects`). An unmapped one sends nothing. A mapped action with debugging on starts with the debug line for that direction and action. Whatever is sent releases every key it presses, innermost first. |
| `App.React` | src/app.py:34-51 | `on_both_press` is exactly `start_gesture`. `on_move` reports exactly the direction `detect_direction` finds. When none is found, it changes nothing beyond `detect_direction` and sends nothing. When one is found, the state becomes `end_gesture` applied to what `detect_direction` left, so the anchor is kept. The gesture is ended whether or not the direction is mapped, and it sends `Dispatch`: `perform_action(action, debug, d, use_alt)` for a non-empty mapped action, and nothing otherwise. `on_release` always ends the gesture and sends nothing. |
| `App.Run` | src/app.py:34-51 | A sequence of handler calls keeps the anchor invariant, the threshold and the cooldown, and never detects more directions than there are calls. `OneDetectionPerChord`, `RunEffectsBalanced` and `SessionNeedsChord` state what runs promise. |
| `App.OneDetectionPerChord` | src/app.py:37-48 | Over any sequence of handler calls there are never more detections than `on_both_press` calls, plus one if a session was already active. With no active session and no new chord, later moves detect nothing. |
| `App.RunEffectsBalanced` | src/app.py:37-48 | Over any sequence of handler calls, every key sent is released, in reverse order of pressing. |
| `App.ClickHandlersAreQuiet` | src/app.py:34-51 | The handlers a click can call (`on_both_press`, `on_release`) only start or end the session. Appending one to any run adds no detection and no key. |
| `App.SessionNeedsChord` | src/app.py:34-53 | With the listener feeding the handlers, a gesture session is active only while both buttons are held. |
| `App.GestureApp.constructor` | src/app.py:26-32 | The settings are resolved from the configuration. The controller is built with the resolved threshold and cooldown, the listener starts released, and nothing has been sent. |
| `App.GestureApp.OnBothPress` | src/app.py:34-35 | Calls `start_gesture(x, y)` and does nothing else. |
| `App.GestureApp.OnMove` | src/app.py:37-48 | The controller and the keyboard log change exactly as `React` says for `on_move`. |
| `App.GestureApp.OnRelease` | src/app.py:50-51 | Calls `end_gesture()`, which is harmless when no gesture is active. |
| `App.GestureApp.RunCallback` | src/input_listener.py:33-42 | The handler `_on_click` chose is run on the controller: `on_both_press` starts a session and `on_release` ends it. When `_on_click` calls no handler, the controller is unchanged. |
| `App.GestureApp.Click` | src/input_listener.py:21-44 | Runs `_on_click` and then the handler it calls. The event is consumed and no key is sent. The new flags are those of `HandleClick`, and the controller is started, ended or left unchanged as that handler says. Afterwards a session is active only while both buttons are held. |
| `App.GestureApp.Move` | src/input_listener.py:16-17 | A move goes straight to `on_move` whatever the button flags. The flags are unchanged, and afterwards a session is active only while both buttons are held. |

## Left out

- Reading and writing the JSON configuration (`load_config`, src/app.py:16-22) is file I/O
  and is left out. The model starts from a typed `Config` in which a missing key is `None`.
  A value of the wrong JSON type, such as a threshold given as a string, is not modelled.
- pynput is left out: the mouse listener thread, `listener.start()` and the
  `keyboard.Controller`. Events and keystrokes are values and logs. Whether returning True
  from `_on_click` really suppresses the operating system's click is library behaviour.
- `time.time()`, `time.sleep(0.05)` and floating-point rounding are left out. Time is the
  parameter `now`, and all arithmetic is exact.
- The text and formatting of the debug message are left out (`show_debug_message` only
  logs the direction and the action name), as are all `print` calls and the busy-wait loop
  that keeps `main` alive (src/app.py:56-64).
- `GestureControl.GestureController.DetectDirection`: it requires the class invariant that
  an active controller has an anchor. The source would fail on a `None` anchor, but every
  path that sets `active` also sets the anchor.
- `Actions.PerformAction`: an exception raised by the keyboard controller inside a
  `with kb.pressed(...)` block, which would still release the key, is not modelled.
- `Actions.SendKeystrokes`: the chain of string comparisons on the action name goes
  through the enumerated `Action` (`ActionNamed`). This is the same decision, stated once.
- The GUI and tray applications (src/main_gui.py and the legacy apps) are not part of this
  model. They repeat the handlers of src/app.py, but with a default threshold of 120 and
  Alt as the default modifier.
- Three behaviours of the code that are easy to miss are kept:
  - The button flags are not reset when a gesture ends.
  - `on_release` is also called when any other button (for example the middle one) is
    released while the chord is incomplete.
  - A repeated press of one button while the other is held calls `on_both_press` again
    and moves the anchor.
