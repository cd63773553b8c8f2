/**
 * The application glue of src/app.py.
 *
 * `main` reads the configuration (falling back to defaults for missing keys), builds one
 * `GestureController`, and hands three handlers to the `InputListener`:
 * `on_both_press` starts a gesture at the chord position, `on_move` asks the controller for
 * a direction and, when there is one, performs the action the configuration maps it to and
 * ends the gesture, and `on_release` ends the gesture.
 *
 * The pure part (`Resolve`, `React`, `Run`) says what the handlers do to the controller
 * state and the keyboard; `GestureApp` is the running application, whose handler methods
 * update the controller and the keyboard log in place.
 */
module App {
  import opened Wrappers
  import opened GestureControl
  import opened Actions
  import opened InputEvents

  /** The keys of the configuration file the application reads; an absent key is None.
      `actions` maps a direction ("up", "down", "left", "right") to an action name. */
  datatype Config = Config(
    debug: Option<bool>,
    threshold: Option<real>,
    cooldown: Option<real>,
    useAltInsteadOfCtrl: Option<bool>,
    actions: map<Direction, string>)

  const DefaultDebug := false
  const DefaultThreshold := 60.0
  const DefaultCooldown := 0.5
  const DefaultUseAlt := false

  /** The values `main` works with once the defaults are filled in. */
  datatype Settings = Settings(
    debug: bool,
    threshold: real,
    cooldown: real,
    useAlt: bool,
    actions: map<Direction, string>)

  /** `config.get(key, default)`. */
  function GetOr<T>(o: Option<T>, default: T): T
  {
    match o
    case None => default
    case Some(v) => v
  }

  /** The settings `main` derives from the configuration: each key given is used as it is,
      each key missing takes its default. */
  function Resolve(c: Config): (s: Settings)
    ensures c.debug == None ==> s.debug == DefaultDebug
    ensures c.threshold == None ==> s.threshold == DefaultThreshold
    ensures c.cooldown == None ==> s.cooldown == DefaultCooldown
    ensures c.useAltInsteadOfCtrl == None ==> s.useAlt == DefaultUseAlt
    ensures c.debug.Some? ==> s.debug == c.debug.value
    ensures c.threshold.Some? ==> s.threshold == c.threshold.value
    ensures c.cooldown.Some? ==> s.cooldown == c.cooldown.value
    ensures c.useAltInsteadOfCtrl.Some? ==> s.useAlt == c.useAltInsteadOfCtrl.value
    ensures s.actions == c.actions
  {
    Settings(
      GetOr(c.debug, DefaultDebug),
      GetOr(c.threshold, DefaultThreshold),
      GetOr(c.cooldown, DefaultCooldown),
      GetOr(c.useAltInsteadOfCtrl, DefaultUseAlt),
      c.actions)
  }

  /** An empty (or unreadable) configuration gives threshold 60, cooldown 0.5, no debug
      output, Ctrl as the desktop modifier, and no mapped direction. */
  lemma EmptyConfigDefaults()
    ensures Resolve(Config(None, None, None, None, map[])) == Settings(false, 60.0, 0.5, false, map[])
  {
  }

  /** `config.get(direction)` when it is truthy: a non-empty action name. */
  function ActionFor(st: Settings, d: Direction): (a: Option<string>)
    ensures a.Some? <==> d in st.actions && st.actions[d] != ""
    ensures a.Some? ==> a.value == st.actions[d] && |a.value| > 0
  {
    if d in st.actions && st.actions[d] != "" then Some(st.actions[d]) else None
  }

  /** What `on_move` sends once it has detected `d`: the mapped action, if there is one. */
  function Dispatch(st: Settings, d: Direction): (e: seq<Effect>)
    ensures ActionFor(st, d) == None ==> e == []
    ensures ActionFor(st, d).Some? ==> e == ActionEffects(ActionFor(st, d).value, st.debug, Some(d), st.useAlt)
    ensures ActionFor(st, d).Some? && st.debug ==> |e| > 0 && e[0] == DebugMessage(d, ActionFor(st, d).value)
    ensures Balanced(e)
  {
    match ActionFor(st, d)
    case None => []
    case Some(action) =>
      ActionEffectsBalanced(action, st.debug, Some(d), st.useAlt);
      ActionEffects(action, st.debug, Some(d), st.useAlt)
  }

  /** The controller state after a handler call, the direction it detected, and what it sent. */
  datatype Reaction = Reaction(gesture: GestureState, detected: Option<Direction>, effects: seq<Effect>)

  /**
   * One handler call.  `on_both_press` is exactly `start_gesture`.  `on_move` does nothing
   * beyond `detect_direction` when no direction is found; when one is found it performs the
   * mapped action, if any, and ends the gesture whether or not the direction is mapped.
   * `on_release` always ends the gesture.
   */
  function React(st: Settings, s: GestureState, call: Callback): (r: Reaction)
    requires Anchored(s)
    ensures Anchored(r.gesture)
    ensures r.gesture.threshold == s.threshold && r.gesture.cooldown == s.cooldown
    ensures call.OnBothPress? ==> r == Reaction(Start(s, call.x, call.y), None, [])
    ensures call.OnRelease? ==> r == Reaction(End(s), None, [])
    ensures call.OnMove? && Detect(s, call.x, call.y, call.now).0 == None ==> r == Reaction(s, None, [])
    ensures call.OnMove? ==> r.detected == Detect(s, call.x, call.y, call.now).0
    ensures r.detected.Some? ==>
      call.OnMove? && !r.gesture.active &&
      Detect(s, call.x, call.y, call.now).0 == r.detected &&
      r.gesture.lastGestureTime == call.now &&
      r.gesture == End(Detect(s, call.x, call.y, call.now).1) &&
      r.effects == Dispatch(st, r.detected.value)
  {
    match call
    case OnBothPress(x, y) => Reaction(Start(s, x, y), None, [])
    case OnMove(x, y, now) =>
      var (d, s') := Detect(s, x, y, now);
      if d.Some? then Reaction(End(s'), d, Dispatch(st, d.value)) else Reaction(s', None, [])
    case OnRelease => Reaction(End(s), None, [])
  }

  /** The accumulated result of a sequence of handler calls. */
  datatype Outcome = Outcome(gesture: GestureState, detected: seq<Direction>, effects: seq<Effect>)

  function Run(st: Settings, s: GestureState, calls: seq<Callback>): (o: Outcome)
    requires Anchored(s)
    ensures Anchored(o.gesture)
    ensures o.gesture.threshold == s.threshold && o.gesture.cooldown == s.cooldown
    ensures |o.detected| <= |calls|
    decreases |calls|
  {
    if calls == [] then
      Outcome(s, [], [])
    else
      var o := Run(st, s, calls[..|calls| - 1]);
      var r := React(st, o.gesture, calls[|calls| - 1]);
      Outcome(r.gesture, o.detected + AsSeq(r.detected), o.effects + r.effects)
  }

  lemma RunAppend(st: Settings, s: GestureState, calls: seq<Callback>, call: Callback)
    requires Anchored(s)
    ensures var o := Run(st, s, calls);
      var r := React(st, o.gesture, call);
      Run(st, s, calls + [call]) == Outcome(r.gesture, o.detected + AsSeq(r.detected), o.effects + r.effects)
  {
    assert (calls + [call])[..|calls|] == calls;
  }

  /** What the handler `_on_click` calls, if any, does to the controller. */
  function AfterClick(s: GestureState, callback: Option<Callback>): GestureState
  {
    match callback
    case Some(OnBothPress(x, y)) => Start(s, x, y)
    case Some(OnRelease) => End(s)
    case _ => s
  }

  /**
   * The handlers a click can call only start or end the session: they classify nothing and
   * send no key.
   */
  lemma ClickHandlersAreQuiet(st: Settings, s: GestureState, calls: seq<Callback>, callback: Option<Callback>)
    requires Anchored(s)
    requires callback.Some? ==> !callback.value.OnMove?
    ensures var o := Run(st, s, calls);
      Run(st, s, calls + AsSeq(callback)) == o.(gesture := AfterClick(o.gesture, callback))
  {
    if callback.Some? {
      RunAppend(st, s, calls, callback.value);
    } else {
      assert calls + AsSeq(callback) == calls;
    }
  }

  /** How many `on_both_press` calls a sequence holds. */
  function Presses(calls: seq<Callback>): nat
  {
    if calls == [] then 0
    else Presses(calls[..|calls| - 1]) + (if calls[|calls| - 1].OnBothPress? then 1 else 0)
  }

  /**
   * At most one detection per chord: every detection ends the gesture and only
   * `on_both_press` starts one, so the detections never outnumber the chord starts (plus one
   * for a session already active at the outset).  In particular, with no session active and
   * no new chord, nothing is ever detected.
   */
  lemma {:induction false} OneDetectionPerChord(st: Settings, s: GestureState, calls: seq<Callback>)
    requires Anchored(s)
    ensures var o := Run(st, s, calls);
      |o.detected| + (if o.gesture.active then 1 else 0) <= Presses(calls) + (if s.active then 1 else 0)
    ensures !s.active && Presses(calls) == 0 ==> Run(st, s, calls).detected == []
    decreases |calls|
  {
    if calls != [] {
      OneDetectionPerChord(st, s, calls[..|calls| - 1]);
    }
  }

  /** Over any sequence of handler calls, every key sent is released again, innermost first. */
  lemma {:induction false} RunEffectsBalanced(st: Settings, s: GestureState, calls: seq<Callback>)
    requires Anchored(s)
    ensures Balanced(Run(st, s, calls).effects)
    decreases |calls|
  {
    if calls != [] {
      var o := Run(st, s, calls[..|calls| - 1]);
      RunEffectsBalanced(st, s, calls[..|calls| - 1]);
      var r := React(st, o.gesture, calls[|calls| - 1]);
      assert Balanced(r.effects);
      ReplayConcat([], o.effects, r.effects, []);
    }
  }

  /** The listener's flags and the controller state seen together. */
  predicate ActiveOnlyWhileHeld(b: ButtonState, s: GestureState)
  {
    s.active ==> ChordHeld(b)
  }

  /**
   * A gesture session is active only while both buttons are held: the mouse events, through
   * the listener and the handlers, never leave a session active once either button is up.
   */
  lemma {:induction false} SessionNeedsChord(st: Settings, b: ButtonState, s: GestureState, events: seq<MouseEvent>)
    requires Anchored(s) && ActiveOnlyWhileHeld(b, s)
    ensures var (after, calls) := Listen(b, events);
      ActiveOnlyWhileHeld(after, Run(st, s, calls).gesture)
    decreases |events|
  {
    if events != [] {
      var prefix := events[..|events| - 1];
      SessionNeedsChord(st, b, s, prefix);
      var (mid, calls) := Listen(b, prefix);
      match events[|events| - 1]
      case MoveEvent(x, y, now) =>
        RunAppend(st, s, calls, OnMove(x, y, now));
      case ClickEvent(x, y, button, pressed) =>
        var (after, c) := HandleClick(mid, x, y, button, pressed);
        if c.Some? {
          RunAppend(st, s, calls, c.value);
        } else {
          assert calls + AsSeq(c) == calls;
        }
    }
  }

  /** The running application: the settings, the controller, the listener and the keyboard. */
  class GestureApp {
    const settings: Settings
    const gesture: GestureController
    const listener: InputListener
    const keyboard: EffectLog
    /** Every mouse event handled so far. */
    ghost var events: seq<MouseEvent>

    /** The listener's flags, the controller and the keyboard log are what the events seen so
        far produce from the start state. */
    ghost predicate Valid()
      reads this, gesture, listener, keyboard
    {
      gesture.Valid() && listener.Valid() &&
      var (b, calls) := Listen(Released, events);
      var o := Run(settings, Initial(settings.threshold, settings.cooldown), calls);
      b == listener.State() && o.gesture == gesture.Snapshot() && o.effects == keyboard.entries
    }

    /** `main`: settings from the configuration, a fresh controller and listener. */
    constructor (config: Config)
      ensures Valid() && settings == Resolve(config) && events == []
      ensures gesture.Snapshot() == Initial(settings.threshold, settings.cooldown)
      ensures listener.State() == Released && keyboard.entries == []
    {
      var st := Resolve(config);
      settings := st;
      gesture := new GestureController(st.threshold, st.cooldown);
      listener := new InputListener();
      keyboard := new EffectLog();
      events := [];
    }

    /** The `on_both_press` handler. */
    method OnBothPress(x: real, y: real)
      modifies gesture
      ensures gesture.Valid() && gesture.Snapshot() == Start(old(gesture.Snapshot()), x, y)
    {
      gesture.StartGesture(x, y);
    }

    /** The `on_move` handler. */
    method OnMove(x: real, y: real, now: real)
      requires gesture.Valid()
      modifies gesture, keyboard
      ensures gesture.Valid()
      ensures var r := React(settings, old(gesture.Snapshot()), Callback.OnMove(x, y, now));
        gesture.Snapshot() == r.gesture && keyboard.entries == old(keyboard.entries) + r.effects
    {
      var direction := gesture.DetectDirection(x, y, now);
      if direction.Some? {
        var action := ActionFor(settings, direction.value);
        if action.Some? {
          PerformAction(keyboard, action.value, settings.debug, direction, settings.useAlt);
        } else {
          assert keyboard.entries == old(keyboard.entries) + [];
        }
        gesture.EndGesture();
      } else {
        assert keyboard.entries == old(keyboard.entries) + [];
      }
    }

    /** The `on_release` handler. */
    method OnRelease()
      requires gesture.Valid()
      modifies gesture
      ensures gesture.Valid() && gesture.Snapshot() == End(old(gesture.Snapshot()))
    {
      gesture.EndGesture();
    }

    /** The listener calling the handler `_on_click` chose: `on_both_press` or `on_release`. */
    method RunCallback(callback: Option<Callback>)
      requires gesture.Valid()
      requires callback.Some? ==> !callback.value.OnMove?
      modifies gesture
      ensures gesture.Valid()
      ensures gesture.Snapshot() == AfterClick(old(gesture.Snapshot()), callback)
    {
      match callback
      case None =>
      case Some(OnBothPress(x, y)) =>
        OnBothPress(x, y);
      case Some(OnRelease) =>
        OnRelease();
    }

    /** A click reported by the mouse hook: `_on_click`, then the handler it calls. */
    method Click(x: real, y: real, button: Button, pressed: bool) returns (consumed: bool)
      requires Valid()
      modifies this, listener, gesture
      ensures Valid() && consumed
      ensures events == old(events) + [ClickEvent(x, y, button, pressed)]
      ensures keyboard.entries == old(keyboard.entries)
      ensures var (b, c) := HandleClick(old(listener.State()), x, y, button, pressed);
        listener.State() == b && gesture.Snapshot() == AfterClick(old(gesture.Snapshot()), c)
      ensures gesture.active ==> listener.leftPressed && listener.rightPressed
    {
      ghost var init := Initial(settings.threshold, settings.cooldown);
      ghost var calls := Listen(Released, events).1;
      var callback;
      consumed, callback := listener.OnClick(x, y, button, pressed);
      RunCallback(callback);
      events := events + [ClickEvent(x, y, button, pressed)];
      assert events[..|events| - 1] == old(events);
      assert Listen(Released, events) == (listener.State(), calls + AsSeq(callback));
      ClickHandlersAreQuiet(settings, init, calls, callback);
      SessionNeedsChord(settings, Released, init, events);
    }

    /** A cursor move reported by the mouse hook, which goes straight to `on_move`. */
    method Move(x: real, y: real, now: real)
      requires Valid()
      modifies this, gesture, keyboard
      ensures Valid()
      ensures events == old(events) + [MoveEvent(x, y, now)]
      ensures listener.State() == old(listener.State())
      ensures var r := React(settings, old(gesture.Snapshot()), Callback.OnMove(x, y, now));
        gesture.Snapshot() == r.gesture && keyboard.entries == old(keyboard.entries) + r.effects
      ensures gesture.active ==> listener.leftPressed && listener.rightPressed
    {
      ghost var calls := Listen(Released, events).1;
      OnMove(x, y, now);
      events := events + [MoveEvent(x, y, now)];
      assert events[..|events| - 1] == old(events);
      assert Listen(Released, events) == (listener.State(), calls + [Callback.OnMove(x, y, now)]);
      RunAppend(settings, Initial(settings.threshold, settings.cooldown), calls, Callback.OnMove(x, y, now));
      SessionNeedsChord(settings, Released, Initial(settings.threshold, settings.cooldown), events);
    }
  }
}
