/**
 * The keystroke actions of src/actions.py.
 *
 * `perform_action` turns an action name into a fixed sequence of presses and releases on
 * the keyboard controller, preceded by a debug line when debugging is on.  The keyboard
 * controller and the debug output are modelled together as one append-only log of
 * `Effect`s; what the operating system does with the keys is outside the model.
 */
module Actions {
  import opened Wrappers
  import opened GestureControl

  /** The keys the actions use: the Windows key (`Key.cmd`), the two modifiers, tab, escape
      and the left and right arrows. */
  datatype Key = Cmd | Ctrl | Alt | Tab | Esc | LeftArrow | RightArrow

  /** One observable step of an action: the debug line `show_debug_message` prints, or a key
      press or release sent to the keyboard controller. */
  datatype Effect = DebugMessage(direction: Direction, action: string) | Press(key: Key) | Release(key: Key)

  /** The modifier that moves between virtual desktops together with the Windows key. */
  function Modifier(useAlt: bool): Key
  {
    if useAlt then Alt else Ctrl
  }

  /** `kb.press(k)` followed by `kb.release(k)`. */
  function Tap(k: Key): seq<Effect>
  {
    [Press(k), Release(k)]
  }

  /** `with kb.pressed(k): body`: k is pressed, the body runs, and k is released. */
  function Holding(k: Key, body: seq<Effect>): seq<Effect>
  {
    [Press(k)] + body + [Release(k)]
  }

  /** The four actions `perform_action` knows. */
  datatype Action = TaskView | CloseTaskView | DesktopLeft | DesktopRight

  /** The `if`/`elif` chain on the action name: which action a name selects, if any. */
  function ActionNamed(name: string): Option<Action>
  {
    if name == "task_view" then Some(TaskView)
    else if name == "close_task_view" then Some(CloseTaskView)
    else if name == "desktop_left" then Some(DesktopLeft)
    else if name == "desktop_right" then Some(DesktopRight)
    else None
  }

  /** The keys an action sends. */
  function ActionKeys(action: Action, modifier: Key): seq<Effect>
  {
    match action
    case TaskView => Holding(Cmd, Tap(Tab))
    case CloseTaskView => Tap(Esc)
    case DesktopLeft => Holding(Cmd, Holding(modifier, Tap(LeftArrow)))
    case DesktopRight => Holding(Cmd, Holding(modifier, Tap(RightArrow)))
  }

  /** The keys an action name sends; a name the actions do not know sends nothing. */
  function Keystrokes(name: string, modifier: Key): (r: seq<Effect>)
    ensures r == [] <==> ActionNamed(name) == None
    ensures forall i :: 0 <= i < |r| ==> !r[i].DebugMessage?
  {
    match ActionNamed(name)
    case None => []
    case Some(action) => ActionKeys(action, modifier)
  }

  /** The debug line, printed only when debugging is on and a direction is given. */
  function DebugLine(debug: bool, direction: Option<Direction>, action: string): seq<Effect>
  {
    if debug && direction.Some? then [DebugMessage(direction.value, action)] else []
  }

  /** Everything `perform_action(action, debug, direction, use_alt)` does, in order. */
  function ActionEffects(action: string, debug: bool, direction: Option<Direction>, useAlt: bool): (r: seq<Effect>)
    ensures debug && direction.Some? ==> |r| > 0 && r[0] == DebugMessage(direction.value, action)
    ensures debug && direction.Some? ==> r[1..] == Keystrokes(action, Modifier(useAlt))
    ensures !(debug && direction.Some?) ==> r == Keystrokes(action, Modifier(useAlt))
    ensures r == [] <==> !(debug && direction.Some?) && ActionNamed(action) == None
  {
    DebugLine(debug, direction, action) + Keystrokes(action, Modifier(useAlt))
  }

  /**
   * Plays a sequence of effects against a stack of held keys (the last element is the most
   * recently pressed key): a press pushes its key, a release must release the key on top.
   * None when some release does not match.
   */
  function Replay(held: seq<Key>, effects: seq<Effect>): Option<seq<Key>>
    decreases |effects|
  {
    if effects == [] then
      Some(held)
    else
      match effects[0]
      case DebugMessage(_, _) => Replay(held, effects[1..])
      case Press(k) => Replay(held + [k], effects[1..])
      case Release(k) =>
        if held != [] && held[|held| - 1] == k then Replay(held[..|held| - 1], effects[1..]) else None
  }

  /** Every key pressed is released, and keys are released in the reverse order of pressing. */
  predicate Balanced(effects: seq<Effect>)
  {
    Replay([], effects) == Some([])
  }

  /** Keys already held underneath do not disturb a replay. */
  lemma {:induction false} ReplayUnderneath(below: seq<Key>, held: seq<Key>, effects: seq<Effect>, after: seq<Key>)
    requires Replay(held, effects) == Some(after)
    ensures Replay(below + held, effects) == Some(below + after)
    decreases |effects|
  {
    if effects != [] {
      match effects[0]
      case DebugMessage(_, _) =>
        ReplayUnderneath(below, held, effects[1..], after);
      case Press(k) =>
        ReplayUnderneath(below, held + [k], effects[1..], after);
        assert below + held + [k] == below + (held + [k]);
      case Release(k) =>
        var rest := held[..|held| - 1];
        ReplayUnderneath(below, rest, effects[1..], after);
        assert (below + held)[..|below + held| - 1] == below + rest;
    }
  }

  /** Replaying a concatenation replays the second part from where the first one stops. */
  lemma {:induction false} ReplayConcat(held: seq<Key>, first: seq<Effect>, second: seq<Effect>, mid: seq<Key>)
    requires Replay(held, first) == Some(mid)
    ensures Replay(held, first + second) == Replay(mid, second)
    decreases |first|
  {
    if first != [] {
      assert (first + second)[0] == first[0];
      assert (first + second)[1..] == first[1..] + second;
      match first[0]
      case DebugMessage(_, _) =>
        ReplayConcat(held, first[1..], second, mid);
      case Press(k) =>
        ReplayConcat(held + [k], first[1..], second, mid);
      case Release(k) =>
        ReplayConcat(held[..|held| - 1], first[1..], second, mid);
    } else {
      assert first + second == second;
    }
  }

  /** `with kb.pressed(k)` around a balanced body is balanced. */
  lemma HoldingBalanced(k: Key, body: seq<Effect>)
    requires Balanced(body)
    ensures Balanced(Holding(k, body))
  {
    var whole := Holding(k, body);
    assert whole[0] == Press(k) && whole[1..] == body + [Release(k)];
    ReplayUnderneath([k], [], body, []);
    assert [k] + [] == [k] == [] + [k];
    calc {
      Replay([], whole);
      Replay([k], body + [Release(k)]);
      { ReplayConcat([k], body, [Release(k)], [k]); }
      Replay([k], [Release(k)]);
      { assert [Release(k)][1..] == []; }
      Some([]);
    }
  }

  lemma TapBalanced(k: Key)
    ensures Balanced(Tap(k))
  {
    assert Tap(k)[1..] == [Release(k)];
  }

  /**
   * Whatever the action, the debug flag, the direction and the modifier choice, every key
   * `perform_action` presses is released again, innermost first.
   */
  lemma ActionEffectsBalanced(action: string, debug: bool, direction: Option<Direction>, useAlt: bool)
    ensures Balanced(ActionEffects(action, debug, direction, useAlt))
  {
    var keys := Keystrokes(action, Modifier(useAlt));
    TapBalanced(Tab);
    TapBalanced(Esc);
    TapBalanced(LeftArrow);
    TapBalanced(RightArrow);
    HoldingBalanced(Cmd, Tap(Tab));
    HoldingBalanced(Modifier(useAlt), Tap(LeftArrow));
    HoldingBalanced(Cmd, Holding(Modifier(useAlt), Tap(LeftArrow)));
    HoldingBalanced(Modifier(useAlt), Tap(RightArrow));
    HoldingBalanced(Cmd, Holding(Modifier(useAlt), Tap(RightArrow)));
    assert Balanced(keys);
    var line := DebugLine(debug, direction, action);
    ReplayConcat([], line, keys, []);
  }

  /** The exact key sequence of each known action. */
  lemma KeystrokeTable(modifier: Key)
    ensures Keystrokes("task_view", modifier) == [Press(Cmd), Press(Tab), Release(Tab), Release(Cmd)]
    ensures Keystrokes("close_task_view", modifier) == [Press(Esc), Release(Esc)]
    ensures Keystrokes("desktop_left", modifier) ==
      [Press(Cmd), Press(modifier), Press(LeftArrow), Release(LeftArrow), Release(modifier), Release(Cmd)]
    ensures Keystrokes("desktop_right", modifier) ==
      [Press(Cmd), Press(modifier), Press(RightArrow), Release(RightArrow), Release(modifier), Release(Cmd)]
  {
  }

  /** Any other action name sends no key at all (and is not an error). */
  lemma UnknownActionSendsNothing(action: string, modifier: Key)
    requires action !in {"task_view", "close_task_view", "desktop_left", "desktop_right"}
    ensures Keystrokes(action, modifier) == []
  {
  }

  /**
   * Alt is pressed exactly when `use_alt` is set and the action switches desktops; Ctrl
   * exactly when it is not set and the action switches desktops.  The task-view actions use
   * no modifier.
   */
  lemma ModifierChoice(action: string, debug: bool, direction: Option<Direction>, useAlt: bool)
    ensures var effects := ActionEffects(action, debug, direction, useAlt);
      var switches := action == "desktop_left" || action == "desktop_right";
      (Press(Alt) in effects <==> useAlt && switches) &&
      (Press(Ctrl) in effects <==> !useAlt && switches)
  {
    var effects := ActionEffects(action, debug, direction, useAlt);
    KeystrokeTable(Modifier(useAlt));
    assert effects == DebugLine(debug, direction, action) + Keystrokes(action, Modifier(useAlt));
  }

  /**
   * The debug line appears exactly when debugging is on and a direction is given, and then
   * only as the very first effect, before any key.
   */
  lemma DebugComesFirst(action: string, debug: bool, direction: Option<Direction>, useAlt: bool)
    ensures var effects := ActionEffects(action, debug, direction, useAlt);
      ((exists i :: 0 <= i < |effects| && effects[i].DebugMessage?) <==> debug && direction.Some?) &&
      (forall i :: 0 < i < |effects| ==> !effects[i].DebugMessage?)
  {
    var effects := ActionEffects(action, debug, direction, useAlt);
    var keys := Keystrokes(action, Modifier(useAlt));
    KeystrokeTable(Modifier(useAlt));
    assert forall i :: 0 <= i < |keys| ==> !keys[i].DebugMessage?;
    if debug && direction.Some? {
      assert effects[0].DebugMessage?;
      assert forall i :: 0 < i < |effects| ==> effects[i] == keys[i - 1];
    } else {
      assert effects == keys;
    }
  }

  /** The keyboard controller `kb` together with the debug output: an append-only log. */
  class EffectLog {
    var entries: seq<Effect>

    constructor ()
      ensures entries == []
    {
      entries := [];
    }

    method Press(k: Key)
      modifies this
      ensures entries == old(entries) + [Effect.Press(k)]
    {
      entries := entries + [Effect.Press(k)];
    }

    method Release(k: Key)
      modifies this
      ensures entries == old(entries) + [Effect.Release(k)]
    {
      entries := entries + [Effect.Release(k)];
    }
  }

  method ShowDebugMessage(log: EffectLog, direction: Direction, action: string)
    modifies log
    ensures log.entries == old(log.entries) + [DebugMessage(direction, action)]
  {
    log.entries := log.entries + [DebugMessage(direction, action)];
  }

  /** `perform_action`: the debug line if asked for, then the named action's keys, on the log. */
  method PerformAction(log: EffectLog, action: string, debug: bool, direction: Option<Direction>, useAlt: bool)
    modifies log
    ensures log.entries == old(log.entries) + ActionEffects(action, debug, direction, useAlt)
  {
    if debug && direction.Some? {
      ShowDebugMessage(log, direction.value, action);
    }
    var modifierKey := if useAlt then Alt else Ctrl;
    SendKeystrokes(log, action, modifierKey);
  }

  /** The `if`/`elif` chain of `perform_action`, which sends the keys of the named action. */
  method SendKeystrokes(log: EffectLog, action: string, modifierKey: Key)
    modifies log
    ensures log.entries == old(log.entries) + Keystrokes(action, modifierKey)
  {
    ghost var start := log.entries;
    KeystrokeTable(modifierKey);
    match ActionNamed(action)
    case None =>
    case Some(TaskView) =>
      log.Press(Cmd);
      log.Press(Tab);
      log.Release(Tab);
      log.Release(Cmd);
      assert log.entries == start + [Press(Cmd), Press(Tab), Release(Tab), Release(Cmd)];
    case Some(CloseTaskView) =>
      log.Press(Esc);
      log.Release(Esc);
      assert log.entries == start + [Press(Esc), Release(Esc)];
    case Some(DesktopLeft) =>
      log.Press(Cmd);
      log.Press(modifierKey);
      log.Press(LeftArrow);
      assert log.entries == start + [Press(Cmd), Press(modifierKey), Press(LeftArrow)];
      log.Release(LeftArrow);
      log.Release(modifierKey);
      log.Release(Cmd);
      assert log.entries == start +
        [Press(Cmd), Press(modifierKey), Press(LeftArrow), Release(LeftArrow), Release(modifierKey), Release(Cmd)];
    case Some(DesktopRight) =>
      log.Press(Cmd);
      log.Press(modifierKey);
      log.Press(RightArrow);
      assert log.entries == start + [Press(Cmd), Press(modifierKey), Press(RightArrow)];
      log.Release(RightArrow);
      log.Release(modifierKey);
      log.Release(Cmd);
      assert log.entries == start +
        [Press(Cmd), Press(modifierKey), Press(RightArrow), Release(RightArrow), Release(modifierKey), Release(Cmd)];
  }
}
