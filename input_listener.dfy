/**
 * The chord detector of src/input_listener.py.
 *
 * `InputListener` keeps one flag per mouse button.  On every click it remembers the old
 * flags, updates the flag of the clicked button, and then calls one of the handlers it was
 * built with: `on_both_press(x, y)` when a press completes the chord (the other button was
 * already down), `on_release()` when a release leaves the chord incomplete.  Move events do
 * not pass through it: the mouse hook hands them straight to `on_move`.
 *
 * The mouse hook itself (pynput's listener thread) is not modelled: events arrive as values,
 * and each handler call is returned as a `Callback` value for the caller to carry out.
 */
module InputEvents {
  import opened Wrappers

  /** pynput's `Button.left`, `Button.right`, or any other button (middle, side buttons). */
  datatype Button = LeftButton | RightButton | OtherButton

  /** The flags `left_pressed` and `right_pressed`. */
  datatype ButtonState = ButtonState(left: bool, right: bool)

  /** Both flags false, as `__init__` leaves them. */
  const Released := ButtonState(false, false)

  /** The three handlers the listener and the mouse hook call, with their arguments. */
  datatype Callback = OnBothPress(x: real, y: real) | OnMove(x: real, y: real, now: real) | OnRelease

  /** What the mouse hook reports: a click (press or release) or a cursor move at time `now`. */
  datatype MouseEvent =
    | ClickEvent(x: real, y: real, button: Button, pressed: bool)
    | MoveEvent(x: real, y: real, now: real)

  predicate ChordHeld(b: ButtonState)
  {
    b.left && b.right
  }

  /** A press of one of the two buttons while the other one was already down. */
  predicate CompletesChord(before: ButtonState, button: Button, pressed: bool)
  {
    pressed && ((button == LeftButton && before.right) || (button == RightButton && before.left))
  }

  /** `_on_click(x, y, button, pressed)`: the new flags, and the handler it calls, if any. */
  function HandleClick(b: ButtonState, x: real, y: real, button: Button, pressed: bool): (r: (ButtonState, Option<Callback>))
    ensures button == LeftButton ==> r.0 == ButtonState(pressed, b.right)
    ensures button == RightButton ==> r.0 == ButtonState(b.left, pressed)
    ensures button == OtherButton ==> r.0 == b
    ensures r.1 == Some(OnBothPress(x, y)) <==> CompletesChord(b, button, pressed)
    ensures r.1 == Some(OnRelease) <==> !pressed && !ChordHeld(r.0)
    ensures r.1 == None || r.1 == Some(OnBothPress(x, y)) || r.1 == Some(OnRelease)
    ensures r.1 == Some(OnBothPress(x, y)) ==> ChordHeld(r.0)
    ensures !pressed && (button == LeftButton || button == RightButton) ==> r.1 == Some(OnRelease)
  {
    var after :=
      if button == LeftButton then ButtonState(pressed, b.right)
      else if button == RightButton then ButtonState(b.left, pressed)
      else b;
    if pressed && ((button == LeftButton && b.right) || (button == RightButton && b.left)) then
      (after, Some(OnBothPress(x, y)))
    else if !pressed && (!after.left || !after.right) then
      (after, Some(OnRelease))
    else
      (after, None)
  }

  /**
   * The handler calls a sequence of mouse events causes, in order, and the flags afterwards:
   * clicks go through `_on_click`, moves go to `on_move` unchanged.
   */
  function Listen(b: ButtonState, events: seq<MouseEvent>): (r: (ButtonState, seq<Callback>))
    ensures |r.1| <= |events|
    decreases |events|
  {
    if events == [] then
      (b, [])
    else
      var (mid, calls) := Listen(b, events[..|events| - 1]);
      match events[|events| - 1]
      case MoveEvent(x, y, now) => (mid, calls + [OnMove(x, y, now)])
      case ClickEvent(x, y, button, pressed) =>
        var (after, c) := HandleClick(mid, x, y, button, pressed);
        (after, calls + AsSeq(c))
  }

  /** One more event: a move appends its `on_move` call, a click appends the handler
      `_on_click` calls for it, if any, and takes `_on_click`'s new flags. */
  lemma ListenAppend(b: ButtonState, events: seq<MouseEvent>, e: MouseEvent)
    ensures var (mid, calls) := Listen(b, events);
      Listen(b, events + [e]) ==
        match e
        case MoveEvent(x, y, now) => (mid, calls + [OnMove(x, y, now)])
        case ClickEvent(x, y, button, pressed) =>
          var (after, c) := HandleClick(mid, x, y, button, pressed);
          (after, calls + AsSeq(c))
  {
    assert (events + [e])[..|events|] == events;
  }

  /** Whether `button` was last reported down: the `pressed` of its latest click, else false. */
  function LastReported(events: seq<MouseEvent>, button: Button): bool
    decreases |events|
  {
    if events == [] then
      false
    else
      var e := events[|events| - 1];
      if e.ClickEvent? && e.button == button then e.pressed else LastReported(events[..|events| - 1], button)
  }

  /**
   * From the released state, each flag always equals what the latest click of its button
   * reported; clicks of other buttons and moves never touch the flags.
   */
  lemma {:induction false} FlagsFollowLatestClick(events: seq<MouseEvent>)
    ensures Listen(Released, events).0 ==
      ButtonState(LastReported(events, LeftButton), LastReported(events, RightButton))
    decreases |events|
  {
    if events != [] {
      FlagsFollowLatestClick(events[..|events| - 1]);
    }
  }

  /** The `on_move` calls among a sequence of handler calls. */
  function MovesAmong(calls: seq<Callback>): (r: seq<Callback>)
    ensures |r| <= |calls|
  {
    if calls == [] then []
    else MovesAmong(calls[..|calls| - 1]) + (if calls[|calls| - 1].OnMove? then [calls[|calls| - 1]] else [])
  }

  /** The `on_move` call each move event asks for. */
  function MovesOf(events: seq<MouseEvent>): (r: seq<Callback>)
    ensures |r| <= |events|
  {
    if events == [] then []
    else
      var e := events[|events| - 1];
      MovesOf(events[..|events| - 1]) + (if e.MoveEvent? then [OnMove(e.x, e.y, e.now)] else [])
  }

  lemma MovesAmongConcat(calls: seq<Callback>, more: seq<Callback>)
    ensures MovesAmong(calls + more) == MovesAmong(calls) + MovesAmong(more)
    decreases |more|
  {
    if more == [] {
      assert calls + more == calls;
    } else {
      var n := |more|;
      assert (calls + more)[..|calls + more| - 1] == calls + more[..n - 1];
      MovesAmongConcat(calls, more[..n - 1]);
    }
  }

  /**
   * Every move event reaches `on_move`, in order and with its own coordinates and time,
   * whatever the button state; `_on_click` never calls `on_move`.
   */
  lemma {:induction false} MovesPassUnfiltered(b: ButtonState, events: seq<MouseEvent>)
    ensures MovesAmong(Listen(b, events).1) == MovesOf(events)
    decreases |events|
  {
    if events != [] {
      var prefix := events[..|events| - 1];
      MovesPassUnfiltered(b, prefix);
      var (mid, calls) := Listen(b, prefix);
      match events[|events| - 1]
      case MoveEvent(x, y, now) =>
        MovesAmongConcat(calls, [OnMove(x, y, now)]);
        assert MovesAmong([OnMove(x, y, now)]) == [OnMove(x, y, now)];
      case ClickEvent(x, y, button, pressed) =>
        var (after, c) := HandleClick(mid, x, y, button, pressed);
        MovesAmongConcat(calls, AsSeq(c));
        assert MovesAmong(AsSeq(c)) == [];
    }
  }

  /** Example chord: left alone starts nothing, right while left is held starts once. */
  lemma ChordExample(x: real, y: real)
    ensures var (b1, c1) := HandleClick(Released, x, y, LeftButton, true);
            var (b2, c2) := HandleClick(b1, x, y, RightButton, true);
            c1 == None && c2 == Some(OnBothPress(x, y)) && ChordHeld(b2)
  {
  }

  /** The listener object; `_on_click` updates its flags in place. */
  class InputListener {
    var leftPressed: bool
    var rightPressed: bool
    /** The clicks seen so far, and the handler calls `_on_click` made for them. */
    ghost var clicks: seq<MouseEvent>
    ghost var calls: seq<Callback>

    function State(): ButtonState
      reads this
    {
      ButtonState(leftPressed, rightPressed)
    }

    /** The flags and the calls are those the clicks seen so far produce from the released state. */
    ghost predicate Valid()
      reads this
    {
      (State(), calls) == Listen(Released, clicks)
    }

    constructor ()
      ensures Valid() && State() == Released && clicks == [] && calls == []
    {
      leftPressed := false;
      rightPressed := false;
      clicks := [];
      calls := [];
    }

    /**
     * `_on_click`: always consumes the event; `callback` is the handler it calls, which the
     * caller then runs.
     */
    method OnClick(x: real, y: real, button: Button, pressed: bool) returns (consumed: bool, callback: Option<Callback>)
      requires Valid()
      modifies this
      ensures Valid() && consumed
      ensures (State(), callback) == HandleClick(old(State()), x, y, button, pressed)
      ensures clicks == old(clicks) + [ClickEvent(x, y, button, pressed)]
      ensures calls == old(calls) + AsSeq(callback)
    {
      ghost var before := State();
      var prevLeft := leftPressed;
      var prevRight := rightPressed;
      if button == LeftButton {
        leftPressed := pressed;
      } else if button == RightButton {
        rightPressed := pressed;
      }
      clicks := clicks + [ClickEvent(x, y, button, pressed)];
      assert clicks[..|clicks| - 1] == old(clicks);
      ghost var expected := HandleClick(before, x, y, button, pressed);
      assert Listen(Released, clicks) == (expected.0, calls + AsSeq(expected.1));
      if pressed {
        if (button == LeftButton && prevRight) || (button == RightButton && prevLeft) {
          callback := Some(OnBothPress(x, y));
          calls := calls + [OnBothPress(x, y)];
          return true, callback;
        }
      }
      if !pressed && (!leftPressed || !rightPressed) {
        callback := Some(OnRelease);
        calls := calls + [OnRelease];
      } else {
        callback := None;
        assert calls == old(calls) + AsSeq(callback);
      }
      return true, callback;
    }
  }
}
