/**
 * The gesture recogniser of src/gesture_controller.py.
 *
 * A `GestureController` remembers the cursor position at which the chord started (the
 * anchor), whether a gesture session is active, and the time of the last successful
 * classification, which rate-limits classifications (the cooldown).  `detect_direction`
 * applies three gates in order (active, cooldown, distance threshold) and then classifies
 * the displacement from the anchor into one of four directions.
 *
 * Time is passed in as `now` instead of being read from the clock, coordinates and times
 * are exact real numbers (Python's ints and floats, without rounding), and the Euclidean
 * distance test `hypot(dx, dy) < threshold` is decided on squared lengths (see
 * `BelowThreshold` and `BelowThresholdIsHypot`).
 */
module GestureControl {
  import opened Wrappers

  datatype Direction = Up | Down | Left | Right

  function Abs(n: real): real
  {
    if n < 0.0 then -n else n
  }

  predicate IsHorizontal(d: Direction)
  {
    d == Left || d == Right
  }

  /** How far the displacement (dx, dy) reaches in direction `d`; screen y grows downwards. */
  function Projection(d: Direction, dx: real, dy: real): real
  {
    match d
    case Right => dx
    case Left => -dx
    case Down => dy
    case Up => -dy
  }

  /**
   * The main direction of a displacement.  The result is horizontal exactly when the
   * horizontal component is strictly larger, so a tie |dx| == |dy| is vertical; it is the
   * direction the displacement reaches furthest in; and its sense follows the sign of the
   * dominant component, with a zero vertical component counting as "up".
   */
  function Classify(dx: real, dy: real): (d: Direction)
    ensures IsHorizontal(d) <==> Abs(dx) > Abs(dy)
    ensures IsHorizontal(d) ==> (d == Right <==> dx > 0.0)
    ensures !IsHorizontal(d) ==> (d == Down <==> dy > 0.0)
    ensures forall e :: Projection(e, dx, dy) <= Projection(d, dx, dy)
  {
    if Abs(dx) > Abs(dy) then
      (if dx > 0.0 then Right else Left)
    else
      (if dy > 0.0 then Down else Up)
  }

  function Sign(n: real): int
  {
    if n > 0.0 then 1 else if n < 0.0 then -1 else 0
  }

  /**
   * The classification sees only the signs of dx and dy and which of |dx|, |dy| is larger:
   * two displacements that agree on those are classified alike, however long they are.
   */
  lemma ClassifyDependsOnlyOnSignsAndOrder(dx: real, dy: real, dx': real, dy': real)
    requires Sign(dx) == Sign(dx') && Sign(dy) == Sign(dy')
    requires Abs(dx) > Abs(dy) <==> Abs(dx') > Abs(dy')
    ensures Classify(dx, dy) == Classify(dx', dy')
  {
  }

  /** Scaling a displacement by a positive factor never changes its direction. */
  lemma ClassifyScaleInvariant(dx: real, dy: real, k: real)
    requires k > 0.0
    ensures Classify(k * dx, k * dy) == Classify(dx, dy)
  {
    ScaleKeepsSign(k, dx);
    ScaleKeepsSign(k, dy);
    var gap := Abs(dx) - Abs(dy);
    assert Abs(k * dx) - Abs(k * dy) == k * gap;
    ProductSign(k, gap);
    ClassifyDependsOnlyOnSignsAndOrder(k * dx, k * dy, dx, dy);
  }

  lemma ProductSign(k: real, d: real)
    requires k > 0.0
    ensures k * d > 0.0 <==> d > 0.0
  {
    if d > 0.0 {
      MultiplyStrictlyMonotone(k, 0.0, d);
    } else {
      MultiplyMonotone(k, d, 0.0);
    }
  }

  lemma ScaleKeepsSign(k: real, x: real)
    requires k > 0.0
    ensures Sign(k * x) == Sign(x) && Abs(k * x) == k * Abs(x)
  {
    if x > 0.0 {
      MultiplyStrictlyMonotone(k, 0.0, x);
    } else if x < 0.0 {
      MultiplyStrictlyMonotone(k, x, 0.0);
      assert k * -x == -(k * x);
    }
  }

  /**
   * `math.hypot(dx, dy) < threshold`.  The Euclidean length is never negative, so the test
   * fails for every threshold <= 0 and otherwise compares squares.
   */
  predicate BelowThreshold(dx: real, dy: real, threshold: real)
  {
    0.0 < threshold && dx * dx + dy * dy < threshold * threshold
  }

  /** `BelowThreshold` agrees with comparing the true length `h` of (dx, dy) against the threshold. */
  lemma BelowThresholdIsHypot(dx: real, dy: real, threshold: real, h: real)
    requires 0.0 <= h && h * h == dx * dx + dy * dy
    ensures BelowThreshold(dx, dy, threshold) <==> h < threshold
  {
    if h < threshold {
      SquareStrictlyMonotone(h, threshold);
    } else if 0.0 < threshold {
      MultiplyMonotone(threshold, threshold, h);
      MultiplyMonotone(h, threshold, h);
    }
  }

  lemma SquareStrictlyMonotone(a: real, b: real)
    requires 0.0 <= a < b
    ensures a * a < b * b
  {
    calc {
      a * a;
    <= { MultiplyMonotone(a, a, b); }
      a * b;
    == b * a;
    < { MultiplyStrictlyMonotone(b, a, b); }
      b * b;
    }
  }

  lemma MultiplyStrictlyMonotone(a: real, b: real, c: real)
    requires 0.0 < a && b < c
    ensures a * b < a * c
  {
    assert a * c - a * b == a * (c - b);
    assert a * (c - b) > 0.0;
  }

  lemma MultiplyMonotone(a: real, b: real, c: real)
    requires 0.0 <= a && b <= c
    ensures a * b <= a * c
  {
    assert a * c - a * b == a * (c - b);
  }

  /** The fields of a `GestureController`: `start_x`, `start_y` (None until a gesture starts),
      `active`, `last_gesture_time`, `threshold` and `cooldown`. */
  datatype GestureState = GestureState(
    startX: Option<real>,
    startY: Option<real>,
    active: bool,
    lastGestureTime: real,
    threshold: real,
    cooldown: real)

  /** A session can be active only once an anchor has been recorded. */
  predicate Anchored(s: GestureState)
  {
    s.active ==> s.startX.Some? && s.startY.Some?
  }

  /** The state `__init__` builds: no anchor, inactive, last classification at time 0. */
  function Initial(threshold: real, cooldown: real): (s: GestureState)
    ensures Anchored(s) && !s.active
    ensures s.startX == None && s.startY == None
    ensures s.lastGestureTime == 0.0 && s.threshold == threshold && s.cooldown == cooldown
  {
    GestureState(None, None, false, 0.0, threshold, cooldown)
  }

  /** `start_gesture`: the anchor becomes (x, y) and the session active; nothing else changes. */
  function Start(s: GestureState, x: real, y: real): (r: GestureState)
    ensures Anchored(r) && r.active
    ensures r.startX == Some(x) && r.startY == Some(y)
    ensures r.lastGestureTime == s.lastGestureTime
    ensures r.threshold == s.threshold && r.cooldown == s.cooldown
  {
    s.(startX := Some(x), startY := Some(y), active := true)
  }

  /** `end_gesture`: only the session flag is cleared; applying it twice is applying it once. */
  function End(s: GestureState): (r: GestureState)
    ensures !r.active
    ensures r.startX == s.startX && r.startY == s.startY
    ensures r.lastGestureTime == s.lastGestureTime
    ensures r.threshold == s.threshold && r.cooldown == s.cooldown
  {
    s.(active := false)
  }

  /** Ending a session that is already ended changes nothing. */
  lemma EndIdempotent(s: GestureState)
    ensures End(End(s)) == End(s)
  {
  }

  /** Less than `cooldown` has passed since the last successful classification. */
  predicate CoolingDown(s: GestureState, now: real)
  {
    now - s.lastGestureTime < s.cooldown
  }

  /**
   * `detect_direction(x, y)` at time `now`: the direction found, if any, and the new state.
   * Whenever nothing is found the state is left exactly as it was; a classification only
   * records `now` as the time of the last one and never ends the session.
   */
  function Detect(s: GestureState, x: real, y: real, now: real): (r: (Option<Direction>, GestureState))
    requires Anchored(s)
    ensures Anchored(r.1)
    ensures r.0 == None ==> r.1 == s
    ensures r.0 != None ==> s.active && !CoolingDown(s, now) && r.1 == s.(lastGestureTime := now)
  {
    if !s.active then
      (None, s)
    else if CoolingDown(s, now) then
      (None, s)
    else
      var dx := x - s.startX.value;
      var dy := y - s.startY.value;
      if BelowThreshold(dx, dy, s.threshold) then
        (None, s)
      else
        (Some(Classify(dx, dy)), s.(lastGestureTime := now))
  }

  /**
   * The three gates of `detect_direction`, both ways round: a direction is found exactly
   * when the session is active, the cooldown has elapsed and the cursor is at least
   * `threshold` away from the anchor, and it is then the classification of the displacement.
   */
  lemma DetectFiresExactly(s: GestureState, x: real, y: real, now: real, d: Direction)
    requires Anchored(s)
    ensures Detect(s, x, y, now).0 == Some(d) <==>
      s.active && !CoolingDown(s, now) &&
      !BelowThreshold(x - s.startX.value, y - s.startY.value, s.threshold) &&
      d == Classify(x - s.startX.value, y - s.startY.value)
  {
  }

  /** Zero displacement is never classified while the threshold is positive. */
  lemma NoMoveNoDirection(s: GestureState, now: real)
    requires Anchored(s) && s.active && s.threshold > 0.0
    ensures Detect(s, s.startX.value, s.startY.value, now) == (None, s)
  {
    var dx := s.startX.value - s.startX.value;
    var dy := s.startY.value - s.startY.value;
    assert dx == 0.0 && dy == 0.0;
    assert BelowThreshold(dx, dy, s.threshold);
  }

  /** Example swipes: a tie, and a swipe, a blocked second swipe within the cooldown and a
      later swipe after a fresh start. */
  lemma SwipeExamples()
    ensures Classify(50.0, 50.0) == Down
    ensures var s0 := Start(Initial(80.0, 0.5), 100.0, 100.0);
            var (d1, s1) := Detect(s0, 100.0, 200.0, 10.0);
            var (d2, s2) := Detect(s1, 300.0, 100.0, 10.2);
            var (d3, _) := Detect(Start(End(s2), 100.0, 100.0), 300.0, 100.0, 10.8);
            d1 == Some(Down) && d2 == None && d3 == Some(Right)
  {
  }

  /** One call on the controller, as the application makes them. */
  datatype Call = StartCall(x: real, y: real) | DetectCall(x: real, y: real, now: real) | EndCall

  /** A successful classification and the time at which it happened. */
  datatype Firing = Firing(direction: Direction, time: real)

  function Step(s: GestureState, c: Call): (r: (GestureState, Option<Firing>))
    requires Anchored(s)
    ensures Anchored(r.0)
  {
    match c
    case StartCall(x, y) => (Start(s, x, y), None)
    case EndCall => (End(s), None)
    case DetectCall(x, y, now) =>
      var (d, s') := Detect(s, x, y, now);
      (s', if d.Some? then Some(Firing(d.value, now)) else None)
  }

  /** The state after a sequence of calls, and the classifications made along the way. */
  function Drive(s: GestureState, calls: seq<Call>): (r: (GestureState, seq<Firing>))
    requires Anchored(s)
    ensures Anchored(r.0)
    ensures r.0.threshold == s.threshold && r.0.cooldown == s.cooldown
    ensures |r.1| <= |calls|
    decreases |calls|
  {
    if calls == [] then
      (s, [])
    else
      var (mid, fired) := Drive(s, calls[..|calls| - 1]);
      var (last, f) := Step(mid, calls[|calls| - 1]);
      (last, fired + AsSeq(f))
  }

  /** A call classifies only in an active session past the cooldown, and then records its
      time; a call that does not classify leaves `last_gesture_time` as it was. */
  lemma StepFiring(s: GestureState, c: Call)
    requires Anchored(s)
    ensures var (t, f) := Step(s, c);
      t.cooldown == s.cooldown &&
      (f.Some? ==> !CoolingDown(s, f.value.time) && t.lastGestureTime == f.value.time) &&
      (f.None? ==> t.lastGestureTime == s.lastGestureTime)
  {
  }

  /** Each classification comes at least `cooldown` after the previous one, the first at least
      `cooldown` after `from`. */
  ghost predicate Spaced(from: real, fired: seq<Firing>, cooldown: real)
  {
    (|fired| > 0 ==> fired[0].time - from >= cooldown) &&
    forall i :: 0 < i < |fired| ==> fired[i].time - fired[i - 1].time >= cooldown
  }

  /** The time of the last classification in `fired`, or `from` when there is none. */
  function LastFired(from: real, fired: seq<Firing>): real
  {
    if fired == [] then from else fired[|fired| - 1].time
  }

  /**
   * The cooldown holds across sessions: whatever the calls (sessions ended and restarted in
   * between), consecutive classifications are at least `cooldown` apart, and
   * `last_gesture_time` is always the time of the latest one.
   */
  lemma {:induction false} FiringsRespectCooldown(s: GestureState, calls: seq<Call>)
    requires Anchored(s)
    ensures Spaced(s.lastGestureTime, Drive(s, calls).1, s.cooldown)
    ensures Drive(s, calls).0.lastGestureTime == LastFired(s.lastGestureTime, Drive(s, calls).1)
    decreases |calls|
  {
    if calls != [] {
      var prefix := calls[..|calls| - 1];
      FiringsRespectCooldown(s, prefix);
      var (mid, fired) := Drive(s, prefix);
      var (last, f) := Step(mid, calls[|calls| - 1]);
      StepFiring(mid, calls[|calls| - 1]);
      assert Drive(s, calls) == (last, fired + AsSeq(f));
      if f.Some? {
        var all := fired + [f.value];
        assert AsSeq(f) == [f.value];
        assert LastFired(s.lastGestureTime, fired) == mid.lastGestureTime;
        assert f.value.time - mid.lastGestureTime >= s.cooldown;
        forall i | 0 < i < |all|
          ensures all[i].time - all[i - 1].time >= s.cooldown
        {
          if i < |fired| {
            assert all[i] == fired[i] && all[i - 1] == fired[i - 1];
          } else {
            assert all[i - 1] == fired[|fired| - 1];
          }
        }
        assert LastFired(s.lastGestureTime, all) == f.value.time;
      } else {
        assert fired + AsSeq(f) == fired;
      }
    }
  }

  /** The timestamps of the detect calls never go backwards and none is earlier than `from`. */
  ghost predicate ClockFrom(from: real, calls: seq<Call>)
  {
    (forall i :: 0 <= i < |calls| && calls[i].DetectCall? ==> from <= calls[i].now) &&
    (forall i, j :: 0 <= i < j < |calls| && calls[i].DetectCall? && calls[j].DetectCall? ==>
       calls[i].now <= calls[j].now)
  }

  /** `last_gesture_time` is always its starting value or the timestamp of some detect call. */
  lemma {:induction false} LastTimeComesFromClock(s: GestureState, calls: seq<Call>)
    requires Anchored(s)
    ensures var t := Drive(s, calls).0.lastGestureTime;
      t == s.lastGestureTime ||
      exists k :: 0 <= k < |calls| && calls[k].DetectCall? && calls[k].now == t
    decreases |calls|
  {
    if calls != [] {
      var prefix := calls[..|calls| - 1];
      LastTimeComesFromClock(s, prefix);
      var mid := Drive(s, prefix).0;
      var t := mid.lastGestureTime;
      if t != s.lastGestureTime {
        var k :| 0 <= k < |prefix| && prefix[k].DetectCall? && prefix[k].now == t;
        assert calls[k] == prefix[k];
      }
    }
  }

  /**
   * With a clock that never goes backwards (starting no earlier than the initial
   * `last_gesture_time`, which `__init__` sets to 0), `last_gesture_time` never decreases:
   * after the first i calls it is at most what it is after the first j >= i calls.
   */
  lemma {:induction false} LastGestureTimeNonDecreasing(s: GestureState, calls: seq<Call>, i: nat, j: nat)
    requires Anchored(s) && ClockFrom(s.lastGestureTime, calls)
    requires i <= j <= |calls|
    ensures Drive(s, calls[..i]).0.lastGestureTime <= Drive(s, calls[..j]).0.lastGestureTime
    decreases j
  {
    if i < j {
      var prefix := calls[..j - 1];
      assert calls[..j][..j - 1] == prefix;
      assert prefix[..i] == calls[..i];
      LastGestureTimeNonDecreasing(s, calls, i, j - 1);
      var (mid, _) := Drive(s, prefix);
      var (last, f) := Step(mid, calls[j - 1]);
      assert Drive(s, calls[..j]).0 == last;
      if f.Some? {
        var t := mid.lastGestureTime;
        LastTimeComesFromClock(s, prefix);
        if t != s.lastGestureTime {
          var k :| 0 <= k < |prefix| && prefix[k].DetectCall? && prefix[k].now == t;
          assert calls[k] == prefix[k];
        }
      }
    }
  }

  /** The controller object; its methods update the fields in place. */
  class GestureController {
    var startX: Option<real>
    var startY: Option<real>
    var active: bool
    var lastGestureTime: real
    var threshold: real
    var cooldown: real

    ghost predicate Valid()
      reads this
    {
      Anchored(Snapshot())
    }

    /** The values of all six fields. */
    function Snapshot(): GestureState
      reads this
    {
      GestureState(startX, startY, active, lastGestureTime, threshold, cooldown)
    }

    constructor (threshold: real, cooldown: real)
      ensures Valid() && Snapshot() == Initial(threshold, cooldown)
    {
      startX := None;
      startY := None;
      active := false;
      lastGestureTime := 0.0;
      this.threshold := threshold;
      this.cooldown := cooldown;
    }

    method StartGesture(x: real, y: real)
      modifies this
      ensures Valid() && Snapshot() == Start(old(Snapshot()), x, y)
      ensures startX == Some(x) && startY == Some(y) && active
      ensures lastGestureTime == old(lastGestureTime)
      ensures threshold == old(threshold) && cooldown == old(cooldown)
    {
      startX := Some(x);
      startY := Some(y);
      active := true;
    }

    method DetectDirection(x: real, y: real, now: real) returns (d: Option<Direction>)
      requires Valid()
      modifies this
      ensures Valid() && (d, Snapshot()) == Detect(old(Snapshot()), x, y, now)
      ensures !old(active) ==> d == None && unchanged(this)
      ensures old(active) && now - old(lastGestureTime) < cooldown ==> d == None && unchanged(this)
      ensures old(active) && BelowThreshold(x - old(startX).value, y - old(startY).value, threshold) ==>
        d == None && unchanged(this)
      ensures d.Some? ==> d.value == Classify(x - startX.value, y - startY.value)
      ensures d.Some? ==> lastGestureTime == now && active
      ensures startX == old(startX) && startY == old(startY) && active == old(active)
      ensures threshold == old(threshold) && cooldown == old(cooldown)
    {
      if !active {
        return None;
      }
      if now - lastGestureTime < cooldown {
        return None;
      }
      var dx := x - startX.value;
      var dy := y - startY.value;
      if BelowThreshold(dx, dy, threshold) {
        return None;
      }
      var direction := Classify(dx, dy);
      lastGestureTime := now;
      return Some(direction);
    }

    method EndGesture()
      requires Valid()
      modifies this
      ensures Valid() && Snapshot() == End(old(Snapshot()))
      ensures !active
      ensures startX == old(startX) && startY == old(startY)
      ensures lastGestureTime == old(lastGestureTime)
      ensures threshold == old(threshold) && cooldown == old(cooldown)
    {
      active := false;
    }
  }
}
