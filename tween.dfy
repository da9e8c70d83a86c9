/**
 * A retargetable tween over 2D vectors: reading it yields a value that moves
 * from `start` to `end` along the selected easing curve, and setting a new
 * target re-bases the transition on the value read at that moment.
 * Time is the caller's: every read and write takes the clock value `now`.
 */
module Tween {
  import opened Geometry
  import opened Easing

  class Interpolated {
    /** The value at the start of the transition. */
    var start: Vec2
    /** The target value. */
    var end: Vec2
    /** The clock value at which the transition started. */
    var startTime: real
    /** Transitions per second: the reciprocal of the duration. */
    var speed: real
    var transition: TransitionFunction

    /** A tween resting at `initial`; its start time is the clock's origin. */
    constructor (initial: Vec2)
      ensures start == initial && end == initial
      ensures startTime == 0.0 && speed == 1.0 && transition == Linear
    {
      start := initial;
      end := initial;
      startTime := 0.0;
      speed := 1.0;
      transition := Linear;
    }

    /** The normalised progress of the transition at clock value `now`. */
    function Progress(now: real): real
      reads this
    {
      (now - startTime) * speed
    }

    /** The value at clock value `now`: the target once progress reaches 1, the eased blend before. */
    function GetValue(now: real, m: Maths): Vec2
      reads this
    {
      var t := Progress(now);
      if t >= 1.0 then end
      else Add(start, Scale(Sub(end, start), GetRatio(t, transition, m)))
    }

    /**
     * Retargets the tween at clock value `now`. For every kind pinned at its
     * ends the value read at `now` does not jump.
     */
    method SetValue(v: Vec2, now: real, m: Maths)
      modifies this
      ensures start == old(GetValue(now, m)) && end == v && startTime == now
      ensures speed == old(speed) && transition == old(transition)
      ensures PinnedAtEnds(transition) ==> GetValue(now, m) == old(GetValue(now, m))
    {
      start := GetValue(now, m);
      end := v;
      startTime := now;
      if PinnedAtEnds(transition) {
        StartsAtStart(this, m);
      }
    }

    /** Sets the duration of the transition; a zero duration has no reciprocal. */
    method SetDuration(d: real)
      requires d != 0.0
      modifies this
      ensures speed == 1.0 / d
      ensures start == old(start) && end == old(end) && startTime == old(startTime)
      ensures transition == old(transition)
    {
      speed := 1.0 / d;
    }

    /** Reading the tween as a plain value. */
    method Get(now: real, m: Maths) returns (v: Vec2)
      ensures v == GetValue(now, m)
    {
      v := GetValue(now, m);
    }

    /** Assigning a plain value to the tween retargets it. */
    method Set(v: Vec2, now: real, m: Maths)
      modifies this
      ensures start == old(GetValue(now, m)) && end == v && startTime == now
      ensures speed == old(speed) && transition == old(transition)
    {
      SetValue(v, now, m);
    }
  }

  /** Once the duration has elapsed the tween yields its target exactly, whatever the curve. */
  lemma SettlesAtEnd(ip: Interpolated, d: real, now: real, m: Maths)
    requires d > 0.0 && ip.speed == 1.0 / d
    requires now - ip.startTime >= d
    ensures ip.GetValue(now, m) == ip.end
  {
    var e := now - ip.startTime;
    assert e * (1.0 / d) == e / d;
    assert e / d >= d / d;
  }

  /** At the start time the tween yields its start value, for every kind pinned at its ends. */
  lemma StartsAtStart(ip: Interpolated, m: Maths)
    requires PinnedAtEnds(ip.transition)
    ensures ip.GetValue(ip.startTime, m) == ip.start
  {
    RatioEndpoints(ip.transition, m);
  }

  /** A tween whose start and target agree yields that value at every time, for every kind. */
  lemma ConstantWhenAtRest(ip: Interpolated, now: real, m: Maths)
    requires ip.start == ip.end
    ensures ip.GetValue(now, m) == ip.end
  {
  }

  /** A linear tween read during its transition stays between start and target, component by component. */
  lemma LinearStaysBetween(ip: Interpolated, now: real, m: Maths)
    requires ip.transition == Linear && ip.speed > 0.0 && now >= ip.startTime
    ensures Between(ip.GetValue(now, m).x, ip.start.x, ip.end.x)
    ensures Between(ip.GetValue(now, m).y, ip.start.y, ip.end.y)
  {
    var t := ip.Progress(now);
    assert 0.0 <= t;
    if t < 1.0 {
      BlendBetween(ip.start.x, ip.end.x, t);
      BlendBetween(ip.start.y, ip.end.y, t);
    }
  }

  predicate Between(v: real, a: real, b: real)
  {
    (a <= v <= b) || (b <= v <= a)
  }

  lemma BlendBetween(a: real, b: real, t: real)
    requires 0.0 <= t <= 1.0
    ensures Between(a + (b - a) * t, a, b)
  {
    var d := b - a;
    assert d * t + d * (1.0 - t) == d;
    if a <= b {
      ProductNonNegative(d, t);
      ProductNonNegative(d, 1.0 - t);
    } else {
      ProductNonNegative(-d, t);
      ProductNonNegative(-d, 1.0 - t);
      assert (-d) * t == -(d * t) && (-d) * (1.0 - t) == -(d * (1.0 - t));
    }
  }

  lemma ProductNonNegative(x: real, y: real)
    requires 0.0 <= x && 0.0 <= y
    ensures 0.0 <= x * y
  {
  }
}
