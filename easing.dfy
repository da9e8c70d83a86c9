/**
 * The easing library: functions mapping a normalised progress value `t`
 * to a shaped progress value, and the dispatch on the transition kind.
 */
module Easing {

  /** The transition kinds a tween can select. */
  datatype TransitionFunction =
    | None
    | Linear
    | EaseInOutCubic
    | EaseOutCubic
    | EaseInOutExponential
    | EaseInOutElastic
    | EaseOutBack
    | EaseInBack
    | EaseOutElastic

  /**
   * The transcendental library calls some easings make, which this model
   * does not define: `pow2(e)` is two raised to `e`, `sin` the sine.
   */
  datatype Maths = Maths(pow2: real -> real, sin: real -> real)

  /** Overshoot constants of the "back" easings. */
  const C1: real := 1.70158
  const C3: real := C1 + 1.0
  /** Angular frequency of the elastic easing: two pi over three. */
  const C4: real := 2.0 * 3.14159265359 / 3.0

  /** `x` raised to the natural power `n`: the reference for SimplePow. */
  function Pow(x: real, n: nat): real
  {
    if n == 0 then 1.0 else x * Pow(x, n - 1)
  }

  /** Repeated multiplication, counting the exponent down to zero. */
  method SimplePow(x: real, p: nat) returns (res: real)
    ensures res == Pow(x, p)
  {
    res := 1.0;
    var i: nat := p;
    while i > 0
      invariant i <= p
      invariant res == Pow(x, p - i)
    {
      i := i - 1;
      res := res * x;
      assert Pow(x, p - i) == x * Pow(x, p - i - 1);
    }
  }

  function EaseLinear(t: real): real { t }

  function EaseInOutExponentialAt(t: real, m: Maths): real
  {
    if t < 0.5 then m.pow2(20.0 * t - 10.0) * 0.5
    else (2.0 - m.pow2(-20.0 * t + 10.0)) * 0.5
  }

  function EaseOutBackAt(t: real): real
  {
    1.0 + C3 * Pow(t - 1.0, 3) + C1 * Pow(t - 1.0, 2)
  }

  function EaseInOutQuintAt(t: real): real
  {
    if t < 0.5 then 16.0 * Pow(t, 5)
    else 1.0 - Pow(-2.0 * t + 2.0, 5) * 0.5
  }

  function EaseInBackAt(t: real): real
  {
    C3 * t * t * t - C1 * t * t
  }

  function EaseOutElasticAt(t: real, m: Maths): real
  {
    if t == 0.0 then 0.0
    else if t == 1.0 then 1.0
    else m.pow2(-10.0 * t) * m.sin((t * 10.0 - 0.75) * C4) + 1.0
  }

  /**
   * The ratio a tween applies at progress `t`. Only five kinds have their
   * own case; every other kind falls back to the identity.
   */
  function GetRatio(t: real, kind: TransitionFunction, m: Maths): real
  {
    match kind
    case None => 1.0
    case Linear => t
    case EaseInOutExponential => EaseInOutExponentialAt(t, m)
    case EaseOutBack => EaseOutBackAt(t)
    case EaseOutElastic => EaseOutElasticAt(t, m)
    case _ => t
  }

  /** Kinds whose ratio is 0 at the start and 1 at the end of a transition. */
  predicate PinnedAtEnds(kind: TransitionFunction)
  {
    kind != None && kind != EaseInOutExponential
  }

  // ---------------------------------------------------------------- lemmas

  /** Powers are monotone on the non-negative reals. */
  lemma {:induction false} PowMonotone(a: real, b: real, n: nat)
    requires 0.0 <= a <= b
    ensures 0.0 <= Pow(a, n) <= Pow(b, n)
  {
    if n > 0 {
      PowMonotone(a, b, n - 1);
      var pa, pb := Pow(a, n - 1), Pow(b, n - 1);
      assert a * pa <= b * pa;
      assert b * pa <= b * pb;
    }
  }

  /** Positive powers are strictly monotone on the non-negative reals. */
  lemma {:induction false} PowStrictlyMonotone(a: real, b: real, n: nat)
    requires 0.0 <= a < b && n > 0
    ensures Pow(a, n) < Pow(b, n)
  {
    if n > 1 {
      PowStrictlyMonotone(a, b, n - 1);
      PowMonotone(a, b, n - 1);
      var pa, pb := Pow(a, n - 1), Pow(b, n - 1);
      assert a * pa <= b * pa;
      assert b * pa < b * pb;
    }
  }

  lemma {:induction false} PowOne(n: nat)
    ensures Pow(1.0, n) == 1.0
  {
    if n > 0 { PowOne(n - 1); }
  }

  /** The small powers the easings use, multiplied out. */
  lemma PowSmall(x: real)
    ensures Pow(x, 2) == x * x
    ensures Pow(x, 3) == x * x * x
    ensures Pow(x, 5) == x * x * x * x * x
  {
    assert Pow(x, 1) == x;
    assert Pow(x, 4) == x * Pow(x, 3);
  }

  /** The identity kinds, and the constant 1 of `None`, for every progress value. */
  lemma RatioDispatch(t: real, m: Maths)
    ensures GetRatio(t, None, m) == 1.0
    ensures GetRatio(t, Linear, m) == EaseLinear(t) == t
    ensures GetRatio(t, EaseInOutCubic, m) == t
    ensures GetRatio(t, EaseOutCubic, m) == t
    ensures GetRatio(t, EaseInOutElastic, m) == t
    ensures GetRatio(t, EaseInBack, m) == t
  {
  }

  /** Every kind except `None` and the exponential one starts at 0 and ends at 1. */
  lemma RatioEndpoints(kind: TransitionFunction, m: Maths)
    ensures PinnedAtEnds(kind) ==> GetRatio(0.0, kind, m) == 0.0
    ensures kind != EaseInOutExponential ==> GetRatio(1.0, kind, m) == 1.0
  {
    assert Pow(-1.0, 2) == 1.0;
    assert Pow(-1.0, 3) == -1.0;
    assert Pow(0.0, 2) == 0.0 && Pow(0.0, 3) == 0.0;
  }

  lemma EaseOutBackEndpoints()
    ensures EaseOutBackAt(0.0) == 0.0 && EaseOutBackAt(1.0) == 1.0
  {
    assert Pow(-1.0, 2) == 1.0;
    assert Pow(-1.0, 3) == -1.0;
    assert Pow(0.0, 2) == 0.0 && Pow(0.0, 3) == 0.0;
  }

  lemma EaseInBackEndpoints()
    ensures EaseInBackAt(0.0) == 0.0 && EaseInBackAt(1.0) == 1.0
  {
  }

  /** The back-out curve is the back-in curve turned half a revolution about (1/2, 1/2). */
  lemma EaseOutBackMirrorsInBack(t: real)
    ensures EaseOutBackAt(t) == 1.0 - EaseInBackAt(1.0 - t)
  {
    var u := 1.0 - t;
    PowSmall(t - 1.0);
    assert t - 1.0 == -u;
    assert (-u) * (-u) == u * u;
    assert (-u) * (-u) * (-u) == -(u * u * u);
  }

  /** The back-out curve overshoots 1 before settling. */
  lemma EaseOutBackOvershoots()
    ensures EaseOutBackAt(0.5) > 1.0
  {
    assert Pow(-0.5, 2) == 0.25;
    assert Pow(-0.5, 3) == -0.125;
  }

  lemma EaseInOutQuintPoints()
    ensures EaseInOutQuintAt(0.0) == 0.0
    ensures EaseInOutQuintAt(0.5) == 0.5
    ensures EaseInOutQuintAt(1.0) == 1.0
  {
    assert Pow(0.0, 5) == 0.0;
    PowOne(5);
  }

  lemma PowTwiceFive(t: real)
    ensures Pow(2.0 * t, 5) == 32.0 * Pow(t, 5)
  {
    PowSmall(2.0 * t);
    PowSmall(t);
  }

  /** The quintic in-out curve is point-symmetric about (1/2, 1/2). */
  lemma EaseInOutQuintSymmetric(t: real)
    ensures EaseInOutQuintAt(1.0 - t) == 1.0 - EaseInOutQuintAt(t)
  {
    if t < 0.5 {
      assert -2.0 * (1.0 - t) + 2.0 == 2.0 * t;
      PowTwiceFive(t);
    } else if t > 0.5 {
      assert -2.0 * t + 2.0 == 2.0 * (1.0 - t);
      PowTwiceFive(1.0 - t);
    } else {
      PowOne(5);
    }
  }

  /** On [0, 1] the quintic curve stays in [0, 1], below 1/2 in the first half and at or above it after. */
  lemma EaseInOutQuintBounds(t: real)
    requires 0.0 <= t <= 1.0
    ensures 0.0 <= EaseInOutQuintAt(t) <= 1.0
    ensures t < 0.5 <==> EaseInOutQuintAt(t) < 0.5
  {
    if t < 0.5 {
      PowMonotone(t, 0.5, 5);
      PowStrictlyMonotone(t, 0.5, 5);
      PowSmall(0.5);
    } else {
      var u := -2.0 * t + 2.0;
      PowMonotone(u, 1.0, 5);
      PowOne(5);
    }
  }

  lemma EaseOutElasticEndpoints(m: Maths)
    ensures EaseOutElasticAt(0.0, m) == 0.0 && EaseOutElasticAt(1.0, m) == 1.0
  {
  }
}
