/**
 * The vertical physics of the frog: gravity, landing on the highest platform
 * whose top the feet crossed while falling, the floor clamp, and the
 * "grounded" test that gates jumping. The horizontal axis is not touched here.
 */
module Physics {
  import opened Geometry
  import Frog

  /** Downward acceleration, in units per second squared (y grows downwards). */
  const GRAVITY: real := 1200.0
  /** The floor line the per-frame step clamps the feet to. */
  const GROUND_COLLISION_Y: real := 2000.0
  /** The floor line the jump test measures the feet against. */
  const GROUND_JUMP_Y: real := 1000.0
  /** Tolerance of the jump test. */
  const EPSILON: real := 2.0

  /** A static platform; only its left edge, top edge and width take part in collisions. */
  datatype Platform = Platform(left: real, top: real, width: real)

  function Abs(x: real): real { if x < 0.0 then -x else x }

  /** The frog, whose left edge is `frogLeft`, overlaps the platform horizontally (strictly). */
  predicate Overlaps(frogLeft: real, p: Platform)
  {
    frogLeft + Frog.FROG_WIDTH > p.left && frogLeft < p.left + p.width
  }

  /** Falling with velocity `v`, the feet crossed the top of a platform under the frog this frame. */
  predicate IsCandidate(p: Platform, frogLeft: real, v: real, prevFeet: real, newFeet: real)
  {
    Overlaps(frogLeft, p) && v > 0.0 && prevFeet <= p.top && newFeet >= p.top
  }

  datatype Landing = NoLanding | LandOn(top: real)

  /**
   * The landing of a frame: the smallest (highest on screen) top among the
   * candidates, the first one found on ties; no landing without a candidate.
   */
  function HighestCandidate(ps: seq<Platform>, frogLeft: real, v: real, prevFeet: real, newFeet: real): (r: Landing)
    ensures r.NoLanding? <==> forall i :: 0 <= i < |ps| ==> !IsCandidate(ps[i], frogLeft, v, prevFeet, newFeet)
    ensures r.LandOn? ==> exists i :: 0 <= i < |ps| && IsCandidate(ps[i], frogLeft, v, prevFeet, newFeet) && ps[i].top == r.top
    ensures r.LandOn? ==> forall i :: 0 <= i < |ps| && IsCandidate(ps[i], frogLeft, v, prevFeet, newFeet) ==> r.top <= ps[i].top
  {
    if ps == [] then NoLanding
    else
      var init := ps[..|ps| - 1];
      assert forall i :: 0 <= i < |init| ==> init[i] == ps[i];
      var best := HighestCandidate(init, frogLeft, v, prevFeet, newFeet);
      var p := ps[|ps| - 1];
      if IsCandidate(p, frogLeft, v, prevFeet, newFeet) && (best.NoLanding? || p.top < best.top)
      then LandOn(p.top)
      else best
  }

  /** The candidate scan over the platforms, keeping the best landing found so far. */
  method FindLanding(ps: seq<Platform>, frogLeft: real, v: real, prevFeet: real, newFeet: real) returns (best: Landing)
    ensures best == HighestCandidate(ps, frogLeft, v, prevFeet, newFeet)
  {
    best := NoLanding;
    for i := 0 to |ps|
      invariant best == HighestCandidate(ps[..i], frogLeft, v, prevFeet, newFeet)
    {
      var p := ps[i];
      var horizontalOverlap := frogLeft + Frog.FROG_WIDTH > p.left && frogLeft < p.left + p.width;
      if horizontalOverlap && v > 0.0 && prevFeet <= p.top && newFeet >= p.top {
        if best.NoLanding? || p.top < best.top {
          best := LandOn(p.top);
        }
      }
      assert ps[..i + 1][..i] == ps[..i];
    }
    assert ps[..|ps|] == ps;
  }

  // ------------------------------------------------ the scan as written

  /**
   * The candidate scan as written in the game, with -1 standing for "none
   * found yet" and a landing taken only when the result is non-negative.
   */
  function SentinelScan(ps: seq<Platform>, frogLeft: real, v: real, prevFeet: real, newFeet: real): real
  {
    if ps == [] then -1.0
    else
      var best := SentinelScan(ps[..|ps| - 1], frogLeft, v, prevFeet, newFeet);
      var p := ps[|ps| - 1];
      if IsCandidate(p, frogLeft, v, prevFeet, newFeet) && (best < 0.0 || p.top < best)
      then p.top
      else best
  }

  /** While every candidate top is non-negative, the sentinel scan picks the highest candidate. */
  lemma {:induction false} SentinelScanAgrees(ps: seq<Platform>, frogLeft: real, v: real, prevFeet: real, newFeet: real)
    requires forall i :: 0 <= i < |ps| && IsCandidate(ps[i], frogLeft, v, prevFeet, newFeet) ==> ps[i].top >= 0.0
    ensures SentinelScan(ps, frogLeft, v, prevFeet, newFeet) ==
              match HighestCandidate(ps, frogLeft, v, prevFeet, newFeet)
              case NoLanding => -1.0
              case LandOn(top) => top
  {
    if ps != [] {
      var init := ps[..|ps| - 1];
      assert forall i :: 0 <= i < |init| ==> init[i] == ps[i];
      SentinelScanAgrees(init, frogLeft, v, prevFeet, newFeet);
    }
  }

  /**
   * A candidate above the top of the screen (negative top) is lost: the frog
   * crosses platforms at -10 and at 5 in one frame; the highest is at -10,
   * but the sentinel scan yields 5, so the frog is snapped onto the lower one.
   */
  lemma SentinelScanMissesNegativeTop()
    ensures var ps := [Platform(0.0, -10.0, 500.0), Platform(0.0, 5.0, 500.0)];
            SentinelScan(ps, 0.0, 1.0, -20.0, 10.0) == 5.0 &&
            HighestCandidate(ps, 0.0, 1.0, -20.0, 10.0) == LandOn(-10.0)
  {
    var ps := [Platform(0.0, -10.0, 500.0), Platform(0.0, 5.0, 500.0)];
    assert ps[..1] == [ps[0]];
    assert [ps[0]][..0] == [];
    assert IsCandidate(ps[0], 0.0, 1.0, -20.0, 10.0) && IsCandidate(ps[1], 0.0, 1.0, -20.0, 10.0);
  }

  // ------------------------------------------------------ the jump test

  /** The frog may jump: it is at rest with its feet within EPSILON of a platform top or of the floor line. */
  predicate Grounded(feet: real, v: real, ps: seq<Platform>, groundY: real)
  {
    v == 0.0 &&
    ((exists i :: 0 <= i < |ps| && Abs(feet - ps[i].top) < EPSILON) || Abs(feet - groundY) < EPSILON)
  }

  /** The jump test over the sprite position: platforms first, stopping at the first match, then the floor. */
  method CanJump(ps: seq<Platform>, position: Vec2, v: real, groundY: real) returns (canJump: bool)
    ensures canJump == Grounded(position.y + Frog.FROG_HEIGHT, v, ps, groundY)
  {
    canJump := false;
    var feet := position.y + Frog.FROG_HEIGHT;
    var i := 0;
    while i < |ps|
      invariant 0 <= i <= |ps| && !canJump
      invariant forall k :: 0 <= k < i ==> !(Abs(feet - ps[k].top) < EPSILON && v == 0.0)
    {
      if Abs(feet - ps[i].top) < EPSILON && v == 0.0 {
        canJump := true;
        break;
      }
      i := i + 1;
    }
    if Abs(feet - groundY) < EPSILON && v == 0.0 {
      canJump := true;
    }
  }

  // ------------------------------------------------------ the frame step

  /** Vertical position of the sprite and vertical velocity. */
  datatype Motion = Motion(y: real, v: real)

  /** Gravity, the move, and the snap onto the landing platform if any. */
  function Fall(y: real, v: real, frogLeft: real, dt: real, ps: seq<Platform>, gravity: real): Motion
  {
    var v1 := v + gravity * dt;
    var prevFeet := y + Frog.FROG_HEIGHT;
    var y1 := y + v1 * dt;
    var newFeet := y1 + Frog.FROG_HEIGHT;
    match HighestCandidate(ps, frogLeft, v1, prevFeet, newFeet)
    case NoLanding => Motion(y1, v1)
    case LandOn(top) => Motion(y1 + (top - newFeet), 0.0)
  }

  /** Feet below the floor line are put back on it, at rest. */
  function ClampToFloor(m: Motion, groundY: real): Motion
  {
    var feet := m.y + Frog.FROG_HEIGHT;
    if feet > groundY then Motion(m.y + (groundY - feet), 0.0) else m
  }

  /**
   * One physics frame of `dt` seconds for a frog whose sprite top is `y`:
   * gravity, the move, the landing snap, then the floor clamp.
   */
  function Step(y: real, v: real, frogLeft: real, dt: real, ps: seq<Platform>, gravity: real, groundY: real): Motion
  {
    ClampToFloor(Fall(y, v, frogLeft, dt, ps, gravity), groundY)
  }

  /** The velocity after a step is the velocity after gravity, or zero after a landing or the floor clamp. */
  lemma StepVelocity(y: real, v: real, frogLeft: real, dt: real, ps: seq<Platform>, gravity: real, groundY: real)
    ensures var r := Step(y, v, frogLeft, dt, ps, gravity, groundY);
            r.v == 0.0 || r.v == v + gravity * dt
  {
  }

  /** After a step the feet are never below the floor: feet past it are put exactly on it, at rest, and otherwise the floor plays no part. */
  lemma StepAboveFloor(y: real, v: real, frogLeft: real, dt: real, ps: seq<Platform>, gravity: real, groundY: real)
    ensures Step(y, v, frogLeft, dt, ps, gravity, groundY).y + Frog.FROG_HEIGHT <= groundY
    ensures var f := Fall(y, v, frogLeft, dt, ps, gravity);
            f.y + Frog.FROG_HEIGHT > groundY ==>
              Step(y, v, frogLeft, dt, ps, gravity, groundY) == Motion(groundY - Frog.FROG_HEIGHT, 0.0)
    ensures var f := Fall(y, v, frogLeft, dt, ps, gravity);
            f.y + Frog.FROG_HEIGHT <= groundY ==> Step(y, v, frogLeft, dt, ps, gravity, groundY) == f
  {
  }

  /** When a landing happens above the floor, the feet end exactly on the highest candidate top, at rest. */
  lemma StepLands(y: real, v: real, frogLeft: real, dt: real, ps: seq<Platform>, gravity: real, groundY: real, top: real)
    requires var v1 := v + gravity * dt;
             HighestCandidate(ps, frogLeft, v1, y + Frog.FROG_HEIGHT, y + v1 * dt + Frog.FROG_HEIGHT) == LandOn(top)
    requires top <= groundY
    ensures Step(y, v, frogLeft, dt, ps, gravity, groundY) == Motion(top - Frog.FROG_HEIGHT, 0.0)
  {
  }

  /** With no candidate and the floor not reached, the frog simply moves by its new velocity. */
  lemma StepFalls(y: real, v: real, frogLeft: real, dt: real, ps: seq<Platform>, gravity: real, groundY: real)
    requires var v1 := v + gravity * dt;
             (forall i :: 0 <= i < |ps| ==>
                !IsCandidate(ps[i], frogLeft, v1, y + Frog.FROG_HEIGHT, y + v1 * dt + Frog.FROG_HEIGHT)) &&
             y + v1 * dt + Frog.FROG_HEIGHT <= groundY
    ensures Step(y, v, frogLeft, dt, ps, gravity, groundY) == Motion(y + (v + gravity * dt) * dt, v + gravity * dt)
  {
  }

  /** A frog at rest on a platform under it stays put for any non-negative frame time. */
  lemma StepKeepsResting(y: real, frogLeft: real, dt: real, ps: seq<Platform>, gravity: real, groundY: real, k: nat)
    requires k < |ps| && Overlaps(frogLeft, ps[k]) && y + Frog.FROG_HEIGHT == ps[k].top
    requires ps[k].top <= groundY && dt >= 0.0 && gravity >= 0.0
    ensures Step(y, 0.0, frogLeft, dt, ps, gravity, groundY) == Motion(y, 0.0)
  {
    var v1 := gravity * dt;
    var prevFeet := y + Frog.FROG_HEIGHT;
    var newFeet := y + v1 * dt + Frog.FROG_HEIGHT;
    assert v1 >= 0.0 && v1 * dt >= 0.0;
    var best := HighestCandidate(ps, frogLeft, v1, prevFeet, newFeet);
    if v1 > 0.0 {
      assert IsCandidate(ps[k], frogLeft, v1, prevFeet, newFeet);
      assert best.top <= ps[k].top;
    } else {
      assert best.NoLanding?;
    }
  }

  /** A landing leaves the frog able to jump next frame, whatever floor line the jump test uses. */
  lemma LandingAllowsJump(y: real, v: real, frogLeft: real, dt: real, ps: seq<Platform>, gravity: real, groundY: real, top: real, jumpY: real)
    requires var v1 := v + gravity * dt;
             HighestCandidate(ps, frogLeft, v1, y + Frog.FROG_HEIGHT, y + v1 * dt + Frog.FROG_HEIGHT) == LandOn(top)
    requires top <= groundY
    ensures var r := Step(y, v, frogLeft, dt, ps, gravity, groundY);
            Grounded(r.y + Frog.FROG_HEIGHT, r.v, ps, jumpY)
  {
    StepLands(y, v, frogLeft, dt, ps, gravity, groundY, top);
    TopIsGrounded(ps, top, jumpY);
  }

  /** Feet exactly on the top of some platform, at rest, pass the jump test. */
  lemma TopIsGrounded(ps: seq<Platform>, top: real, jumpY: real)
    requires exists i :: 0 <= i < |ps| && ps[i].top == top
    ensures Grounded(top - Frog.FROG_HEIGHT + Frog.FROG_HEIGHT, 0.0, ps, jumpY)
  {
    var i :| 0 <= i < |ps| && ps[i].top == top;
    assert Abs(top - Frog.FROG_HEIGHT + Frog.FROG_HEIGHT - ps[i].top) < EPSILON;
  }

  /**
   * The two floor lines disagree: with no platform, a frog falling onto the
   * collision floor comes to rest there but fails the jump test, which looks
   * for the floor at GROUND_JUMP_Y.
   */
  lemma FloorRestBlocksJump()
    ensures var r := Step(1800.0, 0.0, 0.0, 1.0, [], GRAVITY, GROUND_COLLISION_Y);
            r == Motion(GROUND_COLLISION_Y - Frog.FROG_HEIGHT, 0.0) &&
            !Grounded(r.y + Frog.FROG_HEIGHT, r.v, [], GROUND_JUMP_Y)
  {
  }

  /** Falling from rest with feet at 1000 for 0.1 s: velocity 120, feet 12 lower, no landing. */
  lemma FreeFallScenario()
    ensures Step(1000.0 - Frog.FROG_HEIGHT, 0.0, 0.0, 0.1, [], GRAVITY, GROUND_COLLISION_Y)
            == Motion(1012.0 - Frog.FROG_HEIGHT, 120.0)
  {
  }

  /** Feet at 495 falling at 50 for 0.2 s cross a platform top at 500 and are snapped onto it. */
  lemma LandingScenario()
    ensures Step(495.0 - Frog.FROG_HEIGHT, 50.0, 100.0, 0.2, [Platform(0.0, 500.0, 1000.0)], GRAVITY, GROUND_COLLISION_Y)
            == Motion(500.0 - Frog.FROG_HEIGHT, 0.0)
  {
    var ps := [Platform(0.0, 500.0, 1000.0)];
    assert IsCandidate(ps[0], 100.0, 290.0, 495.0, 553.0);
    assert ps[..0] == [];
  }
}
