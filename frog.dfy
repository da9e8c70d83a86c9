/**
 * The frog: a sprite with two animations (idle and hop), a facing direction
 * and a two-state hop machine {Idle, Hopping} driven by a timer.
 */
module Frog {
  import opened Geometry
  import opened Animations

  const FROG_SCALE: real := 5.0
  /** Side of one sprite-sheet frame, in texture pixels. */
  const FRAME_SIZE: int := 48
  /** Seconds each frame of a freshly set-up animation is shown. */
  const FRAME_DURATION: real := 0.1
  const FRAME_COUNT: nat := 7
  /**
   * On-screen extent of the frog: one 48-pixel frame scaled by 5. Mirroring
   * for the left facing also moves the origin by one frame width, so the
   * bounds span [x, x + width] in both facings.
   */
  const FROG_WIDTH: real := 240.0
  const FROG_HEIGHT: real := 240.0

  datatype Direction = Left | Right

  /** Which animation is on screen; `Unset` until the animations are set up. */
  datatype Playing = Unset | Idle | Hop

  /** The frames of one row of the sprite sheet: idle is row 0, hop row 1. */
  function SheetRow(row: int): (frames: seq<AnimationFrame>)
    ensures |frames| == FRAME_COUNT && AllPositive(frames)
  {
    seq(FRAME_COUNT, i => AnimationFrame(IntRect(FRAME_SIZE * i, FRAME_SIZE * row, FRAME_SIZE, FRAME_SIZE), FRAME_DURATION))
  }

  /** One more frame of a sheet row: frame `i` sits `i` frames to the right. */
  lemma SheetRowGrows(row: int, i: nat)
    requires i < FRAME_COUNT
    ensures SheetRow(row)[..i + 1] ==
            SheetRow(row)[..i] + [AnimationFrame(IntRect(FRAME_SIZE * i, FRAME_SIZE * row, FRAME_SIZE, FRAME_SIZE), FRAME_DURATION)]
  {
    assert SheetRow(row)[..i + 1] == SheetRow(row)[..i] + [SheetRow(row)[i]];
  }

  class Character {
    const idle: Animation
    const hop: Animation
    /** Sprite position (its top-left corner when facing right). */
    var position: Vec2
    /** Horizontal scale of the sprite: negative when mirrored. */
    var scaleX: real
    var origin: Vec2
    /** Sprite-sheet rectangle on screen. */
    var textureRect: IntRect
    var current: Playing
    var direction: Direction
    var isHopping: bool
    var hopTimer: real
    var hopDuration: real

    /** The two animations are distinct and well formed, and the mirroring matches the facing. */
    ghost predicate Valid()
      reads this, idle, hop
    {
      idle != hop && idle.Valid() && hop.Valid() &&
      AllPositive(idle.frames) && AllPositive(hop.frames) &&
      scaleX == (if direction == Left then -FROG_SCALE else FROG_SCALE) &&
      origin == (if direction == Left then Vec2(FRAME_SIZE as real, 0.0) else Vec2(0.0, 0.0))
    }

    /** Animations are set up and one of them is on screen. */
    ghost predicate Ready()
      reads this, idle, hop
    {
      current != Unset && idle.frames != [] && hop.frames != []
    }

    /** The animation on screen. */
    function OnScreen(): Animation
      reads this
    {
      if current == Hop then hop else idle
    }

    /** Where the sprite is drawn; see FROG_WIDTH for why the facing does not matter. */
    function Bounds(): FloatRect
      reads this
    {
      FloatRect(position.x, position.y, FROG_WIDTH, FROG_HEIGHT)
    }

    constructor (start: Vec2)
      ensures Valid() && fresh(idle) && fresh(hop)
      ensures idle.frames == [] && hop.frames == []
      ensures idle.index == 0 && idle.elapsed == 0.0 && hop.index == 0 && hop.elapsed == 0.0
      ensures position == start && direction == Right && current == Unset
      ensures !isHopping && hopTimer == 0.0 && hopDuration == 0.0
    {
      idle := new Animation();
      hop := new Animation();
      position := start;
      scaleX := FROG_SCALE;
      origin := Vec2(0.0, 0.0);
      current := Unset;
      direction := Right;
      isHopping := false;
      hopTimer := 0.0;
      hopDuration := 0.0;
    }

    /** Appends the seven idle frames and the seven hop frames, and puts idle on screen. */
    method SetupAnimations()
      requires Valid()
      modifies this, idle, hop
      ensures Valid() && Ready() && current == Idle
      ensures idle.frames == old(idle.frames) + SheetRow(0)
      ensures hop.frames == old(hop.frames) + SheetRow(1)
      ensures idle.index == old(idle.index) && idle.elapsed == old(idle.elapsed)
      ensures hop.index == old(hop.index) && hop.elapsed == old(hop.elapsed)
      ensures position == old(position) && direction == old(direction)
      ensures isHopping == old(isHopping) && hopTimer == old(hopTimer) && hopDuration == old(hopDuration)
    {
      for i := 0 to FRAME_COUNT
        invariant Valid()
        invariant idle.frames == old(idle.frames) + SheetRow(0)[..i]
        invariant hop.frames == old(hop.frames) + SheetRow(1)[..i]
        invariant idle.index == old(idle.index) && idle.elapsed == old(idle.elapsed)
        invariant hop.index == old(hop.index) && hop.elapsed == old(hop.elapsed)
        invariant position == old(position) && direction == old(direction) && current == old(current)
        invariant isHopping == old(isHopping) && hopTimer == old(hopTimer) && hopDuration == old(hopDuration)
      {
        idle.AddFrame(IntRect(FRAME_SIZE * i, 0, FRAME_SIZE, FRAME_SIZE), FRAME_DURATION);
        hop.AddFrame(IntRect(FRAME_SIZE * i, FRAME_SIZE, FRAME_SIZE, FRAME_SIZE), FRAME_DURATION);
        SheetRowGrows(0, i);
        SheetRowGrows(1, i);
      }
      assert SheetRow(0)[..FRAME_COUNT] == SheetRow(0);
      assert SheetRow(1)[..FRAME_COUNT] == SheetRow(1);
      current := Idle;
    }

    /**
     * Advances the hop machine and then the animation on screen by `dt`
     * seconds. A hop whose timer reaches its duration ends: idle goes on
     * screen (restarted if it was not already there). The animation on screen
     * then advances from where it stood, or from its start when it was just
     * restarted; `steps` is the number of frames it skipped.
     */
    method Update(dt: real) returns (ghost steps: nat)
      requires Valid() && Ready()
      modifies this, idle, hop
      ensures Valid() && Ready()
      ensures old(isHopping) && old(hopTimer) + dt >= old(hopDuration) ==>
                !isHopping && current == Idle && hopTimer == old(hopTimer) + dt
      ensures old(isHopping) && old(hopTimer) + dt < old(hopDuration) ==>
                isHopping && current == old(current) && hopTimer == old(hopTimer) + dt
      ensures !old(isHopping) ==>
                !isHopping && current == old(current) && hopTimer == old(hopTimer)
      ensures hopDuration == old(hopDuration) && direction == old(direction)
      ensures position == old(position) && scaleX == old(scaleX) && origin == old(origin)
      ensures idle.frames == old(idle.frames) && hop.frames == old(hop.frames)
      ensures current == Idle ==> hop.index == old(hop.index) && hop.elapsed == old(hop.elapsed)
      ensures current == Hop ==> idle.index == old(idle.index) && idle.elapsed == old(idle.elapsed)
      ensures textureRect == OnScreen().CurrentFrame()
      ensures var restarted := old(isHopping) && old(hopTimer) + dt >= old(hopDuration) && old(current) != Idle;
              Advanced(OnScreen().frames,
                       if restarted then 0 else old(OnScreen().index),
                       if restarted then 0.0 else old(OnScreen().elapsed),
                       dt, OnScreen().index, OnScreen().elapsed, steps)
    {
      AdvanceHop(dt);
      if current == Hop {
        steps := hop.Update(dt);
      } else {
        steps := idle.Update(dt);
      }
      textureRect := OnScreen().CurrentFrame();
    }

    /**
     * The hop machine of `Update`: the timer of a running hop advances, and
     * a hop whose timer reaches its duration ends with idle on screen.
     */
    method AdvanceHop(dt: real)
      requires Valid() && Ready()
      modifies this, idle
      ensures Valid() && Ready()
      ensures old(isHopping) && old(hopTimer) + dt >= old(hopDuration) ==>
                !isHopping && current == Idle && hopTimer == old(hopTimer) + dt
      ensures old(isHopping) && old(hopTimer) + dt < old(hopDuration) ==>
                isHopping && current == old(current) && hopTimer == old(hopTimer) + dt
      ensures !old(isHopping) ==>
                !isHopping && current == old(current) && hopTimer == old(hopTimer)
      ensures hopDuration == old(hopDuration) && direction == old(direction)
      ensures position == old(position) && scaleX == old(scaleX) && origin == old(origin)
      ensures idle.frames == old(idle.frames)
      ensures current == old(current) ==> idle.index == old(idle.index) && idle.elapsed == old(idle.elapsed)
      ensures current != old(current) ==> current == Idle && idle.index == 0 && idle.elapsed == 0.0
    {
      if isHopping {
        hopTimer := hopTimer + dt;
        if hopTimer >= hopDuration {
          PlayIdle();
          isHopping := false;
        }
      }
    }

    /** Mirrors the sprite when the facing changes; afterwards it is mirrored exactly when facing left. */
    method Face(dir: Direction)
      requires Valid()
      modifies this
      ensures Valid() && direction == dir
      ensures (scaleX < 0.0 && origin == Vec2(FRAME_SIZE as real, 0.0)) <==> dir == Left
      ensures old(direction) == dir ==> scaleX == old(scaleX) && origin == old(origin)
      ensures position == old(position) && current == old(current) && textureRect == old(textureRect)
      ensures isHopping == old(isHopping) && hopTimer == old(hopTimer) && hopDuration == old(hopDuration)
    {
      if direction != dir {
        direction := dir;
        if dir == Left {
          scaleX := -FROG_SCALE;
          origin := Vec2(FRAME_SIZE as real, 0.0);
        } else {
          scaleX := FROG_SCALE;
          origin := Vec2(0.0, 0.0);
        }
      }
    }

    /** Puts idle on screen, restarting it only when it was not already there. */
    method PlayIdle()
      requires Valid()
      modifies this, idle
      ensures Valid() && current == Idle
      ensures idle.frames == old(idle.frames)
      ensures old(current) != Idle ==> idle.index == 0 && idle.elapsed == 0.0
      ensures old(current) == Idle ==> idle.index == old(idle.index) && idle.elapsed == old(idle.elapsed)
      ensures position == old(position) && direction == old(direction) && textureRect == old(textureRect)
      ensures isHopping == old(isHopping) && hopTimer == old(hopTimer) && hopDuration == old(hopDuration)
    {
      if current != Idle {
        current := Idle;
        idle.Reset();
      }
    }

    /**
     * Starts a hop lasting `duration` seconds: the hop animation is spread
     * over it and put on screen (restarted only when it was not already there).
     * A non-positive duration would make the next animation update loop forever.
     */
    method PlayHop(duration: real)
      requires Valid() && duration > 0.0
      modifies this, hop
      ensures Valid()
      ensures isHopping && hopTimer == 0.0 && hopDuration == duration && current == Hop
      ensures |hop.frames| == |old(hop.frames)|
      ensures forall i :: 0 <= i < |hop.frames| ==>
                hop.frames[i].rect == old(hop.frames[i].rect) &&
                hop.frames[i].duration == duration / (|hop.frames| as real)
      ensures old(current) != Hop ==> hop.index == 0 && hop.elapsed == 0.0
      ensures old(current) == Hop ==> hop.index == old(hop.index) && hop.elapsed == old(hop.elapsed)
      ensures position == old(position) && direction == old(direction) && textureRect == old(textureRect)
      ensures scaleX == old(scaleX) && origin == old(origin)
    {
      hop.SetDuration(duration);
      hopDuration := duration;
      hopTimer := 0.0;
      isHopping := true;
      if current != Hop {
        current := Hop;
        hop.Reset();
      }
    }

    method SetPosition(p: Vec2)
      modifies this
      ensures position == p
      ensures current == old(current) && direction == old(direction) && textureRect == old(textureRect)
      ensures scaleX == old(scaleX) && origin == old(origin)
      ensures isHopping == old(isHopping) && hopTimer == old(hopTimer) && hopDuration == old(hopDuration)
    {
      position := p;
    }
  }
}
