/**
 * The game: the frog, its horizontal tween, the input handler and the
 * platforms, advanced one frame at a time. The horizontal position comes
 * from the tween only and the vertical position from the physics only.
 */
module World {
  import opened Geometry
  import Easing
  import Tween
  import Frog
  import Physics
  import Input

  const START_POS: Vec2 := Vec2(200.0, 800.0)

  class Game {
    const character: Frog.Character
    const spritePos: Tween.Interpolated
    const handler: Input.EventHandler
    const platforms: seq<Physics.Platform>
    var verticalVelocity: real
    var windowOpen: bool

    ghost predicate Valid()
      reads character, character.idle, character.hop
    {
      handler.character == character && character.Valid() && character.Ready()
    }

    /** The frog and its tween at the start position, animations set up, one floor-wide platform. */
    constructor ()
      ensures Valid() && windowOpen && verticalVelocity == 0.0
      ensures character.position == START_POS && spritePos.start == START_POS && spritePos.end == START_POS
      ensures platforms == [Physics.Platform(0.0, 1060.0, 1920.0)]
      ensures character.direction == Frog.Right && !character.isHopping
      ensures character.hopTimer == 0.0 && character.hopDuration == 0.0
      ensures character.current == Frog.Idle
      ensures character.idle.frames == Frog.SheetRow(0) && character.hop.frames == Frog.SheetRow(1)
      ensures character.idle.index == 0 && character.idle.elapsed == 0.0
      ensures character.hop.index == 0 && character.hop.elapsed == 0.0
      ensures spritePos.startTime == 0.0 && spritePos.speed == 1.0 && spritePos.transition == Easing.Linear
    {
      var frog := new Frog.Character(START_POS);
      character := frog;
      spritePos := new Tween.Interpolated(START_POS);
      handler := new Input.EventHandler(frog);
      platforms := [Physics.Platform(0.0, 1060.0, 1920.0)];
      verticalVelocity := 0.0;
      windowOpen := true;
      new;
      character.SetupAnimations();
    }

    /** The physics frame: the vertical motion follows Physics.Step; x is never touched. */
    method Update(dt: real)
      requires Valid()
      modifies this, character, character.idle, character.hop
      ensures Valid() && windowOpen == old(windowOpen)
      ensures var r := Physics.Step(old(character.position.y), old(verticalVelocity), old(character.position.x),
                                    dt, platforms, Physics.GRAVITY, Physics.GROUND_COLLISION_Y);
              character.position == Vec2(old(character.position.x), r.y) && verticalVelocity == r.v
      ensures character.direction == old(character.direction)
    {
      Move(dt);
      ghost var steps := character.Update(dt);
    }

    /** Gravity, the move, the landing snap and the floor clamp of `Update`, before the frog's own update. */
    method Move(dt: real)
      requires Valid()
      modifies this, character
      ensures Valid() && windowOpen == old(windowOpen)
      ensures var r := Physics.Step(old(character.position.y), old(verticalVelocity), old(character.position.x),
                                    dt, platforms, Physics.GRAVITY, Physics.GROUND_COLLISION_Y);
              character.position == Vec2(old(character.position.x), r.y) && verticalVelocity == r.v
      ensures character.direction == old(character.direction)
    {
      ghost var x0, y0, v0 := character.position.x, character.position.y, verticalVelocity;
      verticalVelocity := verticalVelocity + Physics.GRAVITY * dt;
      var frogBounds := character.Bounds();
      var prevFeet := frogBounds.top + frogBounds.height;

      var position := character.position;
      position := position.(y := position.y + verticalVelocity * dt);
      character.SetPosition(position);
      frogBounds := character.Bounds();
      var newFeet := frogBounds.top + frogBounds.height;

      var best := Physics.FindLanding(platforms, frogBounds.left, verticalVelocity, prevFeet, newFeet);
      ghost var landed := match best
        case NoLanding => Physics.Motion(position.y, verticalVelocity)
        case LandOn(top) => Physics.Motion(position.y + (top - newFeet), 0.0);
      if best.LandOn? {
        position := position.(y := position.y + (best.top - newFeet));
        verticalVelocity := 0.0;
        character.SetPosition(position);
        frogBounds := character.Bounds();
        newFeet := frogBounds.top + frogBounds.height;
      }
      assert position.y == landed.y && verticalVelocity == landed.v && position.x == x0;
      assert landed == Physics.Fall(y0, v0, x0, dt, platforms, Physics.GRAVITY);

      var groundY := Physics.GROUND_COLLISION_Y;
      if newFeet > groundY {
        position := position.(y := position.y + (groundY - newFeet));
        verticalVelocity := 0.0;
        character.SetPosition(position);
      }
      assert character.position == position;
      assert Physics.ClampToFloor(landed, groundY) == Physics.Motion(position.y, verticalVelocity);
    }

    /** Takes the frog's x from the tween at `now` and keeps its y. */
    method SyncHorizontal(now: real, m: Easing.Maths)
      requires Valid()
      modifies character
      ensures Valid()
      ensures character.position == Vec2(spritePos.GetValue(now, m).x, old(character.position.y))
      ensures character.direction == old(character.direction) && character.isHopping == old(character.isHopping)
      ensures character.current == old(character.current) && character.textureRect == old(character.textureRect)
      ensures character.hopTimer == old(character.hopTimer) && character.hopDuration == old(character.hopDuration)
    {
      var currentPos := character.position;
      var newPos := Vec2(spritePos.GetValue(now, m).x, currentPos.y);
      character.SetPosition(newPos);
    }

    /**
     * One frame of the run loop: the pending events are handled in order
     * (none after one that closes the window), each with the jump test taken
     * just before it; then x is taken from the tween and the physics step runs.
     */
    method Frame(events: seq<(Input.Event, set<Input.Key>)>, now: real, dt: real, m: Easing.Maths)
      requires Valid() && windowOpen
      modifies this, character, character.idle, character.hop, spritePos
      ensures Valid()
      ensures windowOpen == forall i :: 0 <= i < |events| ==> !Input.Closes(events[i].0, events[i].1)
      ensures character.position.x == spritePos.GetValue(now, m).x
    {
      var i := 0;
      while i < |events| && windowOpen
        invariant 0 <= i <= |events| && Valid()
        invariant windowOpen == forall k :: 0 <= k < i ==> !Input.Closes(events[k].0, events[k].1)
      {
        var (event, keys) := events[i];
        var canJump := Physics.CanJump(platforms, character.position, verticalVelocity, Physics.GROUND_JUMP_Y);
        var close;
        verticalVelocity, close := handler.HandleEvents(event, keys, spritePos, canJump, verticalVelocity, now, m);
        if close {
          windowOpen := false;
        }
        i := i + 1;
      }
      SyncHorizontal(now, m);
      Update(dt);
    }
  }
}
