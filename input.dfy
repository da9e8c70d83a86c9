/**
 * Input mapping: one polled event, together with the keys held down at that
 * moment, becomes a new horizontal target, a jump impulse, a hop and a facing.
 */
module Input {
  import opened Geometry
  import Easing
  import Tween
  import Frog

  /** Seconds a hop lasts, and the duration of the horizontal tween it starts. */
  const JUMP_LENGTH: real := 1.3
  /** Upward launch velocity (y grows downwards). */
  const JUMP_VELOCITY: real := -600.0
  /** Horizontal distance of one hop. */
  const HOP_DISTANCE: real := 100.0

  datatype Key = Left | Right | Up | Escape

  datatype Event = KeyPressed | Closed | Other

  /** The event asks the window to close. */
  predicate Closes(event: Event, keys: set<Key>)
  {
    event == Closed || (event == KeyPressed && Escape in keys)
  }

  /** The event starts a hop: a sideways hop, or a jump while grounded. */
  predicate Hops(event: Event, keys: set<Key>, canJump: bool)
  {
    event == KeyPressed && (Left in keys || Right in keys || (Up in keys && canJump))
  }

  class EventHandler {
    const character: Frog.Character

    constructor (character: Frog.Character)
      ensures this.character == character
    {
      this.character := character;
    }

    /**
     * One sideways hop: `pos` heads for `target` over JUMP_LENGTH seconds on
     * the elastic curve, and the frog turns to `dir` and starts a hop.
     */
    method HopSideways(pos: Tween.Interpolated, target: Vec2, dir: Frog.Direction, now: real, m: Easing.Maths)
      requires character.Valid()
      modifies pos, character, character.hop
      ensures character.Valid() && (old(character.Ready()) ==> character.Ready())
      ensures pos.end == target && pos.start == old(pos.GetValue(now, m)) && pos.startTime == now
      ensures pos.speed == 1.0 / JUMP_LENGTH && pos.transition == Easing.EaseInOutElastic
      ensures character.direction == dir
      ensures character.isHopping && character.hopTimer == 0.0 &&
              character.hopDuration == JUMP_LENGTH && character.current == Frog.Hop
      ensures character.position == old(character.position)
      ensures character.idle.frames == old(character.idle.frames)
      ensures |character.hop.frames| == |old(character.hop.frames)|
      ensures forall i :: 0 <= i < |character.hop.frames| ==>
                character.hop.frames[i].rect == old(character.hop.frames[i].rect) &&
                character.hop.frames[i].duration == JUMP_LENGTH / (|character.hop.frames| as real)
      ensures old(character.current) == Frog.Hop ==>
                character.hop.index == old(character.hop.index) && character.hop.elapsed == old(character.hop.elapsed)
      ensures old(character.current) != Frog.Hop ==> character.hop.index == 0 && character.hop.elapsed == 0.0
      ensures character.textureRect == old(character.textureRect)
    {
      pos.Set(target, now, m);
      pos.SetDuration(JUMP_LENGTH);
      pos.transition := Easing.EaseInOutElastic;
      character.Face(dir);
      character.PlayHop(JUMP_LENGTH);
    }

    /**
     * Handles one event. Left (else Right) retargets `pos` one hop sideways
     * of the frog, for JUMP_LENGTH seconds on the elastic curve, turns the
     * frog and starts a hop; Up while `canJump` launches the frog and starts
     * a hop. Returns the new vertical velocity and whether to close the window.
     */
    method HandleEvents(event: Event, keys: set<Key>, pos: Tween.Interpolated, canJump: bool, velocity: real,
                        now: real, m: Easing.Maths)
      returns (newVelocity: real, close: bool)
      requires character.Valid()
      modifies pos, character, character.hop
      ensures character.Valid() && (old(character.Ready()) ==> character.Ready())
      ensures close == Closes(event, keys)
      ensures newVelocity == if event == KeyPressed && Up in keys && canJump then JUMP_VELOCITY else velocity
      ensures event == KeyPressed && Left in keys ==>
                pos.end == Vec2(old(character.position.x) - HOP_DISTANCE, old(character.position.y)) &&
                character.direction == Frog.Left
      ensures event == KeyPressed && Left !in keys && Right in keys ==>
                pos.end == Vec2(old(character.position.x) + HOP_DISTANCE, old(character.position.y)) &&
                character.direction == Frog.Right
      ensures event == KeyPressed && (Left in keys || Right in keys) ==>
                pos.start == old(pos.GetValue(now, m)) && pos.startTime == now &&
                pos.speed == 1.0 / JUMP_LENGTH && pos.transition == Easing.EaseInOutElastic
      ensures !(event == KeyPressed && (Left in keys || Right in keys)) ==>
                unchanged(pos) && character.direction == old(character.direction)
      ensures Hops(event, keys, canJump) ==>
                character.isHopping && character.hopTimer == 0.0 &&
                character.hopDuration == JUMP_LENGTH && character.current == Frog.Hop
      ensures Hops(event, keys, canJump) ==>
                |character.hop.frames| == |old(character.hop.frames)| &&
                (forall i :: 0 <= i < |character.hop.frames| ==>
                   character.hop.frames[i].rect == old(character.hop.frames[i].rect) &&
                   character.hop.frames[i].duration == JUMP_LENGTH / (|character.hop.frames| as real)) &&
                (old(character.current) == Frog.Hop ==>
                   character.hop.index == old(character.hop.index) && character.hop.elapsed == old(character.hop.elapsed)) &&
                (old(character.current) != Frog.Hop ==> character.hop.index == 0 && character.hop.elapsed == 0.0) &&
                character.textureRect == old(character.textureRect)
      ensures !Hops(event, keys, canJump) ==>
                unchanged(character) && unchanged(character.hop)
      ensures character.position == old(character.position)
      ensures character.idle.frames == old(character.idle.frames)
    {
      var newPos := character.position;
      newVelocity, close := velocity, false;
      match event
      case KeyPressed =>
        if Left in keys {
          HopSideways(pos, Vec2(newPos.x - HOP_DISTANCE, newPos.y), Frog.Left, now, m);
        } else if Right in keys {
          HopSideways(pos, Vec2(newPos.x + HOP_DISTANCE, newPos.y), Frog.Right, now, m);
        }
        if Up in keys && canJump {
          newVelocity := JUMP_VELOCITY;
          character.PlayHop(JUMP_LENGTH);
        }
        if Escape in keys {
          close := true;
        }
      case Closed =>
        close := true;
      case Other =>
    }
  }
}
