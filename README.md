# Frog platformer core, modelled in Dafny

A small SFML platformer: a frog sprite hops sideways between platforms and
jumps under gravity. Its horizontal position is driven by a retargetable
tween (`Interpolated<T>`) shaped by an easing library. Its vertical position
is driven by a per-frame physics step with platform landing and a floor clamp.
This project models the logic under the rendering glue:

- `easing.dfy` (module `Easing`): the `TransitionFunction` kinds and `simplePow`.
  It also holds the polynomial easings and `getRatio`'s dispatch. `std::pow(2, ·)` and
  `std::sin` are a `Maths` record of functions passed in as a parameter.
- `tween.dfy` (module `Tween`): `Interpolated<sf::Vector2f>` as the class
  `Interpolated` over `Vec2`. The clock value `now` is a parameter of every read and write.
- `animation.dfy` (module `Animations`): the sprite `Animation`, a frame
  list with an index and an elapsed counter.
- `frog.dfy` (module `Frog`): the `Character` with its {Idle, Hopping} hop
  machine, its facing and its two animations.
- `input.dfy` (module `Input`): `EventHandler::handleEvents` for one event.
  The keys held down at that moment are a set.
- `physics.dfy` (module `Physics`): the pure parts of `Game::update` and of
  the jump test in `Game::run`. These are the landing scan, the step as a function, and the grounded test.
- `world.dfy` (module `World`): the `Game` class. Its `Update` is proved against
  `Physics.Step`, and `Frame` is one iteration of the run loop.
- `geometry.dfy` (module `Geometry`): vectors and rectangles.

All quantities are Dafny `real`s. The frog's on-screen extent is the constant
240 × 240: a 48-pixel frame scaled by 5. The mirrored (left) facing also
shifts the origin by one frame, so the bounds span `[x, x + 240]` in both facings.

Behaviour of the code worth noting:

- The tween's constructor leaves the start time at 0, not "now".
- `getRatio` has no case for `EaseInBack` (nor the cubic kinds, nor `EaseInOutElastic`).
  These kinds fall back to the identity.
- The jump test looks for the floor at y = 1000, while the physics step clamps to y = 2000.
  Both constants are kept, as `Physics.GROUND_JUMP_Y` and
  `Physics.GROUND_COLLISION_Y`. `Physics.FloorRestBlocksJump` shows the consequence:
  a frog resting on the collision floor cannot jump.

## Model

| member | source | states |
|---|---|---|
| `Easing.SimplePow` | src/functions.cpp:5-12 | the loop's result is x raised to p, hence 1 for p = 0 |
| `Easing.RatioDispatch` | src/functions.cpp:62-78 | `None` yields 1 for every t; `Linear` and every kind without a case (both cubics, `EaseInOutElastic`, `EaseInBack`) yield t |
| `Easing.RatioEndpoints` | src/functions.cpp:62-78 | every kind but `None` and the exponential one yields 0 at t = 0; every kind but the exponential one yields 1 at t = 1 |
| `Easing.EaseOutBackEndpoints` | src/functions.cpp:27-32 | back-out is 0 at 0 and 1 at 1 |
| `Easing.EaseOutBackOvershoots` | src/functions.cpp:27-32 | back-out exceeds 1 at t = 1/2 (the curve overshoots before settling) |
| `Easing.EaseInBackEndpoints` | src/functions.cpp:42-47 | back-in is 0 at 0 and 1 at 1 (c3 − c1 = 1) |
| `Easing.EaseOutBackMirrorsInBack` | src/functions.cpp:27-47 | back-out at t equals 1 minus back-in at 1 − t, for every t |
| `Easing.EaseInOutQuintPoints` | src/functions.cpp:34-40 | the quintic is 0 at 0, 1/2 at 1/2 and 1 at 1 |
| `Easing.EaseInOutQuintSymmetric` | src/functions.cpp:34-40 | the quintic is point-symmetric: value at 1 − t is 1 minus value at t |
| `Easing.EaseInOutQuintBounds` | src/functions.cpp:34-40 | on [0, 1] the quintic stays in [0, 1] and is below 1/2 exactly on the first half |
| `Easing.EaseOutElasticEndpoints` | src/functions.cpp:49-60 | elastic-out is exactly 0 at 0 and 1 at 1, whatever pow and sin return |
| `Tween.Interpolated.constructor` | inc/interpolated.hpp:12-28 | start and target are the initial value, start time 0, speed 1, transition `Linear` |
| `Tween.Interpolated.SetValue` | inc/interpolated.hpp:49-55 | start becomes the value read at `now`, the target the new value, the start time `now`; speed and kind are kept; for kinds pinned at 0 and 1 the value read at `now` does not jump |
| `Tween.Interpolated.SetDuration` | inc/interpolated.hpp:74-78 | speed becomes 1/d for any non-zero d; nothing else changes |
| `Tween.Interpolated.Get` | inc/interpolated.hpp:80-85 | the cast operator yields the current value |
| `Tween.Interpolated.Set` | inc/interpolated.hpp:87-91 | assigning a plain value retargets the tween |
| `Tween.SettlesAtEnd` | inc/interpolated.hpp:57-68 | once the duration has elapsed the value is the target exactly, for every kind |
| `Tween.StartsAtStart` | inc/interpolated.hpp:69-71 | at the start time the value is the start value, for every kind pinned at 0 |
| `Tween.ConstantWhenAtRest` | inc/interpolated.hpp:69-71 | with start equal to target the value is that target at every time, for every kind |
| `Tween.LinearStaysBetween` | inc/interpolated.hpp:69-71 | a linear tween stays between start and target, componentwise |
| `Animations.Animation.constructor` | inc/Game.hpp:53-56 | no frames, index 0, elapsed 0 |
| `Animations.Animation.AddFrame` | inc/Game.hpp:20-23 | appends one frame; index and elapsed are kept |
| `Animations.Animation.Update` | inc/Game.hpp:25-35 | with no frames nothing changes; otherwise (the `Advanced` relation) it terminates with the index `steps` frames on, wrapping, and elapsed below the new frame's duration; old elapsed + dt equals new elapsed plus the durations skipped; each skip was due |
| `Animations.SkipsDueEach` | inc/Game.hpp:29-34 | every skip the update made was covered by the time left before it |
| `Animations.Animation.Reset` | inc/Game.hpp:39-43 | index and elapsed go back to 0, frames are kept |
| `Animations.Animation.SetDuration` | inc/Game.hpp:44-51 | every frame's duration becomes total / frame count; rectangles and order are kept |
| `Frog.Character.constructor` | inc/Game.hpp:68-74 | the frog at the given position, facing right, not hopping, no animation on screen yet, both animations empty at frame 0 |
| `Frog.Character.SetupAnimations` | inc/Game.hpp:76-84 | seven 48-pixel frames of 0.1 s are appended to idle (row 0) and hop (row 1); idle goes on screen |
| `Frog.Character.Update` | inc/Game.hpp:86-100 | a hop whose timer reaches its duration ends with idle on screen; an unfinished hop only advances its timer; no hop leaves the machine alone; the animation on screen then advances by dt (the `Advanced` relation) from its old index and elapsed, or from frame 0 with nothing elapsed when idle was just restarted; the other animation is untouched; the new frame is shown |
| `Frog.Character.SetPosition` | inc/Game.hpp:102-105 | moves the sprite, nothing else |
| `Frog.Character.Face` | inc/Game.hpp:117-134 | afterwards the frog faces `dir`, and the sprite is mirrored (negative x-scale, origin (48, 0)) exactly when facing left; no change if it already faced `dir` |
| `Frog.Character.PlayIdle` | inc/Game.hpp:136-143 | idle goes on screen, restarted only when it was not already there |
| `Frog.Character.PlayHop` | inc/Game.hpp:145-157 | hopping with timer 0 and the given duration, hop on screen and spread over the duration, restarted only when it was not already there |
| `Input.EventHandler.constructor` | inc/Game.hpp:178-179 | the handler drives the given frog |
| `Input.EventHandler.HandleEvents` | inc/Game.hpp:181-222 | Left (else Right) retargets the tween 100 to the side for 1.3 s with transition `EaseInOutElastic` (which `getRatio` treats as linear) and turns and hops the frog; every hop spreads 1.3 s over the hop frames (rectangles kept), restarts the hop animation only when it was not on screen, and keeps the texture rectangle; Up sets velocity −600 and hops only when the frog can jump, otherwise velocity is kept; Escape and close events close the window; other events change nothing |
| `Physics.HighestCandidate` | src/Game.cpp:64-75 | no landing exactly when no platform is a candidate (overlapping strictly, falling, top crossed); otherwise the landing top is a candidate's top and no candidate is higher |
| `Physics.FindLanding` | src/Game.cpp:64-75 | the scan over the platforms yields the highest candidate |
| `Physics.SentinelScanAgrees` | src/Game.cpp:65-75 | the −1-sentinel scan as written agrees with the highest candidate whenever every candidate top is non-negative |
| `Physics.SentinelScanMissesNegativeTop` | src/Game.cpp:65-76 | the scan as written yields 5 where platforms at −10 and 5 were both crossed |
| `Physics.CanJump` | src/Game.cpp:10-26 | true exactly when the velocity is 0 and the feet are within 2 of some platform top or of the floor line given |
| `Physics.StepVelocity` | src/Game.cpp:52-91 | after a step the velocity is 0 or the old velocity plus gravity × dt |
| `Physics.StepAboveFloor` | src/Game.cpp:85-91 | after a step the feet are at most the floor line; feet that went past it end exactly on it at rest; otherwise the step is the fall and landing alone |
| `Physics.StepLands` | src/Game.cpp:76-83 | on a landing above the floor the feet end exactly on the highest candidate top, at rest |
| `Physics.StepFalls` | src/Game.cpp:52-62 | with no candidate and the floor not reached, y moves by the new velocity × dt |
| `Physics.StepKeepsResting` | src/Game.cpp:52-91 | a frog at rest on a platform under it stays where it is for every dt ≥ 0 |
| `Physics.LandingAllowsJump` | src/Game.cpp:14-26 | after a landing the jump test passes next frame |
| `Physics.FloorRestBlocksJump` | src/Game.cpp:85-91 | a frog brought to rest on the collision floor (2000) fails the jump test, which looks at 1000 |
| `Physics.FreeFallScenario` | src/Game.cpp:52-62 | from rest for 0.1 s the velocity becomes 120 and the feet drop by 12 |
| `Physics.LandingScenario` | src/Game.cpp:64-83 | feet at 495 falling at 50 for 0.2 s are snapped onto a top at 500 |
| `World.Game.constructor` | inc/Game.hpp:253-270 | frog and tween at (200, 800); the frog faces right, is not hopping (timer and duration 0) and shows idle; idle and hop hold sheet rows 0 and 1, both at frame 0 with nothing elapsed; the tween starts at time 0 with speed 1 and `Linear`; one platform at top 1060 and 1920 wide; at rest; window open |
| `World.Game.Update` | src/Game.cpp:52-94 | the frog's y and velocity follow the physics step (gravity, landing, floor clamp); its x is unchanged |
| `World.Game.SyncHorizontal` | src/Game.cpp:30-34 | the frog's x becomes the tween's x at `now`, its y is kept; facing, hop state, animation on screen and texture rectangle are kept |
| `World.Game.Frame` | src/Game.cpp:7-37 | the window stays open exactly when no event closes it; the frog's x is then the tween's |

## Left out

- Rendering, the window, texture loading and its failure, `Game::render` and the `draw` methods are not modelled. `Platform`'s rectangle shape is reduced to its left edge, top and width.
- The run loop's `while (window.isOpen())` never ends by itself. `World.Game.Frame` models one iteration of it.
- Event polling and `sf::Keyboard::isKeyPressed` are inputs: a sequence of events, each with the set of keys held at that moment. Event types other than key presses and closing are `Other`.
- The steady clock is not modelled. The clock value `now` is a parameter. Within one frame every tween read and write uses the same `now`, whereas the source samples the clock at each read.
- `std::pow(2, ·)` and `std::sin` are not defined. They are the parameter `Maths`, so only the exact special cases of the exponential and elastic easings are proved.
- Float rounding is not modelled: all quantities are reals. Constants such as 1.70158 are exact decimals, so c3 − c1 = 1 exactly.
- `sf::Sprite::getGlobalBounds` and scale maths are not modelled. The frog's bounds are the constant 240 × 240 at its position.
- `easeInOutCubic`, `easeOutCubic` and `easeInOutElastic` are declared but never defined, so they are not modelled. `linear` and `easeInOutQuint` are modelled but no kind dispatches to them.
- `Interpolated<T>` is modelled only for the 2D vector the game instantiates it with.
- The sprite's texture rectangle before the first `Character::update` is not modelled.
- `Tween.Interpolated.SetDuration`: requires a non-zero duration. Zero would give an infinite float speed.
- `Animations.Animation.Update`: requires positive frame durations. Zero or negative durations can make the source loop forever.
- `Frog.Character.PlayHop`: requires a positive duration, which keeps the frame durations positive. The game only passes 1.3.
- `Frog.Character.Update`: requires the animations to be set up. The source dereferences a null animation otherwise.
- `World.Game.Update`: states the physics and that x is kept. The hop-machine effect of the frog's own update is stated by `Frog.Character.Update` only.
- `World.Game.Update`: runs the corrected landing scan (`Physics.HighestCandidate`), not the −1-sentinel scan written at src/Game.cpp:65-76. It therefore differs from `Game::update` whenever a crossed platform top is negative: with one crossed platform at −10 the source lets the frog fall through, while the model lands it. `Physics.SentinelScanAgrees` shows the two agree when every crossed top is non-negative, as for the game's one platform at 1060.
- `World.Game.Frame`: states only the window flag and the frog's x. The effects of each event and of the step are stated by `Input.EventHandler.HandleEvents` and `World.Game.Update`.

## Findings

| source | as written | input that shows it | evidently intended | confidence | as-written member | corrected member |
|---|---|---|---|---|---|---|
| src/Game.cpp:65-76 | the landing scan uses −1 for "none found yet" and lands only on a non-negative result. A negative candidate top is then replaced by any later candidate, or lost | frog with left edge 0 falls from feet −20 to 10 across platforms with tops −10 and 5 (width 500): the scan yields 5 and the frog is snapped onto the lower platform | land on the highest crossed platform (top −10), as the comment "Find the highest platform the frog lands on" says | not executed; only platforms above the top of the screen are affected | `Physics.SentinelScan` (shown by `Physics.SentinelScanMissesNegativeTop`) | `Physics.HighestCandidate` (scanned by `Physics.FindLanding`, used by `World.Game.Update`) |
