# Bunny Jump: the Game scene as a verified model

This project models the gameplay core of Bunny Jump, an endless vertical
platformer built on Phaser: the `Game` scene of `src/scenes/Game.js`. A
bunny bounces up a column of five platforms. Each frame, every platform
that has fallen 700 or more below the camera's top edge is moved back up
above the camera, and a carrot is spawned on it. The player's velocity
follows ground contact and the cursor keys, and the player wraps around
the left and right screen edges. The scene asks for the game-over scene
once the player falls more than 200 below the lowest platform. Collecting
a carrot retires it to the pool and raises the counter shown on screen.

Layout:

- `rules.dfy`, module `Rules`: the values the scene works on (`Platform`,
  `Carrot`), the game's constants, and the functions that specify each step
  of a frame. These are the recycle placement, the due platforms of a pass,
  the carrot pool's slot choice, spawning, the velocity rule, the wrap and
  the largest y. The lemmas about them live here too.
- `decimal.dfy`, module `Decimal`: the decimal rendering of the counter,
  with its inverse and the round-trip lemma.
- `game.dfy`, module `GameScene`: the class `Game`. It holds the scene's
  state (platforms, carrot pool, counter and label, player position and
  velocity) and has one method per operation of the scene. Two blocks of
  `update` have their own methods: the per-platform callback of the
  recycling pass (`RecycleChild`) and the velocity rules (`SteerPlayer`).
  Each method is specified by the functions of `Rules`. Two client methods at the end,
  `CollectSeedCarrot` and `FirstFrame`, show what a caller can prove from
  these contracts alone.

Inputs from the host engine are parameters:

- the camera's `scrollY`;
- the random draws of `Phaser.Math.Between`, as values with their bounds
  stated in `requires`: `xs` for the initial x positions, and `gaps[i]` for
  the draw used if platform `i` is recycled;
- the player body's `touching.down` flag and the left and right cursor keys;
- the canvas width and the sprites' displayed sizes, as constructor
  arguments.

The request to start the game-over scene is the `gameOver` result of
`Update`.

Details of the code's behaviour that the model keeps:

- A recycled platform keeps its x. Only `y` is reassigned (Game.js:129);
  x is not drawn again.
- Of several equally low platforms, `findBottomMostPlatform` picks the LAST
  in scan order. It skips a platform only when its y is strictly smaller
  (Game.js:240); it does not keep the first one found.
- The velocity rule forces the horizontal velocity to 0 while touching down,
  whatever the keys say (Game.js:145-156).
- The recycle check does not look at an `active` flag (Game.js:127). The
  bottom-most scan does not look at one either (Game.js:232). Platforms are
  never deactivated, so `Platform` has no such flag.
- A spawn takes the carrot group's first inactive member, or a new one
  (`Group.get`, Game.js:193). A carrot that is still live is never moved by
  a later spawn. Uncollected carrots stay where they are, and the pool grows.

## Model

| member | source | states |
|---|---|---|
| `Rules.InitialPlatforms` | src/scenes/Game.js:62-75 | exactly five platforms; platform i has y = 150·i (0, 150, 300, 450, 600) and its x is the draw xs[i], which lies in [80, 400] |
| `Rules.InitialBottom` | src/scenes/Game.js:62-75 | at level start the largest platform y is 600, so the fall-off line is at 800 |
| `Rules.IsDue` | src/scenes/Game.js:127 | the recycle test: a platform is due when its y is at least 700 below the camera's top edge; which platforms a pass finds due is stated by `Rules.DueIndices`, and that a recycled platform is no longer due by `Rules.RecyclePlacement` |
| `Rules.Recycle` | src/scenes/Game.js:127-129 | one platform through the recycle check, given the draw; its properties (new y in range, x kept, others unchanged) are those stated by `Rules.RecyclePlacement` |
| `Rules.RecyclePlacement` | src/scenes/Game.js:126-129 | a platform with y ≥ scrollY + 700 moves to a y in [scrollY − 100, scrollY − 50], strictly above where it was, with x unchanged; any other platform is unchanged; afterwards no platform is due again |
| `Rules.DueIndices` | src/scenes/Game.js:122-127 | the platforms a pass recycles, in scan order: every listed index is due, indices strictly increase (each once), and every due index is listed |
| `Rules.FirstInactive` | src/scenes/Game.js:193 | the slot the carrot group hands out is the first inactive carrot, or the end of the pool when all are active |
| `Rules.CarrotAbove` | src/scenes/Game.js:190-204 | the carrot `addCarrotAbove` produces: at the platform's x, one displayed height above it, active, visible and enabled; `Rules.SpawnPlaces` states that a spawn puts exactly this carrot in its slot |
| `Rules.Spawn` | src/scenes/Game.js:188-206 | `addCarrotAbove` on the pool: the carrot above the platform goes into the group's `get` slot; its properties are those stated by `Rules.SpawnPlaces` |
| `Rules.SpawnPlaces` | src/scenes/Game.js:188-206 | spawning above a platform yields a live (active, visible, enabled) carrot at (platform.x, platform.y − displayHeight), in a slot that was inactive or is the end of the pool; the pool grows, by exactly one, only when every carrot was active; every other carrot is unchanged |
| `Rules.SpawnAll` | src/scenes/Game.js:122-134 | the spawns of one recycling pass, one above each recycled platform in scan order, with the slots taken; its properties are those stated by `Rules.SpawnAllPlaces` and `Rules.SpawnAllCoherent` |
| `Rules.SpawnAllPlaces` | src/scenes/Game.js:127-134 | one spawn per recycled platform in order: each has its own distinct slot holding a live carrot above its platform; only inactive or new slots are taken; the pool grows by at most the number of spawns, and every carrot past the old end was put there by a spawn; untouched carrots keep their state |
| `Rules.SpawnAllCoherent` | src/scenes/Game.js:196-204 | spawning keeps every carrot either live (active, visible, enabled) or pooled (none of these) |
| `Rules.HorizontalVelocity` | src/scenes/Game.js:144-157 | vx is always −200, 0 or 200; it is 0 while touching down; vx = −200 iff left is held and not touching down; vx = 200 iff right is held, left is not, and not touching down |
| `Rules.Wrapped` | src/scenes/Game.js:171-183 | with non-negative widths the result lies in [−halfWidth, gameWidth + halfWidth]; an x already inside is unchanged; past the left edge it reappears at gameWidth + halfWidth, past the right edge at −halfWidth |
| `Rules.WrapIdempotent` | src/scenes/Game.js:171-183 | wrapping twice equals wrapping once |
| `Rules.MaxY` | src/scenes/Game.js:230-249 | the largest platform y: no platform lies lower and some platform attains it |
| `Rules.BottomIsMax` | src/scenes/Game.js:230-249 | any platform at least as low as all others is at the largest y |
| `Decimal.NatToString` | src/scenes/Game.js:226 | the decimal text of the counter: at least one digit, only digits, no leading zero |
| `Decimal.DecimalRoundTrip` | src/scenes/Game.js:226 | reading the rendered digits back gives the counter |
| `Decimal.DecimalInjective` | src/scenes/Game.js:226 | different counters render to different texts |
| `GameScene.CounterText` | src/scenes/Game.js:226-227 | the label is "Carrots: " followed by digits that read back as the counter |
| `GameScene.Game.constructor` | src/scenes/Game.js:25-30 | a new scene has its counter at 0 and no platforms or carrots |
| `GameScene.Game.Init` | src/scenes/Game.js:32-35 | the counter is reset to 0 and nothing else changes |
| `GameScene.Game.Create` | src/scenes/Game.js:59-116 | the platforms are the initial layout; the player is at (240, 320) at rest; the pool holds one live seed carrot at (240, 800); the label reads "Carrots: 0"; the counter is untouched |
| `GameScene.Game.GetCarrot` | src/scenes/Game.js:97 | the group's get reuses the first inactive carrot and only moves it, or appends a new live carrot; live-or-pooled is kept |
| `GameScene.Game.AddCarrotAbove` | src/scenes/Game.js:188-207 | the pool afterwards and the returned slot are exactly those of spawning above that platform (`Rules.Spawn`, whose properties `Rules.SpawnPlaces` states) |
| `GameScene.Game.RecycleChild` | src/scenes/Game.js:122-135 | one platform through the recycle check: it becomes its `Recycle` image, and exactly one carrot is spawned above its new place if it was due, none otherwise |
| `GameScene.Game.RecyclePlatforms` | src/scenes/Game.js:122-135 | after the pass each platform is its `Recycle` image; the pool and the returned slots are those of spawning above the due platforms at their new places, in scan order |
| `GameScene.Game.SteerPlayer` | src/scenes/Game.js:137-157 | vy becomes −300 when touching down and is otherwise left as it was; vx becomes `HorizontalVelocity` of the contact flag and the keys; nothing else changes |
| `GameScene.Game.HorizontalWrap` | src/scenes/Game.js:171-183 | the player's x becomes its `Wrapped` value for half of the displayed width; y and the velocities do not change |
| `GameScene.Game.FindBottomMostPlatform` | src/scenes/Game.js:230-249 | for a non-empty platform list, returns an index whose y is at least every platform's y; every later platform is strictly higher, so of tied ones it is the last; its y is `MaxY` of the platforms |
| `GameScene.Game.Update` | src/scenes/Game.js:120-166 | one frame: platforms and pool as `RecyclePlatforms` leaves them (each platform its `Recycle` image), with exactly one spawned carrot per recycled platform, live and above its new place; vy = −300 when touching down, else unchanged; vx is `HorizontalVelocity`; x is wrapped; game over is requested iff player.y > (largest platform y) + 200; the counter and label do not change |
| `GameScene.Game.HandleCollectCarrot` | src/scenes/Game.js:213-228 | collecting a live carrot makes it inactive, hidden and disabled; no other carrot and no platform changes; the counter rises by exactly one; the label shows the new count |

## Left out

- Rendering, asset loading in `preload`, the background image, text
  styling, scaling, camera follow and deadzone (Game.js:37-56, 70,
  78-90, 112-116). These are Phaser presentation.
- The arcade physics engine. Gravity, velocity integration and collision
  resolution move the player and the carrots between frames. The colliders,
  the `checkCollision` flags, `body.updateFromGameObject`,
  `body.setSize` and `add.existing` (Game.js:74, 82-85, 100-109, 130,
  199-201) are not modelled. Ground contact comes in as the `touchingDown`
  parameter.
- `Phaser.Math.Between`: modelled as parameter values within its bounds,
  not as a random generator.
- `Group.get`: its pooling is an assumed abstraction, "the first inactive
  member, or a new live one at the end". The group's size limit and
  creation callbacks are not modelled. `src/game/Carrot.js` is not part of
  this model.
- GameScene.Game.HandleCollectCarrot: requires the carrot to be live. The
  source does not check; it relies on the physics engine reporting overlaps
  only for enabled bodies, which this method disables.
- GameScene.Game.Update: returns the game-over request; what the host does
  next (`scene.start('game-over')`, and the scene no longer updating) is not
  modelled.
- When overlap callbacks run relative to `update` within one frame is up to
  the host and is not modelled.
- GameScene.CounterText: renders every counter as plain decimal digits. It
  does not model JavaScript's exponent notation for numbers of 10^21 and
  more.
- JavaScript numbers are modelled as exact `real`s; floating-point rounding
  is not modelled.
- `console.log` (Game.js:223), the keyboard cursor creation (Game.js:46),
  `src/scenes/GameOver.js` (presentation and restart input) and
  `src/main.js` (engine configuration and the window-width read) are not
  part of this model.
