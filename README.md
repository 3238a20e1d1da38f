# Space rocket game: a verified model of the simulation

This project models the game-state simulation of a small browser arcade game
(`script.js`). A rocket moves left and right along the bottom of a playfield
while square asteroids fall. An asteroid that falls past the bottom edge adds
its score value to the score. An asteroid that hits the rocket costs a life.
Losing the last life resets the session. Every 1000 points raise the level,
which speeds up the rocket and the asteroids and makes asteroids appear more
often.

The model has five modules, one per part of the simulation:

- `Geometry` (geometry.dfy): the bounding-box collision test, with a missing
  argument modelled as `None`.
- `Obstacles` (obstacles.dfy): the obstacle record, the score value of a
  size, and obstacle creation. Creation takes the three `Math.random()`
  results as a `Draws` value, each in [0, 1). It then computes size,
  position and picture index from them the way the source does.
- `Movement` (movement.dfy): the movement pass of one tick. It is specified
  as a fold (`Run`) of a one-obstacle step (`Visit`). Lemmas tie the fold to
  three independent reference definitions: a filter (`Survivors`), a sum
  (`PassedValue`) and a count (`HitCount`).
- `Game` (game.dfy): the session as a value (`State`) and one function for
  each state change: `LevelUp`, `Spawn`, `Reset`, `Update` (one tick),
  `Tick` (one frame of the frame loop) and `Control` (the key handler). It
  also holds the state invariant `Inv` and the lemmas about these functions.
- `Engine` (engine.dfy): the class `Session`. Its fields are the source's
  globals, and its methods update them in place as the source does. The
  obstacle list is a `seq` field. The movement loop removes elements with
  splice-and-step-back, exactly like `splice(i, 1); i--`. Each method is
  proved against its counterpart function (a `Game` operation or
  `Obstacles.NewObstacle`) or, for the two list helpers `Descend` and
  `Splice`, against its own contract.

Numbers: score, lives, level and the frame counter are integers, as in the
source. Positions, sizes, speeds and the spawn base interval are `real`.
So `*= 1.1` and `*= 0.9` are exact here, with no floating-point drift.
`Math.round(v)` is `floor(v + 0.5)` (halves round up), and `Math.floor` is
`.Floor`.

Where the code and a plain reading of the game's design differ, the model
follows the code:

- The frame counter advances on paused frames too
  (script.js:90-95; `Game.TickPaused`).
- The collision formula is symmetric in its two arguments
  (`Geometry.CollisionSymmetric`).
- The score value does not strictly decrease with size. For example,
  sizes 20 and 20.01 are both worth 400 (`Obstacles.ScoreValueNotStrict`).
- The level is not always `floor(score / 1000) + 1`. The level-up check runs
  before the tick's scoring and raises the level by at most one, so the
  level can lag behind the score (`Game.LevelLagsScore`). What does hold is
  `(level - 1) * 1000 <= score` (`Game.Inv`).
- The arrow-key guards only test the position before the move. The rocket
  can therefore end up outside the playfield (`Game.ControlMayLeaveField`).

## Model

| member | source | states |
|---|---|---|
| Geometry.CheckCollision | script.js:171-181 | the test is false whenever either argument is missing |
| Geometry.CollisionSymmetric | script.js:176-181 | swapping the two boxes gives the same verdict |
| Geometry.CollisionIffCommonPoint | script.js:176-181 | for boxes of positive size, the test holds exactly when some point lies strictly inside both boxes |
| Obstacles.Round | script.js:286 | the integer result is within half a unit of the argument, with halves rounded up |
| Obstacles.ScoreValueRange | script.js:284-287 | every size that creation can draw, in [20, 60), is worth between 0 and 400 points |
| Obstacles.ScoreValueAntitone | script.js:284-287 | a larger obstacle is never worth more than a smaller one |
| Obstacles.ScoreValueNotStrict | script.js:284-287 | two different sizes (20 and 20.01) are both worth 400, so the decrease is not strict |
| Obstacles.NewObstacle | script.js:267-282 | the new obstacle is square, with side in [20, 60), placed just above the top edge (y = −size), at an x within [0, width − size] whenever the side fits the playfield; its picture index is in [0, 4) and its value is the score value of its size, in [0, 400] |
| Movement.Fallen | script.js:140-141 | each obstacle's y grows by exactly the fall speed; nothing else about it changes, and the order is kept |
| Movement.RunWithoutGameOver | script.js:140-167 | a pass with fewer strikes than lives keeps exactly the survivors, in their original order; the score grows by the value of the passed obstacles; one life is lost per strike; one pass or crash sound is emitted per removed obstacle |
| Movement.RunReachesGameOver | script.js:152-161 | a pass with at least as many strikes as lives (and at least one life) ends the game with 0 lives; its last cue is the game-over dialog with the score reached |
| Movement.RunMonotone | script.js:140-167 | with non-negative obstacle values, a pass never lowers the score, never adds a life, and keeps only obstacles of non-negative value |
| Movement.SurvivorsMembership | script.js:144-166 | an obstacle is kept exactly when it is one of the fallen obstacles and neither passes the bottom edge nor strikes the rocket |
| Movement.VisitPassing | script.js:144-149 | a passing obstacle adds its value to the score, emits the pass sound and is dropped; lives, the game-over flag and the kept list are untouched, even when it also overlaps the rocket, because it is never tested for collision |
| Movement.VisitStriking | script.js:152-165 | a striking obstacle is dropped and leaves the score alone; when it takes the last life it ends the game with 0 lives and the game-over dialog showing the score, otherwise it costs exactly one life with the crash sound |
| Movement.VisitKeeping | script.js:140-167 | an obstacle that neither passes nor strikes is kept, moved down |
| Movement.PassScenario | script.js:143-150 | an obstacle at y = 601 on a playfield of height 600, worth 150, taken from a score of 500: score 650, obstacle removed, lives unchanged |
| Movement.StrikeScenario | script.js:152-166 | rocket at (100, 100, 50, 50), obstacle falling to (110, 110, 30, 30), three lives: two lives left, obstacle removed, score unchanged |
| Game.SpawnInterval | script.js:131-134 | the spawn interval is at least 20 frames (so the modulo is well defined); it is the base interval divided by 1 + 0.2 × level and rounded down, unless that is below 20 |
| Game.Spawn | script.js:135-137 | exactly one obstacle, the one built from the draws, is appended exactly when the frame count is a multiple of the spawn interval; the obstacles already there and every other field are unchanged |
| Game.InitialInv | script.js:3-18 | the start-up state satisfies the session invariant |
| Game.ResetInv | script.js:252-260 | the reset state satisfies the session invariant |
| Game.LevelUpKeepsInv | script.js:122-128 | the level-up check keeps the invariant: each level is earned by 1000 points, and both speeds and the spawn base interval are the base values scaled once per level gained |
| Game.EndsGameIffStrikes | script.js:152-161 | a tick ends the game exactly when at least as many obstacles strike the rocket as there are lives |
| Game.UpdateKeepsInv | script.js:119-168 | one tick keeps the invariant: at least level 1, 1 to 3 lives, `(level - 1) * 1000 <= score`, speeds and interval matching the level, no obstacle of negative value |
| Game.UpdateLevelRule | script.js:122-128 | the level rises by at most one per tick, and only when the score had reached level × 1000; then both speeds grow by a factor of 1.1 and the base interval shrinks by a factor of 0.9; unless the tick ends the game, the level rises exactly when that threshold had been reached |
| Game.UpdateAccounting | script.js:140-167 | a tick that does not end the game leaves the survivors in order; it raises the score by the passed obstacles' value (never lowering it), removes one life per strike (leaving at least one), and emits one sound per removed obstacle |
| Game.UpdateGameOver | script.js:157-161 | a tick that ends the game shows, last, the game-over dialog with the score the pass reached, and leaves score 0, 3 lives, level 1, no obstacles, base speeds and interval, and the game running; the frame counter, the pause flag and the rocket's position are untouched |
| Game.LevelLagsScore | script.js:122-150 | a state satisfying the invariant, at frame 310 with one obstacle on the bottom edge (y = 600 of 600, as the previous tick can leave it), whose tick takes the score from 999 to 1399 while the level stays 1 |
| Game.TickStopped | script.js:88 | a frame of a stopped game changes nothing and emits nothing |
| Game.TickPaused | script.js:90-95 | a paused frame changes only the frame counter, which advances by one |
| Game.TickRunning | script.js:90-95 | a running, unpaused frame is one tick followed by one frame count; the tick reads the frame count from before the increment |
| Game.TickKeepsInv | script.js:87-97 | every frame keeps the session invariant |
| Game.ControlSpace | script.js:101-109 | Space (by key value or key code) only toggles the pause flag, and pauses or resumes the music to match |
| Game.ControlLeft | script.js:111-112 | the left arrow subtracts exactly the rocket's speed from x when x > 0, and otherwise changes nothing; nothing else ever changes |
| Game.ControlRight | script.js:113-114 | the right arrow adds exactly the rocket's speed to x when x < width − rocket width, and otherwise changes nothing; nothing else ever changes |
| Game.ControlMayLeaveField | script.js:111-112 | a rocket at x = 1 with speed 5 moves to x = −4, off the playfield |
| Game.ControlKeepsInv | script.js:100-116 | key presses keep the session invariant |
| Engine.Session.constructor | script.js:3-18 | the fields start at the source's initial values, with the rocket centred and 10 units above the bottom edge; the state satisfies the invariant |
| Engine.Session.GameLoop | script.js:87-97 | the method performs exactly `Game.Tick` on the fields and returns its cues; it keeps the invariant |
| Engine.Session.ControlRocket | script.js:100-116 | the method performs exactly `Game.Control` on the fields and returns its cues |
| Engine.Session.CheckLevelUp | script.js:122-128 | the method performs exactly `Game.LevelUp` on the fields |
| Engine.Session.CreateObstacle | script.js:267-282 | exactly one obstacle, `Obstacles.NewObstacle` of the draws, is appended after the existing ones; nothing else changes |
| Engine.Session.ResetGame | script.js:252-260 | the method performs exactly `Game.Reset` on the fields |
| Engine.Session.UpdateGame | script.js:119-168 | the method performs exactly `Game.Update` on the fields and returns its cues |
| Engine.Session.Descend | script.js:141 | the obstacle at index i moves down by the fall speed in place; the others are unchanged |
| Engine.Session.Splice | script.js:146-154 | the obstacle at index i is removed and the ones after it shift down by one |
| Engine.Session.MoveObstacles | script.js:140-167 | the in-place pass with splice and step-back gives exactly the cues, score and lives of `Movement.Run` over the obstacles present at the start, each visited once and in order; it reports game over exactly when `Run` ends the game, and otherwise leaves exactly the kept obstacles |

## Left out

- `renderGame` (script.js:184-239): drawing on the canvas only; it reads the state and changes none of it.
- Audio (script.js:49-84, script.js:241-250): the sound, music and dialog calls are modelled as `Cue` values that the tick, the frame loop and the key handler return (`PassEffect`, `Crash`, `GameOverAlert`, `PauseMusic`, `PlayMusic`). Volume settings and `resetBackgroundMusic`, which nothing calls, are not modelled.
- Image loading and the asteroid pictures (script.js:20-32): an obstacle's picture is kept only as its index, in [0, 4).
- `initGame`'s host calls, `addEventListener`, `requestAnimationFrame`, `window.onload` and the blocking `alert` (script.js:37-47, script.js:96, script.js:159, script.js:290): scheduling and DOM input/output. The frame loop is modelled one frame per call. The key handler is modelled one event per call. The playfield size is a constructor parameter.
- `Math.random`: its three results for one obstacle are a parameter of the tick. They are read only when an obstacle is spawned.
- Floating point: IEEE rounding of `*= 1.1`, `*= 0.9`, of the spawn-interval division and of positions is not modelled. Arithmetic is exact over `real`.
- The constants `SCORE_THRESHOLD`, `OBSTACLE_SPEED` and `OBSTACLE_FREQUENCY` (script.js:10, script.js:16-17) are declared but never read by the source. The reset writes the literals 2 and 100, and so does the model.
- Engine.Session.MoveObstacles: does not state the obstacle list after the fatal strike, because the reset that follows at once clears it.
- Engine.Session.UpdateGame: the source resets the session from inside the movement loop. In the model the loop method reports the fatal strike, and `UpdateGame` then stops the game, resets it and returns at once. The state changes and their order are the same.
